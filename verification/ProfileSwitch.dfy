/** Switching the host's browser to another profile while requests hold the
    old one, and revoking the takeover credentials minted against it. */
module ProfileSwitch {

  import opened Wrappers
  import opened Sequences

  type Secret = string
  type BrowserId = string

  datatype Kind = Ephemeral | Persistent

  datatype Entry = Entry(kind: Kind, name: string, browser: BrowserId)

  datatype Refusal = InvalidName | NotSwitchable | ProfileLocked | LaunchFailed

  /** Kind as well as name: an ephemeral entry may be called like a profile. */
  predicate IsCurrent(active: Option<Entry>, name: string) {
    active.Some? && active.value.name == name && active.value.kind == Persistent
  }

  /** The host is on the persistent profile of that name. */
  predicate IsPersistent(active: Option<Entry>, name: string) {
    active.Some? && active.value.kind.Persistent? && active.value.name == name
  }

  // ---- Running browsers, each kept by those who hold its entry ----

  /** `refs`: how many hold each running browser; one that nobody holds is torn
      down and leaves. `used`: every browser there has ever been. */
  datatype Browsers = Browsers(active: Option<Entry>, refs: map<BrowserId, nat>, used: set<BrowserId>)

  predicate Is(entry: Option<Entry>, b: BrowserId) {
    entry.Some? && entry.value.browser == b
  }

  function One(yes: bool): nat {
    if yes then 1 else 0
  }

  function RefCount(s: Browsers, b: BrowserId): nat {
    if b in s.refs then s.refs[b] else 0
  }

  function Retain(s: Browsers, entry: Option<Entry>): Browsers {
    if entry.None? then s
    else s.(refs := s.refs[entry.value.browser := RefCount(s, entry.value.browser) + 1])
  }

  /** Drop one reference; the last one tears the browser down. */
  function Release(s: Browsers, entry: Option<Entry>): Browsers {
    if entry.None? then s
    else if RefCount(s, entry.value.browser) > 1
    then s.(refs := s.refs[entry.value.browser := RefCount(s, entry.value.browser) - 1])
    else s.(refs := s.refs - {entry.value.browser})
  }

  function Swap(s: Browsers, entry: Entry): Browsers {
    Browsers(Some(entry), s.refs[entry.browser := 1], s.used + {entry.browser})
  }

  // ---- Any number of switches, requests and credentials ----

  /** `Swapped` is the stretch between the swap and the revocation. */
  datatype Stage =
    | Asked
    | Queued
    | Locked
    | Launching
    | Swapped(previous: Option<Entry>)
    | Settling(previous: Option<Entry>)
    | Ended(outcome: Result<(), Refusal>)
    | Cancelled

  datatype Switch = Switch(name: string, stage: Stage)

  /** A request holding the entry it picked; `counted` if it is a `/cdp` client. */
  datatype Request = Request(entry: Option<Entry>, counted: bool)

  /** `minted` is history: no secret is minted twice. */
  datatype Credentials = Credentials(live: set<Secret>, minted: set<Secret>)

  /** `landed` is history: the profiles switched to. */
  datatype World = World(
    browsers: Browsers,
    lock: Option<nat>,
    clients: nat,
    credentials: Credentials,
    switches: map<nat, Switch>,
    requests: map<nat, Request>,
    landed: seq<string>)

  function Booted(first: Entry): World {
    World(Browsers(Some(first), map[first.browser := 1], {first.browser}), None, 0, Credentials({}, {}),
          map[], map[], [])
  }

  datatype SwitchEvent =
    | Ask(name: string)
    | Check(validName: bool, switchable: bool)
    | Lock
    | Recheck
    | LaunchFails
    | LaunchAndSwap(browser: BrowserId)
    | Revoke
    | Finish
    | Cancel

  datatype Event =
    | Switching(t: nat, e: SwitchEvent)
    | Arrive(c: nat, counted: bool)
    | Pick(c: nat)
    | Drop(c: nat)
    | Depart(c: nat)
    | Mint(secret: Secret)
    | Lapse(secret: Secret)     // expired or revoked one by one

  predicate CanSwitch(w: World, t: nat, e: SwitchEvent) {
    if e.Ask? then t !in w.switches
    else
      t in w.switches &&
      var stage := w.switches[t].stage;
      match e
      case Check(_, _) => stage.Asked?
      case Lock => stage.Queued? && w.lock.None?
      case Recheck => stage.Locked?
      case LaunchFails => stage.Launching?
      case LaunchAndSwap(browser) => stage.Launching? && browser !in w.browsers.used
      case Revoke => stage.Swapped?
      case Finish => stage.Settling?
      case Cancel => stage.Asked? || stage.Queued? || stage.Launching? || stage.Settling?
  }

  predicate CanHappen(w: World, e: Event) {
    match e
    case Switching(t, se) => CanSwitch(w, t, se)
    case Arrive(c, _) => c !in w.requests
    case Pick(c) => c in w.requests && w.requests[c].entry.None?
    case Drop(c) => c in w.requests && w.requests[c].entry.Some?
    case Depart(c) => c in w.requests && w.requests[c].entry.None? && (w.requests[c].counted ==> w.clients > 0)
    case Mint(secret) => secret !in w.credentials.minted
    case Lapse(_) => true
  }

  /** Where a switch goes next. */
  function NextStage(w: World, switch: Switch, e: SwitchEvent): Stage {
    match e
    case Ask(_) => Asked
    case Check(validName, switchable) =>
      if IsCurrent(w.browsers.active, switch.name) then Ended(Ok(()))
      else if !validName then Ended(Err(InvalidName))
      else if !switchable then Ended(Err(NotSwitchable))
      else Queued
    case Lock => Locked
    case Recheck =>
      if IsCurrent(w.browsers.active, switch.name) then Ended(Ok(()))
      else if w.clients > 0 then Ended(Err(ProfileLocked))
      else Launching
    case LaunchFails => Ended(Err(LaunchFailed))
    case LaunchAndSwap(_) => Swapped(w.browsers.active)
    case Revoke => if switch.stage.Swapped? then Settling(switch.stage.previous) else switch.stage
    case Finish => Ended(Ok(()))
    case Cancel => Cancelled
  }

  predicate InSwitch(stage: Stage) {
    stage.Locked? || stage.Launching? || stage.Swapped? || stage.Settling?
  }

  function AfterSwitch(w: World, t: nat, e: SwitchEvent): World
    requires CanSwitch(w, t, e)
  {
    var switch := if e.Ask? then Switch(e.name, Asked) else w.switches[t];
    var stage := NextStage(w, switch, e);
    var holds := InSwitch(switch.stage);
    World(
      (match e
       case LaunchAndSwap(browser) => Swap(w.browsers, Entry(Persistent, switch.name, browser))
       case Finish => Release(w.browsers, switch.stage.previous)
       case Cancel => if switch.stage.Settling? then Release(w.browsers, switch.stage.previous) else w.browsers
       case _ => w.browsers),
      (if InSwitch(stage) then Some(t) else if holds then None else w.lock),
      w.clients,
      (match e
       case Revoke => w.credentials.(live := {})
       case _ => w.credentials),
      w.switches[t := switch.(stage := stage)],
      w.requests,
      (if e.LaunchAndSwap? then w.landed + [switch.name] else w.landed))
  }

  function Happen(w: World, e: Event): World
    requires CanHappen(w, e)
  {
    match e
    case Switching(t, se) => AfterSwitch(w, t, se)
    case Arrive(c, counted) =>
      w.(requests := w.requests[c := Request(None, counted)], clients := w.clients + One(counted))
    case Pick(c) =>
      w.(requests := w.requests[c := w.requests[c].(entry := w.browsers.active)],
         browsers := Retain(w.browsers, w.browsers.active))
    case Drop(c) =>
      w.(requests := w.requests[c := w.requests[c].(entry := None)],
         browsers := Release(w.browsers, w.requests[c].entry))
    case Depart(c) => w.(requests := w.requests - {c}, clients := w.clients - One(w.requests[c].counted))
    case Mint(secret) =>
      var c := w.credentials;
      w.(credentials := c.(live := c.live + {secret}, minted := c.minted + {secret}))
    case Lapse(secret) => w.(credentials := w.credentials.(live := w.credentials.live - {secret}))
  }

  function WorldAfter(first: Entry, events: seq<Event>): Option<World> {
    if events == [] then Some(Booted(first))
    else
      match WorldAfter(first, Init(events))
      case Some(w) => if CanHappen(w, Last(events)) then Some(Happen(w, Last(events))) else None
      case None => None
  }

  // ---- The invariant ----

  /** Exactly the lock's holder is between taking and giving back the lock. */
  ghost predicate LockInv(w: World) {
    && (forall t :: t in w.switches ==> (InSwitch(w.switches[t].stage) <==> w.lock == Some(t)))
    && (w.lock.Some? ==> w.lock.value in w.switches)
  }

  ghost predicate LandingInv(w: World) {
    && (w.landed != [] ==> IsCurrent(w.browsers.active, Last(w.landed)))
    && (forall t :: t in w.switches && w.switches[t].stage.Launching?
          ==> !IsCurrent(w.browsers.active, w.switches[t].name))
    && (forall t :: t in w.switches && (w.switches[t].stage.Swapped? || w.switches[t].stage.Settling?)
          ==> IsCurrent(w.browsers.active, w.switches[t].name))
    && (forall i :: 0 < i < |w.landed| ==> w.landed[i] != w.landed[i - 1])
  }

  ghost predicate CredentialInv(w: World) {
    w.credentials.live <= w.credentials.minted
  }

  predicate AwaitsDrop(stage: Stage, b: BrowserId) {
    (stage.Swapped? || stage.Settling?) && Is(stage.previous, b)
  }

  function Readers(requests: map<nat, Request>, b: BrowserId): set<nat> {
    set c | c in requests && Is(requests[c].entry, b)
  }

  function Droppers(switches: map<nat, Switch>, b: BrowserId): set<nat> {
    set t | t in switches && AwaitsDrop(switches[t].stage, b)
  }

  ghost predicate Balanced(w: World, b: BrowserId) {
    RefCount(w.browsers, b) == One(Is(w.browsers.active, b)) + |Readers(w.requests, b)| + |Droppers(w.switches, b)|
  }

  ghost predicate RefInv(w: World) {
    && (forall b: BrowserId :: Balanced(w, b))
    && (forall b :: b in w.browsers.refs ==> w.browsers.refs[b] > 0 && b in w.browsers.used)
    && w.browsers.active.Some?
  }

  ghost predicate Inv(w: World) {
    LockInv(w) && LandingInv(w) && CredentialInv(w) && RefInv(w)
  }

  lemma SwitchKeepsLock(w: World, t: nat, e: SwitchEvent)
    requires LockInv(w) && CanSwitch(w, t, e)
    ensures LockInv(AfterSwitch(w, t, e))
  {
  }

  lemma SwitchKeepsLanding(w: World, t: nat, e: SwitchEvent)
    requires LockInv(w) && LandingInv(w) && CanSwitch(w, t, e)
    ensures LandingInv(AfterSwitch(w, t, e))
  {
    var w' := AfterSwitch(w, t, e);
    if e.LaunchAndSwap? {
      assert w'.landed == w.landed + [w.switches[t].name];
      assert forall u :: u in w.switches && InSwitch(w.switches[u].stage) ==> u == t;
    } else {
      assert w'.browsers.active == w.browsers.active && w'.landed == w.landed;
    }
  }

  lemma SwitchKeepsCredentials(w: World, t: nat, e: SwitchEvent)
    requires CredentialInv(w) && CanSwitch(w, t, e)
    ensures CredentialInv(AfterSwitch(w, t, e))
  {
  }

  lemma CountAfterRelease(s: Browsers, entry: Option<Entry>, b: BrowserId)
    requires Is(entry, b) ==> RefCount(s, b) > 0
    ensures RefCount(Release(s, entry), b) == RefCount(s, b) - One(Is(entry, b))
    ensures Release(s, entry).active == s.active
  {
  }

  lemma DroppersAfter(w: World, t: nat, switch: Switch, b: BrowserId)
    ensures var droppers := Droppers(w.switches, b);
            Droppers(w.switches[t := switch], b) ==
            if AwaitsDrop(switch.stage, b) then droppers + {t} else droppers - {t}
    ensures t in w.switches ==> (t in Droppers(w.switches, b) <==> AwaitsDrop(w.switches[t].stage, b))
  {
  }

  lemma LeavingKeepsBalance(w: World, t: nat, e: SwitchEvent, b: BrowserId)
    requires Balanced(w, b) && CanSwitch(w, t, e) && (e.Finish? || e.Cancel?) && w.switches[t].stage.Settling?
    ensures Balanced(AfterSwitch(w, t, e), b)
  {
    var w' := AfterSwitch(w, t, e);
    DroppersAfter(w, t, w'.switches[t], b);
    CountAfterRelease(w.browsers, w.switches[t].stage.previous, b);
  }

  lemma LandingKeepsBalance(w: World, t: nat, e: SwitchEvent, b: BrowserId)
    requires Balanced(w, b) && CanSwitch(w, t, e) && e.LaunchAndSwap? && e.browser !in w.browsers.refs
    ensures Balanced(AfterSwitch(w, t, e), b)
  {
    DroppersAfter(w, t, AfterSwitch(w, t, e).switches[t], b);
  }

  /** Every other switch event leaves the browsers and what awaits dropping alone. */
  lemma QuietSwitch(w: World, t: nat, e: SwitchEvent, b: BrowserId)
    requires CanSwitch(w, t, e) && !e.LaunchAndSwap?
    requires !((e.Finish? || e.Cancel?) && w.switches[t].stage.Settling?)
    ensures AfterSwitch(w, t, e).browsers == w.browsers
    ensures AwaitsDrop(AfterSwitch(w, t, e).switches[t].stage, b)
            <==> t in w.switches && AwaitsDrop(w.switches[t].stage, b)
  {
  }

  lemma QuietKeepsBalance(w: World, t: nat, e: SwitchEvent, b: BrowserId)
    requires Balanced(w, b) && CanSwitch(w, t, e) && !e.LaunchAndSwap?
    requires !((e.Finish? || e.Cancel?) && w.switches[t].stage.Settling?)
    ensures Balanced(AfterSwitch(w, t, e), b)
  {
    QuietSwitch(w, t, e, b);
    DroppersAfter(w, t, AfterSwitch(w, t, e).switches[t], b);
  }

  lemma SwitchKeepsBalance(w: World, t: nat, e: SwitchEvent, b: BrowserId)
    requires Balanced(w, b) && w.browsers.refs.Keys <= w.browsers.used && CanSwitch(w, t, e)
    ensures Balanced(AfterSwitch(w, t, e), b)
  {
    if (e.Finish? || e.Cancel?) && w.switches[t].stage.Settling? {
      LeavingKeepsBalance(w, t, e, b);
    } else if e.LaunchAndSwap? {
      LandingKeepsBalance(w, t, e, b);
    } else {
      QuietKeepsBalance(w, t, e, b);
    }
  }

  lemma SwitchKeepsRefs(w: World, t: nat, e: SwitchEvent)
    requires RefInv(w) && CanSwitch(w, t, e)
    ensures RefInv(AfterSwitch(w, t, e))
  {
    forall b: BrowserId ensures Balanced(AfterSwitch(w, t, e), b) {
      assert Balanced(w, b);
      SwitchKeepsBalance(w, t, e, b);
    }
  }

  lemma ReadersAfter(requests: map<nat, Request>, c: nat, request: Request, b: BrowserId)
    ensures Readers(requests[c := request], b) ==
            if Is(request.entry, b) then Readers(requests, b) + {c} else Readers(requests, b) - {c}
    ensures Readers(requests - {c}, b) == Readers(requests, b) - {c}
    ensures c in Readers(requests, b) <==> c in requests && Is(requests[c].entry, b)
  {
  }

  lemma RequestKeepsBalance(w: World, e: Event, b: BrowserId)
    requires RefInv(w) && CanHappen(w, e) && (e.Arrive? || e.Pick? || e.Drop? || e.Depart?)
    ensures Balanced(Happen(w, e), b)
  {
    var w' := Happen(w, e);
    assert Balanced(w, b);
    ReadersAfter(w.requests, e.c, if e.Depart? then w.requests[e.c] else w'.requests[e.c], b);
    if e.Drop? {
      CountAfterRelease(w.browsers, w.requests[e.c].entry, b);
    }
  }

  lemma RequestKeepsRefs(w: World, e: Event)
    requires RefInv(w) && CanHappen(w, e) && (e.Arrive? || e.Pick? || e.Drop? || e.Depart?)
    ensures RefInv(Happen(w, e))
  {
    forall b: BrowserId ensures Balanced(Happen(w, e), b) {
      RequestKeepsBalance(w, e, b);
    }
    assert Balanced(w, w.browsers.active.value.browser);
  }

  lemma EventKeepsInv(w: World, e: Event)
    requires Inv(w) && CanHappen(w, e)
    ensures Inv(Happen(w, e))
  {
    if e.Switching? {
      SwitchKeepsLock(w, e.t, e.e);
      SwitchKeepsLanding(w, e.t, e.e);
      SwitchKeepsCredentials(w, e.t, e.e);
      SwitchKeepsRefs(w, e.t, e.e);
    } else if e.Mint? || e.Lapse? {
      assert forall b: BrowserId :: Balanced(w, b) ==> Balanced(Happen(w, e), b);
    } else {
      RequestKeepsRefs(w, e);
    }
  }

  lemma {:induction false} RunKeepsInv(first: Entry, events: seq<Event>)
    requires WorldAfter(first, events).Some?
    ensures Inv(WorldAfter(first, events).value)
  {
    if events == [] {
      var w := Booted(first);
      assert forall b: BrowserId :: Readers(w.requests, b) == {} && Droppers(w.switches, b) == {};
    } else {
      RunKeepsInv(first, Init(events));
      EventKeepsInv(WorldAfter(first, Init(events)).value, Last(events));
    }
  }

  // ---- The promises ----

  /** No two switches are ever past the lock together, so at most one launch is in progress. */
  lemma OneLaunchAtATime(first: Entry, events: seq<Event>, t: nat, u: nat)
    requires WorldAfter(first, events).Some?
    requires var switches := WorldAfter(first, events).value.switches;
             t in switches && u in switches && InSwitch(switches[t].stage) && InSwitch(switches[u].stage)
    ensures t == u
  {
    RunKeepsInv(first, events);
  }

  /** However many callers ask for a profile at once, two landings on the same
      name always have a landing on another between them. */
  lemma LandingsOfOneNameAreApart(first: Entry, events: seq<Event>, i: nat, j: nat) returns (k: nat)
    requires WorldAfter(first, events).Some?
    requires var landed := WorldAfter(first, events).value.landed;
             i < j < |landed| && landed[i] == landed[j]
    ensures i < k < j && WorldAfter(first, events).value.landed[k] != WorldAfter(first, events).value.landed[i]
  {
    RunKeepsInv(first, events);
    k := i + 1;
  }

  // ---- Reading the profile and the credentials off the run ----

  /** Event `k` is a landing on the profile its switch asked for. */
  ghost predicate Lands(events: seq<Event>, k: nat, entry: Entry)
    requires k < |events|
  {
    events[k].Switching? && events[k].e == LaunchAndSwap(entry.browser) && entry.kind == Persistent
    && exists i :: 0 <= i < k && events[i] == Switching(events[k].t, Ask(entry.name))
  }

  predicate IsLanding(e: Event) {
    e.Switching? && e.e.LaunchAndSwap?
  }

  /** `entry` is what the latest landing put there, or the first one if nothing has landed. */
  ghost predicate LatestLanding(first: Entry, events: seq<Event>, entry: Entry) {
    (entry == first && forall k :: 0 <= k < |events| ==> !IsLanding(events[k]))
    || exists k :: 0 <= k < |events| && Lands(events, k, entry)
                   && forall j :: k < j < |events| ==> !IsLanding(events[j])
  }

  ghost predicate AskedFor(events: seq<Event>, t: nat, name: string) {
    exists i :: 0 <= i < |events| && events[i] == Switching(t, Ask(name))
  }

  /** A switch has the name it was asked for. */
  lemma {:induction false} SwitchesWereAsked(first: Entry, events: seq<Event>, t: nat)
    requires WorldAfter(first, events).Some? && t in WorldAfter(first, events).value.switches
    ensures AskedFor(events, t, WorldAfter(first, events).value.switches[t].name)
  {
    var w, e := WorldAfter(first, Init(events)).value, Last(events);
    var name := WorldAfter(first, events).value.switches[t].name;
    if t in w.switches {
      SwitchesWereAsked(first, Init(events), t);
      var i :| 0 <= i < |Init(events)| && Init(events)[i] == Switching(t, Ask(name));
      assert events[i] == Switching(t, Ask(name));
    } else {
      assert events[|events| - 1] == Switching(t, Ask(name));
    }
  }

  lemma LatestLandingStays(first: Entry, events: seq<Event>, entry: Entry)
    requires events != [] && LatestLanding(first, Init(events), entry) && !IsLanding(Last(events))
    ensures LatestLanding(first, events, entry)
  {
    var prefix := Init(events);
    if k :| 0 <= k < |prefix| && Lands(prefix, k, entry) && forall j :: k < j < |prefix| ==> !IsLanding(prefix[j]) {
      var i :| 0 <= i < k && prefix[i] == Switching(prefix[k].t, Ask(entry.name));
      assert events[i] == prefix[i] && events[k] == prefix[k];
      assert Lands(events, k, entry);
      assert forall j :: k < j < |prefix| ==> events[j] == prefix[j];
    } else {
      assert forall k :: 0 <= k < |prefix| ==> events[k] == prefix[k];
    }
  }

  /** The active profile is always the one of the latest landing: the profile a
      switch asked for, with the browser its launch gave it. */
  lemma {:induction false} ActiveReadsTheRun(first: Entry, events: seq<Event>)
    requires WorldAfter(first, events).Some?
    ensures WorldAfter(first, events).value.browsers.active.Some?
    ensures LatestLanding(first, events, WorldAfter(first, events).value.browsers.active.value)
  {
    if events != [] {
      ActiveReadsTheRun(first, Init(events));
      var w, e := WorldAfter(first, Init(events)).value, Last(events);
      if IsLanding(e) {
        var entry := Entry(Persistent, w.switches[e.t].name, e.e.browser);
        SwitchesWereAsked(first, Init(events), e.t);
        var i :| 0 <= i < |Init(events)| && Init(events)[i] == Switching(e.t, Ask(entry.name));
        assert events[i] == Init(events)[i];
        assert Lands(events, |events| - 1, entry);
      } else {
        LatestLandingStays(first, events, w.browsers.active.value);
      }
    }
  }

  predicate Ends(e: Event, secret: Secret) {
    e == Lapse(secret) || (e.Switching? && e.e.Revoke?)
  }

  /** Minted, and since then neither lapsed nor swept away by a revocation. */
  ghost predicate MintedAndNotEnded(events: seq<Event>, secret: Secret) {
    exists k :: 0 <= k < |events| && events[k] == Mint(secret)
                && forall j :: k < j < |events| ==> !Ends(events[j], secret)
  }

  lemma MintedStep(events: seq<Event>, secret: Secret)
    requires events != []
    ensures MintedAndNotEnded(events, secret) <==>
            Last(events) == Mint(secret) || (MintedAndNotEnded(Init(events), secret) && !Ends(Last(events), secret))
  {
    var n, prefix := |events| - 1, Init(events);
    assert forall k :: 0 <= k < n ==> events[k] == prefix[k];
    if MintedAndNotEnded(prefix, secret) && !Ends(Last(events), secret) {
      var k :| 0 <= k < |prefix| && prefix[k] == Mint(secret)
               && forall j :: k < j < |prefix| ==> !Ends(prefix[j], secret);
      assert events[k] == Mint(secret) && forall j :: k < j < |events| ==> !Ends(events[j], secret);
    }
    if MintedAndNotEnded(events, secret) && Last(events) != Mint(secret) {
      var k :| 0 <= k < |events| && events[k] == Mint(secret)
               && forall j :: k < j < |events| ==> !Ends(events[j], secret);
      assert prefix[k] == Mint(secret) && forall j :: k < j < |prefix| ==> !Ends(prefix[j], secret);
    }
  }

  /** The live credentials are those minted since the latest revocation and not lapsed. */
  lemma {:induction false} LiveReadsTheRun(first: Entry, events: seq<Event>, secret: Secret)
    requires WorldAfter(first, events).Some?
    ensures secret in WorldAfter(first, events).value.credentials.live <==> MintedAndNotEnded(events, secret)
  {
    if events != [] {
      LiveReadsTheRun(first, Init(events), secret);
      MintedStep(events, secret);
    }
  }

  /** At event `k` the request picked the profile active then. */
  ghost predicate PicksAt(first: Entry, events: seq<Event>, k: nat, c: nat, entry: Entry) {
    k < |events| && events[k] == Pick(c) && WorldAfter(first, events[..k]).Some?
    && WorldAfter(first, events[..k]).value.browsers.active == Some(entry)
  }

  /** It picked that entry and has not dropped it since. */
  ghost predicate HasPicked(first: Entry, events: seq<Event>, c: nat, entry: Entry) {
    exists k: nat :: PicksAt(first, events, k, c, entry) && forall j :: k < j < |events| ==> events[j] != Drop(c)
  }

  predicate HoldsEntry(w: World, c: nat, entry: Entry) {
    c in w.requests && w.requests[c].entry == Some(entry)
  }

  lemma PickedStep(first: Entry, events: seq<Event>, c: nat, entry: Entry)
    requires events != []
    ensures HasPicked(first, events, c, entry) <==>
            PicksAt(first, events, |events| - 1, c, entry)
            || (HasPicked(first, Init(events), c, entry) && Last(events) != Drop(c))
  {
    var n, prefix := |events| - 1, Init(events);
    forall k: nat | k < n ensures PicksAt(first, prefix, k, c, entry) <==> PicksAt(first, events, k, c, entry) {
      assert prefix[..k] == events[..k] && prefix[k] == events[k];
    }
    assert forall j :: 0 <= j < n ==> prefix[j] == events[j];
    if k: nat :| PicksAt(first, prefix, k, c, entry) && (forall j :: k < j < n ==> prefix[j] != Drop(c))
                 && Last(events) != Drop(c) {
      assert PicksAt(first, events, k, c, entry) && forall j :: k < j < |events| ==> events[j] != Drop(c);
    }
    if k: nat :| PicksAt(first, events, k, c, entry) && k < n && forall j :: k < j < |events| ==> events[j] != Drop(c) {
      assert PicksAt(first, prefix, k, c, entry) && events[n] != Drop(c);
      assert forall j :: k < j < n ==> prefix[j] != Drop(c);
    }
  }

  /** A request holds the profile that was active when it last picked one, until
      it drops it, whatever has landed in between. */
  lemma {:induction false} HeldReadsTheRun(first: Entry, events: seq<Event>, c: nat, entry: Entry)
    requires WorldAfter(first, events).Some?
    ensures HoldsEntry(WorldAfter(first, events).value, c, entry) <==> HasPicked(first, events, c, entry)
  {
    if events != [] {
      HeldReadsTheRun(first, Init(events), c, entry);
      PickedStep(first, events, c, entry);
      assert events[..|events| - 1] == Init(events) && events[|events| - 1] == Last(events);
      HeldStep(WorldAfter(first, Init(events)).value, Last(events), c, entry);
    }
  }

  lemma HeldStep(w: World, e: Event, c: nat, entry: Entry)
    requires CanHappen(w, e)
    ensures HoldsEntry(Happen(w, e), c, entry) <==>
            if e == Pick(c) then w.browsers.active == Some(entry) else HoldsEntry(w, c, entry) && e != Drop(c)
    ensures e == Pick(c) ==> !HoldsEntry(w, c, entry)
  {
  }

  // ---- A switch that does not land ----

  /** The run without the events of switch `t`. */
  function Without(events: seq<Event>, t: nat): seq<Event> {
    if events == [] then []
    else Without(Init(events), t) + (if Last(events).Switching? && Last(events).t == t then [] else [Last(events)])
  }

  /** The world without switch `t`, which holds nothing but perhaps the lock. */
  function Forgetting(w: World, t: nat): World {
    w.(switches := w.switches - {t}, lock := if w.lock == Some(t) then None else w.lock)
  }

  lemma OwnEventLeavesOthers(w: World, t: nat, e: SwitchEvent)
    requires LockInv(w) && CanSwitch(w, t, e) && !e.LaunchAndSwap?
    requires t in w.switches ==> !w.switches[t].stage.Swapped? && !w.switches[t].stage.Settling?
    ensures Forgetting(AfterSwitch(w, t, e), t) == Forgetting(w, t)
    ensures var stage := AfterSwitch(w, t, e).switches[t].stage; !stage.Swapped? && !stage.Settling?
  {
    var w' := AfterSwitch(w, t, e);
    assert w'.switches - {t} == w.switches - {t};
  }

  lemma OtherSwitchUnaware(w: World, t: nat, u: nat, e: SwitchEvent)
    requires LockInv(w) && CanSwitch(w, u, e) && u != t
    ensures CanSwitch(Forgetting(w, t), u, e)
    ensures Forgetting(AfterSwitch(w, u, e), t) == AfterSwitch(Forgetting(w, t), u, e)
  {
    var w' := AfterSwitch(w, u, e);
    var alone := AfterSwitch(Forgetting(w, t), u, e);
    assert w'.switches - {t} == alone.switches;
  }

  lemma OthersUnaware(w: World, t: nat, e: Event)
    requires LockInv(w) && CanHappen(w, e) && !(e.Switching? && e.t == t)
    ensures CanHappen(Forgetting(w, t), e)
    ensures Forgetting(Happen(w, e), t) == Happen(Forgetting(w, t), e)
  {
    if e.Switching? {
      OtherSwitchUnaware(w, t, e.t, e.e);
    }
  }

  /** A switch that never lands might as well not have been asked for: profile,
      browsers, credentials, requests and every other switch stand exactly as
      after the same run without it. */
  lemma {:induction false} UnlandedSwitchLeavesNoTrace(first: Entry, events: seq<Event>, t: nat)
    requires WorldAfter(first, events).Some?
    requires forall k :: 0 <= k < |events| ==> !(IsLanding(events[k]) && events[k].t == t)
    ensures WorldAfter(first, Without(events, t)) == Some(Forgetting(WorldAfter(first, events).value, t))
    ensures var switches := WorldAfter(first, events).value.switches;
            t in switches ==> !switches[t].stage.Swapped? && !switches[t].stage.Settling?
  {
    if events == [] {
      assert Booted(first).switches - {t} == Booted(first).switches;
    } else {
      var prefix, e := Init(events), Last(events);
      assert forall k :: 0 <= k < |prefix| ==> prefix[k] == events[k];
      assert events[|events| - 1] == e;
      UnlandedSwitchLeavesNoTrace(first, prefix, t);
      RunKeepsInv(first, prefix);
      var w := WorldAfter(first, prefix).value;
      if e.Switching? && e.t == t {
        OwnEventLeavesOthers(w, t, e.e);
        assert Without(events, t) == Without(prefix, t);
      } else {
        OthersUnaware(w, t, e);
        assert Init(Without(events, t)) == Without(prefix, t) && Last(Without(events, t)) == e;
      }
    }
  }

  ghost predicate HasLanded(events: seq<Event>, t: nat) {
    exists k :: 0 <= k < |events| && IsLanding(events[k]) && events[k].t == t
  }

  lemma {:induction false} AfterLanding(first: Entry, events: seq<Event>, t: nat)
    requires WorldAfter(first, events).Some? && HasLanded(events, t)
    ensures t in WorldAfter(first, events).value.switches
    ensures var stage := WorldAfter(first, events).value.switches[t].stage;
            stage.Swapped? || stage.Settling? || stage == Ended(Ok(())) || stage.Cancelled?
  {
    var prefix, e := Init(events), Last(events);
    if !(IsLanding(e) && e.t == t) {
      var k :| 0 <= k < |events| && IsLanding(events[k]) && events[k].t == t;
      assert prefix[k] == events[k] && HasLanded(prefix, t);
      AfterLanding(first, prefix, t);
    }
  }

  /** A switch that ended refused, or whose launch failed, changed nothing that
      anyone can see; nor did one cancelled before it landed. */
  lemma FailedSwitchLeavesNoTrace(first: Entry, events: seq<Event>, t: nat)
    requires WorldAfter(first, events).Some? && t in WorldAfter(first, events).value.switches
    requires var stage := WorldAfter(first, events).value.switches[t].stage;
             (stage.Ended? && stage.outcome.Err?) || (stage.Cancelled? && !HasLanded(events, t))
    ensures WorldAfter(first, Without(events, t)) == Some(Forgetting(WorldAfter(first, events).value, t))
  {
    if HasLanded(events, t) {
      AfterLanding(first, events, t);
    }
    forall k | 0 <= k < |events| ensures !(IsLanding(events[k]) && events[k].t == t) {
    }
    UnlandedSwitchLeavesNoTrace(first, events, t);
  }

  /** A launch is begun only over a browser no `/cdp` client is counted on, and
      a switch ends well only on the profile it asked for. */
  lemma SwitchLandsWhereAsked(first: Entry, events: seq<Event>, t: nat, e: SwitchEvent)
    requires WorldAfter(first, events).Some? && CanSwitch(WorldAfter(first, events).value, t, e)
    ensures var w := WorldAfter(first, events).value;
            var w' := AfterSwitch(w, t, e);
            var name := w'.switches[t].name;
            && (e.Recheck? && w'.switches[t].stage.Launching?
                ==> w.clients == 0 && !IsCurrent(w.browsers.active, name))
            && (e.LaunchAndSwap?
                ==> IsCurrent(w'.browsers.active, name) && !IsCurrent(w.browsers.active, name))
            && (w'.switches[t].stage == Ended(Ok(())) ==> IsCurrent(w'.browsers.active, name))
  {
    RunKeepsInv(first, events);
  }

  /** Among any others too, each guard answers exactly for itself: before the
      lock the current profile, the name and the host, in that order; under the
      lock the current profile again, and then the clients. */
  lemma ChecksDecide(w: World, t: nat, validName: bool, switchable: bool)
    requires t in w.switches
    ensures CanSwitch(w, t, Check(validName, switchable)) ==>
              var current := IsPersistent(w.browsers.active, w.switches[t].name);
              var stage := AfterSwitch(w, t, Check(validName, switchable)).switches[t].stage;
              && (stage == Queued <==> !current && validName && switchable)
              && (stage == Ended(Ok(())) <==> current)
              && (stage == Ended(Err(InvalidName)) <==> !current && !validName)
              && (stage == Ended(Err(NotSwitchable)) <==> !current && validName && !switchable)
    ensures CanSwitch(w, t, Recheck) ==>
              var current := IsPersistent(w.browsers.active, w.switches[t].name);
              var stage := AfterSwitch(w, t, Recheck).switches[t].stage;
              && (stage == Launching <==> !current && w.clients == 0)
              && (stage == Ended(Ok(())) <==> current)
              && (stage == Ended(Err(ProfileLocked)) <==> !current && w.clients > 0)
  {
  }

  /** The requests that count as `/cdp` clients. */
  function CountedIn(requests: map<nat, Request>): set<nat> {
    set c | c in requests && requests[c].counted
  }

  lemma CountedAfter(requests: map<nat, Request>, c: nat, request: Request)
    ensures CountedIn(requests[c := request]) ==
            if request.counted then CountedIn(requests) + {c} else CountedIn(requests) - {c}
    ensures CountedIn(requests - {c}) == CountedIn(requests) - {c}
    ensures c in CountedIn(requests) <==> c in requests && requests[c].counted
  {
  }

  lemma ClientsStep(w: World, e: Event)
    requires CanHappen(w, e) && w.clients == |CountedIn(w.requests)|
    ensures Happen(w, e).clients == |CountedIn(Happen(w, e).requests)|
  {
    if e.Arrive? || e.Pick? || e.Drop? || e.Depart? {
      CountedAfter(w.requests, e.c, if e.Depart? then w.requests[e.c] else Happen(w, e).requests[e.c]);
    }
  }

  /** What the guard reads is the number of `/cdp` clients there are. */
  lemma {:induction false} ClientsAreCounted(first: Entry, events: seq<Event>)
    requires WorldAfter(first, events).Some?
    ensures WorldAfter(first, events).value.clients == |CountedIn(WorldAfter(first, events).value.requests)|
  {
    if events == [] {
      assert CountedIn(Booted(first).requests) == {};
    } else {
      ClientsAreCounted(first, Init(events));
      ClientsStep(WorldAfter(first, Init(events)).value, Last(events));
    }
  }

  lemma QueuedLaunches(w: World, t: nat) returns (v: World)
    requires t in w.switches && w.switches[t].stage.Queued? && w.lock.None? && w.clients == 0
    requires !IsPersistent(w.browsers.active, w.switches[t].name)
    ensures SwitchAfter(w, t, [Lock, Recheck]) == Some(v)
    ensures v == w.(lock := Some(t), switches := w.switches[t := Switch(w.switches[t].name, Launching)])
  {
    var locked := AfterSwitch(w, t, Lock);
    v := AfterSwitch(locked, t, Recheck);
    OneMoreEvent(w, t, [], Lock);
    OneMoreEvent(w, t, [] + [Lock], Recheck);
    assert ([] + [Lock]) + [Recheck] == [Lock, Recheck];
    assert v.switches == w.switches[t := Switch(w.switches[t].name, Launching)];
  }

  lemma LaunchingLands(w: World, t: nat, browser: BrowserId) returns (end: World)
    requires t in w.switches && w.switches[t].stage.Launching? && browser !in w.browsers.used
    ensures SwitchAfter(w, t, [LaunchAndSwap(browser), SwitchEvent.Revoke, Finish]) == Some(end)
    ensures end.switches[t] == Switch(w.switches[t].name, Ended(Ok(()))) && end.lock.None?
    ensures end.browsers ==
            Release(Swap(w.browsers, Entry(Persistent, w.switches[t].name, browser)), w.browsers.active)
    ensures end.credentials.live == {} && end.landed == w.landed + [w.switches[t].name]
  {
    var land := LaunchAndSwap(browser);
    var swapped := AfterSwitch(w, t, land);
    var settling := AfterSwitch(swapped, t, SwitchEvent.Revoke);
    end := AfterSwitch(settling, t, Finish);
    OneMoreEvent(w, t, [], land);
    OneMoreEvent(w, t, [] + [land], SwitchEvent.Revoke);
    OneMoreEvent(w, t, ([] + [land]) + [SwitchEvent.Revoke], Finish);
    assert (([] + [land]) + [SwitchEvent.Revoke]) + [Finish] == [land, SwitchEvent.Revoke, Finish];
  }

  /** Progress: from wherever a run stands, a queued switch that finds the lock
      free, no client counted and another profile current can go through to its
      landing, and then its profile is active with the new browser, no credential
      is live, the lock is free, and the old browser has one holder fewer. */
  lemma QueuedSwitchLands(first: Entry, events: seq<Event>, t: nat, browser: BrowserId) returns (end: World)
    requires WorldAfter(first, events).Some?
    requires var w := WorldAfter(first, events).value;
             t in w.switches && w.switches[t].stage.Queued? && w.lock.None? && w.clients == 0
             && !IsPersistent(w.browsers.active, w.switches[t].name) && browser !in w.browsers.used
    ensures var w := WorldAfter(first, events).value;
            && SwitchAfter(w, t, [Lock, Recheck] + [LaunchAndSwap(browser), SwitchEvent.Revoke, Finish]) == Some(end)
            && t in end.switches && end.switches[t].stage == Ended(Ok(())) && end.lock.None?
            && end.browsers.active == Some(Entry(Persistent, w.switches[t].name, browser))
            && end.credentials.live == {} && end.landed == w.landed + [w.switches[t].name]
            && forall b: BrowserId :: b != browser ==>
                 RefCount(end.browsers, b) == RefCount(w.browsers, b) - One(Is(w.browsers.active, b))
  {
    RunKeepsInv(first, events);
    var w := WorldAfter(first, events).value;
    var launching := QueuedLaunches(w, t);
    end := LaunchingLands(launching, t, browser);
    EventsJoin(w, t, [Lock, Recheck], [LaunchAndSwap(browser), SwitchEvent.Revoke, Finish]);
    var entry := Entry(Persistent, w.switches[t].name, browser);
    forall b: BrowserId | b != browser
      ensures RefCount(end.browsers, b) == RefCount(w.browsers, b) - One(Is(w.browsers.active, b))
    {
      assert Balanced(w, b);
      CountAfterRelease(Swap(w.browsers, entry), w.browsers.active, b);
    }
  }

  ghost predicate RevokedSince(events: seq<Event>, n: nat, t: nat) {
    exists k :: n < k < |events| && events[k] == Switching(t, SwitchEvent.Revoke)
  }

  /** A switch that landed is still before its revocation, or that has come since. */
  lemma {:induction false} LandedThenRevokes(first: Entry, events: seq<Event>, n: nat)
    requires WorldAfter(first, events).Some? && n < |events| && IsLanding(events[n])
    ensures events[n].t in WorldAfter(first, events).value.switches
    ensures RevokedSince(events, n, events[n].t)
            || WorldAfter(first, events).value.switches[events[n].t].stage.Swapped?
  {
    var prefix, t := Init(events), events[n].t;
    if n < |prefix| {
      LandedThenRevokes(first, prefix, n);
      if RevokedSince(prefix, n, t) {
        var k :| n < k < |prefix| && prefix[k] == Switching(t, SwitchEvent.Revoke);
        assert events[k] == prefix[k];
      } else if Last(events) == Switching(t, SwitchEvent.Revoke) {
        assert events[|events| - 1] == Last(events);
      }
    }
  }

  /** Once every landing's revocation has run, no credential minted before a landing is live. */
  lemma EarlierCredentialsAreRevoked(first: Entry, events: seq<Event>, m: nat, n: nat, secret: Secret)
    requires WorldAfter(first, events).Some? && m < n < |events|
    requires events[m] == Mint(secret) && IsLanding(events[n])
    requires var w := WorldAfter(first, events).value;
             forall t :: t in w.switches ==> !w.switches[t].stage.Swapped?
    ensures secret !in WorldAfter(first, events).value.credentials.live
  {
    LandedThenRevokes(first, events, n);
    LiveReadsTheRun(first, events, secret);
    var k :| n < k < |events| && events[k] == Switching(events[n].t, SwitchEvent.Revoke);
    forall i | 0 <= i < |events| && events[i] == Mint(secret) ensures i == m {
      MintedOnce(first, events, m, i, secret);
    }
    assert Ends(events[k], secret);
  }

  lemma {:induction false} MintedIsKnown(first: Entry, events: seq<Event>, m: nat, secret: Secret)
    requires WorldAfter(first, events).Some? && m < |events| && events[m] == Mint(secret)
    ensures secret in WorldAfter(first, events).value.credentials.minted
  {
    if m < |events| - 1 {
      MintedIsKnown(first, Init(events), m, secret);
    }
  }

  lemma {:induction false} MintedOnce(first: Entry, events: seq<Event>, m: nat, n: nat, secret: Secret)
    requires WorldAfter(first, events).Some? && m < |events| && n < |events|
    requires events[m] == Mint(secret) && events[n] == Mint(secret)
    ensures m == n
  {
    var last := |events| - 1;
    if m < last && n < last {
      MintedOnce(first, Init(events), m, n, secret);
    } else if m != n {
      MintedIsKnown(first, Init(events), if m < n then m else n, secret);
    }
  }

  /** A browser runs exactly as long as someone holds it: the active profile, a
      request that picked it, or a switch that has yet to drop it. */
  lemma BrowserLivesWhileHeld(first: Entry, events: seq<Event>, b: BrowserId)
    requires WorldAfter(first, events).Some?
    ensures var w := WorldAfter(first, events).value;
            b in w.browsers.refs <==>
            Is(w.browsers.active, b) || Readers(w.requests, b) != {} || Droppers(w.switches, b) != {}
  {
    RunKeepsInv(first, events);
    assert Balanced(WorldAfter(first, events).value, b);
  }

  // ---- The shared fields, section by section ----

  /** The world after a switch's events, if each was possible when it came. */
  function SwitchAfter(w: World, t: nat, events: seq<SwitchEvent>): Option<World> {
    if events == [] then Some(w)
    else
      match SwitchAfter(w, t, Init(events))
      case Some(v) => if CanSwitch(v, t, Last(events)) then Some(AfterSwitch(v, t, Last(events))) else None
      case None => None
  }

  lemma OneMoreEvent(w: World, t: nat, events: seq<SwitchEvent>, e: SwitchEvent)
    requires SwitchAfter(w, t, events).Some? && CanSwitch(SwitchAfter(w, t, events).value, t, e)
    ensures SwitchAfter(w, t, events + [e]) == Some(AfterSwitch(SwitchAfter(w, t, events).value, t, e))
  {
    assert Init(events + [e]) == events && Last(events + [e]) == e;
  }

  class SharedProfile {
    var active: Option<Entry>
    var clients: nat
    var handoffs: seq<Secret>

    constructor (first: Entry)
      ensures Shows(Booted(first))
    {
      active, clients, handoffs := Some(first), 0, [];
    }

    /** These fields are what the world says they are. */
    ghost predicate Shows(w: World)
      reads this
    {
      active == w.browsers.active && clients == w.clients
      && forall secret :: secret in handoffs <==> secret in w.credentials.live
    }

    /** Before the lock: the machine's `Check`. */
    method CheckBeforeLock(name: string, validName: bool, switchable: bool, ghost w: World, ghost t: nat)
      returns (stage: Stage)
      requires Shows(w) && CanSwitch(w, t, Check(validName, switchable)) && w.switches[t].name == name
      ensures Shows(AfterSwitch(w, t, Check(validName, switchable)))
      ensures AfterSwitch(w, t, Check(validName, switchable)).switches[t].stage == stage
      ensures stage == Queued <==> !IsPersistent(active, name) && validName && switchable
      ensures stage == Ended(Ok(())) <==> IsPersistent(active, name)
      ensures stage == Ended(Err(InvalidName)) <==> !IsPersistent(active, name) && !validName
      ensures stage == Ended(Err(NotSwitchable)) <==> !IsPersistent(active, name) && validName && !switchable
    {
      if active.Some? && active.value.name == name && active.value.kind == Persistent {
        return Ended(Ok(()));
      }
      if !validName {
        return Ended(Err(InvalidName));
      }
      if !switchable {
        return Ended(Err(NotSwitchable));
      }
      return Queued;
    }

    /** Under the lock: the machine's `Recheck`. */
    method CheckUnderLock(name: string, ghost w: World, ghost t: nat) returns (stage: Stage)
      requires Shows(w) && CanSwitch(w, t, Recheck) && w.switches[t].name == name
      ensures Shows(AfterSwitch(w, t, Recheck))
      ensures AfterSwitch(w, t, Recheck).switches[t].stage == stage
      ensures stage == Launching || stage == Ended(Ok(())) || stage == Ended(Err(ProfileLocked))
      ensures stage == Ended(Ok(())) <==> IsPersistent(active, name)
      ensures stage == Launching <==> !IsPersistent(active, name) && clients == 0
    {
      if active.Some? && active.value.name == name && active.value.kind == Persistent {
        return Ended(Ok(()));
      }
      if clients > 0 {
        return Ended(Err(ProfileLocked));
      }
      return Launching;
    }

    /** The machine's `LaunchAndSwap`, once the browser has been launched. */
    method Swap(name: string, browser: BrowserId, ghost w: World, ghost t: nat) returns (previous: Option<Entry>)
      requires Shows(w) && CanSwitch(w, t, LaunchAndSwap(browser)) && w.switches[t].name == name
      modifies this`active
      ensures Shows(AfterSwitch(w, t, LaunchAndSwap(browser)))
      ensures AfterSwitch(w, t, LaunchAndSwap(browser)).switches[t].stage == Swapped(previous)
      ensures active == Some(Entry(Persistent, name, browser)) && previous == old(active)
    {
      previous := active;
      active := Some(Entry(Persistent, name, browser));
    }

    /** The machine's `Revoke`. */
    method RevokeHandoffs(ghost w: World, ghost t: nat) returns (revoked: nat)
      requires Shows(w) && CanSwitch(w, t, SwitchEvent.Revoke)
      modifies this`handoffs
      ensures Shows(AfterSwitch(w, t, SwitchEvent.Revoke)) && revoked == |old(handoffs)| && handoffs == []
    {
      revoked := |handoffs|;
      handoffs := [];
    }

    /** The rest of a call once it may launch; `launched` is the browser the
        launch yields, if it yields one. */
    method LaunchUnderLock(name: string, launched: Option<BrowserId>, ghost w: World, ghost t: nat)
      returns (outcome: Result<(), Refusal>, ghost events: seq<SwitchEvent>)
      requires Shows(w) && t in w.switches && w.switches[t] == Switch(name, Launching)
      requires launched.Some? ==> launched.value !in w.browsers.used
      modifies this
      ensures Realised(w, t, events, name, outcome)
      ensures outcome == if launched.Some? then Ok(()) else Err(LaunchFailed)
      ensures clients == old(clients)
      ensures launched.Some? ==> active == Some(Entry(Persistent, name, launched.value)) && handoffs == []
      ensures launched.None? ==> active == old(active) && handoffs == old(handoffs)
    {
      if launched.None? {
        OneMoreEvent(w, t, [], LaunchFails);
        return Err(LaunchFailed), [] + [LaunchFails];
      }
      ghost var land := LaunchAndSwap(launched.value);
      OneMoreEvent(w, t, [], land);
      ghost var landed := AfterSwitch(w, t, land);
      var previous := Swap(name, launched.value, w, t);
      OneMoreEvent(w, t, [] + [land], SwitchEvent.Revoke);
      var revoked := RevokeHandoffs(landed, t);
      ghost var settled := AfterSwitch(landed, t, SwitchEvent.Revoke);
      OneMoreEvent(w, t, ([] + [land]) + [SwitchEvent.Revoke], Finish);
      assert AfterSwitch(settled, t, Finish).switches[t] == Switch(name, Ended(Ok(())));
      return Ok(()), (([] + [land]) + [SwitchEvent.Revoke]) + [Finish];
    }

    /** One call from start to end with no other task in between: it is a run of
        the machine, and leaves the fields as that run leaves the world. */
    method EnsureProfile(name: string, validName: bool, switchable: bool, launched: Option<BrowserId>,
                         ghost w: World, ghost t: nat)
      returns (outcome: Result<(), Refusal>, ghost events: seq<SwitchEvent>)
      requires Shows(w) && t !in w.switches && w.lock.None?
      requires launched.Some? ==> launched.value !in w.browsers.used
      modifies this
      ensures Realised(w, t, events, name, outcome)
      ensures outcome == Ok(()) <==>
              IsPersistent(old(active), name)
              || (validName && switchable && old(clients) == 0 && launched.Some?)
      ensures outcome == Err(InvalidName) <==> !IsPersistent(old(active), name) && !validName
      ensures outcome == Err(NotSwitchable) <==> !IsPersistent(old(active), name) && validName && !switchable
      ensures outcome == Err(ProfileLocked) <==>
              !IsPersistent(old(active), name) && validName && switchable && old(clients) > 0
      ensures outcome == Err(LaunchFailed) <==>
              !IsPersistent(old(active), name) && validName && switchable && old(clients) == 0 && launched.None?
      ensures clients == old(clients)
      ensures outcome == Ok(()) && !IsPersistent(old(active), name)
              ==> active == Some(Entry(Persistent, name, launched.value)) && handoffs == []
      ensures outcome != Ok(()) || IsPersistent(old(active), name)
              ==> active == old(active) && handoffs == old(handoffs)
    {
      ghost var check := Check(validName, switchable);
      ghost var asked := AfterSwitch(w, t, Ask(name));
      OneMoreEvent(w, t, [], Ask(name));
      var stage := CheckBeforeLock(name, validName, switchable, asked, t);
      OneMoreEvent(w, t, [] + [Ask(name)], check);
      ghost var checked := AfterSwitch(asked, t, check);
      if stage.Ended? {
        return stage.outcome, ([] + [Ask(name)]) + [check];
      }
      ghost var rest: seq<SwitchEvent>;
      ghost var locked := AfterSwitch(checked, t, Lock);
      OneMoreEvent(w, t, ([] + [Ask(name)]) + [check], Lock);
      outcome, rest := RecheckAndLaunch(name, launched, locked, t);
      events := (([] + [Ask(name)]) + [check]) + [Lock];
      EventsJoin(w, t, events, rest);
      events := events + rest;
    }

    method RecheckAndLaunch(name: string, launched: Option<BrowserId>, ghost w: World, ghost t: nat)
      returns (outcome: Result<(), Refusal>, ghost events: seq<SwitchEvent>)
      requires Shows(w) && t in w.switches && w.switches[t] == Switch(name, Locked)
      requires launched.Some? ==> launched.value !in w.browsers.used
      modifies this
      ensures Realised(w, t, events, name, outcome)
      ensures clients == old(clients)
      ensures if IsPersistent(old(active), name) || old(clients) > 0 then
                && outcome == (if IsPersistent(old(active), name) then Ok(()) else Err(ProfileLocked))
                && active == old(active) && handoffs == old(handoffs)
              else if launched.None? then
                outcome == Err(LaunchFailed) && active == old(active) && handoffs == old(handoffs)
              else
                outcome == Ok(()) && active == Some(Entry(Persistent, name, launched.value)) && handoffs == []
    {
      var stage := CheckUnderLock(name, w, t);
      ghost var now := AfterSwitch(w, t, Recheck);
      OneMoreEvent(w, t, [], Recheck);
      if stage.Ended? {
        return stage.outcome, [] + [Recheck];
      }
      outcome, events := LaunchUnderLock(name, launched, now, t);
      EventsJoin(w, t, [] + [Recheck], events);
      events := ([] + [Recheck]) + events;
    }

    /** The events are a run of the machine that ends so, and the fields show where it ends. */
    ghost predicate Realised(w: World, t: nat, events: seq<SwitchEvent>, name: string, outcome: Result<(), Refusal>)
      reads this
    {
      SwitchAfter(w, t, events).Some?
      && (var end := SwitchAfter(w, t, events).value;
          Shows(end) && end.lock.None? && t in end.switches && end.switches[t] == Switch(name, Ended(outcome)))
    }
  }

  lemma {:induction false} EventsJoin(w: World, t: nat, a: seq<SwitchEvent>, b: seq<SwitchEvent>)
    requires SwitchAfter(w, t, a).Some? && SwitchAfter(SwitchAfter(w, t, a).value, t, b).Some?
    ensures SwitchAfter(w, t, a + b) == SwitchAfter(SwitchAfter(w, t, a).value, t, b)
    decreases |b|
  {
    if b == [] {
      assert a + b == a;
    } else {
      EventsJoin(w, t, a, Init(b));
      assert Init(a + b) == a + Init(b) && Last(a + b) == Last(b);
    }
  }
}
