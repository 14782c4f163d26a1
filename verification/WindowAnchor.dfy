/** Closing a page without closing the browser's last window, with any number
    of closers racing. Each closer lists the pages, creates an inert anchor
    page unless it saw one, and only then closes its target. */
module WindowAnchor {

  import opened Wrappers
  import opened Sequences
  import opened JsonValue

  type Id = string

  const ANCHOR_URL := "about:blank#afhttp-window-anchor"

  // ---- One closer ----

  datatype Command = GetTargets | CreateAnchor | CloseTarget(id: Id)

  datatype Reply = Answer(value: Json) | Failed(isCdpError: bool, detail: string)

  datatype Failure = Refused | ListUnavailable | NotGuarded | NotConfirmed | TimedOut

  datatype Action = Send(command: Command) | Return(outcome: Result<(), Failure>)

  predicate EndsWith(s: string, suffix: string) {
    |suffix| <= |s| && s[|s| - |suffix|..] == suffix
  }

  predicate RefusesSecondTarget(reply: Reply) {
    reply.Failed? && reply.isCdpError && EndsWith(reply.detail, ": TargetAlreadyLoaded")
  }

  predicate IsAnchorBeside(page: Json, target: Id) {
    && AsStr(Get(page, "type")) == Some("page")
    && AsStr(Get(page, "targetId")).Some? && AsStr(Get(page, "targetId")) != Some(target)
    && AsStr(Get(page, "url")) == Some(ANCHOR_URL)
  }

  predicate ListsAnchor(listing: Json, target: Id) {
    match Get(listing, "targetInfos")
    case Some(Arr(infos)) => exists page :: page in infos && IsAnchorBeside(page, target)
    case _ => false
  }

  predicate NamesReplacement(answer: Json, target: Id) {
    match AsStr(Get(answer, "targetId"))
    case Some(id) => id != "" && id != target
    case None => false
  }

  /** What the closer does next, given the replies it has had so far. */
  function Decide(target: Id, replies: seq<Reply>): Action {
    if replies == [] then Send(GetTargets)
    else if replies[0].Failed? then Return(Err(Refused))
    else if !(Get(replies[0].value, "targetInfos").Some? && Get(replies[0].value, "targetInfos").value.Arr?) then
      Return(Err(ListUnavailable))
    else if ListsAnchor(replies[0].value, target) then DecideClose(target, replies[1..])
    else if |replies| == 1 then Send(CreateAnchor)
    else if replies[1].Failed? && !RefusesSecondTarget(replies[1]) then Return(Err(Refused))
    else if replies[1].Answer? && !NamesReplacement(replies[1].value, target) then Return(Err(NotGuarded))
    else DecideClose(target, replies[2..])
  }

  function DecideClose(target: Id, replies: seq<Reply>): Action {
    if replies == [] then Send(CloseTarget(target))
    else if replies[0].Failed? then Return(Err(Refused))
    else if Get(replies[0].value, "success") == Some(Bool(true)) then Return(Ok(()))
    else Return(Err(NotConfirmed))
  }

  /** The commands sent, and how it ends, when the replies arrive as scripted
      and the time budget runs out after the last of them. */
  function Drive(target: Id, script: seq<Reply>, had: nat): (seq<Command>, Result<(), Failure>)
    requires had <= |script|
    decreases |script| - had
  {
    match Decide(target, script[..had])
    case Return(outcome) => ([], outcome)
    case Send(command) =>
      if had == |script| then ([command], Err(TimedOut))
      else
        var (later, outcome) := Drive(target, script, had + 1);
        ([command] + later, outcome)
  }

  // ---- One closer, read off the replies ----

  predicate IsList(value: Json) {
    value.Obj? && "targetInfos" in value.fields && value.fields["targetInfos"].Arr?
  }

  predicate IsOtherAnchor(page: Json, target: Id) {
    && Has(page, "type", Str("page")) && Has(page, "url", Str("about:blank#afhttp-window-anchor"))
    && "targetId" in page.fields && page.fields["targetId"].Str? && page.fields["targetId"].s != target
  }

  /** The listing shows an anchor page with another id. */
  ghost predicate ShowsAnchor(value: Json, target: Id) {
    IsList(value) && exists k :: 0 <= k < |value.fields["targetInfos"].items|
                                 && IsOtherAnchor(value.fields["targetInfos"].items[k], target)
  }

  /** The answer to the anchor's creation names a page that is not the target. */
  predicate NamesOther(value: Json, target: Id) {
    value.Obj? && "targetId" in value.fields && value.fields["targetId"].Str?
    && value.fields["targetId"].s != "" && value.fields["targetId"].s != target
  }

  /** A browser that holds a single page says so. */
  ghost predicate SaysAlreadyLoaded(reply: Reply) {
    reply.Failed? && reply.isCdpError && exists before: string :: reply.detail == before + ": TargetAlreadyLoaded"
  }

  ghost predicate Guards(reply: Reply, target: Id) {
    if reply.Answer? then NamesOther(reply.value, target) else SaysAlreadyLoaded(reply)
  }

  ghost predicate IsListed(script: seq<Reply>) {
    |script| > 0 && script[0].Answer? && IsList(script[0].value)
  }

  ghost predicate IsAnchored(target: Id, script: seq<Reply>) {
    IsListed(script) && ShowsAnchor(script[0].value, target)
  }

  /** What goes out for a script of replies. */
  ghost function Commands(target: Id, script: seq<Reply>): seq<Command> {
    if !IsListed(script) then [GetTargets]
    else if IsAnchored(target, script) then [GetTargets, CloseTarget(target)]
    else if |script| > 1 && Guards(script[1], target) then [GetTargets, CreateAnchor, CloseTarget(target)]
    else [GetTargets, CreateAnchor]
  }

  /** How it ends, each way exactly when: it is well only with a close sent and
      confirmed, and a time-out leaves the last command unanswered. */
  ghost predicate EndsRightly(target: Id, script: seq<Reply>, sent: seq<Command>, outcome: Result<(), Failure>) {
    var last := |sent| - 1;
    && last >= 0
    && (outcome == Ok(()) <==>
          sent[last] == CloseTarget(target) && last < |script| && script[last].Answer?
          && Has(script[last].value, "success", Bool(true)))
    && (outcome == Err(TimedOut) <==> last >= |script|)
    && (outcome == Err(Refused) <==>
          last < |script| && script[last].Failed? && !(sent[last].CreateAnchor? && SaysAlreadyLoaded(script[last])))
    && (outcome == Err(ListUnavailable) <==> |script| > 0 && script[0].Answer? && !IsList(script[0].value))
    && (outcome == Err(NotGuarded) <==>
          sent[last] == CreateAnchor && last < |script| && script[last].Answer?)
    && (outcome == Err(NotConfirmed) <==>
          sent[last] == CloseTarget(target) && last < |script| && script[last].Answer?
          && !Has(script[last].value, "success", Bool(true)))
  }

  lemma EndsWithIsSuffix(s: string, suffix: string)
    ensures EndsWith(s, suffix) <==> exists before: string :: s == before + suffix
  {
    if EndsWith(s, suffix) {
      assert s == s[..|s| - |suffix|] + suffix;
    }
    if before: string :| s == before + suffix {
      assert s[|s| - |suffix|..] == suffix;
    }
  }

  lemma ListsAnchorIsShown(value: Json, target: Id)
    requires IsList(value)
    ensures ListsAnchor(value, target) <==> ShowsAnchor(value, target)
  {
    var infos := value.fields["targetInfos"].items;
    forall page ensures IsAnchorBeside(page, target) <==> IsOtherAnchor(page, target) {
    }
    if ListsAnchor(value, target) {
      var page :| page in infos && IsAnchorBeside(page, target);
      var k :| 0 <= k < |infos| && infos[k] == page;
      assert IsOtherAnchor(infos[k], target);
    }
  }

  lemma GuardsIsDecided(reply: Reply, target: Id)
    ensures Guards(reply, target) <==>
            if reply.Answer? then NamesReplacement(reply.value, target) else RefusesSecondTarget(reply)
    ensures SaysAlreadyLoaded(reply) <==> RefusesSecondTarget(reply)
  {
    if reply.Failed? {
      EndsWithIsSuffix(reply.detail, ": TargetAlreadyLoaded");
    }
  }

  /** How a close ends that is sent after `had` replies. */
  function CloseOutcome(script: seq<Reply>, had: nat): Result<(), Failure> {
    if had >= |script| then Err(TimedOut)
    else if script[had].Failed? then Err(Refused)
    else if Has(script[had].value, "success", Bool(true)) then Ok(())
    else Err(NotConfirmed)
  }

  /** The close itself, once it is due. */
  lemma CloseReads(target: Id, script: seq<Reply>, had: nat)
    requires had <= |script| && Decide(target, script[..had]) == Send(CloseTarget(target))
    requires had < |script| ==> Decide(target, script[..had + 1]) == DecideClose(target, [script[had]])
    ensures Drive(target, script, had) == ([CloseTarget(target)], CloseOutcome(script, had))
  {
    if had < |script| {
      assert Drive(target, script, had + 1) == ([], Decide(target, script[..had + 1]).outcome);
      assert [CloseTarget(target)] + [] == [CloseTarget(target)];
    }
  }

  lemma AnchoredReads(target: Id, script: seq<Reply>)
    requires IsAnchored(target, script)
    ensures Drive(target, script, 0).0 == [GetTargets, CloseTarget(target)]
    ensures EndsRightly(target, script, Drive(target, script, 0).0, Drive(target, script, 0).1)
  {
    ListsAnchorIsShown(script[0].value, target);
    assert script[..1][1..] == [];
    if |script| > 1 {
      assert script[..2][1..] == [script[1]];
    }
    CloseReads(target, script, 1);
  }

  lemma UnanchoredReads(target: Id, script: seq<Reply>)
    requires IsListed(script) && !IsAnchored(target, script)
    ensures Drive(target, script, 0).0 == Commands(target, script)
    ensures EndsRightly(target, script, Drive(target, script, 0).0, Drive(target, script, 0).1)
  {
    ListsAnchorIsShown(script[0].value, target);
    assert Decide(target, script[..1]) == Send(CreateAnchor);
    if |script| > 1 {
      GuardsIsDecided(script[1], target);
      assert script[..2][2..] == [];
      if Guards(script[1], target) {
        if |script| > 2 {
          assert script[..3][2..] == [script[2]];
        }
        CloseReads(target, script, 2);
      } else {
        assert Drive(target, script, 2).0 == [];
      }
    }
  }

  /** For every script of replies, and wherever the time runs out: what is sent,
      and how it ends. */
  lemma CloserReads(target: Id, script: seq<Reply>)
    ensures Drive(target, script, 0).0 == Commands(target, script)
    ensures EndsRightly(target, script, Drive(target, script, 0).0, Drive(target, script, 0).1)
  {
    if IsAnchored(target, script) {
      AnchoredReads(target, script);
    } else if IsListed(script) {
      UnanchoredReads(target, script);
    } else if |script| > 0 {
      assert script[..1] == [script[0]];
      assert Drive(target, script, 1).0 == [];
    }
  }

  /** A connection whose replies are scripted; past the script nothing answers in time. */
  class Channel {
    const script: seq<Reply>
    var sent: seq<Command>

    constructor (script: seq<Reply>)
      ensures this.script == script && sent == []
    {
      this.script := script;
      sent := [];
    }

    method Send(command: Command) returns (reply: Option<Reply>)
      modifies this
      ensures sent == old(sent) + [command]
      ensures reply == if |old(sent)| < |script| then Some(script[|old(sent)|]) else None
    {
      reply := if |sent| < |script| then Some(script[|sent|]) else None;
      sent := sent + [command];
    }
  }

  method CloseTargetPreservingBrowser(conn: Channel, targetId: Id) returns (outcome: Result<(), Failure>)
    requires conn.sent == []
    modifies conn
    ensures conn.sent == Commands(targetId, conn.script)
    ensures EndsRightly(targetId, conn.script, conn.sent, outcome)
  {
    var listed := conn.Send(GetTargets);
    if listed.None? { return Err(TimedOut); }
    if listed.value.Failed? { return Err(Refused); }
    var infos := Get(listed.value.value, "targetInfos");
    if infos.None? || !infos.value.Arr? { return Err(ListUnavailable); }
    var anchorExists := exists page :: page in infos.value.items && IsAnchorBeside(page, targetId);
    assert anchorExists == IsAnchored(targetId, conn.script) by {
      ListsAnchorIsShown(listed.value.value, targetId);
    }
    if !anchorExists {
      var created := conn.Send(CreateAnchor);
      if created.None? { return Err(TimedOut); }
      var guarded := RefusesSecondTarget(created.value);
      assert guarded == SaysAlreadyLoaded(created.value) by {
        GuardsIsDecided(created.value, targetId);
      }
      if created.value.Answer? {
        guarded := NamesReplacement(created.value.value, targetId);
      } else if !guarded {
        return Err(Refused);
      }
      if !guarded { return Err(NotGuarded); }
    }
    outcome := ConfirmedClose(conn, targetId);
  }

  /** The last step: the close, and whether its reply confirms it. */
  method ConfirmedClose(conn: Channel, targetId: Id) returns (outcome: Result<(), Failure>)
    modifies conn
    ensures conn.sent == old(conn.sent) + [CloseTarget(targetId)]
    ensures outcome == CloseOutcome(conn.script, |old(conn.sent)|)
  {
    var response := conn.Send(CloseTarget(targetId));
    if response.None? { return Err(TimedOut); }
    if response.value.Failed? { return Err(Refused); }
    if Get(response.value.value, "success") != Some(Bool(true)) { return Err(NotConfirmed); }
    return Ok(());
  }

  /** There is one way to end rightly, so the method does what a closer among many does. */
  lemma OneEnding(target: Id, script: seq<Reply>, outcome: Result<(), Failure>)
    requires EndsRightly(target, script, Commands(target, script), outcome)
    ensures (Commands(target, script), outcome) == Drive(target, script, 0)
  {
    CloserReads(target, script);
  }

  // ---- Many closers and one browser ----

  /** `flight`: a command the browser has yet to carry out. `inbox`: its reply,
      not yet read. `gone`: returned, timed out or cancelled; a command already
      sent may still be carried out. */
  datatype Closer = Closer(target: Id, replies: seq<Reply>, flight: Option<Command>, inbox: Option<Reply>, gone: bool)

  /** `named`: every id ever used or named, so that new ids are new. */
  datatype World = World(pages: map<Id, string>, named: set<Id>, closers: map<nat, Closer>)

  datatype Event =
    | Open(id: Id, url: string)                             // anyone opens a page
    | Navigate(id: Id, url: string)                         // a work page moves on
    | Start(c: nat, target: Id)
    | Transmit(c: nat)                                      // sends what it has decided
    | Execute(c: nat, reply: Reply, created: Option<Id>)    // the browser carries it out
    | Receive(c: nat)
    | Abandon(c: nat)

  /** Every page the reply lists exists and shows that URL. */
  predicate TruthfulListing(reply: Reply, pages: map<Id, string>) {
    reply.Answer? ==>
      match Get(reply.value, "targetInfos")
      case Some(Arr(infos)) =>
        forall page :: page in infos && AsStr(Get(page, "type")) == Some("page")
                       && AsStr(Get(page, "targetId")).Some? && AsStr(Get(page, "url")).Some?
                       ==> var id := AsStr(Get(page, "targetId")).value;
                           id in pages && pages[id] == AsStr(Get(page, "url")).value
      case _ => true
  }

  /** A browser that can host several pages: it never refuses a second one, and
      an id it answers with is the page it made. */
  predicate TruthfulCreation(reply: Reply, created: Option<Id>, named: set<Id>) {
    && !RefusesSecondTarget(reply)
    && (created.Some? ==> created.value !in named)
    && (reply.Answer? && AsStr(Get(reply.value, "targetId")).Some? && AsStr(Get(reply.value, "targetId")) != Some("")
        ==> created == AsStr(Get(reply.value, "targetId")))
  }

  predicate CanHappen(w: World, e: Event) {
    match e
    case Open(id, _) => id !in w.named
    case Navigate(id, url) => id in w.pages && w.pages[id] != ANCHOR_URL && url != ANCHOR_URL
    case Start(c, target) => c !in w.closers && !(target in w.pages && w.pages[target] == ANCHOR_URL)
    case Transmit(c) =>
      && c in w.closers && !w.closers[c].gone && w.closers[c].flight.None? && w.closers[c].inbox.None?
      && Decide(w.closers[c].target, w.closers[c].replies).Send?
    case Execute(c, reply, created) =>
      && c in w.closers && w.closers[c].flight.Some?
      && (match w.closers[c].flight.value
          case GetTargets => TruthfulListing(reply, w.pages)
          case CreateAnchor => TruthfulCreation(reply, created, w.named)
          case CloseTarget(_) => true)
    case Receive(c) => c in w.closers && !w.closers[c].gone && w.closers[c].inbox.Some?
    case Abandon(c) => c in w.closers
  }

  function Happen(w: World, e: Event): World
    requires CanHappen(w, e)
  {
    match e
    case Open(id, url) => w.(pages := w.pages[id := url], named := w.named + {id})
    case Navigate(id, url) => w.(pages := w.pages[id := url])
    case Start(c, target) =>
      w.(named := w.named + {target}, closers := w.closers[c := Closer(target, [], None, None, false)])
    case Transmit(c) =>
      var k := w.closers[c];
      w.(closers := w.closers[c := k.(flight := Some(Decide(k.target, k.replies).command))])
    case Execute(c, reply, created) =>
      var k := w.closers[c];
      var answered := w.(closers := w.closers[c := k.(flight := None, inbox := Some(reply))]);
      (match k.flight.value
       case GetTargets => answered
       case CreateAnchor =>
         if created.Some?
         then answered.(pages := w.pages[created.value := ANCHOR_URL], named := w.named + {created.value})
         else answered
       case CloseTarget(id) => answered.(pages := w.pages - {id}))
    case Receive(c) =>
      var k := w.closers[c];
      w.(closers := w.closers[c := k.(replies := k.replies + [k.inbox.value], inbox := None)])
    case Abandon(c) => w.(closers := w.closers[c := w.closers[c].(gone := true)])
  }

  /** The world after `events`, from a browser showing `pages`. */
  function WorldAfter(pages: map<Id, string>, events: seq<Event>): Option<World> {
    if events == [] then Some(World(pages, pages.Keys, map[]))
    else
      match WorldAfter(pages, Init(events))
      case Some(w) => if CanHappen(w, Last(events)) then Some(Happen(w, Last(events))) else None
      case None => None
  }

  // ---- The invariant every closer relies on and keeps ----

  ghost predicate AnchorBeside(pages: map<Id, string>, target: Id) {
    exists id :: id in pages && id != target && pages[id] == ANCHOR_URL
  }

  /** The replies this closer has had or is about to read. */
  function Known(k: Closer): seq<Reply> {
    k.replies + (if k.inbox.Some? then [k.inbox.value] else [])
  }

  predicate MayClose(k: Closer) {
    || k.flight == Some(CloseTarget(k.target))
    || (k.flight.None? && Decide(k.target, Known(k)) == Send(CloseTarget(k.target)))
  }

  ghost predicate CloserInv(w: World, k: Closer) {
    && k.target in w.named
    && (k.target in w.pages ==> w.pages[k.target] != ANCHOR_URL)
    && (k.flight.Some? ==> k.inbox.None? && Decide(k.target, k.replies) == Send(k.flight.value))
    && (MayClose(k) ==> AnchorBeside(w.pages, k.target))
  }

  ghost predicate WorldInv(w: World) {
    && w.pages != map[] && w.pages.Keys <= w.named
    && forall c :: c in w.closers ==> CloserInv(w, w.closers[c])
  }

  lemma DecidesOwnTarget(target: Id, replies: seq<Reply>)
    ensures Decide(target, replies).Send? && Decide(target, replies).command.CloseTarget?
            ==> Decide(target, replies).command.id == target
  {
  }

  /** The guarantee: no event removes or renames an anchor. */
  lemma EventsKeepAnchors(w: World, e: Event, id: Id)
    requires WorldInv(w) && CanHappen(w, e) && id in w.pages && w.pages[id] == ANCHOR_URL
    ensures id in Happen(w, e).pages && Happen(w, e).pages[id] == ANCHOR_URL
  {
    if e.Execute? {
      DecidesOwnTarget(w.closers[e.c].target, w.closers[e.c].replies);
    }
  }

  lemma AnchorBesideStays(w: World, e: Event, target: Id)
    requires WorldInv(w) && CanHappen(w, e) && AnchorBeside(w.pages, target)
    ensures AnchorBeside(Happen(w, e).pages, target)
  {
    var id :| id in w.pages && id != target && w.pages[id] == ANCHOR_URL;
    EventsKeepAnchors(w, e, id);
  }

  lemma ListingIsReal(reply: Reply, pages: map<Id, string>, target: Id)
    requires TruthfulListing(reply, pages) && reply.Answer? && ListsAnchor(reply.value, target)
    ensures AnchorBeside(pages, target)
  {
    var page :| page in Get(reply.value, "targetInfos").value.items && IsAnchorBeside(page, target);
    var id := AsStr(Get(page, "targetId")).value;
    assert id in pages && pages[id] == ANCHOR_URL;
  }

  lemma DecidedByListing(k: Closer, reply: Reply)
    requires Decide(k.target, k.replies) == Send(GetTargets)
    ensures k.replies == []
    ensures Decide(k.target, [reply]) == Send(CloseTarget(k.target))
            ==> reply.Answer? && ListsAnchor(reply.value, k.target)
  {
  }

  lemma DecidedByCreation(k: Closer, reply: Reply)
    requires Decide(k.target, k.replies) == Send(CreateAnchor)
    ensures Decide(k.target, k.replies + [reply]) == Send(CloseTarget(k.target)) && !RefusesSecondTarget(reply)
            ==> reply.Answer? && NamesReplacement(reply.value, k.target)
  {
    assert |k.replies| == 1 && (k.replies + [reply])[1] == reply && (k.replies + [reply])[0] == k.replies[0];
  }

  /** A truthful listing that shows an anchor, or a truthful creation that
      names one, leaves an anchor standing. */
  lemma GuardIsReal(w: World, e: Event)
    requires WorldInv(w) && CanHappen(w, e) && e.Execute? && !w.closers[e.c].flight.value.CloseTarget?
    requires MayClose(Happen(w, e).closers[e.c])
    ensures AnchorBeside(Happen(w, e).pages, w.closers[e.c].target)
  {
    var k := w.closers[e.c];
    assert Known(Happen(w, e).closers[e.c]) == k.replies + [e.reply];
    if k.flight.value.GetTargets? {
      DecidedByListing(k, e.reply);
      assert k.replies + [e.reply] == [e.reply];
      ListingIsReal(e.reply, w.pages, k.target);
    } else {
      DecidedByCreation(k, e.reply);
      var id := e.created.value;
      assert Happen(w, e).pages[id] == ANCHOR_URL && id != k.target;
    }
  }

  lemma OthersKeepCloser(w: World, e: Event, c: nat)
    requires WorldInv(w) && CanHappen(w, e) && c in w.closers && Happen(w, e).closers[c] == w.closers[c]
    ensures CloserInv(Happen(w, e), w.closers[c])
  {
    var k := w.closers[c];
    if MayClose(k) {
      AnchorBesideStays(w, e, k.target);
    }
  }

  lemma OwnStepKeepsCloser(w: World, e: Event, c: nat)
    requires WorldInv(w) && CanHappen(w, e)
    requires c in Happen(w, e).closers && (c !in w.closers || Happen(w, e).closers[c] != w.closers[c])
    ensures CloserInv(Happen(w, e), Happen(w, e).closers[c])
  {
    var k' := Happen(w, e).closers[c];
    if c in w.closers {
      var k := w.closers[c];
      DecidesOwnTarget(k.target, k.replies);
      if MayClose(k) {
        AnchorBesideStays(w, e, k.target);
      }
      match e
      case Execute(_, reply, _) =>
        if MayClose(k') {
          if k.flight.value.CloseTarget? {
            assert AnchorBeside(w.pages, k.target);
          } else {
            GuardIsReal(w, e);
          }
        }
      case Receive(_) => assert Known(k') == Known(k);
      case Transmit(_) => assert Known(k) == k.replies;
      case Abandon(_) => assert Known(k') == Known(k);
    } else {
      assert Known(k') == [];
    }
  }

  lemma PagesRemain(w: World, e: Event)
    requires WorldInv(w) && CanHappen(w, e)
    ensures Happen(w, e).pages != map[] && Happen(w, e).pages.Keys <= Happen(w, e).named
  {
    if e.Execute? && w.closers[e.c].flight.value.CloseTarget? {
      var k := w.closers[e.c];
      DecidesOwnTarget(k.target, k.replies);
      AnchorBesideStays(w, e, k.target);
    } else {
      var id :| id in w.pages;
      assert id in Happen(w, e).pages;
    }
  }

  lemma EventKeepsInv(w: World, e: Event)
    requires WorldInv(w) && CanHappen(w, e)
    ensures WorldInv(Happen(w, e))
  {
    PagesRemain(w, e);
    forall c | c in Happen(w, e).closers ensures CloserInv(Happen(w, e), Happen(w, e).closers[c]) {
      if c in w.closers && Happen(w, e).closers[c] == w.closers[c] {
        OthersKeepCloser(w, e, c);
      } else {
        OwnStepKeepsCloser(w, e, c);
      }
    }
  }

  lemma {:induction false} RunKeepsInv(pages: map<Id, string>, events: seq<Event>)
    requires pages != map[] && WorldAfter(pages, events).Some?
    ensures WorldInv(WorldAfter(pages, events).value)
  {
    if events != [] {
      RunKeepsInv(pages, Init(events));
      EventKeepsInv(WorldAfter(pages, Init(events)).value, Last(events));
    }
  }

  // ---- The promises ----

  /** However the closers interleave, and wherever they are cut off, the
      browser is never left without a page. */
  lemma LastPageSurvives(pages: map<Id, string>, events: seq<Event>)
    requires pages != map[] && WorldAfter(pages, events).Some?
    ensures WorldAfter(pages, events).value.pages != map[]
  {
    RunKeepsInv(pages, events);
  }

  /** Whenever a closer sends its close, and still when the browser carries it
      out, an anchor other than its target is open. */
  lemma ClosesOnlyBesideAnAnchor(pages: map<Id, string>, events: seq<Event>, e: Event)
    requires pages != map[] && WorldAfter(pages, events).Some? && CanHappen(WorldAfter(pages, events).value, e)
    ensures var w := WorldAfter(pages, events).value;
            && (e.Transmit? && Happen(w, e).closers[e.c].flight.value.CloseTarget?
                ==> AnchorBeside(w.pages, w.closers[e.c].target))
            && (e.Execute? && w.closers[e.c].flight.value.CloseTarget?
                ==> w.closers[e.c].flight.value.id == w.closers[e.c].target
                    && AnchorBeside(Happen(w, e).pages, w.closers[e.c].target))
  {
    RunKeepsInv(pages, events);
    var w := WorldAfter(pages, events).value;
    if e.Transmit? {
      var k := w.closers[e.c];
      assert Known(k) == k.replies;
      DecidesOwnTarget(k.target, k.replies);
    } else if e.Execute? && w.closers[e.c].flight.value.CloseTarget? {
      var k := w.closers[e.c];
      DecidesOwnTarget(k.target, k.replies);
      AnchorBesideStays(w, e, k.target);
    }
  }
}
