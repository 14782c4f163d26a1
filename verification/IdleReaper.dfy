/** The idle-tab reaper: per-target clocks run over what each sweep sees. */
module IdleReaper {

  import opened Wrappers
  import opened JsonValue
  import opened Sequences
  import opened TargetLedger

  // ---- Pure parts ----

  /** Durations and instants in nanoseconds. */
  const MILLISECOND: nat := 1_000_000
  const MIN_INTERVAL: nat := 500 * MILLISECOND
  const MAX_INTERVAL: nat := 60_000 * MILLISECOND

  function SweepInterval(idleTimeout: nat): nat {
    var third := idleTimeout / 3;
    if third < MIN_INTERVAL then MIN_INTERVAL
    else if third > MAX_INTERVAL then MAX_INTERVAL
    else third
  }

  predicate IsReapableUrl(url: string) {
    "http://" <= url || "https://" <= url
  }

  datatype Page = Page(id: Target, url: string)

  function StrOrEmpty(v: Json, key: string): string {
    match AsStr(Get(v, key))
    case Some(s) => s
    case None => ""
  }

  /** The page targets with an id, in listing order. */
  function PagesIn(infos: seq<Json>): seq<Page> {
    if infos == [] then []
    else
      var info := Last(infos);
      PagesIn(Init(infos)) +
      (if AsStr(Get(info, "type")) == Some("page") && StrOrEmpty(info, "targetId") != ""
       then [Page(StrOrEmpty(info, "targetId"), StrOrEmpty(info, "url"))] else [])
  }

  function PageTargets(response: Json): seq<Page> {
    match Get(response, "targetInfos")
    case Some(Arr(infos)) => PagesIn(infos)
    case _ => []
  }

  // ---- What one sweep sees, and what it does ----

  /** `closable`: the ids whose close, if asked for, succeeds. */
  datatype Listing = Unavailable | Listed(now: int, response: Json, closable: set<Target>)

  datatype Sight =
    | NoProfile
    | CredentialLive
    | Browser(wsUrl: string, drivers: nat, orphans: set<Target>, listing: Listing)

  datatype Clocks = Clocks(wsUrl: string, idleSince: map<Target, int>)

  /** The clocks after a sweep, the targets it asked to close, and the listing it pruned orphans by. */
  datatype SweepEffect = SweepEffect(clocks: Clocks, expired: seq<Target>, seen: Option<set<Target>>)

  const NO_CLOCKS := Clocks("", map[])

  predicate Spared(s: Sight, page: Page)
    requires s.Browser?
  {
    !IsReapableUrl(page.url) || (s.drivers > 0 && page.id !in s.orphans)
  }

  function Ids(pages: seq<Page>): set<Target> {
    set p | p in pages :: p.id
  }

  /** The clocks and the expired targets after the first pages of a listing. */
  function Scan(s: Sight, idle: map<Target, int>, pages: seq<Page>, now: int, timeout: nat)
    : (map<Target, int>, seq<Target>)
    requires s.Browser?
  {
    if pages == [] then (idle, [])
    else
      var (clocks, expired) := Scan(s, idle, Init(pages), now, timeout);
      var page := Last(pages);
      if Spared(s, page) then (clocks - {page.id}, expired)
      else
        var since := if page.id in clocks then clocks[page.id] else now;
        (clocks[page.id := since], if now - since >= timeout then expired + [page.id] else expired)
  }

  function SweepOf(clocks: Clocks, s: Sight, timeout: nat): SweepEffect {
    match s
    case NoProfile => SweepEffect(clocks.(idleSince := map[]), [], None)
    case CredentialLive => SweepEffect(clocks.(idleSince := map[]), [], None)
    case Browser(wsUrl, drivers, orphans, listing) =>
      var idle := if clocks.wsUrl != wsUrl then map[] else clocks.idleSince;
      if drivers > 0 && orphans == {} then SweepEffect(Clocks(wsUrl, map[]), [], None)
      else
        match listing
        case Unavailable => SweepEffect(Clocks(wsUrl, idle), [], None)
        case Listed(now, response, closable) =>
          var pages := PageTargets(response);
          var (scanned, expired) := Scan(s, idle, pages, now, timeout);
          var kept := map t | t in scanned && t in Ids(pages) :: scanned[t];
          SweepEffect(Clocks(wsUrl, kept - (set t | t in expired && t in closable)), expired, Some(Ids(pages)))
  }

  class Tracker {
    var wsUrl: string
    var idleSince: map<Target, int>

    ghost function State(): Clocks
      reads this
    {
      Clocks(wsUrl, idleSince)
    }

    constructor ()
      ensures State() == NO_CLOCKS
    {
      wsUrl, idleSince := "", map[];
    }

    method Sweep(s: Sight, idleTimeout: nat) returns (closeRequests: seq<Target>, seen: Option<set<Target>>)
      modifies this
      ensures SweepEffect(State(), closeRequests, seen) == SweepOf(old(State()), s, idleTimeout)
    {
      closeRequests, seen := [], None;
      if s.NoProfile? || s.CredentialLive? {
        idleSince := map[];
        return;
      }
      if wsUrl != s.wsUrl {
        idleSince := map[];
        wsUrl := s.wsUrl;
      }
      var driverConnected := s.drivers > 0;
      if driverConnected && s.orphans == {} {
        idleSince := map[];
        return;
      }
      if s.listing.Unavailable? {
        return;
      }
      var pages := PageTargets(s.listing.response);
      var expired := ScanPages(s, pages, s.listing.now, idleTimeout);
      idleSince := map t | t in idleSince && t in Ids(pages) :: idleSince[t];
      CloseExpired(expired, s.listing.closable);
      closeRequests, seen := expired, Some(Ids(pages));
    }

    method ScanPages(s: Sight, pages: seq<Page>, now: int, idleTimeout: nat) returns (expired: seq<Target>)
      requires s.Browser?
      modifies this`idleSince
      ensures (idleSince, expired) == Scan(s, old(idleSince), pages, now, idleTimeout)
    {
      expired := [];
      for i := 0 to |pages|
        invariant (idleSince, expired) == Scan(s, old(idleSince), pages[..i], now, idleTimeout)
      {
        var target := pages[i];
        assert Init(pages[..i + 1]) == pages[..i] && Last(pages[..i + 1]) == target;
        if !IsReapableUrl(target.url) || (s.drivers > 0 && target.id !in s.orphans) {
          idleSince := idleSince - {target.id};
        } else {
          var since := if target.id in idleSince then idleSince[target.id] else now;
          idleSince := idleSince[target.id := since];
          if now - since >= idleTimeout {
            expired := expired + [target.id];
          }
        }
      }
      assert pages[..|pages|] == pages;
    }

    method CloseExpired(expired: seq<Target>, closable: set<Target>)
      modifies this`idleSince
      ensures idleSince == old(idleSince) - (set t | t in expired && t in closable)
    {
      for i := 0 to |expired|
        invariant idleSince == old(idleSince) - (set t | t in expired[..i] && t in closable)
      {
        if expired[i] in closable {
          idleSince := idleSince - {expired[i]};
        }
      }
      assert expired[..|expired|] == expired;
    }
  }

  // ---- Whole sweep histories ----

  predicate IsListed(s: Sight) {
    s.Browser? && s.listing.Listed?
  }

  /** When the sweep obtained its listing. */
  function ListedAt(s: Sight): int {
    if IsListed(s) then s.listing.now else 0
  }

  function ClocksAfter(history: seq<Sight>, timeout: nat): Clocks {
    if history == [] then NO_CLOCKS
    else SweepOf(ClocksAfter(Init(history), timeout), Last(history), timeout).clocks
  }

  /** The targets sweep `n` asked to close. */
  function CloseRequests(history: seq<Sight>, n: nat, timeout: nat): seq<Target>
    requires n < |history|
  {
    SweepOf(ClocksAfter(history[..n], timeout), history[n], timeout).expired
  }

  /** The sweep listed `t` as a web page that was orphaned or had no driver about. */
  ghost predicate SeesIdle(s: Sight, t: Target) {
    s.Browser? && s.listing.Listed? && (s.drivers == 0 || t in s.orphans)
    && exists page :: page in PageTargets(s.listing.response) && page.id == t && IsReapableUrl(page.url)
  }

  /** Nothing in this sweep speaks for `t` being in use. */
  ghost predicate LeavesIdle(s: Sight, t: Target, wsUrl: string) {
    && s.Browser? && s.wsUrl == wsUrl
    && !(s.drivers > 0 && s.orphans == {})
    && (s.listing.Listed? ==> SeesIdle(s, t))
  }

  /** Sweep `k` asked to close `t`, and the close succeeded. */
  ghost predicate Closes(history: seq<Sight>, k: nat, timeout: nat, t: Target)
    requires k < |history|
  {
    t in CloseRequests(history, k, timeout) && IsListed(history[k]) && t in history[k].listing.closable
  }

  /** `t`'s clock was started at sweep `m`; every sweep of `history` since left it idle and none closed it. */
  ghost predicate IdleSinceSweep(history: seq<Sight>, m: nat, timeout: nat, t: Target, wsUrl: string) {
    && m < |history| && SeesIdle(history[m], t)
    && forall k :: m <= k < |history| ==> LeavesIdle(history[k], t, wsUrl) && !Closes(history, k, timeout, t)
  }

  lemma {:induction false} ScanTouchesOnlyIdle(
    s: Sight, idle: map<Target, int>, pages: seq<Page>, now: int, timeout: nat, t: Target)
    requires s.Browser?
    ensures var (clocks, expired) := Scan(s, idle, pages, now, timeout);
            var good := exists page :: page in pages && page.id == t && !Spared(s, page);
            && (t in clocks ==> (t in idle && clocks[t] == idle[t]) || (clocks[t] == now && good))
            && (t in clocks && t in Ids(pages) ==> good)
            && (t in expired && timeout > 0 ==> good && t in idle && now - idle[t] >= timeout)
  {
    if pages != [] {
      ScanTouchesOnlyIdle(s, idle, Init(pages), now, timeout, t);
      assert forall page :: page in pages <==> page in Init(pages) || page == Last(pages);
    }
  }

  lemma ClockStep(history: seq<Sight>, timeout: nat, t: Target)
    requires history != [] && timeout > 0
    requires t in ClocksAfter(history, timeout).idleSince
    ensures Last(history).Browser? && ClocksAfter(history, timeout).wsUrl == Last(history).wsUrl
    ensures LeavesIdle(Last(history), t, Last(history).wsUrl)
    ensures !Closes(history, |history| - 1, timeout, t)
    ensures var before := ClocksAfter(Init(history), timeout);
            var since := ClocksAfter(history, timeout).idleSince[t];
            || (before.wsUrl == Last(history).wsUrl && t in before.idleSince && before.idleSince[t] == since)
            || (SeesIdle(Last(history), t) && ListedAt(Last(history)) == since)
  {
    var s := Last(history);
    var before := ClocksAfter(Init(history), timeout);
    var idle := if before.wsUrl != s.wsUrl then map[] else before.idleSince;
    assert history[..|history| - 1] == Init(history);
    if s.listing.Listed? {
      ScanTouchesOnlyIdle(s, idle, PageTargets(s.listing.response), s.listing.now, timeout, t);
    }
  }

  lemma IdleSpanGrows(history: seq<Sight>, m: nat, timeout: nat, t: Target, wsUrl: string)
    requires history != [] && LeavesIdle(Last(history), t, wsUrl) && !Closes(history, |history| - 1, timeout, t)
    requires if m == |history| - 1 then SeesIdle(Last(history), t)
             else IdleSinceSweep(Init(history), m, timeout, t, wsUrl)
    ensures IdleSinceSweep(history, m, timeout, t, wsUrl)
  {
    forall k | m <= k < |history| - 1
      ensures LeavesIdle(history[k], t, wsUrl) && !Closes(history, k, timeout, t)
    {
      assert history[k] == Init(history)[k] && history[..k] == Init(history)[..k];
      assert LeavesIdle(Init(history)[k], t, wsUrl) && !Closes(Init(history), k, timeout, t);
    }
  }

  /** Every running clock was started by an earlier sweep that saw the target
      idle, and nothing seen since disturbs it. */
  lemma {:induction false} ClocksAreJustified(history: seq<Sight>, timeout: nat, t: Target) returns (m: nat)
    requires timeout > 0 && t in ClocksAfter(history, timeout).idleSince
    ensures IdleSinceSweep(history, m, timeout, t, ClocksAfter(history, timeout).wsUrl)
    ensures ListedAt(history[m]) == ClocksAfter(history, timeout).idleSince[t]
  {
    ClockStep(history, timeout, t);
    var s := Last(history);
    var before := ClocksAfter(Init(history), timeout);
    var since := ClocksAfter(history, timeout).idleSince[t];
    if before.wsUrl == s.wsUrl && t in before.idleSince && before.idleSince[t] == since {
      m := ClocksAreJustified(Init(history), timeout, t);
    } else {
      m := |history| - 1;
    }
    IdleSpanGrows(history, m, timeout, t, s.wsUrl);
  }

  /** Safety: a target is asked to close only after a clock that an earlier sweep started ran out. */
  lemma CloseIsJustified(history: seq<Sight>, n: nat, timeout: nat, t: Target) returns (m: nat)
    requires timeout > 0 && n < |history| && t in CloseRequests(history, n, timeout)
    ensures m < n && history[n].Browser? && history[n].listing.Listed?
    ensures IdleSinceSweep(history[..n], m, timeout, t, history[n].wsUrl)
    ensures LeavesIdle(history[n], t, history[n].wsUrl)
    ensures ListedAt(history[n]) - ListedAt(history[m]) >= timeout
  {
    var before := ClocksAfter(history[..n], timeout);
    var s := history[n];
    var idle := if before.wsUrl != s.wsUrl then map[] else before.idleSince;
    ScanTouchesOnlyIdle(s, idle, PageTargets(s.listing.response), s.listing.now, timeout, t);
    m := ClocksAreJustified(history[..n], timeout, t);
    assert history[m] == history[..n][m];
  }

  // ---- One sweep, read off what it saw ----

  /** An entry of a listing for the page `t`. */
  predicate IsPage(info: Json, t: Target) {
    t != "" && Has(info, "type", Str("page")) && Has(info, "targetId", Str(t))
  }

  predicate IsOnWeb(info: Json) {
    info.Obj? && "url" in info.fields && info.fields["url"].Str?
    && ("http://" <= info.fields["url"].s || "https://" <= info.fields["url"].s)
  }

  function Infos(response: Json): seq<Json> {
    if response.Obj? && "targetInfos" in response.fields && response.fields["targetInfos"].Arr?
    then response.fields["targetInfos"].items else []
  }

  ghost predicate IsListedIn(infos: seq<Json>, t: Target) {
    exists k :: 0 <= k < |infos| && IsPage(infos[k], t)
  }

  ghost predicate IsFirst(infos: seq<Json>, t: Target, k: nat) {
    k < |infos| && IsPage(infos[k], t) && forall j :: 0 <= j < k ==> !IsPage(infos[j], t)
  }

  ghost predicate IsLast(infos: seq<Json>, t: Target, k: nat) {
    k < |infos| && IsPage(infos[k], t) && forall j :: k < j < |infos| ==> !IsPage(infos[j], t)
  }

  /** The first entry for `t` is on the web. */
  ghost predicate FirstOnWeb(infos: seq<Json>, t: Target) {
    exists k: nat :: IsFirst(infos, t, k) && IsOnWeb(infos[k])
  }

  ghost predicate LastOnWeb(infos: seq<Json>, t: Target) {
    exists k: nat :: IsLast(infos, t, k) && IsOnWeb(infos[k])
  }

  ghost predicate AlwaysOnWeb(infos: seq<Json>, t: Target) {
    forall k :: 0 <= k < |infos| && IsPage(infos[k], t) ==> IsOnWeb(infos[k])
  }

  /** No driver is about, or the tab's own is gone for good. */
  predicate Undriven(s: Sight, t: Target) {
    s.Browser? && (s.drivers == 0 || t in s.orphans)
  }

  /** A driver is about, and it may be any tab's. */
  predicate AllDriven(s: Sight) {
    s.Browser? && s.drivers > 0 && s.orphans == {}
  }

  lemma ListedStep(infos: seq<Json>, t: Target)
    requires infos != []
    ensures IsListedIn(infos, t) <==> IsListedIn(Init(infos), t) || IsPage(Last(infos), t)
  {
    assert forall k :: 0 <= k < |infos| - 1 ==> Init(infos)[k] == infos[k];
    assert infos[|infos| - 1] == Last(infos);
  }

  lemma FirstStep(infos: seq<Json>, t: Target)
    requires infos != []
    ensures FirstOnWeb(infos, t) <==>
            FirstOnWeb(Init(infos), t)
            || (!IsListedIn(Init(infos), t) && IsPage(Last(infos), t) && IsOnWeb(Last(infos)))
  {
    var before, n := Init(infos), |infos| - 1;
    assert forall k :: 0 <= k < n ==> before[k] == infos[k];
    forall k: nat | IsFirst(before, t, k) ensures IsFirst(infos, t, k) {
    }
    forall k: nat | IsFirst(infos, t, k) && k < n ensures IsFirst(before, t, k) {
    }
    if !IsListedIn(before, t) && IsPage(Last(infos), t) {
      assert IsFirst(infos, t, n);
    }
  }

  lemma LastStep(infos: seq<Json>, t: Target)
    requires infos != []
    ensures LastOnWeb(infos, t) <==> if IsPage(Last(infos), t) then IsOnWeb(Last(infos)) else LastOnWeb(Init(infos), t)
  {
    var before, n := Init(infos), |infos| - 1;
    assert forall k :: 0 <= k < n ==> before[k] == infos[k];
    if IsPage(Last(infos), t) {
      assert IsLast(infos, t, n);
    } else {
      forall k: nat ensures IsLast(before, t, k) <==> IsLast(infos, t, k) {
      }
    }
  }

  lemma AlwaysStep(infos: seq<Json>, t: Target)
    requires infos != []
    ensures AlwaysOnWeb(infos, t) <==> AlwaysOnWeb(Init(infos), t) && (IsPage(Last(infos), t) ==> IsOnWeb(Last(infos)))
  {
    assert forall k :: 0 <= k < |infos| - 1 ==> Init(infos)[k] == infos[k];
    assert infos[|infos| - 1] == Last(infos);
  }

  lemma EntriesStep(infos: seq<Json>, t: Target)
    requires infos != []
    ensures var before, info := Init(infos), Last(infos);
            && (IsListedIn(infos, t) <==> IsListedIn(before, t) || IsPage(info, t))
            && (FirstOnWeb(infos, t) <==>
                  FirstOnWeb(before, t) || (!IsListedIn(before, t) && IsPage(info, t) && IsOnWeb(info)))
            && (LastOnWeb(infos, t) <==> if IsPage(info, t) then IsOnWeb(info) else LastOnWeb(before, t))
            && (AlwaysOnWeb(infos, t) <==> AlwaysOnWeb(before, t) && (IsPage(info, t) ==> IsOnWeb(info)))
  {
    ListedStep(infos, t);
    FirstStep(infos, t);
    LastStep(infos, t);
    AlwaysStep(infos, t);
  }

  /** What one entry adds to the pages that are scanned. */
  lemma PagesStep(infos: seq<Json>, t: Target)
    requires infos != []
    ensures var before, pages, info := PagesIn(Init(infos)), PagesIn(infos), Last(infos);
            || (pages == before && !IsPage(info, t))
            || (pages != [] && Init(pages) == before && (Last(pages).id == t <==> IsPage(info, t))
                && (IsPage(info, t) ==> (IsReapableUrl(Last(pages).url) <==> IsOnWeb(info))))
  {
  }

  ghost predicate Scanned(s: Sight, idle: map<Target, int>, infos: seq<Json>, now: int, timeout: nat, t: Target)
    requires s.Browser?
  {
    var (clocks, expired) := Scan(s, idle, PagesIn(infos), now, timeout);
    && (t in expired <==> Undriven(s, t) && FirstOnWeb(infos, t) && t in idle && now - idle[t] >= timeout)
    && (t in clocks <==> if IsListedIn(infos, t) then Undriven(s, t) && LastOnWeb(infos, t) else t in idle)
    && (t in clocks ==> clocks[t] == if t in idle && AlwaysOnWeb(infos, t) then idle[t] else now)
  }

  lemma ScanStep(s: Sight, idle: map<Target, int>, pages: seq<Page>, now: int, timeout: nat, t: Target)
    requires s.Browser? && pages != []
    ensures var (clocks, expired) := Scan(s, idle, Init(pages), now, timeout);
            var (after, more) := Scan(s, idle, pages, now, timeout);
            var page := Last(pages);
            if page.id != t then
              (t in after <==> t in clocks) && (t in after ==> after[t] == clocks[t]) && (t in more <==> t in expired)
            else if Spared(s, page) then t !in after && (t in more <==> t in expired)
            else
              && t in after && after[t] == (if t in clocks then clocks[t] else now)
              && (t in more <==> t in expired || now - after[t] >= timeout)
  {
  }

  lemma {:induction false} ScanReads(
    s: Sight, idle: map<Target, int>, infos: seq<Json>, now: int, timeout: nat, t: Target)
    requires s.Browser? && timeout > 0
    ensures Scanned(s, idle, infos, now, timeout, t)
  {
    if infos != [] {
      ScanReads(s, idle, Init(infos), now, timeout, t);
      PagesStep(infos, t);
      if IsPage(Last(infos), t) {
        OwnEntry(s, idle, infos, now, timeout, t);
      } else {
        OtherEntry(s, idle, infos, now, timeout, t);
      }
    }
  }

  lemma OtherEntry(s: Sight, idle: map<Target, int>, infos: seq<Json>, now: int, timeout: nat, t: Target)
    requires s.Browser? && infos != [] && !IsPage(Last(infos), t) && Scanned(s, idle, Init(infos), now, timeout, t)
    ensures Scanned(s, idle, infos, now, timeout, t)
  {
    EntriesStep(infos, t);
    PagesStep(infos, t);
    if PagesIn(infos) != PagesIn(Init(infos)) {
      ScanStep(s, idle, PagesIn(infos), now, timeout, t);
    }
  }

  lemma OwnEntry(s: Sight, idle: map<Target, int>, infos: seq<Json>, now: int, timeout: nat, t: Target)
    requires s.Browser? && timeout > 0 && infos != [] && IsPage(Last(infos), t)
    requires Scanned(s, idle, Init(infos), now, timeout, t)
    ensures Scanned(s, idle, infos, now, timeout, t)
  {
    EntriesStep(infos, t);
    PagesStep(infos, t);
    ScanStep(s, idle, PagesIn(infos), now, timeout, t);
    ListedHasEnds(Init(infos), t);
  }

  lemma {:induction false} ListedHasEnds(infos: seq<Json>, t: Target)
    ensures FirstOnWeb(infos, t) ==> IsListedIn(infos, t)
    ensures IsListedIn(infos, t) && AlwaysOnWeb(infos, t) ==> FirstOnWeb(infos, t) && LastOnWeb(infos, t)
  {
    if infos != [] {
      ListedHasEnds(Init(infos), t);
      EntriesStep(infos, t);
    }
  }

  lemma {:induction false} IdsAreListed(infos: seq<Json>, t: Target)
    ensures t in Ids(PagesIn(infos)) <==> IsListedIn(infos, t)
  {
    if infos != [] {
      IdsAreListed(Init(infos), t);
      EntriesStep(infos, t);
      PagesStep(infos, t);
      var pages := PagesIn(infos);
      assert pages != [] ==> pages == Init(pages) + [Last(pages)];
    }
  }

  lemma PagesOfInfos(response: Json)
    ensures PageTargets(response) == PagesIn(Infos(response))
  {
  }

  /** Exactly when a sweep asks to close `t`, in either of the two cases in which
      nobody drives it: its entry is on the web, and a clock kept for this
      browser is a timeout old. (Of several entries for `t` the first decides.) */
  lemma ClosesExactlyWhen(before: Clocks, s: Sight, timeout: nat, t: Target)
    requires timeout > 0
    ensures t in SweepOf(before, s, timeout).expired <==>
            && IsListed(s) && Undriven(s, t) && FirstOnWeb(Infos(s.listing.response), t)
            && before.wsUrl == s.wsUrl && t in before.idleSince && s.listing.now - before.idleSince[t] >= timeout
  {
    if IsListed(s) {
      var idle := if before.wsUrl != s.wsUrl then map[] else before.idleSince;
      PagesOfInfos(s.listing.response);
      ScanReads(s, idle, Infos(s.listing.response), s.listing.now, timeout, t);
    }
  }

  /** Which clocks run after a sweep, and since when. */
  lemma ClocksExactly(before: Clocks, s: Sight, timeout: nat, t: Target)
    requires timeout > 0
    ensures var effect := SweepOf(before, s, timeout);
            var after := effect.clocks;
            var running := s.Browser? && before.wsUrl == s.wsUrl && t in before.idleSince;
            && after.wsUrl == (if s.Browser? then s.wsUrl else before.wsUrl)
            && (t in after.idleSince <==>
                  s.Browser? && !AllDriven(s)
                  && match s.listing
                     case Unavailable => running
                     case Listed(_, response, closable) =>
                       Undriven(s, t) && LastOnWeb(Infos(response), t) && !(t in effect.expired && t in closable))
            && (t in after.idleSince ==>
                  after.idleSince[t] ==
                  if running && (IsListed(s) ==> AlwaysOnWeb(Infos(s.listing.response), t))
                  then before.idleSince[t] else ListedAt(s))
  {
    if IsListed(s) {
      var idle := if before.wsUrl != s.wsUrl then map[] else before.idleSince;
      PagesOfInfos(s.listing.response);
      ScanReads(s, idle, Infos(s.listing.response), s.listing.now, timeout, t);
      IdsAreListed(Infos(s.listing.response), t);
      LastIsListed(Infos(s.listing.response), t);
    }
  }

  lemma LastIsListed(infos: seq<Json>, t: Target)
    ensures LastOnWeb(infos, t) ==> IsListedIn(infos, t)
  {
  }

  /** What a sweep reports as seen, which is what orphans are pruned by: the pages it listed, if it listed any. */
  lemma SeenExactly(before: Clocks, s: Sight, timeout: nat, t: Target)
    ensures var seen := SweepOf(before, s, timeout).seen;
            && (seen.Some? <==> IsListed(s) && !AllDriven(s))
            && (seen.Some? ==> (t in seen.value <==> IsListedIn(Infos(s.listing.response), t)))
  {
    if IsListed(s) {
      PagesOfInfos(s.listing.response);
      IdsAreListed(Infos(s.listing.response), t);
    }
  }

  lemma {:induction false} ExpiredOnce(
    s: Sight, idle: map<Target, int>, pages: seq<Page>, now: int, timeout: nat, t: Target)
    requires s.Browser? && forall i, j :: 0 <= i < j < |pages| ==> pages[i].id != pages[j].id
    ensures var expired := Scan(s, idle, pages, now, timeout).1;
            multiset(expired)[t] <= 1 && (t in expired ==> t in Ids(pages))
  {
    if pages != [] {
      var before := Init(pages);
      assert forall i :: 0 <= i < |before| ==> before[i] == pages[i];
      ExpiredOnce(s, idle, before, now, timeout, t);
      assert forall page :: page in pages <==> page in before || page == Last(pages);
    }
  }

  lemma {:induction false} NoIdTwice(infos: seq<Json>)
    requires forall i, j, t :: 0 <= i < j < |infos| && IsPage(infos[i], t) ==> !IsPage(infos[j], t)
    ensures forall i, j :: 0 <= i < j < |PagesIn(infos)| ==> PagesIn(infos)[i].id != PagesIn(infos)[j].id
  {
    if infos != [] {
      var before, pages := Init(infos), PagesIn(infos);
      assert forall i :: 0 <= i < |before| ==> before[i] == infos[i];
      NoIdTwice(before);
      if pages != PagesIn(before) {
        var id := Last(pages).id;
        PagesStep(infos, id);
        IdsAreListed(before, id);
        forall i | 0 <= i < |pages| - 1 ensures pages[i].id != id {
          assert pages[i] == PagesIn(before)[i] && pages[i] in PagesIn(before);
        }
      }
    }
  }

  /** A target listed once is asked to close at most once. */
  lemma AskedOnce(before: Clocks, s: Sight, timeout: nat, t: Target)
    requires IsListed(s)
    requires var infos := Infos(s.listing.response);
             forall i, j, t :: 0 <= i < j < |infos| && IsPage(infos[i], t) ==> !IsPage(infos[j], t)
    ensures multiset(SweepOf(before, s, timeout).expired)[t] <= 1
  {
    var idle := if before.wsUrl != s.wsUrl then map[] else before.idleSince;
    PagesOfInfos(s.listing.response);
    NoIdTwice(Infos(s.listing.response));
    ExpiredOnce(s, idle, PageTargets(s.listing.response), s.listing.now, timeout, t);
  }

  // ---- Bounded reclamation ----

  /** The sweep reached the browser at `wsUrl`; nothing it saw speaks for `t`
      being in use, and if it could list, `t` was there and on the web. */
  ghost predicate StaysIdle(s: Sight, t: Target, wsUrl: string) {
    && s.Browser? && s.wsUrl == wsUrl && !AllDriven(s)
    && (s.listing.Listed? ==>
          Undriven(s, t) && IsListedIn(Infos(s.listing.response), t) && AlwaysOnWeb(Infos(s.listing.response), t))
  }

  /** The clock the listings are stamped with never goes back. */
  ghost predicate TimeFlows(history: seq<Sight>) {
    forall a, b :: 0 <= a <= b < |history| && IsListed(history[a]) && IsListed(history[b])
                   ==> ListedAt(history[a]) <= ListedAt(history[b])
  }

  lemma IdleClockStep(history: seq<Sight>, n: nat, timeout: nat, t: Target, wsUrl: string)
    requires timeout > 0 && n < |history| && StaysIdle(history[n], t, wsUrl)
    ensures var before := ClocksAfter(history[..n], timeout);
            var after := ClocksAfter(history[..n + 1], timeout);
            var running := before.wsUrl == wsUrl && t in before.idleSince;
            var since := if running then before.idleSince[t] else ListedAt(history[n]);
            && after.wsUrl == wsUrl
            && (running && IsListed(history[n]) && ListedAt(history[n]) - since >= timeout
                ==> t in CloseRequests(history, n, timeout))
            && ((running || IsListed(history[n])) && t !in CloseRequests(history, n, timeout)
                ==> t in after.idleSince && after.idleSince[t] == since)
  {
    assert Init(history[..n + 1]) == history[..n] && Last(history[..n + 1]) == history[n];
    ClosesExactlyWhen(ClocksAfter(history[..n], timeout), history[n], timeout, t);
    ClocksExactly(ClocksAfter(history[..n], timeout), history[n], timeout, t);
    if IsListed(history[n]) {
      ListedHasEnds(Infos(history[n].listing.response), t);
    }
  }

  lemma ClocksArePast(history: seq<Sight>, timeout: nat, t: Target, i: nat)
    requires timeout > 0 && TimeFlows(history) && i < |history| && IsListed(history[i])
    requires t in ClocksAfter(history[..i], timeout).idleSince
    ensures ClocksAfter(history[..i], timeout).idleSince[t] <= ListedAt(history[i])
  {
    var m := ClocksAreJustified(history[..i], timeout, t);
    assert history[m] == history[..i][m];
  }

  lemma IdleClockStarts(history: seq<Sight>, timeout: nat, t: Target, i: nat, wsUrl: string)
    requires timeout > 0 && TimeFlows(history) && i < |history| && IsListed(history[i])
    requires StaysIdle(history[i], t, wsUrl) && t !in CloseRequests(history, i, timeout)
    ensures var clocks := ClocksAfter(history[..i + 1], timeout);
            clocks.wsUrl == wsUrl && t in clocks.idleSince && clocks.idleSince[t] <= ListedAt(history[i])
  {
    IdleClockStep(history, i, timeout, t, wsUrl);
    if t in ClocksAfter(history[..i], timeout).idleSince {
      ClocksArePast(history, timeout, t, i);
    }
  }

  lemma IdleClockAdvances(history: seq<Sight>, timeout: nat, t: Target, i: nat, n: nat, wsUrl: string)
    requires timeout > 0 && i < n < |history| && StaysIdle(history[n], t, wsUrl)
    requires t !in CloseRequests(history, n, timeout)
    requires var clocks := ClocksAfter(history[..n], timeout);
             clocks.wsUrl == wsUrl && t in clocks.idleSince && clocks.idleSince[t] <= ListedAt(history[i])
    ensures var clocks := ClocksAfter(history[..n + 1], timeout);
            clocks.wsUrl == wsUrl && t in clocks.idleSince && clocks.idleSince[t] <= ListedAt(history[i])
  {
    IdleClockStep(history, n, timeout, t, wsUrl);
  }

  /** While sweeps `i..n` find `t` idle without asking to close it, its clock
      reads no later than sweep `i`. */
  lemma {:induction false} IdleClockKeepsRunning(
    history: seq<Sight>, timeout: nat, t: Target, i: nat, n: nat, wsUrl: string)
    requires timeout > 0 && TimeFlows(history) && i < n <= |history| && IsListed(history[i])
    requires forall k :: i <= k < n ==> StaysIdle(history[k], t, wsUrl)
    requires forall k :: i <= k < n ==> t !in CloseRequests(history, k, timeout)
    ensures var clocks := ClocksAfter(history[..n], timeout);
            clocks.wsUrl == wsUrl && t in clocks.idleSince && clocks.idleSince[t] <= ListedAt(history[i])
    decreases n
  {
    var last := n - 1;
    assert StaysIdle(history[last], t, wsUrl) && t !in CloseRequests(history, last, timeout);
    if i == last {
      IdleClockStarts(history, timeout, t, i, wsUrl);
    } else {
      IdleClockKeepsRunning(history, timeout, t, i, last, wsUrl);
      IdleClockAdvances(history, timeout, t, i, last, wsUrl);
    }
  }

  /** Liveness: a tab that sweeps `i` to `j` find idle, because no driver is
      about or because it is an orphan while any number of drivers stay, is asked
      to close by sweep `j` if that lists a full timeout after `i` did. Sweeps in
      between may fail to list. */
  lemma IdleTabIsReclaimed(history: seq<Sight>, timeout: nat, t: Target, i: nat, j: nat, wsUrl: string) returns (k: nat)
    requires timeout > 0 && TimeFlows(history) && i <= j < |history| && IsListed(history[i]) && IsListed(history[j])
    requires forall k :: i <= k <= j ==> StaysIdle(history[k], t, wsUrl)
    requires ListedAt(history[j]) - ListedAt(history[i]) >= timeout
    ensures i <= k <= j && t in CloseRequests(history, k, timeout)
  {
    if earlier :| i <= earlier < j && t in CloseRequests(history, earlier, timeout) {
      k := earlier;
    } else {
      k := j;
      IdleClockKeepsRunning(history, timeout, t, i, j, wsUrl);
      IdleClockStep(history, j, timeout, t, wsUrl);
    }
  }

  /** The interval is the one between half a second and a minute that is nearest to a third of the timeout. */
  lemma SweepIntervalIsNearest(timeout: nat, other: nat)
    requires 500_000_000 <= other <= 60_000_000_000
    ensures var interval, third := SweepInterval(timeout), timeout / 3;
            500_000_000 <= interval <= 60_000_000_000
            && (third < interval ==> interval <= other) && (interval < third ==> other <= interval)
  {
  }

  /** Consecutive listings are at most a sweep interval and `slack` apart. */
  ghost predicate SweepsOnTime(history: seq<Sight>, i: nat, timeout: nat, slack: nat) {
    forall k :: i < k < |history| && IsListed(history[k]) && IsListed(history[k - 1])
                ==> ListedAt(history[k]) - ListedAt(history[k - 1]) <= SweepInterval(timeout) + slack
  }

  /** The first sweep at least a timeout after sweep `i`. */
  lemma FirstSweepPast(history: seq<Sight>, timeout: nat, i: nat, last: nat, slack: nat) returns (j: nat)
    requires timeout > 0 && i <= last < |history| && SweepsOnTime(history, i, timeout, slack)
    requires forall k :: i <= k <= last ==> IsListed(history[k])
    requires ListedAt(history[last]) - ListedAt(history[i]) >= timeout
    ensures i < j <= last && ListedAt(history[j]) - ListedAt(history[i]) >= timeout
    ensures ListedAt(history[j]) - ListedAt(history[i]) < timeout + SweepInterval(timeout) + slack
    decreases last
  {
    if ListedAt(history[last - 1]) - ListedAt(history[i]) >= timeout {
      j := FirstSweepPast(history, timeout, i, last - 1, slack);
    } else {
      j := last;
    }
  }

  /** A tab left at `born`, first listed within one interval of that, is asked
      to close within five thirds of the timeout plus sweep delays. */
  lemma ReclaimedWithinFiveThirds(
    history: seq<Sight>, timeout: nat, t: Target, i: nat, last: nat, wsUrl: string, slack: nat, born: int)
    returns (k: nat)
    requires timeout >= 1500 * MILLISECOND && TimeFlows(history) && i <= last < |history|
    requires forall k :: i <= k <= last ==> IsListed(history[k]) && StaysIdle(history[k], t, wsUrl)
    requires SweepsOnTime(history, i, timeout, slack)
    requires ListedAt(history[i]) - born <= SweepInterval(timeout) + slack
    requires ListedAt(history[last]) - ListedAt(history[i]) >= timeout
    ensures i <= k <= last && t in CloseRequests(history, k, timeout)
    ensures IsListed(history[k]) && 3 * (ListedAt(history[k]) - born) <= 5 * timeout + 6 * slack
  {
    var j := FirstSweepPast(history, timeout, i, last, slack);
    k := IdleTabIsReclaimed(history, timeout, t, i, j, wsUrl);
    assert IsListed(history[k]) && ListedAt(history[k]) <= ListedAt(history[j]);
  }
}
