/** The reaper sweeping a live host: connections keep taking and leaving
    targets between the reads a sweep is made of. */
module Reclamation {

  import opened Wrappers
  import opened Sequences
  import opened TargetLedger
  import opened JsonValue
  import Own = TabOwnership
  import opened IdleReaper

  /** One finished sweep: what it saw, and the host as it stood at the two
      reads the sight is made of (equal and unused when it gave up earlier). */
  datatype Record = Record(sight: Sight, atCount: Own.Host, atOrphans: Own.Host)

  /** How far the running sweep has got. */
  datatype Stage =
    | Resting
    | Counted(wsUrl: string, drivers: nat, atCount: Own.Host)
    | Snapped(wsUrl: string, drivers: nat, atCount: Own.Host, orphans: set<Target>, atOrphans: Own.Host)

  datatype System = System(host: Own.Host, clocks: Clocks, stage: Stage, log: seq<Record>)

  const START := System(Own.EMPTY_HOST, NO_CLOCKS, Resting, [])

  datatype Move =
    | Work(step: Own.Step)        // a connection's step
    | GiveUp(sight: Sight)        // no profile, or a live credential
    | CountDrivers(wsUrl: string)
    | SnapOrphans
    | Finish(listing: Listing)

  predicate Possible(s: System, move: Move) {
    match move
    case Work(step) => !step.Prune? && Own.Enabled(s.host, step)
    case GiveUp(sight) => s.stage.Resting? && !sight.Browser?
    case CountDrivers(_) => s.stage.Resting?
    case SnapOrphans => s.stage.Counted?
    case Finish(_) => s.stage.Snapped?
  }

  function Concluded(s: System, record: Record, timeout: nat): System {
    var effect := SweepOf(s.clocks, record.sight, timeout);
    System(if effect.seen.Some? then Own.Next(s.host, Own.Prune(effect.seen.value)) else s.host,
           effect.clocks, Resting, s.log + [record])
  }

  function Moved(s: System, move: Move, timeout: nat): System
    requires Possible(s, move)
  {
    match move
    case Work(step) => s.(host := Own.Next(s.host, step))
    case GiveUp(sight) => Concluded(s, Record(sight, s.host, s.host), timeout)
    case CountDrivers(wsUrl) => s.(stage := Counted(wsUrl, s.host.clients, s.host))
    case SnapOrphans =>
      var c := s.stage;
      s.(stage := Snapped(c.wsUrl, c.drivers, c.atCount, s.host.orphans, s.host))
    case Finish(listing) =>
      var c := s.stage;
      Concluded(s, Record(Browser(c.wsUrl, c.drivers, c.orphans, listing), c.atCount, c.atOrphans), timeout)
  }

  function SystemAfter(moves: seq<Move>, timeout: nat): Option<System> {
    if moves == [] then Some(START)
    else
      match SystemAfter(Init(moves), timeout)
      case Some(s) => if Possible(s, Last(moves)) then Some(Moved(s, Last(moves), timeout)) else None
      case None => None
  }

  function Sights(log: seq<Record>): seq<Sight> {
    seq(|log|, i requires 0 <= i < |log| => log[i].sight)
  }

  // ---- The reads were of real host states ----

  ghost predicate Reached(h: Own.Host) {
    exists steps :: Own.HostAfter(steps) == Some(h)
  }

  ghost predicate ReadsMatch(sight: Sight, atCount: Own.Host, atOrphans: Own.Host) {
    && Reached(atCount) && Reached(atOrphans)
    && (sight.Browser? ==> sight.drivers == atCount.clients && sight.orphans == atOrphans.orphans)
  }

  ghost predicate SystemInv(s: System, timeout: nat) {
    && Reached(s.host)
    && s.clocks == ClocksAfter(Sights(s.log), timeout)
    && (s.stage.Counted? ==> Reached(s.stage.atCount) && s.stage.drivers == s.stage.atCount.clients)
    && (s.stage.Snapped? ==>
          && Reached(s.stage.atCount) && s.stage.drivers == s.stage.atCount.clients
          && Reached(s.stage.atOrphans) && s.stage.orphans == s.stage.atOrphans.orphans)
    && (forall i :: 0 <= i < |s.log| ==> ReadsMatch(s.log[i].sight, s.log[i].atCount, s.log[i].atOrphans))
  }

  lemma ReachedStep(h: Own.Host, step: Own.Step)
    requires Reached(h) && Own.Enabled(h, step)
    ensures Reached(Own.Next(h, step))
  {
    var steps :| Own.HostAfter(steps) == Some(h);
    assert Init(steps + [step]) == steps && Last(steps + [step]) == step;
    assert Own.HostAfter(steps + [step]) == Some(Own.Next(h, step));
  }

  lemma ConcludedKeepsInv(s: System, record: Record, timeout: nat)
    requires SystemInv(s, timeout) && ReadsMatch(record.sight, record.atCount, record.atOrphans)
    ensures SystemInv(Concluded(s, record, timeout), timeout)
  {
    var s' := Concluded(s, record, timeout);
    assert Init(Sights(s'.log)) == Sights(s.log) && Last(Sights(s'.log)) == record.sight;
    var effect := SweepOf(s.clocks, record.sight, timeout);
    if effect.seen.Some? {
      ReachedStep(s.host, Own.Prune(effect.seen.value));
    }
  }

  lemma {:induction false} SystemKeepsInv(moves: seq<Move>, timeout: nat)
    requires SystemAfter(moves, timeout).Some?
    ensures SystemInv(SystemAfter(moves, timeout).value, timeout)
  {
    if moves == [] {
      assert Own.HostAfter([]) == Some(Own.EMPTY_HOST);
    } else {
      SystemKeepsInv(Init(moves), timeout);
      var s := SystemAfter(Init(moves), timeout).value;
      match Last(moves)
      case Work(step) => ReachedStep(s.host, step);
      case GiveUp(sight) => ConcludedKeepsInv(s, Record(sight, s.host, s.host), timeout);
      case Finish(listing) =>
        var c := s.stage;
        ConcludedKeepsInv(s, Record(Browser(c.wsUrl, c.drivers, c.orphans, listing), c.atCount, c.atOrphans), timeout);
      case _ =>
    }
  }

  // ---- Safety: only tabs nobody was counted on are closed ----

  /** No counted hold on `t`, unless an attach to it is at this instant
      between counting itself and clearing the orphan mark. */
  predicate Unclaimed(h: Own.Host, t: Target) {
    t !in h.holders || h.lock == Own.Taking(t)
  }

  lemma IdleSightMeansUnclaimed(sight: Sight, atCount: Own.Host, atOrphans: Own.Host, t: Target)
    requires ReadsMatch(sight, atCount, atOrphans) && SeesIdle(sight, t)
    ensures Unclaimed(atCount, t) || Unclaimed(atOrphans, t)
  {
    if sight.drivers == 0 {
      var steps :| Own.HostAfter(steps) == Some(atCount);
      Own.NoClientsNoHolds(steps);
    } else {
      var steps :| Own.HostAfter(steps) == Some(atOrphans);
      Own.RunKeepsInv(steps);
    }
  }

  lemma SpanIsIdle(history: seq<Sight>, m: nat, n: nat, k: nat, timeout: nat, t: Target, wsUrl: string)
    requires n < |history| && m <= k <= n && IsListed(history[k])
    requires IdleSinceSweep(history[..n], m, timeout, t, wsUrl) && LeavesIdle(history[n], t, wsUrl)
    ensures SeesIdle(history[k], t)
  {
    if k < n {
      assert LeavesIdle(history[..n][k], t, wsUrl);
    }
  }

  /** In any run, a tab the reaper asks to close was unclaimed at a read of
      every sweep that listed it, from the one that started its clock, a full
      timeout earlier, to the one that closes it. */
  lemma ReapedTabsWereUnclaimed(moves: seq<Move>, timeout: nat, n: nat, t: Target) returns (m: nat)
    requires timeout > 0 && SystemAfter(moves, timeout).Some?
    requires var log := SystemAfter(moves, timeout).value.log;
             n < |log| && t in CloseRequests(Sights(log), n, timeout)
    ensures var log := SystemAfter(moves, timeout).value.log;
            && m < n && ListedAt(log[n].sight) - ListedAt(log[m].sight) >= timeout
            && IsListed(log[m].sight) && IsListed(log[n].sight)
            && forall k :: m <= k <= n && IsListed(log[k].sight)
                           ==> Unclaimed(log[k].atCount, t) || Unclaimed(log[k].atOrphans, t)
  {
    SystemKeepsInv(moves, timeout);
    var log := SystemAfter(moves, timeout).value.log;
    var history := Sights(log);
    m := CloseIsJustified(history, n, timeout, t);
    forall k | m <= k <= n && IsListed(log[k].sight)
      ensures Unclaimed(log[k].atCount, t) || Unclaimed(log[k].atOrphans, t)
    {
      SpanIsIdle(history, m, n, k, timeout, t, history[n].wsUrl);
      IdleSightMeansUnclaimed(log[k].sight, log[k].atCount, log[k].atOrphans, t);
    }
  }

  // ---- Liveness: an orphan nobody takes is reclaimed ----

  /** Move `q` is an attach taking `t` back from the orphans. */
  ghost predicate Retaken(moves: seq<Move>, q: nat, timeout: nat, t: Target)
    requires q < |moves|
  {
    moves[q] == Work(Own.ForgetOrphan) && SystemAfter(moves[..q], timeout).Some?
    && SystemAfter(moves[..q], timeout).value.host.lock == Own.Taking(t)
  }

  /** Every sweep concluded from record `from` on lists `t`, if it lists anything. */
  predicate KeepsListing(log: seq<Record>, from: nat, t: Target) {
    forall k :: from <= k < |log| && IsListed(log[k].sight)
                ==> t in Ids(PageTargets(log[k].sight.listing.response))
  }

  lemma {:induction false} RunPrefix(moves: seq<Move>, p: nat, timeout: nat)
    requires p <= |moves| && SystemAfter(moves, timeout).Some?
    ensures SystemAfter(moves[..p], timeout).Some?
    ensures SystemAfter(moves[..p], timeout).value.log <= SystemAfter(moves, timeout).value.log
  {
    if p == |moves| {
      assert moves[..p] == moves;
    } else {
      RunPrefix(Init(moves), p, timeout);
      assert Init(moves)[..p] == moves[..p];
    }
  }

  lemma OrphanStaysStep(s: System, move: Move, timeout: nat, t: Target)
    requires Possible(s, move) && t in s.host.orphans && (s.stage.Snapped? ==> t in s.stage.orphans)
    requires !(move == Work(Own.ForgetOrphan) && s.host.lock == Own.Taking(t))
    requires var after := Moved(s, move, timeout);
             |after.log| > |s.log| && IsListed(Last(after.log).sight)
             ==> t in Ids(PageTargets(Last(after.log).sight.listing.response))
    ensures var after := Moved(s, move, timeout);
            && t in after.host.orphans && (after.stage.Snapped? ==> t in after.stage.orphans)
            && (|after.log| == |s.log| ==> after.log == s.log)
            && (|after.log| > |s.log| ==> after.log == s.log + [Last(after.log)])
            && (|after.log| > |s.log| && Last(after.log).sight.Browser? ==> t in Last(after.log).sight.orphans)
  {
  }

  lemma NotRetakenBefore(moves: seq<Move>, p: nat, timeout: nat, t: Target)
    requires moves != [] && forall q :: p <= q < |moves| ==> !Retaken(moves, q, timeout, t)
    ensures forall q :: p <= q < |Init(moves)| ==> !Retaken(Init(moves), q, timeout, t)
  {
    forall q | p <= q < |Init(moves)| ensures !Retaken(Init(moves), q, timeout, t) {
      assert Init(moves)[..q] == moves[..q] && !Retaken(moves, q, timeout, t);
    }
  }

  /** From the moment `t` is an orphan with no snapshot already taken: it stays
      one, and every later snapshot contains it. */
  lemma {:induction false} OrphanStays(moves: seq<Move>, p: nat, timeout: nat, t: Target)
    requires p <= |moves| && SystemAfter(moves, timeout).Some? && SystemAfter(moves[..p], timeout).Some?
    requires var s := SystemAfter(moves[..p], timeout).value;
             t in s.host.orphans && !s.stage.Snapped? && KeepsListing(SystemAfter(moves, timeout).value.log, |s.log|, t)
    requires forall q :: p <= q < |moves| ==> !Retaken(moves, q, timeout, t)
    ensures var s := SystemAfter(moves, timeout).value;
            var from := |SystemAfter(moves[..p], timeout).value.log|;
            && t in s.host.orphans && (s.stage.Snapped? ==> t in s.stage.orphans)
            && forall k :: from <= k < |s.log| && s.log[k].sight.Browser? ==> t in s.log[k].sight.orphans
  {
    if p == |moves| {
      assert moves[..p] == moves;
    } else {
      var prefix := Init(moves);
      var n := |moves| - 1;
      assert prefix[..p] == moves[..p] && prefix == moves[..n];
      var before := SystemAfter(prefix, timeout).value;
      var after := SystemAfter(moves, timeout).value;
      assert before.log <= after.log;
      NotRetakenBefore(moves, p, timeout, t);
      OrphanStays(prefix, p, timeout, t);
      assert !Retaken(moves, n, timeout, t);
      RunPrefix(prefix, p, timeout);
      if |after.log| > |before.log| {
        assert after.log[|before.log|] == Last(after.log);
      }
      OrphanStaysStep(before, Last(moves), timeout, t);
    }
  }

  /** A sweep that got its listing prunes the orphans by it, and no other changes them. */
  lemma SweepsPrune(s: System, move: Move, timeout: nat, t: Target)
    requires Possible(s, move) && !move.Work?
    ensures t in Moved(s, move, timeout).host.orphans <==>
            t in s.host.orphans
            && (move.Finish? && move.listing.Listed? && !(s.stage.drivers > 0 && s.stage.orphans == {})
                ==> IsListedIn(Infos(move.listing.response), t))
  {
    if move.Finish? {
      var c := s.stage;
      SeenExactly(s.clocks, Browser(c.wsUrl, c.drivers, c.orphans, move.listing), timeout, t);
    }
  }

  /** In any run: once `t` is orphaned and no attach takes it back, then as
      long as sweeps reach the browser and list it as a web page it is asked
      to close by the first sweep a full timeout after sweep `i`, whatever the
      other connections do meanwhile. */
  lemma OrphansAreReclaimed(
    moves: seq<Move>, p: nat, timeout: nat, t: Target, i: nat, j: nat, wsUrl: string) returns (k: nat)
    requires timeout > 0 && p <= |moves|
    requires SystemAfter(moves, timeout).Some? && SystemAfter(moves[..p], timeout).Some?
    requires var s := SystemAfter(moves[..p], timeout).value;
             var log := SystemAfter(moves, timeout).value.log;
             && t in s.host.orphans && !s.stage.Snapped? && KeepsListing(log, |s.log|, t)
             && |s.log| <= i <= j < |log| && TimeFlows(Sights(log))
             && (forall k :: i <= k <= j ==> ReachesPage(log[k].sight, t, wsUrl))
             && ListedAt(log[j].sight) - ListedAt(log[i].sight) >= timeout
    requires forall q :: p <= q < |moves| ==> !Retaken(moves, q, timeout, t)
    ensures i <= k <= j && t in CloseRequests(Sights(SystemAfter(moves, timeout).value.log), k, timeout)
  {
    OrphanStays(moves, p, timeout, t);
    var log := SystemAfter(moves, timeout).value.log;
    forall k | i <= k <= j ensures IsListed(Sights(log)[k]) && StaysIdle(Sights(log)[k], t, wsUrl) {
      assert ReachesPage(log[k].sight, t, wsUrl) && t in log[k].sight.orphans;
    }
    k := IdleTabIsReclaimed(Sights(log), timeout, t, i, j, wsUrl);
  }

  /** The sweep reached the browser at `wsUrl` and found `t` showing only web pages. */
  ghost predicate ReachesPage(s: Sight, t: Target, wsUrl: string) {
    && IsListed(s) && s.wsUrl == wsUrl
    && IsListedIn(Infos(s.listing.response), t) && AlwaysOnWeb(Infos(s.listing.response), t)
  }
}
