/** Who holds which page target, across any number of `/cdp` connections.

    Each connection keeps its own ledger; the host keeps one hold count per
    target and the set of orphans. The steps below are the stretches of code
    between which another connection, or the reaper's prune, can run. */
module TabOwnership {

  import opened Wrappers
  import opened Sequences
  import opened TargetLedger

  type ConnId = nat

  // ---- The shared tables ----

  function CountOf(holders: map<Target, nat>, t: Target): nat {
    if t in holders then holders[t] else 0
  }

  /** One more hold. */
  function Hold(holders: map<Target, nat>, t: Target): map<Target, nat> {
    holders[t := CountOf(holders, t) + 1]
  }

  /** One hold fewer on each of `targets`. */
  function Unhold(holders: map<Target, nat>, targets: set<Target>): map<Target, nat> {
    map t | t in holders && !(t in targets && holders[t] <= 1)
      :: if t in targets then holders[t] - 1 else holders[t]
  }

  /** Those of `targets` that dropping one hold leaves with none. */
  function Freed(holders: map<Target, nat>, targets: set<Target>): set<Target> {
    set t | t in targets && CountOf(holders, t) <= 1
  }

  /** The two tables of the host that every connection shares. */
  class HoldTables {
    var holders: map<Target, nat>
    var orphans: set<Target>

    constructor ()
      ensures holders == map[] && orphans == {}
    {
      holders, orphans := map[], {};
    }

    method Release(target: Target) returns (noneLeft: bool)
      modifies this`holders
      ensures holders == Unhold(old(holders), {target})
      ensures noneLeft <==> target in Freed(old(holders), {target})
    {
      if target in holders && holders[target] > 1 {
        holders := holders[target := holders[target] - 1];
        noneLeft := false;
      } else if target in holders {
        holders := holders - {target};
        noneLeft := true;
      } else {
        noneLeft := true;
      }
    }

    method NoteHolding(holding: Option<Holding>)
      modifies this
      ensures match holding
              case None => holders == old(holders) && orphans == old(orphans)
              case Some(Took(t)) => holders == Hold(old(holders), t) && orphans == old(orphans) - {t}
              case Some(Closed(t)) => holders == Unhold(old(holders), {t}) && orphans == old(orphans)
    {
      match holding
      case None =>
      case Some(Took(t)) =>
        var count := if t in holders then holders[t] else 0;
        holders := holders[t := count + 1];
        orphans := orphans - {t};
      case Some(Closed(t)) =>
        var _ := Release(t);
    }

    /** A connection ended holding `targets`, in whatever order they come. */
    method ReleaseTargets(targets: set<Target>)
      modifies this
      ensures holders == Unhold(old(holders), targets)
      ensures orphans == old(orphans) + Freed(old(holders), targets)
    {
      var todo := targets;
      var orphaned: set<Target> := {};
      while todo != {}
        invariant todo <= targets
        invariant holders == Unhold(old(holders), targets - todo)
        invariant orphaned == Freed(old(holders), targets - todo)
        invariant orphans == old(orphans)
        decreases todo
      {
        var target :| target in todo;
        ghost var done := targets - todo;
        var noneLeft := Release(target);
        todo := todo - {target};
        assert targets - todo == done + {target};
        if noneLeft {
          orphaned := orphaned + {target};
        }
      }
      assert targets - todo == targets;
      orphans := orphans + orphaned;
    }

    method RetainOrphanedTargets(live: set<Target>)
      modifies this`orphans
      ensures orphans == old(orphans) * live
    {
      orphans := set id | id in orphans && id in live;
    }
  }

  // ---- Every interleaving of connections ----

  /** A connection the host still counts as a client. `report` is what its
      ledger has just observed and the shared tables have not yet been told. */
  datatype Conn = Conn(ledger: Ledger, report: Option<Holding>, ended: bool)

  /** What the holder of the tables' lock has yet to do to the orphan set. */
  datatype Lock = Free | Taking(target: Target) | Releasing(freed: set<Target>)

  datatype Host = Host(
    conns: map<ConnId, Conn>, clients: nat, holders: map<Target, nat>, orphans: set<Target>, lock: Lock)

  const EMPTY_HOST := Host(map[], 0, map[], {}, Free)

  datatype Step =
    | Connect(c: ConnId)              // counted as a client
    | Forward(c: ConnId, e: Traffic)  // observes one frame
    | Note(c: ConnId)                 // counts the report, under the lock
    | ForgetOrphan                    // the attach's second half, still under the lock
    | Hangup(c: ConnId)               // releases what the ledger still holds, under the lock
    | RecordOrphans                   // the release's second half, still under the lock
    | Disconnect(c: ConnId)           // the client guard is dropped
    | Prune(live: set<Target>)        // the reaper forgets orphans that are gone

  predicate Enabled(h: Host, step: Step) {
    match step
    case Connect(c) => c !in h.conns
    case Forward(c, _) => c in h.conns && h.conns[c].report.None? && !h.conns[c].ended
    case Note(c) => c in h.conns && h.conns[c].report.Some? && h.lock.Free?
    case ForgetOrphan => h.lock.Taking?
    case Hangup(c) => c in h.conns && h.conns[c].report.None? && !h.conns[c].ended && h.lock.Free?
    case RecordOrphans => h.lock.Releasing?
    case Disconnect(c) => c in h.conns && h.conns[c].ended && h.clients > 0
    case Prune(_) => true
  }

  function Next(h: Host, step: Step): Host
    requires Enabled(h, step)
  {
    match step
    case Connect(c) =>
      h.(conns := h.conns[c := Conn(EMPTY_LEDGER, None, false)], clients := h.clients + 1)
    case Forward(c, e) =>
      var (ledger, report) := Observe(h.conns[c].ledger, e);
      h.(conns := h.conns[c := Conn(ledger, report, false)])
    case Note(c) =>
      var noted := h.(conns := h.conns[c := h.conns[c].(report := None)]);
      (match h.conns[c].report.value
       case Took(t) => noted.(holders := Hold(h.holders, t), lock := Taking(t))
       case Closed(t) => noted.(holders := Unhold(h.holders, {t})))
    case ForgetOrphan => h.(orphans := h.orphans - {h.lock.target}, lock := Free)
    case Hangup(c) =>
      var left := h.conns[c].ledger.owned;
      h.(conns := h.conns[c := Conn(EMPTY_LEDGER, None, true)],
         holders := Unhold(h.holders, left), lock := Releasing(Freed(h.holders, left)))
    case RecordOrphans => h.(orphans := h.orphans + h.lock.freed, lock := Free)
    case Disconnect(c) => h.(conns := h.conns - {c}, clients := h.clients - 1)
    case Prune(live) => h.(orphans := h.orphans * live)
  }

  /** The host after `steps`, if each was possible when it came. */
  function HostAfter(steps: seq<Step>): Option<Host> {
    if steps == [] then Some(EMPTY_HOST)
    else
      match HostAfter(Init(steps))
      case Some(h) => if Enabled(h, Last(steps)) then Some(Next(h, Last(steps))) else None
      case None => None
  }

  // ---- The invariant ----

  /** Whether this connection's hold on `t` is in the shared count: what its
      ledger says, except for a report not yet noted. */
  predicate Counted(conn: Conn, t: Target) {
    if conn.report == Some(Took(t)) then false
    else if conn.report == Some(Closed(t)) then true
    else t in conn.ledger.owned
  }

  function Holders(h: Host, t: Target): set<ConnId> {
    set c | c in h.conns && Counted(h.conns[c], t)
  }

  ghost predicate ReportMatchesLedger(conn: Conn) {
    && (conn.report.Some? && conn.report.value.Took? ==> conn.report.value.target in conn.ledger.owned)
    && (conn.report.Some? && conn.report.value.Closed? ==> conn.report.value.target !in conn.ledger.owned)
    && (conn.ended ==> conn.report.None? && conn.ledger.owned == {})
  }

  ghost predicate CountsAgree(h: Host) {
    && (forall t: Target :: CountOf(h.holders, t) == |Holders(h, t)|)
    && (forall t :: t in h.holders ==> h.holders[t] > 0)
  }

  /** Held and orphaned never overlap, once the lock holder has finished. */
  ghost predicate OrphansUnheld(h: Host) {
    match h.lock
    case Free => h.orphans !! h.holders.Keys
    case Taking(t) => (h.orphans - {t}) !! h.holders.Keys
    case Releasing(freed) => (h.orphans + freed) !! h.holders.Keys
  }

  ghost predicate Inv(h: Host) {
    && CountsAgree(h)
    && (forall c :: c in h.conns ==> ReportMatchesLedger(h.conns[c]))
    && OrphansUnheld(h)
    && h.clients == |h.conns|
  }

  lemma HeldIffHolders(h: Host, t: Target)
    requires CountsAgree(h)
    ensures t in h.holders <==> Holders(h, t) != {}
  {
    assert CountOf(h.holders, t) == |Holders(h, t)|;
  }

  lemma ForwardKeepsHolders(h: Host, c: ConnId, e: Traffic, t: Target)
    requires Enabled(h, Forward(c, e))
    ensures Holders(Next(h, Forward(c, e)), t) == Holders(h, t)
    ensures ReportMatchesLedger(Next(h, Forward(c, e)).conns[c])
  {
    ReportIsTheChange(h.conns[c].ledger, e);
  }

  lemma NoteMovesOneHold(h: Host, c: ConnId, t: Target)
    requires Inv(h) && Enabled(h, Note(c))
    ensures var report := h.conns[c].report.value;
            Holders(Next(h, Note(c)), t) ==
            if report == Took(t) then Holders(h, t) + {c}
            else if report == Closed(t) then Holders(h, t) - {c}
            else Holders(h, t)
    ensures h.conns[c].report == Some(Took(t)) ==> c !in Holders(h, t)
    ensures h.conns[c].report == Some(Closed(t)) ==> c in Holders(h, t)
  {
  }

  lemma HangupDropsOwnHolds(h: Host, c: ConnId, t: Target)
    requires Inv(h) && Enabled(h, Hangup(c))
    ensures Holders(Next(h, Hangup(c)), t) == Holders(h, t) - {c}
    ensures c in Holders(h, t) <==> t in h.conns[c].ledger.owned
  {
  }

  lemma NoteKeepsCounts(h: Host, c: ConnId)
    requires Inv(h) && Enabled(h, Note(c))
    ensures CountsAgree(Next(h, Note(c)))
  {
    var h' := Next(h, Note(c));
    forall t: Target ensures CountOf(h'.holders, t) == |Holders(h', t)| {
      NoteMovesOneHold(h, c, t);
      assert CountOf(h.holders, t) == |Holders(h, t)|;
    }
  }

  lemma HangupKeepsCounts(h: Host, c: ConnId)
    requires Inv(h) && Enabled(h, Hangup(c))
    ensures CountsAgree(Next(h, Hangup(c)))
  {
    var h' := Next(h, Hangup(c));
    forall t: Target ensures CountOf(h'.holders, t) == |Holders(h', t)| {
      HangupDropsOwnHolds(h, c, t);
      assert CountOf(h.holders, t) == |Holders(h, t)|;
    }
  }

  lemma OtherStepsKeepHolders(h: Host, step: Step, t: Target)
    requires Inv(h) && Enabled(h, step) && !step.Note? && !step.Hangup?
    ensures Holders(Next(h, step), t) == Holders(h, t)
  {
    if step.Forward? {
      ForwardKeepsHolders(h, step.c, step.e, t);
    }
  }

  lemma StepKeepsCounts(h: Host, step: Step)
    requires Inv(h) && Enabled(h, step)
    ensures CountsAgree(Next(h, step))
  {
    match step
    case Note(c) => NoteKeepsCounts(h, c);
    case Hangup(c) => HangupKeepsCounts(h, c);
    case _ =>
      var h' := Next(h, step);
      forall t: Target ensures CountOf(h'.holders, t) == |Holders(h', t)| {
        OtherStepsKeepHolders(h, step, t);
        assert CountOf(h.holders, t) == |Holders(h, t)|;
      }
  }

  lemma StepKeepsClients(h: Host, step: Step)
    requires Inv(h) && Enabled(h, step)
    ensures Next(h, step).clients == |Next(h, step).conns|
  {
    var h' := Next(h, step);
    if step.Connect? {
      assert h'.conns.Keys == h.conns.Keys + {step.c};
    } else if step.Disconnect? {
      assert h'.conns.Keys == h.conns.Keys - {step.c};
    } else {
      assert h'.conns.Keys == h.conns.Keys && h'.clients == h.clients;
    }
  }

  lemma StepKeepsInv(h: Host, step: Step)
    requires Inv(h) && Enabled(h, step)
    ensures Inv(Next(h, step))
  {
    StepKeepsCounts(h, step);
    StepKeepsClients(h, step);
    if step.Forward? {
      ForwardKeepsHolders(h, step.c, step.e, "");
    }
  }

  lemma {:induction false} RunKeepsInv(steps: seq<Step>)
    requires HostAfter(steps).Some?
    ensures Inv(HostAfter(steps).value)
  {
    if steps == [] {
      assert forall t: Target :: Holders(EMPTY_HOST, t) == {};
    } else {
      RunKeepsInv(Init(steps));
      StepKeepsInv(HostAfter(Init(steps)).value, Last(steps));
    }
  }

  // ---- What the invariant means ----

  function Owners(h: Host, t: Target): set<ConnId> {
    set c | c in h.conns && t in h.conns[c].ledger.owned
  }

  function Unnoted(h: Host, report: Holding): set<ConnId> {
    set c | c in h.conns && h.conns[c].report == Some(report)
  }

  /** The hold count is the number of live ledgers owning the target, less the
      takes and plus the closes observed but not yet counted. */
  lemma HoldCountIsOwnersCorrected(steps: seq<Step>, t: Target)
    requires HostAfter(steps).Some?
    ensures var h := HostAfter(steps).value;
            CountOf(h.holders, t) == |Owners(h, t)| - |Unnoted(h, Took(t))| + |Unnoted(h, Closed(t))|
    ensures t in HostAfter(steps).value.holders ==> HostAfter(steps).value.holders[t] > 0
  {
    RunKeepsInv(steps);
    var h := HostAfter(steps).value;
    assert CountOf(h.holders, t) == |Holders(h, t)|;
    assert Holders(h, t) == (Owners(h, t) - Unnoted(h, Took(t))) + Unnoted(h, Closed(t));
    assert Unnoted(h, Took(t)) <= Owners(h, t);
    assert Unnoted(h, Closed(t)) !! Owners(h, t);
  }

  /** Whatever is released was counted: `release` never meets an unheld target. */
  lemma ReleasedTargetsAreHeld(steps: seq<Step>, c: ConnId)
    requires HostAfter(steps).Some? && c in HostAfter(steps).value.conns
    ensures var h := HostAfter(steps).value;
            && (Enabled(h, Note(c)) && h.conns[c].report.value.Closed?
                ==> h.conns[c].report.value.target in h.holders)
            && (Enabled(h, Hangup(c)) ==> h.conns[c].ledger.owned <= h.holders.Keys)
  {
    RunKeepsInv(steps);
    var h := HostAfter(steps).value;
    if Enabled(h, Note(c)) && h.conns[c].report.value.Closed? {
      NoteMovesOneHold(h, c, h.conns[c].report.value.target);
      HeldIffHolders(h, h.conns[c].report.value.target);
    }
    if Enabled(h, Hangup(c)) {
      forall t | t in h.conns[c].ledger.owned ensures t in h.holders {
        HangupDropsOwnHolds(h, c, t);
        HeldIffHolders(h, t);
      }
    }
  }

  lemma OrphanedAndHeldAreDisjoint(steps: seq<Step>)
    requires HostAfter(steps).Some? && HostAfter(steps).value.lock.Free?
    ensures HostAfter(steps).value.orphans !! HostAfter(steps).value.holders.Keys
  {
    RunKeepsInv(steps);
  }

  /** A connection that ends orphans exactly the targets nobody else's counted hold keeps. */
  lemma HangupFreesWhatNobodyElseHolds(steps: seq<Step>, c: ConnId)
    requires HostAfter(steps).Some? && Enabled(HostAfter(steps).value, Hangup(c))
    ensures var h := HostAfter(steps).value;
            forall t :: t in Next(h, Hangup(c)).lock.freed <==>
                        t in h.conns[c].ledger.owned && forall d :: d in h.conns && d != c ==> !Counted(h.conns[d], t)
  {
    RunKeepsInv(steps);
    var h := HostAfter(steps).value;
    forall t ensures t in Next(h, Hangup(c)).lock.freed <==>
                     t in h.conns[c].ledger.owned && forall d :: d in h.conns && d != c ==> !Counted(h.conns[d], t)
    {
      HangupDropsOwnHolds(h, c, t);
      assert CountOf(h.holders, t) == |Holders(h, t)|;
      if c in Holders(h, t) {
        assert |Holders(h, t) - {c}| == |Holders(h, t)| - 1;
        assert |Holders(h, t)| <= 1 <==> Holders(h, t) - {c} == {};
        assert forall d :: d in h.conns && d != c ==> (Counted(h.conns[d], t) <==> d in Holders(h, t) - {c});
      }
    }
  }

  /** With no client connected, nothing is held. */
  lemma NoClientsNoHolds(steps: seq<Step>)
    requires HostAfter(steps).Some? && HostAfter(steps).value.clients == 0
    ensures HostAfter(steps).value.holders == map[]
  {
    RunKeepsInv(steps);
    var h := HostAfter(steps).value;
    forall t: Target ensures t !in h.holders {
      HeldIffHolders(h, t);
      assert Holders(h, t) <= h.conns.Keys;
    }
  }

  // ---- The orphan set as a reading of the run ----

  /** Step `k` records `t` as left behind by a connection that ended. */
  ghost predicate Orphans(steps: seq<Step>, k: nat, t: Target)
    requires k < |steps|
  {
    steps[k].RecordOrphans? && HostAfter(steps[..k]).Some?
    && HostAfter(steps[..k]).value.lock.Releasing? && t in HostAfter(steps[..k]).value.lock.freed
  }

  /** Step `k` ends `t`'s orphanhood: someone took it, or a prune did not list it. */
  ghost predicate Reclaims(steps: seq<Step>, k: nat, t: Target)
    requires k < |steps|
  {
    match steps[k]
    case ForgetOrphan => HostAfter(steps[..k]).Some? && HostAfter(steps[..k]).value.lock == Taking(t)
    case Prune(live) => t !in live
    case _ => false
  }

  ghost predicate LastWordIsOrphaning(steps: seq<Step>, t: Target) {
    exists k :: 0 <= k < |steps| && Orphans(steps, k, t)
                && forall j :: k < j < |steps| ==> !Reclaims(steps, j, t)
  }

  lemma SamePastInPrefix(steps: seq<Step>, k: nat, t: Target)
    requires steps != [] && k < |steps| - 1
    ensures Orphans(Init(steps), k, t) <==> Orphans(steps, k, t)
    ensures Reclaims(Init(steps), k, t) <==> Reclaims(steps, k, t)
  {
    assert Init(steps)[..k] == steps[..k];
  }

  lemma LastWordStep(steps: seq<Step>, t: Target)
    requires steps != []
    ensures LastWordIsOrphaning(steps, t) <==>
            Orphans(steps, |steps| - 1, t)
            || (LastWordIsOrphaning(Init(steps), t) && !Reclaims(steps, |steps| - 1, t))
  {
    var n := |steps| - 1;
    var prefix := Init(steps);
    forall k | 0 <= k < n
      ensures Orphans(prefix, k, t) <==> Orphans(steps, k, t)
      ensures Reclaims(prefix, k, t) <==> Reclaims(steps, k, t)
    {
      SamePastInPrefix(steps, k, t);
    }
    if LastWordIsOrphaning(prefix, t) && !Reclaims(steps, n, t) {
      var k :| 0 <= k < |prefix| && Orphans(prefix, k, t)
               && forall j :: k < j < |prefix| ==> !Reclaims(prefix, j, t);
      assert Orphans(steps, k, t);
      assert forall j :: k < j < |steps| ==> !Reclaims(steps, j, t);
    }
    if LastWordIsOrphaning(steps, t) && !Orphans(steps, n, t) {
      var k :| 0 <= k < |steps| && Orphans(steps, k, t)
               && forall j :: k < j < |steps| ==> !Reclaims(steps, j, t);
      assert Orphans(prefix, k, t);
      assert forall j :: k < j < |prefix| ==> !Reclaims(prefix, j, t);
      assert !Reclaims(steps, n, t);
    }
  }

  /** A target is an orphan exactly when, of the steps that orphan it and the
      steps that reclaim it, the latest is one that orphans it. */
  lemma {:induction false} OrphansReadTheRun(steps: seq<Step>, t: Target)
    requires HostAfter(steps).Some?
    ensures t in HostAfter(steps).value.orphans <==> LastWordIsOrphaning(steps, t)
  {
    if steps != [] {
      OrphansReadTheRun(Init(steps), t);
      LastWordStep(steps, t);
      assert steps[..|steps| - 1] == Init(steps);
    }
  }
}
