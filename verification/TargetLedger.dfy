/** What one `/cdp` connection holds, read off the frames it forwards. */
module TargetLedger {

  import opened Wrappers
  import opened JsonValue
  import opened Sequences

  type Target = string

  /** Replies longer than this are forwarded without being parsed. */
  const MAX_INSPECTED_RESPONSE_BYTES: nat := 16 * 1024

  datatype Holding = Took(target: Target) | Closed(target: Target)

  /** A text frame: its length, and its JSON when it is JSON. */
  datatype Frame = Frame(bytes: nat, message: Option<Json>)

  datatype Ledger = Ledger(pending: set<nat>, owned: set<Target>)

  const EMPTY_LEDGER := Ledger({}, {})

  /** What a request asks of the browser, as far as holdings go. */
  datatype Ask = CreatesTarget(id: nat) | ClosesTarget(target: Target) | AttachesTo(target: Target) | Irrelevant

  function AskOf(frame: Frame): Ask {
    match frame.message
    case None => Irrelevant
    case Some(m) =>
      match AsStr(Get(m, "method"))
      case None => Irrelevant
      case Some(verb) =>
        if verb == "Target.createTarget" then
          (match AsU64(Get(m, "id"))
           case Some(id) => CreatesTarget(id)
           case None => Irrelevant)
        else if verb == "Target.closeTarget" then
          (match StrAt(m, "params", "targetId")
           case Some(t) => ClosesTarget(t)
           case None => Irrelevant)
        else if verb == "Target.attachToTarget" then
          (match StrAt(m, "params", "targetId")
           case Some(t) => AttachesTo(t)
           case None => Irrelevant)
        else Irrelevant
  }

  /** The request id a reply answers, when the reply is short enough to be read. */
  function Answers(frame: Frame): Option<nat> {
    if frame.bytes > MAX_INSPECTED_RESPONSE_BYTES || frame.message.None? then None
    else AsU64(Get(frame.message.value, "id"))
  }

  /** The target a reply says was created. */
  function CreatedTarget(frame: Frame): Option<Target> {
    match frame.message
    case Some(m) => StrAt(m, "result", "targetId")
    case None => None
  }

  function Adopt(l: Ledger, t: Target): (Ledger, Option<Holding>) {
    if t in l.owned then (l, None) else (l.(owned := l.owned + {t}), Some(Took(t)))
  }

  function AfterRequest(l: Ledger, frame: Frame): (Ledger, Option<Holding>) {
    match AskOf(frame)
    case CreatesTarget(id) => (l.(pending := l.pending + {id}), None)
    case ClosesTarget(t) =>
      if t in l.owned then (l.(owned := l.owned - {t}), Some(Closed(t))) else (l, None)
    case AttachesTo(t) => Adopt(l, t)
    case Irrelevant => (l, None)
  }

  function AfterResponse(l: Ledger, frame: Frame): (Ledger, Option<Holding>) {
    match Answers(frame)
    case Some(id) =>
      if id !in l.pending then (l, None)
      else
        var settled := l.(pending := l.pending - {id});
        (match CreatedTarget(frame)
         case Some(t) => Adopt(settled, t)
         case None => (settled, None))
    case None => (l, None)
  }

  // ---- A frame, read off its members ----

  /** The frame is JSON with that method. */
  predicate HasMethod(frame: Frame, verb: string) {
    frame.message.Some? && Has(frame.message.value, "method", Str(verb))
  }

  /** The frame's `id`, an unsigned 64-bit integer. */
  predicate HasId(frame: Frame, id: nat) {
    frame.message.Some? && Has(frame.message.value, "id", Int(id)) && id < 0x1_0000_0000_0000_0000
  }

  /** The member `outer` has that `targetId`. */
  predicate HasTarget(frame: Frame, outer: string, t: Target) {
    frame.message.Some? && frame.message.value.Obj? && outer in frame.message.value.fields
    && Has(frame.message.value.fields[outer], "targetId", Str(t))
  }

  predicate AsksToCreate(frame: Frame, id: nat) {
    HasMethod(frame, "Target.createTarget") && HasId(frame, id)
  }

  predicate AsksToClose(frame: Frame, t: Target) {
    HasMethod(frame, "Target.closeTarget") && HasTarget(frame, "params", t)
  }

  predicate AsksToAttach(frame: Frame, t: Target) {
    HasMethod(frame, "Target.attachToTarget") && HasTarget(frame, "params", t)
  }

  predicate RepliesTo(frame: Frame, id: nat) {
    HasId(frame, id) && frame.bytes <= 16384
  }

  lemma AskReads(frame: Frame, id: nat, t: Target)
    ensures AskOf(frame) == CreatesTarget(id) <==> AsksToCreate(frame, id)
    ensures AskOf(frame) == ClosesTarget(t) <==> AsksToClose(frame, t)
    ensures AskOf(frame) == AttachesTo(t) <==> AsksToAttach(frame, t)
    ensures Answers(frame) == Some(id) <==> RepliesTo(frame, id)
    ensures CreatedTarget(frame) == Some(t) <==> HasTarget(frame, "result", t)
  {
  }

  /** What a request does: a create is awaited, a close lets go of what is owned,
      an attach takes what is not yet, and anything else does nothing. */
  ghost predicate RequestRead(l: Ledger, frame: Frame, after: Ledger, report: Option<Holding>) {
    && (forall id: nat :: AsksToCreate(frame, id) ==> after == Ledger(l.pending + {id}, l.owned) && report == None)
    && (forall t :: AsksToClose(frame, t) ==>
          after == Ledger(l.pending, l.owned - {t}) && report == if t in l.owned then Some(Closed(t)) else None)
    && (forall t :: AsksToAttach(frame, t) ==>
          after == Ledger(l.pending, l.owned + {t}) && report == if t in l.owned then None else Some(Took(t)))
    && ((forall id: nat :: !AsksToCreate(frame, id)) && (forall t :: !AsksToClose(frame, t) && !AsksToAttach(frame, t))
        ==> after == l && report == None)
  }

  /** What a reply does: if it is short enough and answers an awaited create it
      settles that, and takes the target it names; otherwise nothing. */
  ghost predicate ResponseRead(l: Ledger, frame: Frame, after: Ledger, report: Option<Holding>) {
    && (forall id: nat :: RepliesTo(frame, id) && id in l.pending ==> after.pending == l.pending - {id})
    && (forall id: nat, t :: RepliesTo(frame, id) && id in l.pending && HasTarget(frame, "result", t) ==>
          after.owned == l.owned + {t} && report == if t in l.owned then None else Some(Took(t)))
    && ((forall t :: !HasTarget(frame, "result", t)) ==> after.owned == l.owned && report == None)
    && ((forall id: nat :: RepliesTo(frame, id) ==> id !in l.pending) ==> after == l && report == None)
  }

  lemma RequestReads(l: Ledger, frame: Frame)
    ensures RequestRead(l, frame, AfterRequest(l, frame).0, AfterRequest(l, frame).1)
  {
    var (after, report) := AfterRequest(l, frame);
    forall id: nat, t ensures
      && (AsksToCreate(frame, id) <==> AskOf(frame) == CreatesTarget(id))
      && (AsksToClose(frame, t) <==> AskOf(frame) == ClosesTarget(t))
      && (AsksToAttach(frame, t) <==> AskOf(frame) == AttachesTo(t))
    {
      AskReads(frame, id, t);
    }
    match AskOf(frame)
    case CreatesTarget(id) => AskReads(frame, id, "");
    case ClosesTarget(t) => AskReads(frame, 0, t);
    case AttachesTo(t) => AskReads(frame, 0, t);
    case Irrelevant =>
  }

  lemma ResponseReads(l: Ledger, frame: Frame)
    ensures ResponseRead(l, frame, AfterResponse(l, frame).0, AfterResponse(l, frame).1)
  {
    if Answers(frame).Some? {
      AskReads(frame, Answers(frame).value, "");
    }
    if CreatedTarget(frame).Some? {
      AskReads(frame, 0, CreatedTarget(frame).value);
    }
  }

  /** The ledger a connection owns and updates frame by frame. */
  class ConnectionLedger {
    var pendingCreates: set<nat>
    var owned: set<Target>

    ghost function State(): Ledger
      reads this
    {
      Ledger(pendingCreates, owned)
    }

    constructor ()
      ensures State() == EMPTY_LEDGER
    {
      pendingCreates, owned := {}, {};
    }

    method ObserveRequest(frame: Frame) returns (holding: Option<Holding>)
      modifies this
      ensures (State(), holding) == AfterRequest(old(State()), frame)
      ensures RequestRead(old(State()), frame, State(), holding)
    {
      RequestReads(State(), frame);
      holding := None;
      if frame.message.None? {
        return;
      }
      var message := frame.message.value;
      var verb := AsStr(Get(message, "method"));
      if verb == Some("Target.createTarget") {
        var id := AsU64(Get(message, "id"));
        if id.Some? {
          pendingCreates := pendingCreates + {id.value};
        }
      } else if verb == Some("Target.closeTarget") {
        var target := StrAt(message, "params", "targetId");
        if target.Some? && target.value in owned {
          owned := owned - {target.value};
          holding := Some(Closed(target.value));
        }
      } else if verb == Some("Target.attachToTarget") {
        var target := StrAt(message, "params", "targetId");
        if target.Some? && target.value !in owned {
          owned := owned + {target.value};
          holding := Some(Took(target.value));
        }
      }
    }

    method ObserveResponse(frame: Frame) returns (holding: Option<Holding>)
      modifies this
      ensures (State(), holding) == AfterResponse(old(State()), frame)
      ensures ResponseRead(old(State()), frame, State(), holding)
    {
      ResponseReads(State(), frame);
      holding := None;
      if pendingCreates == {} || frame.bytes > MAX_INSPECTED_RESPONSE_BYTES || frame.message.None? {
        return;
      }
      var id := AsU64(Get(frame.message.value, "id"));
      if id.None? || id.value !in pendingCreates {
        return;
      }
      pendingCreates := pendingCreates - {id.value};
      var target := StrAt(frame.message.value, "result", "targetId");
      if target.Some? && target.value !in owned {
        owned := owned + {target.value};
        holding := Some(Took(target.value));
      }
    }
  }

  // ---- Whole histories ----

  datatype Traffic = Request(frame: Frame) | Response(frame: Frame)

  function Observe(l: Ledger, e: Traffic): (Ledger, Option<Holding>) {
    match e
    case Request(f) => AfterRequest(l, f)
    case Response(f) => AfterResponse(l, f)
  }

  /** The ledger after all of `history`, from an empty one. */
  function LedgerAfter(history: seq<Traffic>): Ledger {
    if history == [] then EMPTY_LEDGER
    else Observe(LedgerAfter(Init(history)), Last(history)).0
  }

  /** Everything the ledger reported on the way. */
  function Reports(history: seq<Traffic>): seq<Holding> {
    if history == [] then []
    else
      Reports(Init(history)) +
      (match Observe(LedgerAfter(Init(history)), Last(history)).1
       case Some(h) => [h]
       case None => [])
  }

  // ---- Reading the ledger off the history, without running it ----

  predicate Settles(e: Traffic, id: nat) {
    e.Response? && RepliesTo(e.frame, id)
  }

  /** A create with this id was asked for, and no inspected reply has answered it since. */
  ghost predicate Awaits(history: seq<Traffic>, id: nat) {
    exists k :: 0 <= k < |history| && history[k].Request? && AsksToCreate(history[k].frame, id)
                && forall j :: k < j < |history| ==> !Settles(history[j], id)
  }

  /** Frame `k` makes the connection a holder of `t`: it attaches, or it is the
      awaited reply to a create and names `t`. */
  ghost predicate Takes(history: seq<Traffic>, k: nat, t: Target)
    requires k < |history|
  {
    match history[k]
    case Request(f) => AsksToAttach(f, t)
    case Response(f) => HasTarget(f, "result", t) && exists id: nat :: RepliesTo(f, id) && Awaits(history[..k], id)
  }

  predicate GivesUp(e: Traffic, t: Target) {
    e.Request? && AsksToClose(e.frame, t)
  }

  ghost predicate Holds(history: seq<Traffic>, t: Target) {
    exists k :: 0 <= k < |history| && Takes(history, k, t)
                && forall j :: k < j < |history| ==> !GivesUp(history[j], t)
  }

  lemma AwaitsStep(history: seq<Traffic>, id: nat)
    requires history != []
    ensures Awaits(history, id) <==>
            (Last(history).Request? && AsksToCreate(Last(history).frame, id))
            || (Awaits(Init(history), id) && !Settles(Last(history), id))
  {
    var n := |history| - 1;
    var prefix := Init(history);
    if Awaits(history, id) && !(Last(history).Request? && AsksToCreate(Last(history).frame, id)) {
      var k :| 0 <= k < |history| && history[k].Request? && AsksToCreate(history[k].frame, id)
               && forall j :: k < j < |history| ==> !Settles(history[j], id);
      assert prefix[k] == history[k];
      assert forall j :: k < j < |prefix| ==> prefix[j] == history[j];
    }
    if Awaits(prefix, id) && !Settles(Last(history), id) {
      var k :| 0 <= k < |prefix| && prefix[k].Request? && AsksToCreate(prefix[k].frame, id)
               && forall j :: k < j < |prefix| ==> !Settles(prefix[j], id);
      assert history[k] == prefix[k];
      assert forall j :: k < j < n ==> history[j] == prefix[j];
    }
    if Last(history).Request? && AsksToCreate(Last(history).frame, id) {
      assert history[n] == Last(history);
    }
  }

  lemma TakesInPrefix(history: seq<Traffic>, k: nat, t: Target)
    requires history != [] && k < |history| - 1
    ensures Takes(Init(history), k, t) <==> Takes(history, k, t)
  {
    assert Init(history)[..k] == history[..k];
  }

  lemma HoldsOn(history: seq<Traffic>, t: Target)
    requires history != [] && Holds(Init(history), t) && !GivesUp(Last(history), t)
    ensures Holds(history, t)
  {
    var prefix := Init(history);
    var k :| 0 <= k < |prefix| && Takes(prefix, k, t)
             && forall j :: k < j < |prefix| ==> !GivesUp(prefix[j], t);
    TakesInPrefix(history, k, t);
    assert forall j :: k < j < |prefix| ==> history[j] == prefix[j];
  }

  lemma HoldsStep(history: seq<Traffic>, t: Target)
    requires history != []
    ensures Holds(history, t) <==>
            Takes(history, |history| - 1, t) || (Holds(Init(history), t) && !GivesUp(Last(history), t))
  {
    var n := |history| - 1;
    var prefix := Init(history);
    if Holds(history, t) {
      var k :| 0 <= k < |history| && Takes(history, k, t)
               && forall j :: k < j < |history| ==> !GivesUp(history[j], t);
      if k < n {
        TakesInPrefix(history, k, t);
        assert forall j :: k < j < |prefix| ==> prefix[j] == history[j];
      }
    }
    if Holds(prefix, t) && !GivesUp(Last(history), t) {
      HoldsOn(history, t);
    }
  }

  lemma PendingStep(l: Ledger, e: Traffic, id: nat)
    ensures id in Observe(l, e).0.pending <==>
            (e.Request? && AsksToCreate(e.frame, id)) || (id in l.pending && !Settles(e, id))
  {
    AskReads(e.frame, id, "");
  }

  lemma OwnedStep(l: Ledger, e: Traffic, t: Target)
    ensures t in Observe(l, e).0.owned <==>
            (match e
             case Request(f) => AsksToAttach(f, t)
             case Response(f) => HasTarget(f, "result", t) && exists id: nat :: RepliesTo(f, id) && id in l.pending)
            || (t in l.owned && !GivesUp(e, t))
  {
    AskReads(e.frame, 0, t);
    match e
    case Request(f) =>
    case Response(f) =>
      if Answers(f).Some? {
        AskReads(f, Answers(f).value, t);
      }
      forall id: nat ensures Answers(f) == Some(id) <==> RepliesTo(f, id) {
        AskReads(f, id, t);
      }
  }

  /** The ledger is exactly what the frame history says: which creates are
      still unanswered, and which targets were last taken rather than closed. */
  lemma {:induction false} LedgerReadsHistory(history: seq<Traffic>)
    ensures forall id :: id in LedgerAfter(history).pending <==> Awaits(history, id)
    ensures forall t :: t in LedgerAfter(history).owned <==> Holds(history, t)
  {
    if history != [] {
      var prefix := Init(history);
      LedgerReadsHistory(prefix);
      forall id ensures id in LedgerAfter(history).pending <==> Awaits(history, id) {
        AwaitsStep(history, id);
        PendingStep(LedgerAfter(prefix), Last(history), id);
      }
      assert history[..|history| - 1] == prefix;
      forall t ensures t in LedgerAfter(history).owned <==> Holds(history, t) {
        HoldsStep(history, t);
        OwnedStep(LedgerAfter(prefix), Last(history), t);
      }
    }
  }

  // ---- The reports are a faithful account of the ledger ----

  /** What a listener believes is held, from the reports alone. */
  function Replay(reports: seq<Holding>): set<Target> {
    if reports == [] then {}
    else
      match Last(reports)
      case Took(t) => Replay(Init(reports)) + {t}
      case Closed(t) => Replay(Init(reports)) - {t}
  }

  function ReportsOn(reports: seq<Holding>, t: Target): seq<Holding> {
    if reports == [] then []
    else ReportsOn(Init(reports), t) + (if Last(reports).target == t then [Last(reports)] else [])
  }

  /** Took, Closed, Took, Closed, ... */
  ghost predicate Alternates(reports: seq<Holding>) {
    forall i :: 0 <= i < |reports| ==> (reports[i].Took? <==> i % 2 == 0)
  }

  /** A report is made exactly when the owned set changes, and names the change. */
  lemma ReportIsTheChange(l: Ledger, e: Traffic)
    ensures var (after, report) := Observe(l, e);
            match report
            case None => after.owned == l.owned
            case Some(Took(t)) => t !in l.owned && after.owned == l.owned + {t}
            case Some(Closed(t)) => t in l.owned && after.owned == l.owned - {t}
  {
    match e
    case Request(f) => match AskOf(f) { case CreatesTarget(_) => case _ => }
    case Response(f) => match Answers(f) { case Some(id) => case None => }
  }

  lemma ReportsStep(history: seq<Traffic>)
    requires history != []
    ensures var report := Observe(LedgerAfter(Init(history)), Last(history)).1;
            if report.None? then Reports(history) == Reports(Init(history))
            else Reports(history) != [] && Init(Reports(history)) == Reports(Init(history))
                 && Last(Reports(history)) == report.value
  {
  }

  lemma {:induction false} ReplayedReportsAreTheLedger(history: seq<Traffic>)
    ensures Replay(Reports(history)) == LedgerAfter(history).owned
  {
    if history != [] {
      ReplayedReportsAreTheLedger(Init(history));
      ReportIsTheChange(LedgerAfter(Init(history)), Last(history));
      ReportsStep(history);
    }
  }

  lemma AlternationGrows(reports: seq<Holding>, t: Target, held: bool)
    requires reports != [] && Alternates(ReportsOn(Init(reports), t))
    requires held <==> |ReportsOn(Init(reports), t)| % 2 == 1
    requires Last(reports).target == t ==> (Last(reports).Took? <==> !held)
    ensures Alternates(ReportsOn(reports, t))
    ensures |ReportsOn(reports, t)| % 2 == 1 <==> if Last(reports).target == t then !held else held
  {
  }

  lemma {:induction false} ReportsAlternate(history: seq<Traffic>, t: Target)
    ensures Alternates(ReportsOn(Reports(history), t))
    ensures t in LedgerAfter(history).owned <==> |ReportsOn(Reports(history), t)| % 2 == 1
  {
    if history != [] {
      var before := LedgerAfter(Init(history));
      ReportsAlternate(Init(history), t);
      ReportIsTheChange(before, Last(history));
      ReportsStep(history);
      if Observe(before, Last(history)).1.Some? {
        AlternationGrows(Reports(history), t, t in before.owned);
      }
    }
  }
}
