/** Matching CDP replies to requests: ids, senders, the reader that serves
    them, timeouts, cancellation and the drain on close. */
module CdpClient {

  import opened Wrappers
  import opened Sequences
  import opened JsonValue
  import opened PendingReplies

  // ---- Request ids ----

  const TWO_64: int := 0x1_0000_0000_0000_0000

  /** A 64-bit signed counter's value, wrapping. */
  function WrapI64(n: int): int {
    var low := n % TWO_64;
    if low < I64_LIMIT then low else low - TWO_64
  }

  /** The id handed to the `k`-th request: the counter starts at one. */
  function IdOf(k: nat): RequestId {
    RequestId(WrapI64(1 + k))
  }

  /** Ids count up from one, wrapped into 64 signed bits. */
  lemma IdsCountUp(k: nat)
    ensures -0x8000_0000_0000_0000 <= IdOf(k).number < 0x8000_0000_0000_0000
    ensures (IdOf(k).number - (k + 1)) % 0x1_0000_0000_0000_0000 == 0
    ensures k < 0x7fff_ffff_ffff_ffff ==> IdOf(k).number == k + 1
  {
    var low := (1 + k) % TWO_64;
    assert 1 + k == TWO_64 * ((1 + k) / TWO_64) + low;
    assert IdOf(k).number - (k + 1) == TWO_64 * (-((1 + k) / TWO_64) - (if low < I64_LIMIT then 0 else 1));
  }

  /** Two requests share an id exactly when a multiple of 2^64 requests lies between them. */
  lemma IdsRepeatEvery2To64(j: nat, k: nat)
    ensures IdOf(j) == IdOf(k) <==> (j - k) % TWO_64 == 0
  {
    var a, b := (1 + j) % TWO_64, (1 + k) % TWO_64;
    assert 1 + j == TWO_64 * ((1 + j) / TWO_64) + a;
    assert 1 + k == TWO_64 * ((1 + k) / TWO_64) + b;
    assert j - k == TWO_64 * ((1 + j) / TWO_64 - (1 + k) / TWO_64) + (a - b);
    assert j - k == TWO_64 * ((j - k) / TWO_64) + (j - k) % TWO_64;
  }

  // ---- Every interleaving of senders, reader, timers and cancellation ----

  function OutcomeOf(result: RemoteResult): Outcome {
    match result
    case Value(v) => Success(v)
    case RemoteError(code, message) => CdpError(code, message)
  }

  /** `TimedOut`: the timer fired, the slot is not yet out of the table. */
  datatype Phase = Numbered | Waiting | TimedOut | Done(outcome: Outcome) | Cancelled

  datatype Call = Call(serial: nat, phase: Phase, mailbox: Option<RemoteResult>)

  datatype Client = Client(issued: nat, pending: Pending, writerOpen: bool, calls: map<Slot, Call>)

  const FRESH_CLIENT := Client(0, Pending(false, map[]), true, map[])

  datatype Event =
    | Number(r: Slot)          // takes the next id
    | Register(r: Slot)
    | Arrive(message: Json)    // the reader dispatches one message
    | TimerFires(r: Slot)
    | Forget(r: Slot)
    | Collect(r: Slot)         // the caller reads its reply
    | CollectLost(r: Slot)     // the caller finds its sender dropped
    | Cancel(r: Slot)          // the caller's future is dropped
    | WriterStops
    | ReaderStops

  predicate InPhase(w: Client, r: Slot, phase: Phase) {
    r in w.calls && w.calls[r].phase == phase
  }

  predicate CanHappen(w: Client, e: Event) {
    match e
    case Number(r) => r !in w.calls
    case Register(r) => InPhase(w, r, Numbered)
    case Arrive(_) => !w.pending.closed
    case TimerFires(r) => InPhase(w, r, Waiting) && w.calls[r].mailbox.None?
    case Forget(r) => InPhase(w, r, TimedOut)
    case Collect(r) => InPhase(w, r, Waiting) && w.calls[r].mailbox.Some?
    case CollectLost(r) => InPhase(w, r, Waiting) && w.calls[r].mailbox.None? && r !in SlotsOf(w.pending.replies)
    case Cancel(r) => InPhase(w, r, Numbered) || InPhase(w, r, Waiting) || InPhase(w, r, TimedOut)
    case WriterStops => true
    case ReaderStops => !w.pending.closed
  }

  function Entered(w: Client, r: Slot, phase: Phase): Client
    requires r in w.calls
  {
    w.(calls := w.calls[r := w.calls[r].(phase := phase)])
  }

  /** A result sent to a slot is kept only by a caller still listening. */
  function Deliver(calls: map<Slot, Call>, r: Slot, result: RemoteResult): map<Slot, Call> {
    if r in calls && calls[r].phase.Waiting? then calls[r := calls[r].(mailbox := Some(result))] else calls
  }

  function DeliverAll(calls: map<Slot, Call>, slots: set<Slot>, result: RemoteResult): map<Slot, Call> {
    map r | r in calls :: if r in slots && calls[r].phase.Waiting? then calls[r].(mailbox := Some(result)) else calls[r]
  }

  function Happen(w: Client, e: Event): Client
    requires CanHappen(w, e)
  {
    match e
    case Number(r) => w.(issued := w.issued + 1, calls := w.calls[r := Call(w.issued, Numbered, None)])
    case Register(r) =>
      var id := IdOf(w.calls[r].serial);
      if w.pending.closed then Entered(w, r, Done(Unavailable(Closed)))
      else if !w.writerOpen then Entered(w, r, Done(Unavailable(WriterGone))).(pending := Without(w.pending, id))
      else Entered(w, r, Waiting).(pending := Pending(false, w.pending.replies[id := r]))
    case Arrive(message) =>
      var (pending, delivery) := Dispatched(w.pending, message);
      w.(pending := pending,
         calls := if delivery.Some? then Deliver(w.calls, delivery.value.0, delivery.value.1) else w.calls)
    case TimerFires(r) => Entered(w, r, TimedOut)
    case Forget(r) => Entered(w, r, Done(Timeout)).(pending := Without(w.pending, IdOf(w.calls[r].serial)))
    case Collect(r) => Entered(w, r, Done(OutcomeOf(w.calls[r].mailbox.value)))
    case CollectLost(r) => Entered(w, r, Done(Unavailable(ReaderGone)))
    case Cancel(r) => Entered(w, r, Cancelled)
    case WriterStops => w.(writerOpen := false)
    case ReaderStops =>
      w.(pending := Pending(true, map[]), calls := DeliverAll(w.calls, SlotsOf(w.pending.replies), CONNECTION_CLOSED))
  }

  function ClientAfter(events: seq<Event>): Option<Client> {
    if events == [] then Some(FRESH_CLIENT)
    else
      match ClientAfter(Init(events))
      case Some(w) => if CanHappen(w, Last(events)) then Some(Happen(w, Last(events))) else None
      case None => None
  }

  // ---- The invariant ----

  ghost predicate SerialsDistinct(w: Client) {
    && (forall r :: r in w.calls ==> w.calls[r].serial < w.issued)
    && (forall r, q :: r in w.calls && q in w.calls && r != q ==> w.calls[r].serial != w.calls[q].serial)
  }

  /** A table entry is under its own call's id, and that call has had no reply. */
  ghost predicate EntryInv(w: Client, id: RequestId)
    requires id in w.pending.replies
  {
    var r := w.pending.replies[id];
    r in w.calls && id == IdOf(w.calls[r].serial) && w.calls[r].mailbox.None?
    && (w.calls[r].phase.Waiting? || w.calls[r].phase.TimedOut? || w.calls[r].phase.Cancelled?)
  }

  /** A waiting caller is in the table until its mailbox is filled. */
  ghost predicate CallInv(w: Client, r: Slot)
    requires r in w.calls
  {
    var call := w.calls[r];
    && (call.phase.Numbered? ==> call.mailbox.None?)
    && (call.phase.Waiting? && call.mailbox.None?
        ==> IdOf(call.serial) in w.pending.replies && w.pending.replies[IdOf(call.serial)] == r)
  }

  ghost predicate Inv(w: Client) {
    && SerialsDistinct(w)
    && (forall id :: id in w.pending.replies ==> EntryInv(w, id))
    && (forall r :: r in w.calls ==> CallInv(w, r))
    && (w.pending.closed ==> w.pending.replies == map[])
  }

  /** Fewer ids issued than there are. */
  predicate IdsLast(w: Client) {
    w.issued <= TWO_64
  }

  lemma DistinctCallsDistinctIds(w: Client, r: Slot, q: Slot)
    requires SerialsDistinct(w) && IdsLast(w) && r in w.calls && q in w.calls && r != q
    ensures IdOf(w.calls[r].serial) != IdOf(w.calls[q].serial)
  {
    IdsRepeatEvery2To64(w.calls[r].serial, w.calls[q].serial);
  }

  lemma EventKeepsEntries(w: Client, e: Event)
    requires Inv(w) && CanHappen(w, e) && IdsLast(w)
    ensures var w' := Happen(w, e); forall id :: id in w'.pending.replies ==> EntryInv(w', id)
  {
    var w' := Happen(w, e);
    forall id | id in w'.pending.replies ensures EntryInv(w', id) {
      if id in w.pending.replies {
        assert EntryInv(w, id);
        var r := w.pending.replies[id];
        if e.Arrive? {
          var delivery := Dispatched(w.pending, e.message).1;
          if delivery.Some? {
            var answered := ReplyIn(e.message).value.0;
            assert EntryInv(w, answered);
            assert w.pending.replies[answered] != r;
          }
        }
      }
    }
  }

  lemma EventKeepsCalls(w: Client, e: Event)
    requires Inv(w) && CanHappen(w, e) && IdsLast(Happen(w, e))
    ensures var w' := Happen(w, e); forall r :: r in w'.calls ==> CallInv(w', r)
  {
    var w' := Happen(w, e);
    forall r | r in w'.calls ensures CallInv(w', r) {
      if r in w.calls {
        assert CallInv(w, r);
        match e
        case Register(q) => if q != r { DistinctCallsDistinctIds(w, r, q); }
        case Forget(q) => if q != r { DistinctCallsDistinctIds(w, r, q); }
        case _ =>
      }
    }
  }

  lemma EventKeepsInv(w: Client, e: Event)
    requires Inv(w) && CanHappen(w, e) && IdsLast(Happen(w, e))
    ensures Inv(Happen(w, e))
  {
    EventKeepsSerials(w, e);
    EventKeepsEntries(w, e);
    EventKeepsCalls(w, e);
    ClosedIsEmpty(w, e);
  }

  lemma EventKeepsSerials(w: Client, e: Event)
    requires SerialsDistinct(w) && CanHappen(w, e)
    ensures SerialsDistinct(Happen(w, e)) && w.issued <= Happen(w, e).issued
  {
    var w' := Happen(w, e);
    if e.Number? {
      assert w'.calls == w.calls[e.r := Call(w.issued, Numbered, None)];
    } else {
      assert forall r :: r in w'.calls ==> r in w.calls && w'.calls[r].serial == w.calls[r].serial;
    }
  }

  lemma ClosedIsEmpty(w: Client, e: Event)
    requires CanHappen(w, e) && (w.pending.closed ==> w.pending.replies == map[])
    ensures Happen(w, e).pending.closed ==> Happen(w, e).pending.replies == map[]
  {
  }

  lemma {:induction false} RunKeepsInv(events: seq<Event>)
    requires ClientAfter(events).Some? && IdsLast(ClientAfter(events).value)
    ensures Inv(ClientAfter(events).value)
  {
    if events != [] {
      RunKeepsInv(Init(events));
      EventKeepsInv(ClientAfter(Init(events)).value, Last(events));
    }
  }

  // ---- The promises ----

  /** A caller is never left with its sender dropped unanswered. */
  lemma NoReplyIsLost(events: seq<Event>, r: Slot)
    requires ClientAfter(events).Some? && IdsLast(ClientAfter(events).value)
    ensures !CanHappen(ClientAfter(events).value, CollectLost(r))
  {
    RunKeepsInv(events);
    var w := ClientAfter(events).value;
    if InPhase(w, r, Waiting) && w.calls[r].mailbox.None? {
      assert CallInv(w, r);
    }
  }

  lemma {:induction false} ClosedStaysClosed(events: seq<Event>, n: nat)
    requires n <= |events| && ClientAfter(events).Some? && ClientAfter(events[..n]).Some?
    requires ClientAfter(events[..n]).value.pending.closed
    ensures ClientAfter(events).value.pending.closed
  {
    if n == |events| {
      assert events[..n] == events;
    } else {
      assert Init(events)[..n] == events[..n];
      ClosedStaysClosed(Init(events), n);
    }
  }

  /** From the moment the reader has drained, the table stays empty, every
      caller still waiting has its answer in hand, and a later call is refused. */
  lemma ClosedLeavesNobodyWaiting(events: seq<Event>, n: nat, r: Slot)
    requires n <= |events| && ClientAfter(events).Some? && IdsLast(ClientAfter(events).value)
    requires ClientAfter(events[..n]).Some? && ClientAfter(events[..n]).value.pending.closed
    requires r in ClientAfter(events).value.calls
    ensures var w := ClientAfter(events).value;
            && w.pending.replies == map[]
            && (w.calls[r].phase.Waiting? ==> CanHappen(w, Collect(r)))
            && (w.calls[r].phase.Numbered? ==> InPhase(Happen(w, Event.Register(r)), r, Done(Unavailable(Closed))))
  {
    ClosedStaysClosed(events, n);
    RunKeepsInv(events);
    assert CallInv(ClientAfter(events).value, r);
  }

  /** An ended call never changes again. */
  lemma EndedIsFinal(w: Client, e: Event, r: Slot)
    requires CanHappen(w, e) && r in w.calls && (w.calls[r].phase.Done? || w.calls[r].phase.Cancelled?)
    ensures r in Happen(w, e).calls && Happen(w, e).calls[r] == w.calls[r]
  {
  }

  lemma {:induction false} OneOutcomeEver(events: seq<Event>, n: nat, r: Slot)
    requires n <= |events| && ClientAfter(events).Some? && ClientAfter(events[..n]).Some?
    requires var w := ClientAfter(events[..n]).value;
             r in w.calls && (w.calls[r].phase.Done? || w.calls[r].phase.Cancelled?)
    ensures r in ClientAfter(events).value.calls
    ensures ClientAfter(events).value.calls[r] == ClientAfter(events[..n]).value.calls[r]
  {
    if n == |events| {
      assert events[..n] == events;
    } else {
      assert Init(events)[..n] == events[..n];
      OneOutcomeEver(Init(events), n, r);
      EndedIsFinal(ClientAfter(Init(events)).value, Last(events), r);
    }
  }

  // ---- Every outcome, read off the run ----

  /** The call is waiting, and the event is a message with its id or the end of the reader. */
  ghost predicate Addresses(w: Client, e: Event, r: Slot) {
    InPhase(w, r, Waiting)
    && (e.ReaderStops? || (e.Arrive? && IsReplyTo(e.message, IdOf(w.calls[r].serial).number)))
  }

  ghost predicate AnswersAt(events: seq<Event>, k: nat, r: Slot) {
    k < |events| && ClientAfter(events[..k]).Some? && Addresses(ClientAfter(events[..k]).value, events[k], r)
  }

  /** What such an event brings: the message's error or result, or the loss of the connection. */
  ghost predicate Says(e: Event, result: RemoteResult) {
    match e
    case Arrive(message) => Brings(message, result)
    case ReaderStops => result == RemoteError(-1, "CDP connection closed")
    case _ => false
  }

  ghost predicate FirstAnswersAt(events: seq<Event>, k: nat, r: Slot) {
    AnswersAt(events, k, r) && forall j: nat :: j < k ==> !AnswersAt(events, j, r)
  }

  /** The first event that answers the call brings `result`. */
  ghost predicate FirstAnswer(events: seq<Event>, r: Slot, result: RemoteResult) {
    exists k: nat :: FirstAnswersAt(events, k, r) && Says(events[k], result)
  }

  ghost predicate IsAnswered(events: seq<Event>, r: Slot) {
    exists k: nat :: AnswersAt(events, k, r)
  }

  /** One event and one call's mailbox: filled by what answers the call, once. */
  lemma MailboxStep(w: Client, e: Event, r: Slot)
    requires Inv(w) && CanHappen(w, e) && r in w.calls
    ensures r in Happen(w, e).calls && Happen(w, e).calls[r].serial == w.calls[r].serial
    ensures var after := Happen(w, e).calls[r].mailbox;
            if w.calls[r].mailbox.Some? || !Addresses(w, e, r) then after == w.calls[r].mailbox
            else after.Some? && Says(e, after.value)
  {
    assert CallInv(w, r);
    if e.Arrive? {
      ArriveStep(w, e.message, r);
    } else if e.ReaderStops? {
      if r in SlotsOf(w.pending.replies) {
        var id :| id in w.pending.replies && w.pending.replies[id] == r;
        assert EntryInv(w, id);
      }
    }
  }

  lemma ArriveStep(w: Client, message: Json, r: Slot)
    requires Inv(w) && CanHappen(w, Arrive(message)) && r in w.calls
    ensures var e, after := Arrive(message), Happen(w, Arrive(message)).calls[r].mailbox;
            if w.calls[r].mailbox.Some? || !Addresses(w, e, r) then after == w.calls[r].mailbox
            else after.Some? && Says(e, after.value)
  {
    assert CallInv(w, r);
    ReplyHasId(message, IdOf(w.calls[r].serial).number);
    if ReplyIn(message).Some? {
      var (id, result) := ReplyIn(message).value;
      ReplyReads(message, id.number, result);
      if id in w.pending.replies {
        assert EntryInv(w, id);
      }
    }
  }

  lemma AnswersInPrefix(events: seq<Event>, k: nat, r: Slot)
    requires events != [] && k < |events| - 1
    ensures AnswersAt(Init(events), k, r) <==> AnswersAt(events, k, r)
  {
    assert Init(events)[..k] == events[..k];
  }

  lemma AnsweredStep(events: seq<Event>, r: Slot)
    requires events != []
    ensures IsAnswered(events, r) <==> IsAnswered(Init(events), r) || AnswersAt(events, |events| - 1, r)
  {
    forall k: nat | k < |events| - 1 ensures AnswersAt(Init(events), k, r) <==> AnswersAt(events, k, r) {
      AnswersInPrefix(events, k, r);
    }
    if k: nat :| AnswersAt(Init(events), k, r) {
      assert AnswersAt(events, k, r);
    }
  }

  lemma FirstInPrefix(events: seq<Event>, k: nat, r: Slot)
    requires events != [] && k < |events| - 1
    ensures FirstAnswersAt(Init(events), k, r) <==> FirstAnswersAt(events, k, r)
  {
    forall j: nat | j <= k ensures AnswersAt(Init(events), j, r) <==> AnswersAt(events, j, r) {
      AnswersInPrefix(events, j, r);
    }
  }

  lemma FirstAnswerStep(events: seq<Event>, r: Slot, result: RemoteResult)
    requires events != []
    ensures FirstAnswer(events, r, result) <==>
            FirstAnswer(Init(events), r, result)
            || (!IsAnswered(Init(events), r) && AnswersAt(events, |events| - 1, r) && Says(Last(events), result))
  {
    var n := |events| - 1;
    forall k: nat | k < n ensures FirstAnswersAt(Init(events), k, r) <==> FirstAnswersAt(events, k, r) {
      FirstInPrefix(events, k, r);
    }
    forall k: nat | k < n ensures AnswersAt(Init(events), k, r) <==> AnswersAt(events, k, r) {
      AnswersInPrefix(events, k, r);
    }
    if k: nat :| FirstAnswersAt(Init(events), k, r) && Says(Init(events)[k], result) {
      assert FirstAnswersAt(events, k, r);
    }
    if !IsAnswered(Init(events), r) && AnswersAt(events, n, r) {
      assert FirstAnswersAt(events, n, r);
    }
  }

  lemma {:induction false} AnsweredIsKnown(events: seq<Event>, r: Slot)
    requires ClientAfter(events).Some? && IsAnswered(events, r)
    ensures r in ClientAfter(events).value.calls
  {
    AnsweredStep(events, r);
    if IsAnswered(Init(events), r) {
      AnsweredIsKnown(Init(events), r);
    } else {
      assert events[..|events| - 1] == Init(events);
    }
  }

  /** A call's mailbox holds exactly what the first event that answered it
      brought: its own reply's error or result, or the loss of the connection. */
  lemma {:induction false} MailboxIsOwn(events: seq<Event>, r: Slot)
    requires ClientAfter(events).Some? && IdsLast(ClientAfter(events).value) && r in ClientAfter(events).value.calls
    ensures var mailbox := ClientAfter(events).value.calls[r].mailbox;
            (mailbox.Some? <==> IsAnswered(events, r)) && (mailbox.Some? ==> FirstAnswer(events, r, mailbox.value))
  {
    var before := ClientAfter(Init(events)).value;
    assert events[..|events| - 1] == Init(events);
    RunKeepsInv(Init(events));
    AnsweredStep(events, r);
    if r in before.calls {
      MailboxIsOwn(Init(events), r);
      MailboxStep(before, Last(events), r);
      if ClientAfter(events).value.calls[r].mailbox.Some? {
        FirstAnswerStep(events, r, ClientAfter(events).value.calls[r].mailbox.value);
      }
    } else if IsAnswered(Init(events), r) {
      AnsweredIsKnown(Init(events), r);
    }
  }

  ghost predicate Happened(events: seq<Event>, e: Event) {
    exists k :: 0 <= k < |events| && events[k] == e
  }

  lemma HappenedStep(events: seq<Event>, e: Event)
    requires events != []
    ensures Happened(events, e) <==> Happened(Init(events), e) || Last(events) == e
  {
    if k :| 0 <= k < |Init(events)| && Init(events)[k] == e {
      assert events[k] == e;
    }
    if k :| 0 <= k < |events| && events[k] == e && k < |events| - 1 {
      assert Init(events)[k] == e;
    }
    assert events[|events| - 1] == Last(events);
  }

  lemma {:induction false} FlagsRead(events: seq<Event>)
    requires ClientAfter(events).Some?
    ensures ClientAfter(events).value.pending.closed <==> Happened(events, ReaderStops)
    ensures !ClientAfter(events).value.writerOpen <==> Happened(events, WriterStops)
  {
    if events != [] {
      FlagsRead(Init(events));
      HappenedStep(events, ReaderStops);
      HappenedStep(events, WriterStops);
    }
  }

  /** The call was refused when it registered: the reader had drained, or else the writer had gone. */
  ghost predicate Refused(events: seq<Event>, r: Slot, cause: Cause) {
    exists k :: 0 <= k < |events| && events[k] == Event.Register(r)
                && match cause
                   case Closed => Happened(events[..k], ReaderStops)
                   case WriterGone => !Happened(events[..k], ReaderStops) && Happened(events[..k], WriterStops)
                   case ReaderGone => false
  }

  lemma RefusedStep(events: seq<Event>, r: Slot, cause: Cause)
    requires events != []
    ensures Refused(events, r, cause) <==>
            Refused(Init(events), r, cause)
            || (Last(events) == Event.Register(r)
                && match cause
                   case Closed => Happened(Init(events), ReaderStops)
                   case WriterGone => !Happened(Init(events), ReaderStops) && Happened(Init(events), WriterStops)
                   case ReaderGone => false)
  {
    var n := |events| - 1;
    assert events[..n] == Init(events);
    assert forall k :: 0 <= k < n ==> events[..k] == Init(events)[..k] && events[k] == Init(events)[k];
  }

  /** What the run says of a call's end. */
  ghost predicate EndRead(events: seq<Event>, r: Slot, call: Call) {
    && (Happened(events, Collect(r)) <==>
          call.phase.Done? && (call.phase.outcome.Success? || call.phase.outcome.CdpError?))
    && (Happened(events, Collect(r)) ==>
          call.mailbox.Some?
          && match call.mailbox.value
             case Value(v) => call.phase.outcome == Success(v)
             case RemoteError(code, text) => call.phase.outcome == CdpError(code, text))
    && (Happened(events, Event.Forget(r)) <==> call.phase == Done(Timeout))
    && (call.phase.TimedOut? || call.phase == Done(Timeout) ==> call.mailbox.None?)
    && (Refused(events, r, Closed) <==> call.phase == Done(Unavailable(Closed)))
    && (Refused(events, r, WriterGone) <==> call.phase == Done(Unavailable(WriterGone)))
    && call.phase != Done(Unavailable(ReaderGone))
  }

  ghost predicate Unheard(events: seq<Event>, r: Slot) {
    !Happened(events, Collect(r)) && !Happened(events, Event.Forget(r))
    && !Refused(events, r, Closed) && !Refused(events, r, WriterGone)
  }

  lemma EventsStep(events: seq<Event>, r: Slot)
    requires events != []
    ensures Happened(events, Collect(r)) <==> Happened(Init(events), Collect(r)) || Last(events) == Collect(r)
    ensures Happened(events, Event.Forget(r)) <==>
            Happened(Init(events), Event.Forget(r)) || Last(events) == Event.Forget(r)
    ensures Last(events) != Event.Register(r) ==>
              (Refused(events, r, Closed) <==> Refused(Init(events), r, Closed))
              && (Refused(events, r, WriterGone) <==> Refused(Init(events), r, WriterGone))
  {
    HappenedStep(events, Collect(r));
    HappenedStep(events, Event.Forget(r));
    RefusedStep(events, r, Closed);
    RefusedStep(events, r, WriterGone);
  }

  lemma {:induction false} UnknownIsUnheard(events: seq<Event>, r: Slot)
    requires ClientAfter(events).Some? && r !in ClientAfter(events).value.calls
    ensures Unheard(events, r)
  {
    if events != [] {
      UnknownIsUnheard(Init(events), r);
      EventsStep(events, r);
    }
  }

  lemma RegisteringEnds(events: seq<Event>, r: Slot)
    requires ClientAfter(events).Some? && events != [] && Last(events) == Event.Register(r)
    requires EndRead(Init(events), r, ClientAfter(Init(events)).value.calls[r])
    ensures EndRead(events, r, ClientAfter(events).value.calls[r])
  {
    EventsStep(events, r);
    RefusedStep(events, r, Closed);
    RefusedStep(events, r, WriterGone);
    FlagsRead(Init(events));
  }

  lemma OtherEventEnds(events: seq<Event>, r: Slot)
    requires ClientAfter(events).Some? && events != [] && Last(events) != Event.Register(r)
    requires Last(events) != CollectLost(r)
    requires r in ClientAfter(Init(events)).value.calls
    requires EndRead(Init(events), r, ClientAfter(Init(events)).value.calls[r])
    ensures EndRead(events, r, ClientAfter(events).value.calls[r])
  {
    EventsStep(events, r);
  }

  lemma {:induction false} EndsAreRead(events: seq<Event>, r: Slot)
    requires ClientAfter(events).Some? && IdsLast(ClientAfter(events).value) && r in ClientAfter(events).value.calls
    ensures EndRead(events, r, ClientAfter(events).value.calls[r])
  {
    if r !in ClientAfter(Init(events)).value.calls {
      UnknownIsUnheard(Init(events), r);
      EventsStep(events, r);
    } else {
      EndsAreRead(Init(events), r);
      NoReplyIsLost(Init(events), r);
      if Last(events) == Event.Register(r) {
        RegisteringEnds(events, r);
      } else {
        OtherEventEnds(events, r);
      }
    }
  }

  lemma OneFirstAnswer(events: seq<Event>, r: Slot, a: RemoteResult, b: RemoteResult)
    requires FirstAnswer(events, r, a) && FirstAnswer(events, r, b)
    ensures a == b
  {
    var j: nat :| FirstAnswersAt(events, j, r) && Says(events[j], a);
    var k: nat :| FirstAnswersAt(events, k, r) && Says(events[k], b);
  }

  lemma MailboxIsFirstAnswer(events: seq<Event>, r: Slot, result: RemoteResult)
    requires ClientAfter(events).Some? && IdsLast(ClientAfter(events).value) && r in ClientAfter(events).value.calls
    ensures ClientAfter(events).value.calls[r].mailbox == Some(result) <==> FirstAnswer(events, r, result)
  {
    MailboxIsOwn(events, r);
    if FirstAnswer(events, r, result) {
      assert IsAnswered(events, r);
      OneFirstAnswer(events, r, result, ClientAfter(events).value.calls[r].mailbox.value);
    }
  }

  /** Every way a call can end, each exactly when: well if it collected a first
      answer without an `error`, and with that answer's result; with a remote
      error if that had one, or was the end of the reader, and with its code and
      text; timed out if it gave up unanswered; refused if it registered after the
      reader had drained, or after the writer had gone. */
  lemma OutcomeIsOwnReply(events: seq<Event>, r: Slot, v: Json, code: int, text: string)
    requires ClientAfter(events).Some? && IdsLast(ClientAfter(events).value) && r in ClientAfter(events).value.calls
    ensures var phase := ClientAfter(events).value.calls[r].phase;
            && (phase == Done(Success(v)) <==> Happened(events, Collect(r)) && FirstAnswer(events, r, Value(v)))
            && (phase == Done(CdpError(code, text)) <==>
                  Happened(events, Collect(r)) && FirstAnswer(events, r, RemoteError(code, text)))
            && (phase == Done(Timeout) <==> Happened(events, Event.Forget(r)))
            && (phase == Done(Timeout) ==> !IsAnswered(events, r))
            && (phase == Done(Unavailable(Closed)) <==> Refused(events, r, Closed))
            && (phase == Done(Unavailable(WriterGone)) <==> Refused(events, r, WriterGone))
            && phase != Done(Unavailable(ReaderGone))
  {
    EndsAreRead(events, r);
    MailboxIsOwn(events, r);
    MailboxIsFirstAnswer(events, r, Value(v));
    MailboxIsFirstAnswer(events, r, RemoteError(code, text));
  }

  /** One message answers at most one call: no other call's state changes. */
  lemma ReplyReachesOneCall(events: seq<Event>, message: Json, r: Slot, q: Slot)
    requires ClientAfter(events).Some? && IdsLast(ClientAfter(events).value)
    requires var w := ClientAfter(events).value;
             CanHappen(w, Arrive(message)) && r in w.calls && q in w.calls && r != q
             && IsReplyTo(message, IdOf(w.calls[r].serial).number)
    ensures Happen(ClientAfter(events).value, Arrive(message)).calls[q] == ClientAfter(events).value.calls[q]
  {
    RunKeepsInv(events);
    var w := ClientAfter(events).value;
    var id := IdOf(w.calls[r].serial);
    ReplyHasId(message, id.number);
    DistinctCallsDistinctIds(w, r, q);
    if id in w.pending.replies {
      assert EntryInv(w, id);
    }
  }

  /** A reply that comes after its call has timed out changes nothing. */
  lemma LateReplyIsDropped(events: seq<Event>, message: Json, r: Slot)
    requires ClientAfter(events).Some? && IdsLast(ClientAfter(events).value)
    requires var w := ClientAfter(events).value;
             InPhase(w, r, Done(Timeout)) && CanHappen(w, Arrive(message))
             && IsReplyTo(message, IdOf(w.calls[r].serial).number)
    ensures Happen(ClientAfter(events).value, Arrive(message)) == ClientAfter(events).value
  {
    RunKeepsInv(events);
    var w := ClientAfter(events).value;
    var id := IdOf(w.calls[r].serial);
    ReplyHasId(message, id.number);
    if id in w.pending.replies {
      assert EntryInv(w, id);
      DistinctCallsDistinctIds(w, r, w.pending.replies[id]);
    }
  }
}
