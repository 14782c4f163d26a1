/** What a CDP reply says, and the table of requests waiting for one. */
module PendingReplies {

  import opened Wrappers
  import opened JsonValue

  // ---- Replies ----

  datatype RemoteResult = Value(value: Json) | RemoteError(code: int, message: string)

  const CONNECTION_CLOSED := RemoteError(-1, "CDP connection closed")

  function ErrorIn(error: Json): RemoteResult {
    RemoteError(
      match AsI64(Get(error, "code")) { case Some(code) => code case None => -1 },
      match AsStr(Get(error, "message")) { case Some(m) => m case None => "" })
  }

  /** The number a request goes out under. */
  datatype RequestId = RequestId(number: int)

  /** The request id a message answers, and with what. */
  function ReplyIn(message: Json): Option<(RequestId, RemoteResult)> {
    match AsI64(Get(message, "id"))
    case None => None
    case Some(id) =>
      Some((RequestId(id),
            match Get(message, "error")
            case Some(error) => ErrorIn(error)
            case None =>
              match Get(message, "result")
              case Some(result) => Value(result)
              case None => Value(Null)))
  }

  // ---- A message, read off its members ----

  /** The message carries that id, a 64-bit signed integer. */
  predicate IsReplyTo(message: Json, id: int) {
    Has(message, "id", Int(id)) && -0x8000_0000_0000_0000 <= id < 0x8000_0000_0000_0000
  }

  /** An error's integer code, or -1. */
  predicate HasCode(error: Json, code: int) {
    if error.Obj? && "code" in error.fields && error.fields["code"].Int?
       && -0x8000_0000_0000_0000 <= error.fields["code"].i < 0x8000_0000_0000_0000
    then code == error.fields["code"].i
    else code == -1
  }

  /** An error's message, or nothing. */
  predicate HasText(error: Json, text: string) {
    if error.Obj? && "message" in error.fields && error.fields["message"].Str?
    then text == error.fields["message"].s
    else text == ""
  }

  /** A reply with an `error`, whatever else it has, is that error; any other is its result, or null. */
  predicate Brings(message: Json, result: RemoteResult) {
    message.Obj?
    && if "error" in message.fields then
         result.RemoteError? && HasCode(message.fields["error"], result.code)
         && HasText(message.fields["error"], result.message)
       else
         result == Value(if "result" in message.fields then message.fields["result"] else Null)
  }

  /** What a message is taken to say is what its members say. */
  lemma ReplyReads(message: Json, id: int, result: RemoteResult)
    ensures ReplyIn(message) == Some((RequestId(id), result)) <==> IsReplyTo(message, id) && Brings(message, result)
  {
  }

  lemma ReplyHasId(message: Json, id: int)
    ensures IsReplyTo(message, id) <==> ReplyIn(message).Some? && ReplyIn(message).value.0 == RequestId(id)
  {
  }

  datatype Cause = Closed | WriterGone | ReaderGone

  datatype Outcome =
    | Success(value: Json)
    | CdpError(code: int, message: string)
    | Unavailable(cause: Cause)
    | Timeout

  // ---- The table of waiting requests ----

  /** A request's own name, standing for the sending half of its reply channel. */
  type Slot = nat

  datatype Pending = Pending(closed: bool, replies: map<RequestId, Slot>)

  /** Everyone waiting for a reply. */
  function SlotsOf(replies: map<RequestId, Slot>): set<Slot> {
    set id | id in replies :: replies[id]
  }

  function Without(p: Pending, id: RequestId): Pending {
    p.(replies := p.replies - {id})
  }

  function Dispatched(p: Pending, message: Json): (Pending, Option<(Slot, RemoteResult)>) {
    match ReplyIn(message)
    case Some((id, result)) =>
      if id in p.replies then (Without(p, id), Some((p.replies[id], result))) else (p, None)
    case None => (p, None)
  }

  class PendingRequests {
    var closed: bool
    var replies: map<RequestId, Slot>

    ghost function State(): Pending
      reads this
    {
      Pending(closed, replies)
    }

    constructor ()
      ensures State() == Pending(false, map[])
    {
      closed, replies := false, map[];
    }

    /** Enter the table and hand the frame to the writer; leave again if the writer is gone. */
    method Register(id: RequestId, slot: Slot, writerOpen: bool) returns (refusal: Option<Outcome>)
      modifies this
      ensures (State(), refusal) ==
              if old(closed) then (old(State()), Some(Unavailable(Closed)))
              else if !writerOpen then (Without(old(State()), id), Some(Unavailable(WriterGone)))
              else (Pending(false, old(replies)[id := slot]), None)
    {
      if closed {
        return Some(Unavailable(Closed));
      }
      replies := replies[id := slot];
      if !writerOpen {
        replies := replies - {id};
        assert replies == old(replies) - {id};
        return Some(Unavailable(WriterGone));
      }
      return None;
    }

    method Dispatch(message: Json) returns (delivery: Option<(Slot, RemoteResult)>)
      modifies this`replies
      ensures (State(), delivery) == Dispatched(old(State()), message)
      ensures forall id: int :: IsReplyTo(message, id) && RequestId(id) in old(replies) ==>
                delivery.Some? && delivery.value.0 == old(replies)[RequestId(id)] && Brings(message, delivery.value.1)
                && replies == old(replies) - {RequestId(id)}
      ensures (forall id: int :: IsReplyTo(message, id) ==> RequestId(id) !in old(replies)) ==>
                delivery == None && replies == old(replies)
    {
      delivery := None;
      var reply := ReplyIn(message);
      if reply.Some? && reply.value.0 in replies {
        delivery := Some((replies[reply.value.0], reply.value.1));
        replies := replies - {reply.value.0};
      }
    }

    method Forget(id: RequestId)
      modifies this`replies
      ensures State() == Without(old(State()), id)
    {
      replies := replies - {id};
    }

    /** Close the table and fail everything still in it. */
    method Drain() returns (failed: set<Slot>)
      modifies this
      ensures State() == Pending(true, map[])
      ensures failed == SlotsOf(old(replies))
    {
      closed := true;
      failed := {};
      var left := replies.Keys;
      while left != {}
        invariant closed && replies == old(replies) && left <= replies.Keys
        invariant forall id :: id in replies && id !in left ==> replies[id] in failed
        invariant forall slot :: slot in failed ==> slot in SlotsOf(replies)
        decreases left
      {
        var id :| id in left;
        failed := failed + {replies[id]};
        left := left - {id};
      }
      assert forall slot :: slot in SlotsOf(replies) ==> slot in failed;
      replies := map[];
    }
  }
}
