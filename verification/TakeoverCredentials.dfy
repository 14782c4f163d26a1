/** The list of takeover credentials, pruned whenever it is touched. */
module TakeoverCredentials {

  import opened Wrappers
  import opened Sequences

  type Secret = string

  /** Times in seconds. An idle lease is extended by use, a fixed one is not. */
  datatype Expiry = Fixed | Idle(timeout: nat)

  datatype Token = Token(secret: Secret, expiry: Expiry, deadline: int, revoked: bool)

  predicate IsLive(t: Token, now: int) {
    now < t.deadline && !t.revoked
  }

  predicate Authorizes(t: Token, secret: Secret, now: int) {
    t.secret == secret && IsLive(t, now)
  }

  function Used(t: Token, now: int): Token {
    match t.expiry
    case Fixed => t
    case Idle(timeout) => t.(deadline := now + timeout)
  }

  function Issued(secret: Secret, expiry: Expiry, ttl: nat, now: int): Token {
    Token(secret, expiry, now + ttl, false)
  }

  /** The credentials still live, in order. */
  function Live(list: seq<Token>, now: int): seq<Token> {
    if list == [] then []
    else if IsLive(list[0], now) then [list[0]] + Live(list[1..], now)
    else Live(list[1..], now)
  }

  /** Use the first credential that authorizes `secret`, and revoke it if asked to. */
  function UseFirst(list: seq<Token>, secret: Secret, now: int, revoke: bool): (seq<Token>, Option<Token>) {
    if list == [] then ([], None)
    else if Authorizes(list[0], secret, now) then
      var used := Used(list[0], now).(revoked := revoke);
      ([used] + list[1..], Some(used))
    else
      var (rest, found) := UseFirst(list[1..], secret, now, revoke);
      ([list[0]] + rest, found)
  }

  function VoidEach(list: seq<Token>, secret: Secret): seq<Token> {
    if list == [] then []
    else [if list[0].secret == secret then list[0].(revoked := true) else list[0]] + VoidEach(list[1..], secret)
  }

  lemma {:induction false} FirstUse(list: seq<Token>, secret: Secret, now: int, revoke: bool, i: nat)
    requires i <= |list| && forall k :: 0 <= k < i ==> !Authorizes(list[k], secret, now)
    requires i < |list| ==> Authorizes(list[i], secret, now)
    ensures UseFirst(list, secret, now, revoke) ==
            if i == |list| then (list, None)
            else (list[i := Used(list[i], now).(revoked := revoke)], Some(Used(list[i], now).(revoked := revoke)))
  {
    if list != [] {
      assert list == [list[0]] + list[1..];
      if i > 0 {
        assert forall k :: 0 <= k < i - 1 ==> list[1..][k] == list[k + 1];
        FirstUse(list[1..], secret, now, revoke, i - 1);
      }
      if i < |list| {
        var used := Used(list[i], now).(revoked := revoke);
        assert list[i := used] == if i == 0 then [used] + list[1..] else [list[0]] + list[1..][i - 1 := used];
      }
    }
  }

  class CredentialList {
    var handoffs: seq<Token>

    constructor ()
      ensures handoffs == []
    {
      handoffs := [];
    }

    method Prune(now: int)
      modifies this
      ensures handoffs == Live(old(handoffs), now)
    {
      var kept: seq<Token> := [];
      var i := |handoffs|;
      while i > 0
        invariant 0 <= i <= |handoffs| && handoffs == old(handoffs)
        invariant kept == Live(handoffs[i..], now)
      {
        i := i - 1;
        assert handoffs[i..] == [handoffs[i]] + handoffs[i + 1..];
        if IsLive(handoffs[i], now) {
          kept := [handoffs[i]] + kept;
        }
      }
      handoffs := kept;
    }

    method Issue(secret: Secret, expiry: Expiry, ttl: nat, now: int)
      modifies this
      ensures handoffs == Live(old(handoffs), now) + [Issued(secret, expiry, ttl, now)]
    {
      Prune(now);
      handoffs := handoffs + [Token(secret, expiry, now + ttl, false)];
    }

    /** The first credential that authorizes `secret`, used and perhaps revoked in place. */
    method UseMatching(secret: Secret, now: int, revoke: bool) returns (found: Option<Token>)
      modifies this
      ensures (handoffs, found) == UseFirst(old(handoffs), secret, now, revoke)
    {
      for i := 0 to |handoffs|
        invariant handoffs == old(handoffs)
        invariant forall k :: 0 <= k < i ==> !Authorizes(handoffs[k], secret, now)
      {
        if handoffs[i].secret == secret && IsLive(handoffs[i], now) {
          FirstUse(handoffs, secret, now, revoke, i);
          var used := Used(handoffs[i], now).(revoked := revoke);
          handoffs := handoffs[i := used];
          return Some(used);
        }
      }
      FirstUse(handoffs, secret, now, revoke, |handoffs|);
      return None;
    }

    method Authorize(secret: Secret, now: int) returns (found: Option<Token>)
      modifies this
      ensures (handoffs, found) == UseFirst(Live(old(handoffs), now), secret, now, false)
    {
      Prune(now);
      found := UseMatching(secret, now, false);
    }

    method Revoke(secret: Secret, now: int) returns (done: bool)
      modifies this
      ensures var (used, found) := UseFirst(Live(old(handoffs), now), secret, now, true);
              handoffs == Live(used, now) && done == found.Some?
    {
      Prune(now);
      var found := UseMatching(secret, now, true);
      Prune(now);
      done := found.Some?;
    }

    /** A credential revoked through its own handle, wherever it stands. */
    method Void(secret: Secret)
      modifies this
      ensures handoffs == VoidEach(old(handoffs), secret)
    {
      var voided: seq<Token> := [];
      var i := |handoffs|;
      while i > 0
        invariant 0 <= i <= |handoffs| && handoffs == old(handoffs)
        invariant voided == VoidEach(handoffs[i..], secret)
      {
        i := i - 1;
        assert handoffs[i..] == [handoffs[i]] + handoffs[i + 1..];
        voided := [if handoffs[i].secret == secret then handoffs[i].(revoked := true) else handoffs[i]] + voided;
      }
      handoffs := voided;
    }

    method RevokeAll() returns (revoked: nat)
      modifies this
      ensures handoffs == [] && revoked == |old(handoffs)|
    {
      revoked := |handoffs|;
      handoffs := [];
    }

    method HasLive(now: int) returns (live: bool)
      modifies this
      ensures handoffs == Live(old(handoffs), now) && live == (handoffs != [])
    {
      Prune(now);
      live := handoffs != [];
    }
  }

  // ---- The same operations without pruning ----

  datatype Op =
    | Mint(secret: Secret, expiry: Expiry, ttl: nat)
    | Authorize(secret: Secret)
    | Revoke(secret: Secret)
    | Void(secret: Secret)
    | RevokeAll
    | AskLive

  datatype Timed = Timed(op: Op, now: int)

  datatype Answer = Silent | Authorized(token: Option<Token>) | Revoked(done: bool) | LiveNow(yes: bool)

  function RevokeEach(list: seq<Token>): seq<Token> {
    if list == [] then [] else [list[0].(revoked := true)] + RevokeEach(list[1..])
  }

  /** What the program does: the list is pruned by every operation but `RevokeAll`,
      which empties it, and `Void`, which happens outside the list. */
  function PrunedStep(list: seq<Token>, e: Timed): (seq<Token>, Answer) {
    var kept := Live(list, e.now);
    match e.op
    case Mint(secret, expiry, ttl) => (kept + [Issued(secret, expiry, ttl, e.now)], Silent)
    case Authorize(secret) =>
      var (used, found) := UseFirst(kept, secret, e.now, false);
      (used, Authorized(found))
    case Revoke(secret) =>
      var (used, found) := UseFirst(kept, secret, e.now, true);
      (Live(used, e.now), Revoked(found.Some?))
    case Void(secret) => (VoidEach(list, secret), Silent)
    case RevokeAll => ([], Silent)
    case AskLive => (kept, LiveNow(kept != []))
  }

  /** The full history: nothing is ever taken off the list. */
  function FullStep(list: seq<Token>, e: Timed): (seq<Token>, Answer) {
    match e.op
    case Mint(secret, expiry, ttl) => (list + [Issued(secret, expiry, ttl, e.now)], Silent)
    case Authorize(secret) =>
      var (used, found) := UseFirst(list, secret, e.now, false);
      (used, Authorized(found))
    case Revoke(secret) =>
      var (used, found) := UseFirst(list, secret, e.now, true);
      (used, Revoked(found.Some?))
    case Void(secret) => (VoidEach(list, secret), Silent)
    case RevokeAll => (RevokeEach(list), Silent)
    case AskLive => (list, LiveNow(exists t :: t in list && IsLive(t, e.now)))
  }

  function PrunedRun(events: seq<Timed>): (seq<Token>, seq<Answer>) {
    if events == [] then ([], [])
    else
      var (list, answers) := PrunedRun(Init(events));
      var (list', answer) := PrunedStep(list, Last(events));
      (list', answers + [answer])
  }

  function FullRun(events: seq<Timed>): (seq<Token>, seq<Answer>) {
    if events == [] then ([], [])
    else
      var (list, answers) := FullRun(Init(events));
      var (list', answer) := FullStep(list, Last(events));
      (list', answers + [answer])
  }

  ghost predicate TimeFlows(events: seq<Timed>) {
    forall i, j :: 0 <= i <= j < |events| ==> events[i].now <= events[j].now
  }

  // ---- Pruning is invisible ----

  lemma {:induction false} LiveOfConcat(a: seq<Token>, b: seq<Token>, now: int)
    ensures Live(a + b, now) == Live(a, now) + Live(b, now)
  {
    if a == [] {
      assert a + b == b;
    } else {
      assert (a + b)[1..] == a[1..] + b;
      LiveOfConcat(a[1..], b, now);
    }
  }

  /** What is dead by `now` is dead later. */
  lemma {:induction false} LiveLater(list: seq<Token>, now: int, later: int)
    requires now <= later
    ensures Live(Live(list, now), later) == Live(list, later)
  {
    if list != [] {
      LiveLater(list[1..], now, later);
    }
  }

  lemma {:induction false} LiveAfterUse(list: seq<Token>, secret: Secret, now: int, revoke: bool, later: int)
    requires now <= later
    ensures var (full, found) := UseFirst(list, secret, now, revoke);
            var (kept, found') := UseFirst(Live(list, now), secret, now, revoke);
            found == found' && Live(full, later) == Live(kept, later)
  {
    if list != [] {
      LiveAfterUse(list[1..], secret, now, revoke, later);
      LiveLater(list[1..], now, later);
    }
  }

  lemma {:induction false} NothingLiveOnceRevoked(list: seq<Token>, now: int)
    ensures Live(RevokeEach(list), now) == []
  {
    if list != [] {
      NothingLiveOnceRevoked(list[1..], now);
    }
  }

  lemma {:induction false} LiveOfVoid(list: seq<Token>, secret: Secret, now: int, later: int)
    requires now <= later
    ensures Live(VoidEach(list, secret), later) == Live(VoidEach(Live(list, now), secret), later)
  {
    if list != [] {
      LiveOfVoid(list[1..], secret, now, later);
    }
  }

  lemma {:induction false} VoidMembers(list: seq<Token>, secret: Secret)
    ensures forall t :: t in VoidEach(list, secret) ==> t in list || (t.secret == secret && t.revoked)
    ensures forall t :: t in list && t.secret != secret ==> t in VoidEach(list, secret)
    ensures forall t :: t in VoidEach(list, secret) && t.secret == secret ==> t.revoked
  {
    if list != [] {
      VoidMembers(list[1..], secret);
      assert list == [list[0]] + list[1..];
    }
  }

  lemma {:induction false} LiveMembers(list: seq<Token>, now: int)
    ensures forall t :: t in Live(list, now) <==> t in list && IsLive(t, now)
  {
    if list != [] {
      LiveMembers(list[1..], now);
      assert list == [list[0]] + list[1..];
    }
  }

  /** Two lists with the same live credentials answer alike and stay alike. */
  lemma StepsAgree(pruned: seq<Token>, full: seq<Token>, e: Timed, later: int)
    requires Live(pruned, e.now) == Live(full, e.now) && e.now <= later
    ensures PrunedStep(pruned, e).1 == FullStep(full, e).1
    ensures Live(PrunedStep(pruned, e).0, later) == Live(FullStep(full, e).0, later)
  {
    match e.op
    case Mint(secret, expiry, ttl) =>
      LiveOfConcat(Live(full, e.now), [Issued(secret, expiry, ttl, e.now)], later);
      LiveOfConcat(full, [Issued(secret, expiry, ttl, e.now)], later);
      LiveLater(full, e.now, later);
    case Authorize(secret) => LiveAfterUse(full, secret, e.now, false, later);
    case Revoke(secret) =>
      LiveAfterUse(full, secret, e.now, true, later);
      LiveLater(UseFirst(Live(full, e.now), secret, e.now, true).0, e.now, later);
    case Void(secret) =>
      LiveOfVoid(pruned, secret, e.now, later);
      LiveOfVoid(full, secret, e.now, later);
    case RevokeAll => NothingLiveOnceRevoked(full, later);
    case AskLive =>
      LiveMembers(full, e.now);
      LiveLater(full, e.now, later);
      if Live(full, e.now) != [] {
        assert Live(full, e.now)[0] in Live(full, e.now);
      }
  }

  /** Pruning never changes an answer: the program's list and an unpruned
      history answer every operation alike. */
  lemma {:induction false} PruningIsInvisible(events: seq<Timed>, later: int)
    requires TimeFlows(events) && (events != [] ==> Last(events).now <= later)
    ensures PrunedRun(events).1 == FullRun(events).1
    ensures Live(PrunedRun(events).0, later) == Live(FullRun(events).0, later)
  {
    if events != [] {
      PruningIsInvisible(Init(events), Last(events).now);
      StepsAgree(PrunedRun(Init(events)).0, FullRun(Init(events)).0, Last(events), later);
    }
  }

  // ---- Dead secrets stay dead ----

  predicate Answering(list: seq<Token>, secret: Secret, now: int) {
    exists t :: t in list && Authorizes(t, secret, now)
  }

  lemma {:induction false} UseRevivesNothing(
    list: seq<Token>, used: Secret, now: int, revoke: bool, secret: Secret, later: int)
    requires now <= later && !Answering(list, secret, now)
    ensures !Answering(UseFirst(list, used, now, revoke).0, secret, later)
  {
    if list != [] {
      assert list[0] in list && forall t :: t in list[1..] ==> t in list;
      UseRevivesNothing(list[1..], used, now, revoke, secret, later);
      var rest := UseFirst(list[1..], used, now, revoke).0;
      forall t | t in UseFirst(list, used, now, revoke).0 ensures !Authorizes(t, secret, later) {
        if t in rest || t in list[1..] || t == list[0] {
          assert t in list ==> !Authorizes(t, secret, now);
        }
      }
    }
  }

  lemma {:induction false} UseFindsAnswering(list: seq<Token>, secret: Secret, now: int, revoke: bool)
    ensures UseFirst(list, secret, now, revoke).1.Some? <==> Answering(list, secret, now)
  {
    if list != [] {
      UseFindsAnswering(list[1..], secret, now, revoke);
      assert list == [list[0]] + list[1..];
    }
  }

  lemma StepRevivesNothing(list: seq<Token>, e: Timed, secret: Secret, later: int)
    requires e.now <= later && !Answering(list, secret, e.now) && !(e.op.Mint? && e.op.secret == secret)
    ensures !Answering(PrunedStep(list, e).0, secret, later)
    ensures e.op == Authorize(secret) ==> PrunedStep(list, e).1 == Authorized(None)
    ensures e.op == Revoke(secret) ==> PrunedStep(list, e).1 == Revoked(false)
  {
    LiveMembers(list, e.now);
    var kept := Live(list, e.now);
    match e.op
    case Authorize(other) =>
      UseRevivesNothing(kept, other, e.now, false, secret, later);
      UseFindsAnswering(kept, other, e.now, false);
    case Revoke(other) =>
      UseRevivesNothing(kept, other, e.now, true, secret, later);
      UseFindsAnswering(kept, other, e.now, true);
      LiveMembers(UseFirst(kept, other, e.now, true).0, e.now);
    case Void(other) => VoidMembers(list, other);
    case _ =>
  }

  /** A secret that authorizes nothing at event `n` never does again: secrets are not minted twice. */
  lemma {:induction false} DeadStaysDead(events: seq<Timed>, n: nat, secret: Secret, later: int)
    requires n <= |events| && TimeFlows(events) && (events != [] ==> Last(events).now <= later)
    requires !Answering(PrunedRun(events[..n]).0, secret, if n < |events| then events[n].now else later)
    requires forall k :: n <= k < |events| ==> !(events[k].op.Mint? && events[k].op.secret == secret)
    ensures !Answering(PrunedRun(events).0, secret, later)
    ensures forall k :: n <= k < |events| && events[k].op == Authorize(secret)
                        ==> k < |PrunedRun(events).1| && PrunedRun(events).1[k] == Authorized(None)
    ensures |PrunedRun(events).1| == |events|
  {
    AnswersCount(events);
    if n == |events| {
      assert events[..n] == events;
    } else {
      var prefix := Init(events);
      assert prefix[..n] == events[..n];
      DeadStaysDead(prefix, n, secret, Last(events).now);
      StepRevivesNothing(PrunedRun(prefix).0, Last(events), secret, later);
    }
  }

  lemma {:induction false} AnswersCount(events: seq<Timed>)
    ensures |PrunedRun(events).1| == |events|
  {
    if events != [] {
      AnswersCount(Init(events));
    }
  }

  // ---- One credential at a time ----

  ghost predicate DistinctSecrets(list: seq<Token>) {
    forall i, j :: 0 <= i < j < |list| ==> list[i].secret != list[j].secret
  }

  lemma {:induction false} LiveKeepsDistinct(list: seq<Token>, now: int)
    requires DistinctSecrets(list)
    ensures DistinctSecrets(Live(list, now))
  {
    if list != [] {
      var rest := list[1..];
      assert forall i :: 0 <= i < |rest| ==> rest[i] == list[i + 1];
      LiveKeepsDistinct(rest, now);
      LiveMembers(rest, now);
      assert forall t :: t in Live(rest, now) ==> t.secret != list[0].secret;
    }
  }

  lemma {:induction false} RevokingDropsOneSecret(list: seq<Token>, secret: Secret, now: int, any: Secret)
    requires DistinctSecrets(list)
    ensures Answering(UseFirst(list, secret, now, true).0, any, now) <==> Answering(list, any, now) && any != secret
  {
    if list != [] {
      var rest := list[1..];
      assert list == [list[0]] + rest;
      assert forall i :: 0 <= i < |rest| ==> rest[i] == list[i + 1];
      assert forall t :: t in rest ==> t.secret != list[0].secret;
      RevokingDropsOneSecret(rest, secret, now, any);
      var result := UseFirst(list, secret, now, true).0;
      assert result == [result[0]] + result[1..];
      AnsweringSplits(result, any, now);
      AnsweringSplits(list, any, now);
    }
  }

  lemma AnsweringSplits(list: seq<Token>, secret: Secret, now: int)
    requires list != []
    ensures Answering(list, secret, now) <==> Authorizes(list[0], secret, now) || Answering(list[1..], secret, now)
  {
    assert list == [list[0]] + list[1..];
  }

  lemma AnsweringLive(list: seq<Token>, secret: Secret, now: int)
    ensures Answering(Live(list, now), secret, now) <==> Answering(list, secret, now)
  {
    LiveMembers(list, now);
  }

  /** Revoking drops that one secret and no other. */
  lemma RevocationDrops(list: seq<Token>, secret: Secret, now: int, any: Secret)
    requires DistinctSecrets(list)
    ensures Answering(PrunedStep(list, Timed(Revoke(secret), now)).0, any, now)
            <==> Answering(list, any, now) && any != secret
  {
    LiveKeepsDistinct(list, now);
    AnsweringLive(list, any, now);
    RevokingDropsOneSecret(Live(list, now), secret, now, any);
    AnsweringLive(UseFirst(Live(list, now), secret, now, true).0, any, now);
  }

  lemma {:induction false} UseMembers(list: seq<Token>, secret: Secret, now: int, revoke: bool)
    requires DistinctSecrets(list)
    ensures var used := UseFirst(list, secret, now, revoke).0;
            (forall t :: t in list && !Authorizes(t, secret, now) ==> t in used)
            && (forall t :: t in list && Authorizes(t, secret, now) ==> Used(t, now).(revoked := revoke) in used)
            && (forall t :: t in used && t !in list
                  ==> exists u :: u in list && Authorizes(u, secret, now) && t == Used(u, now).(revoked := revoke))
  {
    if list != [] {
      var rest := list[1..];
      assert list == [list[0]] + rest;
      assert forall i :: 0 <= i < |rest| ==> rest[i] == list[i + 1];
      assert forall t :: t in rest ==> t.secret != list[0].secret;
      UseMembers(rest, secret, now, revoke);
    }
  }

  /** Using, revoking and voiding change no secret's place in the list. */
  lemma {:induction false} SecretsStay(list: seq<Token>, secret: Secret, now: int, revoke: bool)
    ensures var used := UseFirst(list, secret, now, revoke).0;
            |used| == |list| && forall i :: 0 <= i < |list| ==> used[i].secret == list[i].secret
    ensures var voided := VoidEach(list, secret);
            |voided| == |list| && forall i :: 0 <= i < |list| ==> voided[i].secret == list[i].secret
  {
    if list != [] {
      SecretsStay(list[1..], secret, now, revoke);
    }
  }

  ghost predicate MintedOnce(events: seq<Timed>) {
    forall i, j :: 0 <= i < j < |events| && events[i].op.Mint? && events[j].op.Mint?
                   ==> events[i].op.secret != events[j].op.secret
  }

  ghost predicate WasMinted(events: seq<Timed>, secret: Secret) {
    exists i :: 0 <= i < |events| && events[i].op.Mint? && events[i].op.secret == secret
  }

  /** What a history says of one credential, without a list. */
  datatype Life = NotYet | Alive(expiry: Expiry, deadline: int) | Dead

  function LifeAfter(events: seq<Timed>, secret: Secret): Life {
    if events == [] then NotYet else LifeStep(LifeAfter(Init(events), secret), Last(events), secret)
  }

  function LifeStep(life: Life, e: Timed, secret: Secret): Life {
    match e.op
    case Mint(s, expiry, ttl) => if s == secret then Alive(expiry, e.now + ttl) else life
    case Authorize(s) =>
      if s == secret && life.Alive? && life.expiry.Idle? && e.now < life.deadline
      then Alive(life.expiry, e.now + life.expiry.timeout) else life
    case Revoke(s) => if s == secret && life.Alive? then Dead else life
    case Void(s) => if s == secret && life.Alive? then Dead else life
    case RevokeAll => if life.Alive? then Dead else life
    case AskLive => life
  }

  predicate AnswersAt(life: Life, now: int) {
    life.Alive? && now < life.deadline
  }

  /** The list has the credential's token as its life says. */
  ghost predicate Shows(list: seq<Token>, life: Life, secret: Secret, now: int) {
    && (AnswersAt(life, now) ==> Token(secret, life.expiry, life.deadline, false) in list)
    && (forall t :: t in list && t.secret == secret && IsLive(t, now) ==> life == Alive(t.expiry, t.deadline))
  }

  lemma ShownIsAnswering(list: seq<Token>, life: Life, secret: Secret, now: int)
    requires Shows(list, life, secret, now)
    ensures Answering(list, secret, now) <==> AnswersAt(life, now)
  {
    if AnswersAt(life, now) {
      assert Authorizes(Token(secret, life.expiry, life.deadline, false), secret, now);
    }
  }

  lemma UseShowsOthers(list: seq<Token>, life: Life, used: Secret, now: int, revoke: bool, secret: Secret, later: int)
    requires DistinctSecrets(list) && Shows(list, life, secret, now) && now <= later && used != secret
    ensures Shows(UseFirst(list, used, now, revoke).0, life, secret, later)
  {
    UseMembers(list, used, now, revoke);
  }

  lemma UseShows(list: seq<Token>, life: Life, e: Timed, secret: Secret, later: int)
    requires DistinctSecrets(list) && Shows(list, life, secret, e.now) && e.now <= later
    requires e.op.Authorize? || e.op.Revoke?
    ensures Shows(UseFirst(list, e.op.secret, e.now, e.op.Revoke?).0, LifeStep(life, e, secret), secret, later)
  {
    if e.op.secret == secret {
      UseMembers(list, secret, e.now, e.op.Revoke?);
    } else {
      UseShowsOthers(list, life, e.op.secret, e.now, e.op.Revoke?, secret, later);
    }
  }

  lemma StepShows(list: seq<Token>, life: Life, e: Timed, secret: Secret, later: int)
    requires DistinctSecrets(list) && Shows(list, life, secret, e.now) && e.now <= later
    requires e.op.Mint? && e.op.secret == secret ==> forall t :: t in list ==> t.secret != secret
    ensures Shows(PrunedStep(list, e).0, LifeStep(life, e, secret), secret, later)
  {
    var kept := Live(list, e.now);
    LiveMembers(list, e.now);
    LiveKeepsDistinct(list, e.now);
    if e.op.Authorize? {
      UseShows(kept, life, e, secret, later);
    } else if e.op.Revoke? {
      UseShows(kept, life, e, secret, later);
      LiveMembers(UseFirst(kept, e.op.secret, e.now, true).0, e.now);
    } else if e.op.Void? {
      VoidMembers(list, e.op.secret);
    }
  }

  lemma StepKeepsDistinct(list: seq<Token>, e: Timed)
    requires DistinctSecrets(list)
    requires e.op.Mint? ==> forall t :: t in list ==> t.secret != e.op.secret
    ensures DistinctSecrets(PrunedStep(list, e).0)
    ensures forall t :: t in PrunedStep(list, e).0 ==>
              (e.op.Mint? && t.secret == e.op.secret) || exists u :: u in list && u.secret == t.secret
  {
    var kept := Live(list, e.now);
    LiveMembers(list, e.now);
    LiveKeepsDistinct(list, e.now);
    if e.op.Authorize? || e.op.Revoke? {
      UseKeepsDistinct(kept, e.op.secret, e.now, e.op.Revoke?);
      LiveKeepsDistinct(UseFirst(kept, e.op.secret, e.now, e.op.Revoke?).0, e.now);
      LiveMembers(UseFirst(kept, e.op.secret, e.now, e.op.Revoke?).0, e.now);
    } else if e.op.Void? {
      VoidKeepsDistinct(list, e.op.secret);
    }
  }

  lemma UseKeepsDistinct(list: seq<Token>, secret: Secret, now: int, revoke: bool)
    requires DistinctSecrets(list)
    ensures var used := UseFirst(list, secret, now, revoke).0;
            DistinctSecrets(used) && forall t :: t in used ==> exists u :: u in list && u.secret == t.secret
  {
    SecretsStay(list, secret, now, revoke);
    var used := UseFirst(list, secret, now, revoke).0;
    forall t | t in used ensures exists u :: u in list && u.secret == t.secret {
      var i :| 0 <= i < |used| && used[i] == t;
      assert list[i] in list && list[i].secret == t.secret;
    }
  }

  lemma VoidKeepsDistinct(list: seq<Token>, secret: Secret)
    requires DistinctSecrets(list)
    ensures var voided := VoidEach(list, secret);
            DistinctSecrets(voided) && forall t :: t in voided ==> exists u :: u in list && u.secret == t.secret
  {
    SecretsStay(list, secret, 0, false);
    var voided := VoidEach(list, secret);
    forall t | t in voided ensures exists u :: u in list && u.secret == t.secret {
      var i :| 0 <= i < |voided| && voided[i] == t;
      assert list[i] in list && list[i].secret == t.secret;
    }
  }

  /** The list never holds two credentials of one secret, nor one never minted. */
  lemma {:induction false} ListIsDistinct(events: seq<Timed>)
    requires MintedOnce(events)
    ensures DistinctSecrets(PrunedRun(events).0)
    ensures forall t :: t in PrunedRun(events).0 ==> WasMinted(events, t.secret)
  {
    if events != [] {
      var prefix, e := Init(events), Last(events);
      assert forall i :: 0 <= i < |prefix| ==> prefix[i] == events[i];
      ListIsDistinct(prefix);
      var list := PrunedRun(prefix).0;
      if e.op.Mint? {
        forall t | t in list ensures t.secret != e.op.secret {
          var i :| 0 <= i < |prefix| && prefix[i].op.Mint? && prefix[i].op.secret == t.secret;
          assert events[i].op.Mint? && events[|events| - 1].op.Mint?;
        }
      }
      StepKeepsDistinct(list, e);
      forall t | t in PrunedRun(events).0 ensures WasMinted(events, t.secret) {
        if e.op.Mint? && t.secret == e.op.secret {
          assert events[|events| - 1].op.Mint?;
        } else {
          var u :| u in list && u.secret == t.secret;
          var i :| 0 <= i < |prefix| && prefix[i].op.Mint? && prefix[i].op.secret == u.secret;
          assert events[i].op.Mint?;
        }
      }
    }
  }

  lemma {:induction false} ListShowsLife(events: seq<Timed>, secret: Secret, later: int)
    requires MintedOnce(events) && TimeFlows(events) && (events != [] ==> Last(events).now <= later)
    ensures Shows(PrunedRun(events).0, LifeAfter(events, secret), secret, later)
  {
    if events != [] {
      var prefix, e := Init(events), Last(events);
      assert forall i :: 0 <= i < |prefix| ==> prefix[i] == events[i];
      ListShowsLife(prefix, secret, e.now);
      ListIsDistinct(prefix);
      var list := PrunedRun(prefix).0;
      if e.op.Mint? {
        forall t | t in list ensures t.secret != e.op.secret {
          var i :| 0 <= i < |prefix| && prefix[i].op.Mint? && prefix[i].op.secret == t.secret;
          assert events[i].op.Mint? && events[|events| - 1].op.Mint?;
        }
      }
      StepShows(list, LifeAfter(prefix, secret), e, secret, later);
    }
  }

  /** Exactly when a secret answers, after any operations: it was minted, nothing
      revoked it since, and its deadline, moved on by each use of an idle lease
      still alive, has not come. */
  lemma AnswersExactlyWhile(events: seq<Timed>, secret: Secret, later: int)
    requires MintedOnce(events) && TimeFlows(events) && (events != [] ==> Last(events).now <= later)
    ensures Answering(PrunedRun(events).0, secret, later) <==> AnswersAt(LifeAfter(events, secret), later)
  {
    ListShowsLife(events, secret, later);
    ShownIsAnswering(PrunedRun(events).0, LifeAfter(events, secret), secret, later);
  }

  predicate Ends(op: Op, secret: Secret) {
    op == Revoke(secret) || op == Void(secret) || op == RevokeAll
  }

  ghost predicate EndedAfter(events: seq<Timed>, m: nat, secret: Secret) {
    exists k :: m < k < |events| && Ends(events[k].op, secret)
  }

  /** A credential with a fixed lifetime: its life in one line. */
  lemma {:induction false} FixedLife(events: seq<Timed>, m: nat, secret: Secret, ttl: nat)
    requires m < |events| && events[m].op == Mint(secret, Fixed, ttl) && MintedOnce(events)
    ensures LifeAfter(events, secret)
         == if EndedAfter(events, m, secret) then Dead else Alive(Fixed, events[m].now + ttl)
  {
    var prefix, e := Init(events), Last(events);
    assert events[|events| - 1] == e;
    assert forall i :: 0 <= i < |prefix| ==> prefix[i] == events[i];
    if m < |prefix| {
      FixedLife(prefix, m, secret, ttl);
      assert events[m].op.Mint? && !(e.op.Mint? && e.op.secret == secret);
      if EndedAfter(prefix, m, secret) {
        var k :| m < k < |prefix| && Ends(prefix[k].op, secret);
        assert Ends(events[k].op, secret);
      }
    }
  }

  /** A handoff answers until its promised deadline, however often it is used
      and whatever else happens, unless it is revoked; and never after. */
  lemma HandoffAnswersUntilItsDeadline(events: seq<Timed>, m: nat, secret: Secret, ttl: nat, later: int)
    requires m < |events| && events[m].op == Mint(secret, Fixed, ttl)
    requires MintedOnce(events) && TimeFlows(events) && Last(events).now <= later
    ensures Answering(PrunedRun(events).0, secret, later)
       <==> !EndedAfter(events, m, secret) && later < events[m].now + ttl
  {
    FixedLife(events, m, secret, ttl);
    AnswersExactlyWhile(events, secret, later);
  }

  // ---- An idle lease, by its uses ----

  predicate IsIdleMint(e: Timed, secret: Secret) {
    e.op.Mint? && e.op.secret == secret && e.op.expiry.Idle?
  }

  /** Event `k` mints the lease, or uses it later. */
  predicate Touches(events: seq<Timed>, m: nat, k: nat, secret: Secret) {
    k < |events| && (k == m || (m < k && events[k].op == Authorize(secret)))
  }

  /** Until when event `k` keeps the lease going: its lifetime from minting, its timeout from a use. */
  function KeptUntil(events: seq<Timed>, m: nat, k: nat): int
    requires m < |events| && k < |events| && events[m].op.Mint? && events[m].op.expiry.Idle?
  {
    events[k].now + (if k == m then events[m].op.ttl else events[m].op.expiry.timeout)
  }

  /** Another use followed event `k` in time, or it still keeps the lease going at `later`. */
  ghost predicate FollowedUp(events: seq<Timed>, m: nat, k: nat, secret: Secret, later: int)
    requires m < |events| && k < |events| && events[m].op.Mint? && events[m].op.expiry.Idle?
  {
    later < KeptUntil(events, m, k)
    || exists j :: k < j < |events| && events[j].op == Authorize(secret) && events[j].now < KeptUntil(events, m, k)
  }

  /** From its minting to `later` the lease was never left unused for too long. */
  ghost predicate KeptInUse(events: seq<Timed>, m: nat, secret: Secret, later: int)
    requires m < |events| && events[m].op.Mint? && events[m].op.expiry.Idle?
  {
    forall k: nat :: Touches(events, m, k, secret) ==> FollowedUp(events, m, k, secret, later)
  }

  lemma InUseWithoutUse(events: seq<Timed>, m: nat, secret: Secret, later: int)
    requires m < |events| - 1 && IsIdleMint(events[m], secret) && Last(events).op != Authorize(secret)
    ensures KeptInUse(events, m, secret, later) <==> KeptInUse(Init(events), m, secret, later)
  {
    var prefix, n := Init(events), |events| - 1;
    forall k: nat | k < n
      ensures Touches(events, m, k, secret) <==> Touches(prefix, m, k, secret)
      ensures FollowedUp(events, m, k, secret, later) <==> FollowedUp(prefix, m, k, secret, later)
    {
      assert forall j :: 0 <= j < n ==> prefix[j] == events[j];
      if j :| k < j < n && events[j].op == Authorize(secret) && events[j].now < KeptUntil(events, m, k) {
        assert prefix[j].op == Authorize(secret);
      }
    }
  }

  lemma InUseAfterUse(events: seq<Timed>, m: nat, secret: Secret, later: int)
    requires m < |events| - 1 && IsIdleMint(events[m], secret) && Last(events).op == Authorize(secret)
    requires Last(events).now <= later
    ensures KeptInUse(events, m, secret, later) <==>
            KeptInUse(Init(events), m, secret, Last(events).now)
            && later < Last(events).now + events[m].op.expiry.timeout
  {
    var prefix, n := Init(events), |events| - 1;
    assert events[n] == Last(events);
    forall k: nat | k < n
      ensures Touches(events, m, k, secret) <==> Touches(prefix, m, k, secret)
      ensures FollowedUp(events, m, k, secret, later) <==> FollowedUp(prefix, m, k, secret, events[n].now)
    {
      assert forall j :: 0 <= j < n ==> prefix[j] == events[j];
      if j :| k < j < n && events[j].op == Authorize(secret) && events[j].now < KeptUntil(events, m, k) {
        assert prefix[j].op == Authorize(secret);
      }
    }
    assert Touches(events, m, n, secret);
  }

  lemma NotRevived(events: seq<Timed>, m: nat, secret: Secret)
    requires m < |events| - 1 && MintedOnce(events) && IsIdleMint(events[m], secret)
    ensures !(Last(events).op.Mint? && Last(events).op.secret == secret)
    ensures MintedOnce(Init(events)) && IsIdleMint(Init(events)[m], secret)
  {
    assert Last(events) == events[|events| - 1];
    assert forall i :: 0 <= i < |events| - 1 ==> Init(events)[i] == events[i];
  }

  lemma EndedStep(events: seq<Timed>, m: nat, secret: Secret)
    requires m < |events| - 1
    ensures EndedAfter(events, m, secret) <==> EndedAfter(Init(events), m, secret) || Ends(Last(events).op, secret)
  {
    var n := |events| - 1;
    assert events[n] == Last(events);
    assert forall k :: 0 <= k < n ==> Init(events)[k] == events[k];
    if k :| m < k < n && Ends(Init(events)[k].op, secret) {
      assert Ends(events[k].op, secret);
    }
  }

  /** The life of an idle lease, read off its uses. */
  ghost predicate IdleLifeRead(events: seq<Timed>, m: nat, secret: Secret, later: int)
    requires m < |events| && events[m].op.Mint? && events[m].op.expiry.Idle?
  {
    var life := LifeAfter(events, secret);
    && (life.Alive? ==> life.expiry == events[m].op.expiry && !EndedAfter(events, m, secret))
    && (AnswersAt(life, later) <==> !EndedAfter(events, m, secret) && KeptInUse(events, m, secret, later))
    && !life.NotYet?
  }

  lemma {:induction false} IdleLife(events: seq<Timed>, m: nat, secret: Secret, later: int)
    requires m < |events| && IsIdleMint(events[m], secret) && MintedOnce(events) && TimeFlows(events)
    requires Last(events).now <= later
    ensures IdleLifeRead(events, m, secret, later)
  {
    if m == |events| - 1 {
      assert Last(events) == events[m] && Touches(events, m, m, secret);
    } else {
      NotRevived(events, m, secret);
      EndedStep(events, m, secret);
      assert events[|events| - 1] == Last(events) && Last(Init(events)) == events[|events| - 2];
      IdleLife(Init(events), m, secret, Last(events).now);
      IdleLife(Init(events), m, secret, later);
      if Last(events).op == Authorize(secret) {
        InUseAfterUse(events, m, secret, later);
      } else {
        InUseWithoutUse(events, m, secret, later);
      }
    }
  }

  /** An idle lease answers exactly while it is not ended and never, from its
      minting on, was left unused for as long as its timeout. */
  lemma LeaseAnswersWhileInUse(events: seq<Timed>, m: nat, secret: Secret, later: int)
    requires m < |events| && IsIdleMint(events[m], secret) && MintedOnce(events) && TimeFlows(events)
    requires Last(events).now <= later
    ensures Answering(PrunedRun(events).0, secret, later)
       <==> !EndedAfter(events, m, secret) && KeptInUse(events, m, secret, later)
  {
    IdleLife(events, m, secret, later);
    AnswersExactlyWhile(events, secret, later);
  }
}
