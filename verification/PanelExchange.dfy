/** Exchanging a panel handoff for a lease: requests are admitted, mint and
    settle in separate steps, among any other operations on the credentials. */
module PanelExchange {

  import opened Wrappers
  import opened Sequences
  import opened TakeoverCredentials

  const UI_SESSION_IDLE_TIMEOUT_S: nat := 120

  /** `Settled`: the lease's URL went out and the handoff, if one was used, was
      revoked. `Abandoned`: the URL could not be built. */
  datatype Stage = Admitted | Leased(lease: Secret) | Settled(lease: Secret) | Abandoned(lease: Secret)

  /** `handoff`: what the request was admitted on; none for the host's own token. */
  datatype Exchange = Exchange(handoff: Option<Secret>, stage: Stage)

  /** `log`: every operation the credential list has seen. */
  datatype Panel = Panel(log: seq<Timed>, exchanges: map<nat, Exchange>)

  datatype Step =
    | Other(op: Op)                   // any other use of the credential list
    | Admit(r: nat, handoff: Secret)  // the middleware authorizes the request
    | AdmitOwner(r: nat)              // the host's own token does
    | Lease(r: nat, lease: Secret)    // the handler mints, after its awaits
    | Abandon(r: nat)
    | Settle(r: nat)

  datatype Event = Event(step: Step, now: int)

  function List(p: Panel): seq<Token> {
    PrunedRun(p.log).0
  }

  predicate IsAdmitted(p: Panel, r: nat) {
    r in p.exchanges && p.exchanges[r].stage.Admitted?
  }

  predicate IsLeased(p: Panel, r: nat) {
    r in p.exchanges && p.exchanges[r].stage.Leased?
  }

  predicate CanHappen(p: Panel, e: Event) {
    match e.step
    case Other(_) => true
    case Admit(r, handoff) => r !in p.exchanges && Answering(List(p), handoff, e.now)
    case AdmitOwner(r) => r !in p.exchanges
    case Lease(r, _) => IsAdmitted(p, r)
    case Abandon(r) => IsLeased(p, r)
    case Settle(r) => IsLeased(p, r)
  }

  /** What a step does to the credential list. */
  function OpsOf(p: Panel, step: Step): seq<Op>
    requires step.Abandon? || step.Settle? ==> IsLeased(p, step.r)
  {
    match step
    case Other(op) => [op]
    case Admit(_, handoff) => [Authorize(handoff)]
    case AdmitOwner(_) => []
    case Lease(_, lease) => [Mint(lease, Idle(UI_SESSION_IDLE_TIMEOUT_S), UI_SESSION_IDLE_TIMEOUT_S)]
    case Abandon(r) => [Void(p.exchanges[r].stage.lease)]
    case Settle(r) => if p.exchanges[r].handoff.Some? then [Revoke(p.exchanges[r].handoff.value)] else []
  }

  function Happen(p: Panel, e: Event): Panel
    requires CanHappen(p, e)
  {
    var ops := OpsOf(p, e.step);
    Panel(if ops == [] then p.log else p.log + [Timed(ops[0], e.now)],
          match e.step
          case Other(_) => p.exchanges
          case Admit(r, handoff) => p.exchanges[r := Exchange(Some(handoff), Admitted)]
          case AdmitOwner(r) => p.exchanges[r := Exchange(None, Admitted)]
          case Lease(r, lease) => p.exchanges[r := p.exchanges[r].(stage := Leased(lease))]
          case Abandon(r) => p.exchanges[r := p.exchanges[r].(stage := Abandoned(p.exchanges[r].stage.lease))]
          case Settle(r) => p.exchanges[r := p.exchanges[r].(stage := Settled(p.exchanges[r].stage.lease))])
  }

  function PanelAfter(events: seq<Event>): Option<Panel> {
    if events == [] then Some(Panel([], map[]))
    else
      match PanelAfter(Init(events))
      case Some(p) => if CanHappen(p, Last(events)) then Some(Happen(p, Last(events))) else None
      case None => None
  }

  /** Clocks do not go back, and no secret is minted twice. */
  ghost predicate Sane(events: seq<Event>) {
    && (forall i, j :: 0 <= i <= j < |events| ==> events[i].now <= events[j].now)
    && PanelAfter(events).Some? && MintedOnce(PanelAfter(events).value.log)
  }

  lemma {:induction false} SanePrefix(events: seq<Event>)
    requires Sane(events) && events != []
    ensures Sane(Init(events))
    ensures PanelAfter(Init(events)).value.log <= PanelAfter(events).value.log
  {
    var before, after := PanelAfter(Init(events)).value.log, PanelAfter(events).value.log;
    assert forall i :: 0 <= i < |before| ==> before[i] == after[i];
  }

  lemma {:induction false} LogFlows(events: seq<Event>)
    requires Sane(events)
    ensures var log := PanelAfter(events).value.log;
            TimeFlows(log) && (log != [] ==> events != [] && Last(log).now <= Last(events).now)
  {
    if events != [] {
      SanePrefix(events);
      LogFlows(Init(events));
      var before, after := PanelAfter(Init(events)).value.log, PanelAfter(events).value.log;
      if Init(events) != [] {
        assert Last(Init(events)) == events[|events| - 2] && Last(events) == events[|events| - 1];
      }
      assert forall i, j :: 0 <= i <= j < |before| ==> before[i].now <= before[j].now;
      forall i, j | 0 <= i <= j < |after| ensures after[i].now <= after[j].now {
        if j == |before| && before != [] {
          assert before[if i < |before| then i else |before| - 1].now <= Last(before).now;
        }
      }
    }
  }

  /** A credential answers exactly while its life says so. */
  lemma {:induction false} AnswersByLife(events: seq<Event>, secret: Secret, later: int)
    requires Sane(events) && (events != [] ==> Last(events).now <= later)
    ensures var p := PanelAfter(events).value;
            Answering(List(p), secret, later) <==> AnswersAt(LifeAfter(p.log, secret), later)
  {
    LogFlows(events);
    AnswersExactlyWhile(PanelAfter(events).value.log, secret, later);
  }

  // ---- A handoff, once revoked ----

  lemma {:induction false} SaneUpTo(events: seq<Event>, n: nat)
    requires Sane(events) && n <= |events|
    ensures Sane(events[..n]) && PanelAfter(events[..n]).value.log <= PanelAfter(events).value.log
  {
    if n == |events| {
      assert events[..n] == events;
    } else {
      SanePrefix(events);
      SaneUpTo(Init(events), n);
      assert Init(events)[..n] == events[..n];
    }
  }

  lemma {:induction false} LifeMeansMinted(log: seq<Timed>, secret: Secret)
    ensures LifeAfter(log, secret).NotYet? <==> !WasMinted(log, secret)
  {
    if log != [] {
      var prefix := Init(log);
      LifeMeansMinted(prefix, secret);
      assert log[|log| - 1] == Last(log) && forall i :: 0 <= i < |prefix| ==> prefix[i] == log[i];
      if WasMinted(prefix, secret) {
        var i :| 0 <= i < |prefix| && prefix[i].op.Mint? && prefix[i].op.secret == secret;
        assert log[i].op.Mint?;
      }
    }
  }

  lemma {:induction false} MintedStays(log: seq<Timed>, more: seq<Timed>, secret: Secret)
    requires log <= more && WasMinted(log, secret)
    ensures WasMinted(more, secret)
  {
    var i :| 0 <= i < |log| && log[i].op.Mint? && log[i].op.secret == secret;
    assert more[i] == log[i];
  }

  /** Step `k` revokes the secret: a settled exchange, an abandoned lease, or any other operation. */
  ghost predicate Kills(events: seq<Event>, k: nat, secret: Secret)
    requires k < |events|
  {
    PanelAfter(events[..k]).Some? && CanHappen(PanelAfter(events[..k]).value, events[k])
    && var exchanges := PanelAfter(events[..k]).value.exchanges;
       match events[k].step
       case Other(op) => Ends(op, secret)
       case Settle(r) => exchanges[r].handoff == Some(secret)
       case Abandon(r) => exchanges[r].stage.lease == secret
       case _ => false
  }

  lemma {:induction false} KilledIsDead(events: seq<Event>, k: nat, secret: Secret)
    requires Sane(events) && k < |events| && Kills(events, k, secret)
    requires WasMinted(PanelAfter(events[..k]).value.log, secret)
    ensures LifeAfter(PanelAfter(events).value.log, secret) == Dead
  {
    var prefix, e := Init(events), Last(events);
    var before, after := PanelAfter(prefix).value, PanelAfter(events).value;
    SanePrefix(events);
    if k == |events| - 1 {
      assert events[..k] == prefix;
      LifeMeansMinted(before.log, secret);
    } else {
      assert prefix[..k] == events[..k] && prefix[k] == events[k];
      KilledIsDead(prefix, k, secret);
      LifeMeansMinted(before.log, secret);
    }
    if after.log != before.log {
      assert Init(after.log) == before.log;
      MintedOnlyOnce(before.log, after.log, secret);
    }
  }

  lemma {:induction false} MintedOnlyOnce(log: seq<Timed>, more: seq<Timed>, secret: Secret)
    requires MintedOnce(more) && more != [] && Init(more) == log && WasMinted(log, secret)
    ensures !(Last(more).op.Mint? && Last(more).op.secret == secret)
  {
    var i :| 0 <= i < |log| && log[i].op.Mint? && log[i].op.secret == secret;
    assert more[i] == log[i] && more[|more| - 1] == Last(more);
  }

  /** Where a request was admitted on a handoff: the handoff answered there. */
  lemma {:induction false} AdmittedAt(events: seq<Event>, r: nat) returns (i: nat)
    requires PanelAfter(events).Some? && r in PanelAfter(events).value.exchanges
    requires PanelAfter(events).value.exchanges[r].handoff.Some?
    ensures i < |events| && PanelAfter(events[..i]).Some?
    ensures events[i].step == Admit(r, PanelAfter(events).value.exchanges[r].handoff.value)
    ensures CanHappen(PanelAfter(events[..i]).value, events[i])
  {
    var before := PanelAfter(Init(events)).value;
    if r in before.exchanges {
      HandoffStays(before, Last(events), r);
      i := AdmittedAt(Init(events), r);
      assert Init(events)[..i] == events[..i] && Init(events)[i] == events[i];
    } else {
      i := |events| - 1;
      assert events[..i] == Init(events) && events[i] == Last(events);
    }
  }

  lemma {:induction false} HandoffStays(p: Panel, e: Event, r: nat)
    requires CanHappen(p, e) && r in p.exchanges
    ensures r in Happen(p, e).exchanges && Happen(p, e).exchanges[r].handoff == p.exchanges[r].handoff
  {
  }

  lemma {:induction false} AdmittedWasMinted(events: seq<Event>, i: nat, r: nat, handoff: Secret)
    requires Sane(events) && i < |events| && events[i].step == Admit(r, handoff)
    requires PanelAfter(events[..i]).Some? && CanHappen(PanelAfter(events[..i]).value, events[i])
    ensures WasMinted(PanelAfter(events[..i]).value.log, handoff)
    ensures LifeAfter(PanelAfter(events[..i]).value.log, handoff).Alive?
  {
    var prefix := events[..i];
    SaneUpTo(events, i);
    if prefix != [] {
      assert Last(prefix) == events[i - 1];
    }
    AnswersByLife(prefix, handoff, events[i].now);
    LifeMeansMinted(PanelAfter(prefix).value.log, handoff);
  }

  /** Every event of a run was possible when it came. */
  lemma {:induction false} EventsWerePossible(events: seq<Event>, j: nat)
    requires PanelAfter(events).Some? && j < |events|
    ensures PanelAfter(events[..j]).Some? && CanHappen(PanelAfter(events[..j]).value, events[j])
  {
    if j == |events| - 1 {
      assert events[..j] == Init(events);
    } else {
      EventsWerePossible(Init(events), j);
      assert Init(events)[..j] == events[..j];
    }
  }

  lemma {:induction false} KillsInPrefix(events: seq<Event>, k: nat, secret: Secret, j: nat)
    requires k < j <= |events| && Kills(events, k, secret)
    ensures Kills(events[..j], k, secret) && events[..j][..k] == events[..k]
  {
    assert events[..j][..k] == events[..k] && events[..j][k] == events[k];
  }

  lemma {:induction false} DeadAt(events: seq<Event>, k: nat, secret: Secret, j: nat)
    requires Sane(events) && k < j <= |events| && Kills(events, k, secret)
    requires WasMinted(PanelAfter(events[..k]).value.log, secret)
    ensures Sane(events[..j]) && LifeAfter(PanelAfter(events[..j]).value.log, secret) == Dead
  {
    SaneUpTo(events, j);
    KillsInPrefix(events, k, secret, j);
    KilledIsDead(events[..j], k, secret);
  }

  lemma {:induction false} NotAdmittedLater(events: seq<Event>, k: nat, secret: Secret, j: nat, r: nat)
    requires Sane(events) && k < j < |events| && Kills(events, k, secret)
    requires WasMinted(PanelAfter(events[..k]).value.log, secret)
    ensures events[j].step != Admit(r, secret)
  {
    DeadAt(events, k, secret, j);
    EventsWerePossible(events, j);
    if events[j].step == Admit(r, secret) {
      AdmittedWasMinted(events, j, r, secret);
    }
  }

  /** Once something has revoked a minted secret it is dead: it never answers
      again, and no later request is admitted on it. */
  lemma {:induction false} RevokedForGood(events: seq<Event>, k: nat, secret: Secret, later: int)
    requires Sane(events) && k < |events| && Kills(events, k, secret) && Last(events).now <= later
    requires WasMinted(PanelAfter(events[..k]).value.log, secret)
    ensures !Answering(List(PanelAfter(events).value), secret, later)
    ensures forall j, r :: k < j < |events| ==> events[j].step != Admit(r, secret)
  {
    KilledIsDead(events, k, secret);
    AnswersByLife(events, secret, later);
    forall j, r | k < j < |events| ensures events[j].step != Admit(r, secret) {
      NotAdmittedLater(events, k, secret, j, r);
    }
  }

  /** A settled exchange ends its handoff for good. */
  lemma {:induction false} SettledHandoffIsDead(events: seq<Event>, k: nat, r: nat, handoff: Secret, later: int)
    requires Sane(events) && k < |events| && events[k].step == Settle(r) && Last(events).now <= later
    requires PanelAfter(events[..k]).Some? && CanHappen(PanelAfter(events[..k]).value, events[k])
    requires PanelAfter(events[..k]).value.exchanges[r].handoff == Some(handoff)
    ensures !Answering(List(PanelAfter(events).value), handoff, later)
    ensures forall j, q :: k < j < |events| ==> events[j].step != Admit(q, handoff)
  {
    var prefix := events[..k];
    SaneUpTo(events, k);
    var i := AdmittedAt(prefix, r);
    SaneUpTo(prefix, i);
    AdmittedWasMinted(prefix, i, r, handoff);
    MintedStays(PanelAfter(prefix[..i]).value.log, PanelAfter(prefix).value.log, handoff);
    assert Revoke(handoff) in OpsOf(PanelAfter(prefix).value, events[k].step) && Ends(Revoke(handoff), handoff);
    RevokedForGood(events, k, handoff, later);
  }

  // ---- One handoff, several leases ----

  /** Admitted on the handoff, and neither settled nor abandoned. */
  predicate Unsettled(p: Panel, r: nat, handoff: Secret) {
    r in p.exchanges && p.exchanges[r].handoff == Some(handoff)
    && (p.exchanges[r].stage.Admitted? || p.exchanges[r].stage.Leased?)
  }

  /** Admitted on the handoff, and given a lease that was not abandoned. */
  predicate KeepsLease(p: Panel, r: nat, handoff: Secret) {
    r in p.exchanges && p.exchanges[r].handoff == Some(handoff)
    && (p.exchanges[r].stage.Leased? || p.exchanges[r].stage.Settled?)
  }

  lemma {:induction false} ExchangeGoesOn(p: Panel, e: Event, r: nat)
    requires CanHappen(p, e) && r in p.exchanges
    ensures r in Happen(p, e).exchanges && Happen(p, e).exchanges[r].handoff == p.exchanges[r].handoff
    ensures p.exchanges[r].stage.Abandoned? ==> Happen(p, e).exchanges[r].stage.Abandoned?
    ensures Happen(p, e).exchanges[r].stage.Settled? ==> p.exchanges[r].stage.Settled? || e.step == Settle(r)
  {
  }

  lemma {:induction false} AbandonedStays(events: seq<Event>, n: nat, r: nat)
    requires PanelAfter(events).Some? && n <= |events| && PanelAfter(events[..n]).Some?
    requires r in PanelAfter(events[..n]).value.exchanges
    ensures r in PanelAfter(events).value.exchanges
    ensures PanelAfter(events).value.exchanges[r].handoff == PanelAfter(events[..n]).value.exchanges[r].handoff
    ensures PanelAfter(events[..n]).value.exchanges[r].stage.Abandoned?
            ==> PanelAfter(events).value.exchanges[r].stage.Abandoned?
  {
    if n == |events| {
      assert events[..n] == events;
    } else {
      assert Init(events)[..n] == events[..n];
      AbandonedStays(Init(events), n, r);
      ExchangeGoesOn(PanelAfter(Init(events)).value, Last(events), r);
    }
  }

  /** Where a settled request settled. */
  lemma {:induction false} SettledAt(events: seq<Event>, r: nat) returns (k: nat)
    requires PanelAfter(events).Some? && r in PanelAfter(events).value.exchanges
    requires PanelAfter(events).value.exchanges[r].stage.Settled?
    ensures k < |events| && PanelAfter(events[..k]).Some? && events[k].step == Settle(r)
    ensures CanHappen(PanelAfter(events[..k]).value, events[k])
    ensures PanelAfter(events[..k]).value.exchanges[r].handoff == PanelAfter(events).value.exchanges[r].handoff
  {
    var before := PanelAfter(Init(events)).value;
    if Last(events).step == Settle(r) {
      k := |events| - 1;
      assert events[..k] == Init(events) && events[k] == Last(events);
    } else {
      assert r in before.exchanges;
      ExchangeGoesOn(before, Last(events), r);
      k := SettledAt(Init(events), r);
      assert Init(events)[..k] == events[..k] && Init(events)[k] == events[k];
    }
  }

  /** A request admitted on a handoff finds every earlier one on it unsettled or abandoned. */
  lemma {:induction false} EarlierIsUnsettled(events: seq<Event>, j: nat, r: nat, q: nat, handoff: Secret)
    requires Sane(events) && j < |events| && events[j].step == Admit(q, handoff)
    requires PanelAfter(events[..j]).Some? && r in PanelAfter(events[..j]).value.exchanges
    requires PanelAfter(events[..j]).value.exchanges[r].handoff == Some(handoff)
    ensures PanelAfter(events[..j]).value.exchanges[r].stage.Abandoned?
            || Unsettled(PanelAfter(events[..j]).value, r, handoff)
  {
    var prefix := events[..j];
    if PanelAfter(prefix).value.exchanges[r].stage.Settled? {
      var k := SettledAt(prefix, r);
      assert prefix[..k] == events[..k] && prefix[k] == events[k];
      SettledHandoffIsDead(events, k, r, handoff, Last(events).now);
    }
  }

  ghost predicate HasUnsettled(p: Panel, handoff: Secret) {
    exists r :: Unsettled(p, r, handoff)
  }

  /** Event `j` admits a request on the handoff while another on it is unsettled. */
  ghost predicate Overlaps(events: seq<Event>, j: nat, handoff: Secret)
    requires j < |events|
  {
    events[j].step.Admit? && events[j].step.handoff == handoff
    && PanelAfter(events[..j]).Some? && HasUnsettled(PanelAfter(events[..j]).value, handoff)
  }

  ghost predicate KeepsTwo(p: Panel, handoff: Secret) {
    exists r, q :: r != q && KeepsLease(p, r, handoff) && KeepsLease(p, q, handoff)
  }

  lemma {:induction false} LaterOverlaps(events: seq<Event>, i: nat, j: nat, r: nat, q: nat, handoff: Secret)
    requires Sane(events) && i < j < |events|
    requires events[i].step == Admit(r, handoff) && events[j].step == Admit(q, handoff)
    requires KeepsLease(PanelAfter(events).value, r, handoff)
    ensures Overlaps(events, j, handoff)
  {
    SaneUpTo(events, j);
    SaneUpTo(events, i + 1);
    SaneUpTo(events[..j], i + 1);
    EventsWerePossible(events, i);
    assert events[..j][..i + 1] == events[..i + 1];
    assert Init(events[..i + 1]) == events[..i] && Last(events[..i + 1]) == events[i];
    AbandonedStays(events[..j], i + 1, r);
    AbandonedStays(events, j, r);
    EarlierIsUnsettled(events, j, r, q, handoff);
  }

  /** A handoff that keeps two leases was given to a request while another on it was unsettled. */
  lemma {:induction false} TwoLeasesMeanOverlap(events: seq<Event>, handoff: Secret) returns (j: nat)
    requires Sane(events) && KeepsTwo(PanelAfter(events).value, handoff)
    ensures j < |events| && Overlaps(events, j, handoff)
  {
    var p := PanelAfter(events).value;
    var r, q :| r != q && KeepsLease(p, r, handoff) && KeepsLease(p, q, handoff);
    var i := AdmittedAt(events, r);
    j := AdmittedAt(events, q);
    if i < j {
      LaterOverlaps(events, i, j, r, q, handoff);
    } else {
      LaterOverlaps(events, j, i, q, r, handoff);
      j := i;
    }
  }

  // ---- And overlapping is enough ----

  lemma {:induction false} OneMore(events: seq<Event>, e: Event)
    requires Sane(events) && CanHappen(PanelAfter(events).value, e) && !e.step.Other?
    requires events != [] ==> Last(events).now <= e.now
    requires e.step.Lease? ==> !WasMinted(PanelAfter(events).value.log, e.step.lease)
    ensures PanelAfter(events + [e]) == Some(Happen(PanelAfter(events).value, e)) && Sane(events + [e])
  {
    var before, after := PanelAfter(events).value.log, Happen(PanelAfter(events).value, e).log;
    assert Init(events + [e]) == events && Last(events + [e]) == e;
    assert forall i :: 0 <= i < |before| ==> after[i] == before[i];
    if e.step.Lease? {
      assert forall i :: 0 <= i < |before| && before[i].op.Mint? ==> before[i].op.secret != e.step.lease;
    }
  }

  lemma {:induction false} LogStep(p: Panel, e: Event, secret: Secret)
    requires CanHappen(p, e) && OpsOf(p, e.step) != []
    ensures LifeAfter(Happen(p, e).log, secret)
         == LifeStep(LifeAfter(p.log, secret), Timed(OpsOf(p, e.step)[0], e.now), secret)
    ensures WasMinted(Happen(p, e).log, secret)
       <==> WasMinted(p.log, secret) || (OpsOf(p, e.step)[0].Mint? && OpsOf(p, e.step)[0].secret == secret)
  {
    var op := Timed(OpsOf(p, e.step)[0], e.now);
    assert Init(p.log + [op]) == p.log && Last(p.log + [op]) == op;
    LifeMeansMinted(p.log, secret);
    LifeMeansMinted(p.log + [op], secret);
  }

  lemma {:induction false} HandoffWasMinted(events: seq<Event>, r: nat, handoff: Secret)
    requires Sane(events) && r in PanelAfter(events).value.exchanges
    requires PanelAfter(events).value.exchanges[r].handoff == Some(handoff)
    ensures WasMinted(PanelAfter(events).value.log, handoff)
  {
    var i := AdmittedAt(events, r);
    SaneUpTo(events, i);
    AdmittedWasMinted(events, i, r, handoff);
    MintedStays(PanelAfter(events[..i]).value.log, PanelAfter(events).value.log, handoff);
  }

  /** A request's lease was minted, and is not the handoff it was admitted on. */
  lemma {:induction false} LeasesAreNew(events: seq<Event>, r: nat)
    requires Sane(events) && r in PanelAfter(events).value.exchanges
    requires !PanelAfter(events).value.exchanges[r].stage.Admitted?
    ensures WasMinted(PanelAfter(events).value.log, PanelAfter(events).value.exchanges[r].stage.lease)
    ensures PanelAfter(events).value.exchanges[r].handoff != Some(PanelAfter(events).value.exchanges[r].stage.lease)
  {
    SanePrefix(events);
    var before, after, e := PanelAfter(Init(events)).value, PanelAfter(events).value, Last(events);
    if e.step.Lease? && e.step.r == r {
      LogStep(before, e, e.step.lease);
      if before.exchanges[r].handoff.Some? {
        HandoffWasMinted(Init(events), r, before.exchanges[r].handoff.value);
        assert Init(after.log) == before.log;
        MintedOnlyOnce(before.log, after.log, before.exchanges[r].handoff.value);
      }
    } else {
      LeasesAreNew(Init(events), r);
      MintedStays(before.log, after.log, before.exchanges[r].stage.lease);
    }
  }

  lemma {:induction false} SettleStep(p: Panel, r: nat, handoff: Secret, now: int)
    requires IsLeased(p, r) && p.exchanges[r].handoff == Some(handoff)
    ensures var after := Happen(p, Event(Settle(r), now));
            after.exchanges == p.exchanges[r := Exchange(Some(handoff), Settled(p.exchanges[r].stage.lease))]
            && !LifeAfter(after.log, handoff).Alive?
            && forall a :: a != handoff ==> LifeAfter(after.log, a) == LifeAfter(p.log, a)
                                            && (WasMinted(after.log, a) <==> WasMinted(p.log, a))
  {
    forall a: Secret {
      LogStep(p, Event(Settle(r), now), a);
    }
  }

  lemma {:induction false} LeaseStep(p: Panel, q: nat, b: Secret, now: int)
    requires IsAdmitted(p, q)
    ensures var after := Happen(p, Event(Lease(q, b), now));
            after.exchanges == p.exchanges[q := p.exchanges[q].(stage := Leased(b))]
            && AnswersAt(LifeAfter(after.log, b), now)
            && forall a :: a != b ==> LifeAfter(after.log, a) == LifeAfter(p.log, a)
                                      && (WasMinted(after.log, a) <==> WasMinted(p.log, a))
  {
    forall a: Secret {
      LogStep(p, Event(Lease(q, b), now), a);
    }
  }

  predicate LeaseAnswers(p: Panel, r: nat, now: int) {
    r in p.exchanges && !p.exchanges[r].stage.Admitted? && Answering(List(p), p.exchanges[r].stage.lease, now)
  }

  ghost predicate BesideUnsettled(p: Panel, r: nat, q: nat, handoff: Secret) {
    r != q && Unsettled(p, r, handoff) && IsAdmitted(p, q) && p.exchanges[q].handoff == Some(handoff)
  }

  /** The longer run goes on from the shorter one without admitting anybody. */
  predicate GoesOn(events: seq<Event>, more: seq<Event>) {
    events <= more && forall j :: |events| <= j < |more| ==> !more[j].step.Admit?
  }

  lemma {:induction false} GoesOnOne(events: seq<Event>, e: Event)
    requires !e.step.Admit?
    ensures GoesOn(events, events + [e])
  {
  }

  lemma {:induction false} GoesOnFurther(events: seq<Event>, more: seq<Event>, most: seq<Event>)
    requires GoesOn(events, more) && GoesOn(more, most)
    ensures GoesOn(events, most)
  {
    forall j | |events| <= j < |most| ensures !most[j].step.Admit? {
      if j < |more| {
        assert most[j] == more[j];
      }
    }
  }

  /** With the first request leased: it settles, which kills the handoff, and the
      second gets its lease all the same. */
  lemma {:induction false} LeasedThenSecond(events: seq<Event>, r: nat, q: nat, handoff: Secret, b: Secret, now: int)
    returns (more: seq<Event>)
    requires Sane(events) && events != [] && Last(events).now <= now
    requires BesideUnsettled(PanelAfter(events).value, r, q, handoff) && IsLeased(PanelAfter(events).value, r)
    requires !WasMinted(PanelAfter(events).value.log, b)
    ensures GoesOn(events, more) && Sane(more)
    ensures var p := PanelAfter(more).value;
            KeepsLease(p, r, handoff) && KeepsLease(p, q, handoff)
            && LeaseAnswers(p, q, now) && !Answering(List(p), handoff, now)
    ensures LeaseAnswers(PanelAfter(more).value, r, now) <==> LeaseAnswers(PanelAfter(events).value, r, now)
  {
    var p0 := PanelAfter(events).value;
    var a := p0.exchanges[r].stage.lease;
    var settle, lease := Event(Settle(r), now), Event(Lease(q, b), now);
    HandoffWasMinted(events, r, handoff);
    LeasesAreNew(events, r);
    SettleStep(p0, r, handoff, now);
    OneMore(events, settle);
    LeaseStep(Happen(p0, settle), q, b, now);
    OneMore(events + [settle], lease);
    more := events + [settle] + [lease];
    GoesOnOne(events, settle);
    GoesOnOne(events + [settle], lease);
    GoesOnFurther(events, events + [settle], more);
    assert Last(more) == lease;
    AnswersByLife(events, a, now);
    AnswersByLife(more, a, now);
    AnswersByLife(more, b, now);
    AnswersByLife(more, handoff, now);
  }

  lemma {:induction false} MintFirst(events: seq<Event>, r: nat, a: Secret, now: int) returns (more: seq<Event>)
    requires Sane(events) && events != [] && Last(events).now <= now
    requires IsAdmitted(PanelAfter(events).value, r) && !WasMinted(PanelAfter(events).value.log, a)
    ensures GoesOn(events, more) && Sane(more) && more != [] && Last(more).now == now
    ensures LeaseAnswers(PanelAfter(more).value, r, now)
    ensures var p, after := PanelAfter(events).value, PanelAfter(more).value;
            after.exchanges == p.exchanges[r := p.exchanges[r].(stage := Leased(a))]
            && forall b :: b != a ==> (WasMinted(after.log, b) <==> WasMinted(p.log, b))
  {
    var first := Event(Lease(r, a), now);
    more := events + [first];
    OneMore(events, first);
    LeaseStep(PanelAfter(events).value, r, a, now);
    GoesOnOne(events, first);
    assert Last(more) == first;
    AnswersByLife(more, a, now);
  }

  /** Overlapping is enough: from wherever a request stands admitted on a handoff
      beside an unsettled one, the run can go on, without admitting another, to
      two leases kept. The second is minted when the handoff is already dead,
      and answers; the first answers if it is minted now or answered before. */
  lemma {:induction false} OverlapGivesTwoLeases(
    events: seq<Event>, r: nat, q: nat, handoff: Secret, a: Secret, b: Secret, now: int) returns (more: seq<Event>)
    requires Sane(events) && events != [] && Last(events).now <= now && a != b
    requires BesideUnsettled(PanelAfter(events).value, r, q, handoff)
    requires !WasMinted(PanelAfter(events).value.log, a) && !WasMinted(PanelAfter(events).value.log, b)
    ensures GoesOn(events, more) && Sane(more)
    ensures var p := PanelAfter(more).value;
            KeepsLease(p, r, handoff) && KeepsLease(p, q, handoff)
            && LeaseAnswers(p, q, now) && !Answering(List(p), handoff, now)
    ensures LeaseAnswers(PanelAfter(more).value, r, now)
       <==> IsAdmitted(PanelAfter(events).value, r) || LeaseAnswers(PanelAfter(events).value, r, now)
  {
    var p := PanelAfter(events).value;
    if IsLeased(p, r) {
      more := LeasedThenSecond(events, r, q, handoff, b, now);
    } else {
      var minted := MintFirst(events, r, a, now);
      more := LeasedThenSecond(minted, r, q, handoff, b, now);
      GoesOnFurther(events, minted, more);
    }
  }

  /** A request just admitted beside an unsettled one stands so. */
  lemma {:induction false} OverlapStandsBeside(events: seq<Event>, j: nat, handoff: Secret) returns (r: nat, q: nat)
    requires Sane(events) && j < |events| && Overlaps(events, j, handoff)
    ensures Sane(events[..j + 1]) && BesideUnsettled(PanelAfter(events[..j + 1]).value, r, q, handoff)
  {
    SaneUpTo(events, j + 1);
    EventsWerePossible(events, j);
    assert Init(events[..j + 1]) == events[..j] && Last(events[..j + 1]) == events[j];
    r :| Unsettled(PanelAfter(events[..j]).value, r, handoff);
    q := events[j].step.r;
  }

  /** Some continuation of the run's first `n` events that admits nobody more on the handoff keeps two leases. */
  ghost predicate CanKeepTwo(events: seq<Event>, n: nat, handoff: Secret)
    requires n <= |events|
  {
    exists more: seq<Event> ::
      events[..n] <= more && Sane(more) && KeepsTwo(PanelAfter(more).value, handoff)
      && forall j :: n <= j < |more| ==> !(more[j].step.Admit? && more[j].step.handoff == handoff)
  }

  /** Exactly when one handoff can come to keep two leases from the requests a run
      admits: when one of them is admitted while another is unsettled. */
  lemma {:induction false} TwoLeasesExactlyByOverlap(events: seq<Event>, handoff: Secret, a: Secret, b: Secret)
    requires Sane(events) && a != b
    requires !WasMinted(PanelAfter(events).value.log, a) && !WasMinted(PanelAfter(events).value.log, b)
    ensures (exists n :: 0 <= n <= |events| && CanKeepTwo(events, n, handoff))
       <==> (exists j :: 0 <= j < |events| && Overlaps(events, j, handoff))
  {
    if n :| 0 <= n <= |events| && CanKeepTwo(events, n, handoff) {
      var j := KeptMeansOverlap(events, n, handoff);
      assert Overlaps(events, j, handoff);
    }
    if j :| 0 <= j < |events| && Overlaps(events, j, handoff) {
      OverlapMeansCanKeep(events, j, handoff, a, b);
      assert CanKeepTwo(events, j + 1, handoff);
    }
  }

  lemma {:induction false} KeptMeansOverlap(events: seq<Event>, n: nat, handoff: Secret) returns (j: nat)
    requires n <= |events| && CanKeepTwo(events, n, handoff)
    ensures j < n && Overlaps(events, j, handoff)
  {
    var more: seq<Event> :| events[..n] <= more && Sane(more) && KeepsTwo(PanelAfter(more).value, handoff)
                && forall j :: n <= j < |more| ==> !(more[j].step.Admit? && more[j].step.handoff == handoff);
    j := TwoLeasesMeanOverlap(more, handoff);
    assert more[..j] == events[..j] && more[j] == events[j];
  }

  lemma {:induction false} OverlapMeansCanKeep(events: seq<Event>, j: nat, handoff: Secret, a: Secret, b: Secret)
    requires Sane(events) && j < |events| && Overlaps(events, j, handoff) && a != b
    requires !WasMinted(PanelAfter(events).value.log, a) && !WasMinted(PanelAfter(events).value.log, b)
    ensures CanKeepTwo(events, j + 1, handoff)
  {
    var prefix := events[..j + 1];
    var r, q := OverlapStandsBeside(events, j, handoff);
    SaneUpTo(events, j + 1);
    NotMintedBefore(PanelAfter(prefix).value.log, PanelAfter(events).value.log, a);
    NotMintedBefore(PanelAfter(prefix).value.log, PanelAfter(events).value.log, b);
    var more := OverlapGivesTwoLeases(prefix, r, q, handoff, a, b, Last(prefix).now);
    assert KeepsTwo(PanelAfter(more).value, handoff);
  }

  lemma {:induction false} NotMintedBefore(log: seq<Timed>, more: seq<Timed>, secret: Secret)
    requires log <= more && !WasMinted(more, secret)
    ensures !WasMinted(log, secret)
  {
    if WasMinted(log, secret) {
      MintedStays(log, more, secret);
    }
  }

  // ---- How long a lease lasts ----

  /** The event uses the secret. */
  predicate Uses(e: Event, secret: Secret) {
    e.step == Other(Authorize(secret)) || (e.step.Admit? && e.step.handoff == secret)
  }

  /** Event `m` gives the lease, or `k` uses it later. */
  predicate Holds(events: seq<Event>, m: nat, k: nat, lease: Secret) {
    k < |events| && (k == m || (m < k && Uses(events[k], lease)))
  }

  /** Within two minutes of event `k` the lease is used again, or `later` comes sooner. */
  ghost predicate HeldOn(events: seq<Event>, k: nat, lease: Secret, later: int)
    requires k < |events|
  {
    later < events[k].now + 120
    || exists j :: k < j < |events| && Uses(events[j], lease) && events[j].now < events[k].now + 120
  }

  ghost predicate InUse(events: seq<Event>, m: nat, lease: Secret, later: int) {
    forall k: nat :: Holds(events, m, k, lease) ==> HeldOn(events, k, lease, later)
  }

  ghost predicate KilledSince(events: seq<Event>, m: nat, secret: Secret) {
    exists k :: m < k < |events| && Kills(events, k, secret)
  }

  lemma {:induction false} UnusedStays(events: seq<Event>, m: nat, lease: Secret, later: int)
    requires m < |events| - 1 && !Uses(Last(events), lease)
    ensures InUse(events, m, lease, later) <==> InUse(Init(events), m, lease, later)
  {
    var prefix, n := Init(events), |events| - 1;
    forall k: nat | k < n
      ensures Holds(events, m, k, lease) <==> Holds(prefix, m, k, lease)
      ensures HeldOn(events, k, lease, later) <==> HeldOn(prefix, k, lease, later)
    {
      assert forall j :: 0 <= j < n ==> prefix[j] == events[j];
      if j :| k < j < n && Uses(events[j], lease) && events[j].now < events[k].now + 120 {
        assert Uses(prefix[j], lease);
      }
    }
  }

  lemma {:induction false} UsedAgain(events: seq<Event>, m: nat, lease: Secret, later: int)
    requires m < |events| - 1 && Uses(Last(events), lease) && Last(events).now <= later
    ensures InUse(events, m, lease, later) <==>
            InUse(Init(events), m, lease, Last(events).now) && later < Last(events).now + 120
  {
    var prefix, n := Init(events), |events| - 1;
    assert events[n] == Last(events);
    forall k: nat | k < n
      ensures Holds(events, m, k, lease) <==> Holds(prefix, m, k, lease)
      ensures HeldOn(events, k, lease, later) <==> HeldOn(prefix, k, lease, events[n].now)
    {
      assert forall j :: 0 <= j < n ==> prefix[j] == events[j];
      if j :| k < j < n && Uses(events[j], lease) && events[j].now < events[k].now + 120 {
        assert Uses(prefix[j], lease);
      }
    }
    assert Holds(events, m, n, lease);
  }

  lemma {:induction false} KilledStep(events: seq<Event>, m: nat, secret: Secret)
    requires m < |events| - 1
    ensures KilledSince(events, m, secret) <==>
            KilledSince(Init(events), m, secret) || Kills(events, |events| - 1, secret)
  {
    var n := |events| - 1;
    forall k: nat | k < n ensures Kills(Init(events), k, secret) <==> Kills(events, k, secret) {
      assert Init(events)[..k] == events[..k];
    }
    if k :| m < k < n && Kills(Init(events), k, secret) {
      assert Kills(events, k, secret);
    }
  }

  /** What one event does to the life of a secret that it does not mint. */
  lemma {:induction false} LifeEvent(events: seq<Event>, secret: Secret)
    requires PanelAfter(events).Some? && events != []
    requires !(Last(events).step.Lease? && Last(events).step.lease == secret)
    requires !(Last(events).step.Other? && Last(events).step.op.Mint? && Last(events).step.op.secret == secret)
    ensures var before, e := LifeAfter(PanelAfter(Init(events)).value.log, secret), Last(events);
            LifeAfter(PanelAfter(events).value.log, secret) ==
            if before.Alive? && Kills(events, |events| - 1, secret) then Dead
            else if AnswersAt(before, e.now) && Uses(e, secret) && before.expiry.Idle?
            then Alive(before.expiry, e.now + before.expiry.timeout)
            else before
  {
    var p, e := PanelAfter(Init(events)).value, Last(events);
    OpsAreRead(events, secret);
    if OpsOf(p, e.step) != [] {
      LogStep(p, e, secret);
      OpLife(LifeAfter(p.log, secret), Timed(OpsOf(p, e.step)[0], e.now), secret);
    }
  }

  lemma {:induction false} OpLife(life: Life, e: Timed, secret: Secret)
    requires !(e.op.Mint? && e.op.secret == secret)
    ensures LifeStep(life, e, secret) ==
            if life.Alive? && Ends(e.op, secret) then Dead
            else if AnswersAt(life, e.now) && e.op == Authorize(secret) && life.expiry.Idle?
            then Alive(life.expiry, e.now + life.expiry.timeout)
            else life
  {
  }

  /** The operation behind an event ends or uses the secret as the event does. */
  lemma {:induction false} OpsAreRead(events: seq<Event>, secret: Secret)
    requires PanelAfter(events).Some? && events != []
    ensures var p, e := PanelAfter(Init(events)).value, Last(events);
            if OpsOf(p, e.step) == [] then
              !Kills(events, |events| - 1, secret) && !Uses(e, secret) && Happen(p, e).log == p.log
            else
              && (Ends(OpsOf(p, e.step)[0], secret) <==> Kills(events, |events| - 1, secret))
              && (OpsOf(p, e.step)[0] == Authorize(secret) <==> Uses(e, secret))
              && (OpsOf(p, e.step)[0].Mint? ==>
                    e.step == Other(OpsOf(p, e.step)[0])
                    || (e.step.Lease? && e.step.lease == OpsOf(p, e.step)[0].secret))
  {
    assert events[..|events| - 1] == Init(events) && events[|events| - 1] == Last(events);
  }

  /** The life of a lease, read off the events. */
  ghost predicate LeaseRead(events: seq<Event>, m: nat, lease: Secret, later: int)
    requires PanelAfter(events).Some?
  {
    var life := LifeAfter(PanelAfter(events).value.log, lease);
    && (life.Alive? ==> life.expiry == Idle(120) && !KilledSince(events, m, lease))
    && (AnswersAt(life, later) <==> !KilledSince(events, m, lease) && InUse(events, m, lease, later))
    && !life.NotYet?
  }

  lemma {:induction false} LeaseGiven(events: seq<Event>, r: nat, lease: Secret, later: int)
    requires Sane(events) && events != [] && Last(events).step == Lease(r, lease) && Last(events).now <= later
    ensures LeaseRead(events, |events| - 1, lease, later)
  {
    var m := |events| - 1;
    LogStep(PanelAfter(Init(events)).value, Last(events), lease);
    assert events[m] == Last(events) && Holds(events, m, m, lease);
  }

  lemma {:induction false} NotMintedAgain(events: seq<Event>, m: nat, r: nat, lease: Secret)
    requires Sane(events) && m < |events| - 1 && events[m].step == Lease(r, lease)
    ensures !(Last(events).step.Lease? && Last(events).step.lease == lease)
    ensures !(Last(events).step.Other? && Last(events).step.op.Mint? && Last(events).step.op.secret == lease)
    ensures Sane(Init(events)) && Last(Init(events)).now <= Last(events).now && Init(events)[m] == events[m]
  {
    SanePrefix(events);
    assert Last(Init(events)) == events[|events| - 2] && Last(events) == events[|events| - 1];
    LeaseWasMinted(Init(events), m, r, lease);
    var before, after := PanelAfter(Init(events)).value.log, PanelAfter(events).value.log;
    if after != before {
      assert Init(after) == before;
      MintedOnlyOnce(before, after, lease);
    }
  }

  lemma {:induction false} LeaseWasMinted(events: seq<Event>, m: nat, r: nat, lease: Secret)
    requires Sane(events) && m < |events| && events[m].step == Lease(r, lease)
    ensures WasMinted(PanelAfter(events).value.log, lease)
  {
    SaneUpTo(events, m + 1);
    EventsWerePossible(events, m);
    var given := events[..m + 1];
    assert Init(given) == events[..m] && Last(given) == events[m];
    LogStep(PanelAfter(Init(given)).value, Last(given), lease);
    MintedStays(PanelAfter(given).value.log, PanelAfter(events).value.log, lease);
  }

  lemma {:induction false} LeaseLife(events: seq<Event>, m: nat, r: nat, lease: Secret, later: int)
    requires Sane(events) && m < |events| && events[m].step == Lease(r, lease) && Last(events).now <= later
    ensures LeaseRead(events, m, lease, later)
  {
    if m == |events| - 1 {
      LeaseGiven(events, r, lease, later);
    } else {
      NotMintedAgain(events, m, r, lease);
      LeaseLife(Init(events), m, r, lease, Last(events).now);
      LeaseLife(Init(events), m, r, lease, later);
      KilledStep(events, m, lease);
      LifeEvent(events, lease);
      if Uses(Last(events), lease) {
        UsedAgain(events, m, lease, later);
      } else {
        UnusedStays(events, m, lease, later);
      }
    }
  }

  /** A lease given to a request answers exactly while nothing has ended it and
      it has never, since it was given, gone two minutes without being used. */
  lemma {:induction false} LeaseLastsWhileInUse(events: seq<Event>, m: nat, r: nat, lease: Secret, later: int)
    requires Sane(events) && m < |events| && events[m].step == Lease(r, lease) && Last(events).now <= later
    ensures Answering(List(PanelAfter(events).value), lease, later)
       <==> !KilledSince(events, m, lease) && InUse(events, m, lease, later)
  {
    LeaseLife(events, m, r, lease, later);
    AnswersByLife(events, lease, later);
  }
}
