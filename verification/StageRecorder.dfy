/** The fetch trace recorder: a stack of stages in progress and the list of finished ones. */
module StageRecorder {

  import opened Wrappers
  import opened Sequences

  datatype Status = Started | Ok | Error | Timeout

  /** `serial` stands for the instant the stage started: no two pushes share one. */
  datatype Active = Active(name: string, serial: nat)
  datatype Record = Record(name: string, status: Status, serial: nat)

  datatype Trace = Trace(active: seq<Active>, stages: seq<Record>, current: string, pushes: nat)

  const NEW_TRACE := Trace([], [], "start", 0)

  datatype Token = Token(name: string, nested: bool)

  function TopName(active: seq<Active>): Option<string> {
    if active == [] then None else Some(Last(active).name)
  }

  function Begin(t: Trace, stage: string): (Trace, Token) {
    var nested := TopName(t.active) == Some(stage);
    (if nested then t.(current := stage)
     else Trace(t.active + [Active(stage, t.pushes)], t.stages, stage, t.pushes + 1),
     Token(stage, nested))
  }

  /** The innermost stage of that name, if one is in progress. */
  function LastNamed(active: seq<Active>, name: string): Option<nat> {
    if active == [] then None
    else if Last(active).name == name then Some(|active| - 1)
    else LastNamed(Init(active), name)
  }

  function Without(active: seq<Active>, i: nat): seq<Active>
    requires i < |active|
  {
    active[..i] + active[i + 1..]
  }

  function Close(t: Trace, i: nat, status: Status): Trace
    requires i < |t.active|
  {
    t.(active := Without(t.active, i),
       stages := t.stages + [Record(t.active[i].name, status, t.active[i].serial)],
       current := t.active[i].name)
  }

  lemma {:induction false} LastNamedIsLast(active: seq<Active>, name: string)
    ensures var found := LastNamed(active, name);
            && (found.Some? ==> found.value < |active| && active[found.value].name == name
                                && forall k :: found.value < k < |active| ==> active[k].name != name)
            && (found.None? ==> forall k :: 0 <= k < |active| ==> active[k].name != name)
  {
    if active != [] {
      LastNamedIsLast(Init(active), name);
    }
  }

  function Finish(t: Trace, token: Token, status: Status): Trace {
    if token.nested then t
    else
      LastNamedIsLast(t.active, token.name);
      match LastNamed(t.active, token.name)
      case Some(i) => Close(t, i, status)
      case None => t
  }

  function Mark(t: Trace, status: Status): Trace {
    if t.active == [] then t else Close(t, |t.active| - 1, status)
  }

  function StillGoing(active: seq<Active>): seq<Record> {
    seq(|active|, i requires 0 <= i < |active| => Record(active[i].name, Started, active[i].serial))
  }

  /** The records a reader is given: the finished ones, then those still going. */
  function Snapshot(t: Trace): seq<Record> {
    t.stages + StillGoing(t.active)
  }

  class Recorder {
    var active: seq<Active>
    var stages: seq<Record>
    var currentStage: string
    var pushes: nat

    ghost function State(): Trace
      reads this
    {
      Trace(active, stages, currentStage, pushes)
    }

    constructor ()
      ensures State() == NEW_TRACE
    {
      active, stages, currentStage, pushes := [], [], "start", 0;
    }

    method BeginStage(stage: string) returns (token: Token)
      modifies this
      ensures (State(), token) == Begin(old(State()), stage)
    {
      currentStage := stage;
      var nested := active != [] && active[|active| - 1].name == stage;
      if !nested {
        active := active + [Active(stage, pushes)];
        pushes := pushes + 1;
      }
      return Token(stage, nested);
    }

    method FinishStage(token: Token, status: Status)
      modifies this
      ensures State() == Finish(old(State()), token, status)
    {
      if token.nested {
        return;
      }
      var i := |active|;
      assert active[..i] == active;
      while i > 0 && active[i - 1].name != token.name
        invariant 0 <= i <= |active|
        invariant LastNamed(active, token.name) == LastNamed(active[..i], token.name)
      {
        i := i - 1;
        assert Init(active[..i + 1]) == active[..i];
      }
      if i > 0 {
        var done := active[i - 1];
        active := active[..i - 1] + active[i..];
        currentStage := done.name;
        stages := stages + [Record(done.name, status, done.serial)];
      }
    }

    method MarkCurrentStage(status: Status)
      modifies this
      ensures State() == Mark(old(State()), status)
    {
      if active == [] {
        return;
      }
      var done := active[|active| - 1];
      active := active[..|active| - 1];
      assert active == old(active)[..|old(active)| - 1] + old(active)[|old(active)|..];
      currentStage := done.name;
      stages := stages + [Record(done.name, status, done.serial)];
    }

    /** The time left, or the current stage marked as the one that ran out. */
    method Remaining(stage: string, elapsed: nat, timeout: nat) returns (left: Result<nat, ()>)
      modifies this
      ensures elapsed < timeout ==> left == Result.Ok(timeout - elapsed) && State() == old(State()).(current := stage)
      ensures elapsed >= timeout ==> left == Err(()) && State() == Mark(old(State()).(current := stage), Timeout)
    {
      currentStage := stage;
      if elapsed >= timeout {
        MarkCurrentStage(Timeout);
        return Err(());
      }
      return Result.Ok(timeout - elapsed);
    }

    method TakeSnapshot() returns (records: seq<Record>)
      ensures records == Snapshot(State())
    {
      records := stages;
      for i := 0 to |active|
        invariant records == stages + StillGoing(active[..i])
      {
        var record := Record(active[i].name, Started, active[i].serial);
        records := records + [record];
        assert StillGoing(active[..i + 1]) == StillGoing(active[..i]) + [record];
      }
      assert active[..|active|] == active;
    }
  }

  // ---- Any sequence of calls: nothing lost, nothing twice ----

  datatype Call =
    | Starts(stage: string)
    | Ends(token: Token, status: Status)
    | Marks(status: Status)
    | Notes(stage: string)    // names the current stage, and no more

  function AfterCall(t: Trace, call: Call): Trace {
    match call
    case Starts(stage) => Begin(t, stage).0
    case Ends(token, status) => Finish(t, token, status)
    case Marks(status) => Mark(t, status)
    case Notes(stage) => t.(current := stage)
  }

  function TraceAfter(calls: seq<Call>): Trace {
    if calls == [] then NEW_TRACE else AfterCall(TraceAfter(Init(calls)), Last(calls))
  }

  /** The stage a call pushes, if it pushes one. */
  function PushedBy(t: Trace, call: Call): seq<Active> {
    if call.Starts? && TopName(t.active) != Some(call.stage) then [Active(call.stage, t.pushes)] else []
  }

  /** The stages actually pushed, in order. */
  function Pushed(calls: seq<Call>): seq<Active> {
    if calls == [] then [] else Pushed(Init(calls)) + PushedBy(TraceAfter(Init(calls)), Last(calls))
  }

  function Subjects(records: seq<Record>): seq<Active> {
    seq(|records|, i requires 0 <= i < |records| => Active(records[i].name, records[i].serial))
  }

  /** Who the trace accounts for, finished or not. */
  function Accounted(t: Trace): multiset<Active> {
    multiset(Subjects(t.stages)) + multiset(t.active)
  }

  lemma CloseKeepsAccount(t: Trace, i: nat, status: Status)
    requires i < |t.active|
    ensures Accounted(Close(t, i, status)) == Accounted(t)
  {
    var record := Record(t.active[i].name, status, t.active[i].serial);
    assert t.active == t.active[..i] + [t.active[i]] + t.active[i + 1..];
    assert Subjects(t.stages + [record]) == Subjects(t.stages) + [t.active[i]];
  }

  lemma SnapshotIsTheAccount(t: Trace)
    ensures multiset(Subjects(Snapshot(t))) == Accounted(t)
  {
    assert Subjects(Snapshot(t)) == Subjects(t.stages) + t.active;
  }

  lemma CallAddsWhatItPushes(t: Trace, call: Call)
    ensures Accounted(AfterCall(t, call)) == Accounted(t) + multiset(PushedBy(t, call))
  {
    if call.Ends? && !call.token.nested {
      LastNamedIsLast(t.active, call.token.name);
      var found := LastNamed(t.active, call.token.name);
      if found.Some? {
        CloseKeepsAccount(t, found.value, call.status);
      }
    } else if call.Marks? && t.active != [] {
      CloseKeepsAccount(t, |t.active| - 1, call.status);
    }
  }

  lemma {:induction false} PushesAreNumbered(calls: seq<Call>)
    ensures |Pushed(calls)| == TraceAfter(calls).pushes
    ensures forall i :: 0 <= i < |Pushed(calls)| ==> Pushed(calls)[i].serial == i
  {
    if calls != [] {
      PushesAreNumbered(Init(calls));
      var before := TraceAfter(Init(calls));
      LastNamedIsLast(before.active, if Last(calls).Ends? then Last(calls).token.name else "");
    }
  }

  lemma {:induction false} NumberedFromOnce(stages: seq<Active>, first: nat, p: Active)
    requires forall i :: 0 <= i < |stages| ==> stages[i].serial == first + i
    requires p in stages
    ensures multiset(stages)[p] == 1
    decreases |stages|
  {
    var rest := Init(stages);
    assert stages == rest + [Last(stages)];
    if p == Last(stages) {
      assert p !in rest;
    } else {
      NumberedFromOnce(rest, first, p);
    }
  }

  /** In any snapshot, after any calls in any order, every stage ever pushed
      appears exactly once, and nothing else appears. */
  lemma {:induction false} EveryPushIsAccountedOnce(calls: seq<Call>)
    ensures multiset(Subjects(Snapshot(TraceAfter(calls)))) == multiset(Pushed(calls))
    ensures forall p :: p in Pushed(calls) ==> multiset(Subjects(Snapshot(TraceAfter(calls))))[p] == 1
  {
    SnapshotIsTheAccount(TraceAfter(calls));
    if calls != [] {
      EveryPushIsAccountedOnce(Init(calls));
      SnapshotIsTheAccount(TraceAfter(Init(calls)));
      CallAddsWhatItPushes(TraceAfter(Init(calls)), Last(calls));
    }
    PushesAreNumbered(calls);
    forall p | p in Pushed(calls) ensures multiset(Pushed(calls))[p] == 1 {
      NumberedFromOnce(Pushed(calls), 0, p);
    }
  }

  // ---- Runs that have not finished are the only ones left in progress ----

  function Named(active: seq<Active>): seq<string> {
    seq(|active|, i requires 0 <= i < |active| => active[i].name)
  }

  function OpenAfter(open: multiset<string>, t: Trace, call: Call): multiset<string> {
    match call
    case Starts(stage) => if TopName(t.active) == Some(stage) then open else open + multiset{stage}
    case Ends(token, _) => if token.nested then open else open - multiset{token.name}
    case Marks(_) => open
    case Notes(_) => open
  }

  /** The tokens taken and not yet given back, however the runs interleave. */
  function OpenRuns(calls: seq<Call>): multiset<string> {
    if calls == [] then multiset{}
    else OpenAfter(OpenRuns(Init(calls)), TraceAfter(Init(calls)), Last(calls))
  }

  lemma ClosedNames(active: seq<Active>, i: nat)
    requires i < |active|
    ensures multiset(Named(active[..i] + active[i + 1..])) == multiset(Named(active)) - multiset{active[i].name}
  {
    var names := Named(active);
    assert Named(active[..i] + active[i + 1..]) == names[..i] + names[i + 1..];
    assert names == names[..i] + [names[i]] + names[i + 1..];
  }

  lemma NothingLess(names: multiset<string>, name: string)
    requires name !in names
    ensures names - multiset{name} == names
  {
  }

  lemma OneLess(names: multiset<string>, open: multiset<string>, name: string)
    requires names <= open
    ensures names - multiset{name} <= open - multiset{name}
  {
  }

  lemma FinishedNames(t: Trace, token: Token, status: Status)
    requires !token.nested
    ensures multiset(Named(Finish(t, token, status).active)) == multiset(Named(t.active)) - multiset{token.name}
  {
    LastNamedIsLast(t.active, token.name);
    match LastNamed(t.active, token.name)
    case Some(i) => ClosedNames(t.active, i);
    case None =>
      assert token.name !in Named(t.active);
      NothingLess(multiset(Named(t.active)), token.name);
  }

  lemma EndingKeepsOthersOpen(t: Trace, token: Token, status: Status, open: multiset<string>)
    requires !token.nested && multiset(Named(t.active)) <= open
    ensures multiset(Named(Finish(t, token, status).active)) <= open - multiset{token.name}
  {
    FinishedNames(t, token, status);
    OneLess(multiset(Named(t.active)), open, token.name);
  }

  lemma StartKeepsOthersOpen(t: Trace, stage: string, open: multiset<string>)
    requires multiset(Named(t.active)) <= open
    ensures multiset(Named(Begin(t, stage).0.active)) <= OpenAfter(open, t, Starts(stage))
  {
    assert Named(t.active + [Active(stage, t.pushes)]) == Named(t.active) + [stage];
  }

  lemma CallKeepsOthersOpen(t: Trace, call: Call, open: multiset<string>)
    requires multiset(Named(t.active)) <= open
    ensures multiset(Named(AfterCall(t, call).active)) <= OpenAfter(open, t, call)
  {
    if call.Starts? {
      StartKeepsOthersOpen(t, call.stage, open);
    } else if call.Ends? && !call.token.nested {
      EndingKeepsOthersOpen(t, call.token, call.status, open);
    } else if call.Marks? && t.active != [] {
      ClosedNames(t.active, |t.active| - 1);
    }
  }

  /** A stage is left in progress only on behalf of a run still open; once
      every run has ended, nothing is. */
  lemma {:induction false} InProgressMeansOpen(calls: seq<Call>)
    ensures multiset(Named(TraceAfter(calls).active)) <= OpenRuns(calls)
    ensures OpenRuns(calls) == multiset{} ==> TraceAfter(calls).active == []
  {
    if calls != [] {
      InProgressMeansOpen(Init(calls));
      CallKeepsOthersOpen(TraceAfter(Init(calls)), Last(calls), OpenRuns(Init(calls)));
    }
    assert |Named(TraceAfter(calls).active)| == |TraceAfter(calls).active|;
  }

  // ---- Nested runs ----

  /** One run of a stage. `Late`: the deadline had already passed once it had
      begun. Otherwise its body took some steps and ended: `Finished`, however
      that came about (its own timer included), or `CutOff`, its future dropped.
      A body may go on after a deadline error, and after a nested run was cut off. */
  datatype Run = Run(stage: string, fate: Fate)
  datatype Fate = Late | Body(steps: seq<Step>, end: End)
  datatype End = Finished(status: Status) | CutOff
  datatype Step = Nested(run: Run) | Check(stage: string, expired: bool)

  function Exec(run: Run, t: Trace): Trace
    decreases run, 1
  {
    var (begun, token) := Begin(t, run.stage);
    match run.fate
    case Late => Mark(begun, Timeout)
    case Body(steps, end) =>
      var ran := ExecAll(steps, begun);
      if end.CutOff? then ran else Finish(ran, token, end.status)
  }

  function ExecAll(steps: seq<Step>, t: Trace): Trace
    decreases steps, 0
  {
    if steps == [] then t else ExecStep(Last(steps), ExecAll(Init(steps), t))
  }

  function ExecStep(step: Step, t: Trace): Trace
    decreases step, 2
  {
    match step
    case Nested(run) => Exec(run, t)
    case Check(stage, expired) =>
      if expired then Mark(t.(current := stage), Timeout) else t.(current := stage)
  }

  // ---- What a run can tell of the stack below it ----

  /** The stack a run finds, as far as the run can tell: its top and its names. */
  datatype Floor = Floor(top: Option<string>, names: set<string>)

  function FloorOf(active: seq<Active>): Floor {
    Floor(TopName(active), set a | a in active :: a.name)
  }

  // The run's own stages in progress, above the floor; nothing once the floor is broken.

  function OwnTop(floor: Floor, own: seq<string>): Option<string> {
    if own == [] then floor.top else Some(Last(own))
  }

  function BeginWithin(floor: Floor, own: seq<string>, stage: string): seq<string> {
    if OwnTop(floor, own) == Some(stage) then own else own + [stage]
  }

  function MarkWithin(floor: Floor, own: seq<string>): Option<seq<string>> {
    if own != [] then Some(Init(own)) else if floor.top.Some? then None else Some(own)
  }

  /** The innermost stage of that name taken out. */
  function DropLast(own: seq<string>, stage: string): seq<string> {
    if own == [] then [] else if Last(own) == stage then Init(own) else DropLast(Init(own), stage) + [Last(own)]
  }

  function FinishWithin(floor: Floor, own: seq<string>, stage: string): Option<seq<string>> {
    if stage in own then Some(DropLast(own, stage)) else if stage in floor.names then None else Some(own)
  }

  function Within(run: Run, floor: Floor, own: seq<string>): Option<seq<string>>
    decreases run, 1
  {
    var begun := BeginWithin(floor, own, run.stage);
    match run.fate
    case Late => MarkWithin(floor, begun)
    case Body(steps, end) =>
      match AllWithin(steps, floor, begun)
      case None => None
      case Some(ran) => if end.CutOff? || begun == own then Some(ran) else FinishWithin(floor, ran, run.stage)
  }

  function AllWithin(steps: seq<Step>, floor: Floor, own: seq<string>): Option<seq<string>>
    decreases steps, 0
  {
    if steps == [] then Some(own)
    else
      match AllWithin(Init(steps), floor, own)
      case None => None
      case Some(before) => StepWithin(Last(steps), floor, before)
  }

  function StepWithin(step: Step, floor: Floor, own: seq<string>): Option<seq<string>>
    decreases step, 2
  {
    match step
    case Nested(run) => Within(run, floor, own)
    case Check(_, expired) => if expired then MarkWithin(floor, own) else Some(own)
  }

  /** Stages in progress were started in the order they stand in. */
  ghost predicate InOrder(t: Trace) {
    && (forall i :: 0 <= i < |t.active| ==> t.active[i].serial < t.pushes)
    && (forall i, j :: 0 <= i < j < |t.active| ==> t.active[i].serial < t.active[j].serial)
  }

  /** A stage once in progress and now not. */
  ghost predicate Left(t: Trace, a: Active) {
    a.serial < t.pushes && a !in t.active
  }

  lemma CallKeepsOrder(t: Trace, call: Call)
    requires InOrder(t)
    ensures InOrder(AfterCall(t, call))
    ensures forall a :: Left(t, a) ==> Left(AfterCall(t, call), a)
  {
    if call.Ends? {
      LastNamedIsLast(t.active, call.token.name);
      var found := LastNamed(t.active, call.token.name);
      if !call.token.nested && found.Some? {
        CloseKeepsOrder(t, found.value, call.status);
      }
    } else if call.Marks? && t.active != [] {
      CloseKeepsOrder(t, |t.active| - 1, call.status);
    }
  }

  lemma CloseKeepsOrder(t: Trace, i: nat, status: Status)
    requires InOrder(t) && i < |t.active|
    ensures InOrder(Close(t, i, status))
    ensures forall a :: Left(t, a) ==> Left(Close(t, i, status), a)
  {
  }

  /** Every trace there is has its stages in order. */
  lemma {:induction false} TracesAreInOrder(calls: seq<Call>)
    ensures InOrder(TraceAfter(calls))
  {
    if calls != [] {
      TracesAreInOrder(Init(calls));
      CallKeepsOrder(TraceAfter(Init(calls)), Last(calls));
    }
  }

  /** The stack is `base` and above it stages of those names; or a stage of `base` has left. */
  ghost predicate Stands(t: Trace, base: seq<Active>, own: Option<seq<string>>) {
    match own
    case Some(names) => base <= t.active && Named(t.active[|base|..]) == names
    case None => exists a :: a in base && Left(t, a)
  }

  lemma StackSplits(t: Trace, base: seq<Active>, own: seq<string>)
    requires Stands(t, base, Some(own))
    ensures |t.active| == |base| + |own|
    ensures TopName(t.active) == OwnTop(FloorOf(base), own)
    ensures own != [] ==> base <= Init(t.active) && Named(Init(t.active)[|base|..]) == Init(own)
    ensures own == [] ==> t.active == base
  {
    var above := t.active[|base|..];
    assert t.active == base + above;
    if own != [] {
      assert Init(t.active) == base + Init(above) && Init(t.active)[|base|..] == Init(above);
      assert Last(own) == Last(above).name;
    } else {
      assert above == [];
    }
  }

  lemma BeginStands(t: Trace, base: seq<Active>, own: seq<string>, stage: string)
    requires Stands(t, base, Some(own))
    ensures var (begun, token) := Begin(t, stage);
            var now := BeginWithin(FloorOf(base), own, stage);
            Stands(begun, base, Some(now)) && (token.nested <==> now == own)
  {
    StackSplits(t, base, own);
    var (begun, token) := Begin(t, stage);
    if !token.nested {
      assert begun.active[|base|..] == t.active[|base|..] + [Active(stage, t.pushes)];
      assert Named(begun.active[|base|..]) == own + [stage];
    }
  }

  lemma MarkStands(t: Trace, base: seq<Active>, own: seq<string>, status: Status)
    requires InOrder(t) && Stands(t, base, Some(own))
    ensures Stands(Mark(t, status), base, MarkWithin(FloorOf(base), own))
  {
    StackSplits(t, base, own);
    if own == [] && base != [] {
      assert Last(base) in base && Left(Mark(t, status), Last(base));
    } else if own != [] {
      assert t.active[..|t.active| - 1] + t.active[|t.active|..] == Init(t.active);
    }
  }

  lemma {:induction false} LastNamedAbove(base: seq<Active>, above: seq<Active>, name: string)
    ensures LastNamed(base + above, name) ==
            match LastNamed(above, name) { case Some(i) => Some(|base| + i) case None => LastNamed(base, name) }
    decreases |above|
  {
    if above == [] {
      assert base + above == base;
    } else {
      assert Init(base + above) == base + Init(above);
      LastNamedAbove(base, Init(above), name);
    }
  }

  lemma NamedOn(less: seq<Active>, last: Active)
    ensures Named(less + [last]) == Named(less) + [last.name]
  {
  }

  lemma DropFromLonger(names: seq<string>, last: string, name: string)
    ensures DropLast(names + [last], name) == if last == name then names else DropLast(names, name) + [last]
  {
    assert Init(names + [last]) == names;
  }

  lemma WithoutFromLonger(less: seq<Active>, last: Active, i: nat)
    requires i <= |less|
    ensures Without(less + [last], i) == if i == |less| then less else Without(less, i) + [last]
  {
  }

  lemma {:induction false} DroppedNames(above: seq<Active>, name: string)
    ensures LastNamed(above, name).Some? <==> name in Named(above)
    ensures LastNamed(above, name).Some? ==>
              LastNamed(above, name).value < |above|
              && Named(Without(above, LastNamed(above, name).value)) == DropLast(Named(above), name)
    decreases |above|
  {
    if above != [] {
      var less, last := Init(above), Last(above);
      assert above == less + [last];
      NamedOn(less, last);
      DropFromLonger(Named(less), last.name, name);
      DroppedNames(less, name);
      if last.name == name {
        WithoutFromLonger(less, last, |less|);
      } else if LastNamed(less, name).Some? {
        WithoutFromLonger(less, last, LastNamed(less, name).value);
        NamedOn(Without(less, LastNamed(less, name).value), last);
      }
    }
  }

  lemma WithoutAbove(base: seq<Active>, above: seq<Active>, i: nat)
    requires i < |above|
    ensures Without(base + above, |base| + i) == base + Without(above, i)
  {
    assert (base + above)[..|base| + i] == base + above[..i];
    assert (base + above)[|base| + i + 1..] == above[i + 1..];
  }

  lemma FinishTakesOwn(t: Trace, base: seq<Active>, own: seq<string>, name: string, status: Status)
    requires Stands(t, base, Some(own)) && name in own
    ensures Stands(Finish(t, Token(name, false), status), base, Some(DropLast(own, name)))
  {
    var above := t.active[|base|..];
    assert t.active == base + above;
    LastNamedAbove(base, above, name);
    DroppedNames(above, name);
    var left := Without(above, LastNamed(above, name).value);
    WithoutAbove(base, above, LastNamed(above, name).value);
    StandsOn(Finish(t, Token(name, false), status), base, left);
  }

  lemma StandsOn(t: Trace, base: seq<Active>, above: seq<Active>)
    requires t.active == base + above
    ensures Stands(t, base, Some(Named(above)))
  {
    assert (base + above)[|base|..] == above;
  }

  lemma WithoutLeaves(t: Trace, i: nat, status: Status)
    requires InOrder(t) && i < |t.active|
    ensures Left(Close(t, i, status), t.active[i])
  {
  }

  lemma FinishTakesBelow(t: Trace, base: seq<Active>, own: seq<string>, name: string, status: Status)
    requires InOrder(t) && Stands(t, base, Some(own)) && name !in own
    ensures Stands(Finish(t, Token(name, false), status), base,
                   if name in FloorOf(base).names then None else Some(own))
  {
    var above := t.active[|base|..];
    assert t.active == base + above;
    LastNamedAbove(base, above, name);
    DroppedNames(above, name);
    LastNamedIsLast(base, name);
    if name in FloorOf(base).names {
      var i := LastNamed(base, name).value;
      assert t.active[i] == base[i] && base[i] in base;
      WithoutLeaves(t, i, status);
    }
  }

  lemma BrokenStays(t: Trace, later: Trace, base: seq<Active>)
    requires Stands(t, base, None) && forall a :: Left(t, a) ==> Left(later, a)
    ensures Stands(later, base, None)
  {
  }

  /** The frame rule, for every run on every stack: what a run does to the stack
      depends on the stages below it only through their top and their names. As
      long as it takes none of them they stand untouched, under the stages that
      `Within` says it leaves; otherwise one of them has left for good. */
  lemma {:induction false} ExecStands(run: Run, t: Trace, base: seq<Active>, own: seq<string>)
    requires InOrder(t) && Stands(t, base, Some(own))
    ensures InOrder(Exec(run, t)) && Stands(Exec(run, t), base, Within(run, FloorOf(base), own))
    ensures forall a :: Left(t, a) ==> Left(Exec(run, t), a)
    decreases run, 1
  {
    var begun := Begin(t, run.stage).0;
    var now := BeginWithin(FloorOf(base), own, run.stage);
    BeginStands(t, base, own, run.stage);
    CallKeepsOrder(t, Starts(run.stage));
    if run.fate.Late? {
      LateStands(begun, base, now);
    } else {
      AllStands(run.fate.steps, begun, base, now);
      EndStands(ExecAll(run.fate.steps, begun), base, AllWithin(run.fate.steps, FloorOf(base), now),
                Begin(t, run.stage).1, run.fate.end);
    }
  }

  lemma LateStands(t: Trace, base: seq<Active>, own: seq<string>)
    requires InOrder(t) && Stands(t, base, Some(own))
    ensures var after := Mark(t, Timeout);
            InOrder(after) && (forall a :: Left(t, a) ==> Left(after, a))
            && Stands(after, base, MarkWithin(FloorOf(base), own))
  {
    MarkStands(t, base, own, Timeout);
    CallKeepsOrder(t, Marks(Timeout));
  }

  lemma EndStands(t: Trace, base: seq<Active>, own: Option<seq<string>>, token: Token, end: End)
    requires InOrder(t) && Stands(t, base, own)
    ensures var after := if end.CutOff? then t else Finish(t, token, end.status);
            InOrder(after) && (forall a :: Left(t, a) ==> Left(after, a))
            && Stands(after, base, if own.None? || token.nested || end.CutOff? then own
                                   else FinishWithin(FloorOf(base), own.value, token.name))
  {
    if end.Finished? {
      FinishedStands(t, base, own, token, end.status);
    }
  }

  lemma FinishedStands(t: Trace, base: seq<Active>, own: Option<seq<string>>, token: Token, status: Status)
    requires InOrder(t) && Stands(t, base, own)
    ensures var after := Finish(t, token, status);
            InOrder(after) && (forall a :: Left(t, a) ==> Left(after, a))
            && Stands(after, base, if own.None? || token.nested then own
                                   else FinishWithin(FloorOf(base), own.value, token.name))
  {
    CallKeepsOrder(t, Ends(token, status));
    if own.None? {
      BrokenStays(t, Finish(t, token, status), base);
    } else if !token.nested && token.name in own.value {
      FinishTakesOwn(t, base, own.value, token.name, status);
    } else if !token.nested {
      FinishTakesBelow(t, base, own.value, token.name, status);
    }
  }

  lemma {:induction false} AllStands(steps: seq<Step>, t: Trace, base: seq<Active>, own: seq<string>)
    requires InOrder(t) && Stands(t, base, Some(own))
    ensures InOrder(ExecAll(steps, t)) && Stands(ExecAll(steps, t), base, AllWithin(steps, FloorOf(base), own))
    ensures forall a :: Left(t, a) ==> Left(ExecAll(steps, t), a)
    decreases steps, 0
  {
    if steps != [] {
      AllStands(Init(steps), t, base, own);
      StepStands(Last(steps), ExecAll(Init(steps), t), base, AllWithin(Init(steps), FloorOf(base), own));
    }
  }

  lemma {:induction false} StepStands(step: Step, t: Trace, base: seq<Active>, own: Option<seq<string>>)
    requires InOrder(t) && Stands(t, base, own)
    ensures var after := ExecStep(step, t);
            InOrder(after) && (forall a :: Left(t, a) ==> Left(after, a))
            && Stands(after, base, if own.None? then None else StepWithin(step, FloorOf(base), own.value))
    decreases step, 2
  {
    match step
    case Nested(run) =>
      if own.Some? {
        ExecStands(run, t, base, own.value);
      } else {
        assert Stands(t, [], Some(Named(t.active))) by { assert t.active[0..] == t.active; }
        ExecStands(run, t, [], Named(t.active));
        BrokenStays(t, Exec(run, t), base);
      }
    case Check(stage, expired) =>
      var checked := t.(current := stage);
      assert Stands(checked, base, own);
      if expired {
        CallKeepsOrder(checked, Marks(Timeout));
        if own.Some? {
          MarkStands(checked, base, own.value, Timeout);
        }
      }
  }

  /** The exact stack every run leaves, from the names it found. */
  lemma ExactStack(run: Run, t: Trace)
    requires InOrder(t)
    ensures Within(run, FloorOf([]), Named(t.active)) == Some(Named(Exec(run, t).active))
  {
    assert t.active[0..] == t.active && Exec(run, t).active[0..] == Exec(run, t).active;
    ExecStands(run, t, [], Named(t.active));
  }

  /** The stack is given back exactly when, seen from the floor, the run takes
      nothing below it and leaves nothing on it. */
  lemma RestoresExactlyWhen(run: Run, t: Trace)
    requires InOrder(t)
    ensures Exec(run, t).active == t.active <==> Within(run, FloorOf(t.active), []) == Some([])
  {
    var after := Exec(run, t);
    ExecStands(run, t, t.active, []);
    var own := Within(run, FloorOf(t.active), []);
    if own.Some? {
      StackSplits(after, t.active, own.value);
    }
  }

  // ---- What a run records ----

  lemma CallAccounts(t: Trace, call: Call)
    ensures Accounted(AfterCall(t, call)) == Accounted(t) + multiset(PushedBy(t, call))
    ensures AfterCall(t, call).pushes == t.pushes + |PushedBy(t, call)|
  {
    CallAddsWhatItPushes(t, call);
    if call.Ends? {
      LastNamedIsLast(t.active, call.token.name);
    }
  }

  /** The stages that a run and the runs in it push, in order. */
  function PushedIn(run: Run, t: Trace): seq<Active>
    decreases run, 1
  {
    PushedBy(t, Starts(run.stage))
    + (if run.fate.Late? then [] else PushedInAll(run.fate.steps, Begin(t, run.stage).0))
  }

  function PushedInAll(steps: seq<Step>, t: Trace): seq<Active>
    decreases steps, 0
  {
    if steps == [] then [] else PushedInAll(Init(steps), t) + PushedInStep(Last(steps), ExecAll(Init(steps), t))
  }

  function PushedInStep(step: Step, t: Trace): seq<Active>
    decreases step, 2
  {
    if step.Nested? then PushedIn(step.run, t) else []
  }

  /** From one trace to a later one the stages `pushed` were added to the account, numbered on. */
  ghost predicate Accounts(t: Trace, later: Trace, pushed: seq<Active>) {
    && Accounted(later) == Accounted(t) + multiset(pushed)
    && later.pushes == t.pushes + |pushed|
    && forall i :: 0 <= i < |pushed| ==> pushed[i].serial == t.pushes + i
  }

  lemma AccountsOn(t: Trace, mid: Trace, later: Trace, first: seq<Active>, second: seq<Active>)
    requires Accounts(t, mid, first) && Accounts(mid, later, second)
    ensures Accounts(t, later, first + second)
  {
  }

  lemma OneCallAccounts(t: Trace, call: Call)
    ensures Accounts(t, AfterCall(t, call), PushedBy(t, call))
  {
    CallAccounts(t, call);
  }

  lemma {:induction false} ExecAccounts(run: Run, t: Trace)
    ensures Accounts(t, Exec(run, t), PushedIn(run, t))
    decreases run, 1
  {
    var (begun, token) := Begin(t, run.stage);
    OneCallAccounts(t, Starts(run.stage));
    match run.fate
    case Late =>
      OneCallAccounts(begun, Marks(Timeout));
      AccountsOn(t, begun, Mark(begun, Timeout), PushedBy(t, Starts(run.stage)), []);
    case Body(steps, end) =>
      var more := PushedInAll(steps, begun);
      AllAccounts(steps, begun);
      EndAccounts(begun, ExecAll(steps, begun), more, token, end);
      AccountsOn(t, begun, Exec(run, t), PushedBy(t, Starts(run.stage)), more);
  }

  lemma EndAccounts(t: Trace, ran: Trace, pushed: seq<Active>, token: Token, end: End)
    requires Accounts(t, ran, pushed)
    ensures Accounts(t, if end.CutOff? then ran else Finish(ran, token, end.status), pushed)
  {
    if end.Finished? {
      CallAccounts(ran, Ends(token, end.status));
    }
  }

  lemma {:induction false} AllAccounts(steps: seq<Step>, t: Trace)
    ensures Accounts(t, ExecAll(steps, t), PushedInAll(steps, t))
    decreases steps, 0
  {
    if steps != [] {
      var before := ExecAll(Init(steps), t);
      AllAccounts(Init(steps), t);
      StepAccounts(Last(steps), before);
      AccountsOn(t, before, ExecAll(steps, t), PushedInAll(Init(steps), t), PushedInStep(Last(steps), before));
    }
  }

  lemma {:induction false} StepAccounts(step: Step, t: Trace)
    ensures Accounts(t, ExecStep(step, t), PushedInStep(step, t))
    decreases step, 2
  {
    if step.Nested? {
      ExecAccounts(step.run, t);
    } else if step.expired {
      CallAccounts(t.(current := step.stage), Marks(Timeout));
    }
  }

  /** A run that gives the stack back adds exactly one record for each stage
      that it and the runs in it pushed, however they ended. */
  lemma OneRecordPerPushedStage(run: Run, t: Trace)
    requires Exec(run, t).active == t.active
    ensures multiset(Subjects(Exec(run, t).stages)) == multiset(Subjects(t.stages)) + multiset(PushedIn(run, t))
    ensures forall p :: p in PushedIn(run, t) ==> p.serial >= t.pushes && multiset(PushedIn(run, t))[p] == 1
  {
    var pushed := PushedIn(run, t);
    ExecAccounts(run, t);
    var before, after := multiset(Subjects(t.stages)), multiset(Subjects(Exec(run, t).stages));
    SameBeside(after, before + multiset(pushed), multiset(t.active));
    forall p | p in pushed ensures multiset(pushed)[p] == 1 {
      NumberedFromOnce(pushed, t.pushes, p);
    }
  }

  lemma SameBeside(a: multiset<Active>, b: multiset<Active>, open: multiset<Active>)
    requires a + open == b + open
    ensures a == b
  {
    assert (a + open) - open == a && (b + open) - open == b;
  }

  // ---- Runs with no run inside: every run the program starts today ----

  predicate IsLeaf(run: Run) {
    match run.fate
    case Late => true
    case Body(steps, _) => forall i :: 0 <= i < |steps| ==> steps[i].Check?
  }

  /** How many deadline checks found the deadline passed. */
  function Charges(steps: seq<Step>): nat {
    if steps == [] then 0 else Charges(Init(steps)) + (if Last(steps).Check? && Last(steps).expired then 1 else 0)
  }

  lemma {:induction false} ChecksWithin(steps: seq<Step>, floor: Floor, own: seq<string>)
    requires |own| <= 1 && forall i :: 0 <= i < |steps| ==> steps[i].Check?
    ensures AllWithin(steps, floor, own) ==
            if Charges(steps) == 0 then Some(own)
            else if Charges(steps) <= |own| || floor.top.None? then Some([])
            else None
  {
    if steps != [] {
      var before := Init(steps);
      assert forall i :: 0 <= i < |before| ==> before[i] == steps[i];
      ChecksWithin(before, floor, own);
    }
  }

  /** What a run with no run inside gives back, for `charges` checks that found the deadline passed. */
  predicate GivesBack(stage: string, end: End, charges: nat, active: seq<Active>) {
    match end
    case Finished(_) =>
      active == [] || charges == 0 || (charges == 1 && stage !in FloorOf(active).names)
    case CutOff =>
      if TopName(active) == Some(stage) then charges == 0
      else charges == 1 || (charges > 1 && active == [])
  }

  /** Such a run restores the stack exactly when: it began too late and its name
      was not on top; or it ended, and found the stack empty, or never found the
      deadline passed, or found it once and no stage of its name was in progress
      outside; or it was cut off without a stage of its own left. */
  lemma LeafRestores(run: Run, t: Trace)
    requires InOrder(t) && IsLeaf(run)
    ensures Exec(run, t).active == t.active <==>
            match run.fate
            case Late => TopName(t.active) != Some(run.stage)
            case Body(steps, end) => GivesBack(run.stage, end, Charges(steps), t.active)
  {
    RestoresExactlyWhen(run, t);
    var floor := FloorOf(t.active);
    assert t.active != [] ==> Last(t.active).name in floor.names;
    var begun := BeginWithin(floor, [], run.stage);
    if run.fate.Body? {
      ChecksWithin(run.fate.steps, floor, begun);
      assert DropLast([run.stage], run.stage) == [];
    }
  }

  // ---- Wherever the deadline falls ----

  /** What a run is going to do: nested runs and looks at the deadline, in order. */
  datatype Plan = Plan(stage: string, steps: seq<Move>)
  datatype Move = Nest(plan: Plan) | Look(stage: string)

  /** How often the deadline is read: by every run once it has begun, and by every look. */
  function Reads(plan: Plan): nat
    decreases plan, 1
  {
    1 + ReadsAll(plan.steps)
  }

  function ReadsAll(steps: seq<Move>): nat
    decreases steps, 0
  {
    if steps == [] then 0 else ReadsAll(Init(steps)) + ReadsOne(Last(steps))
  }

  function ReadsOne(step: Move): nat
    decreases step, 2
  {
    match step
    case Nest(plan) => Reads(plan)
    case Look(_) => 1
  }

  /** The run when the deadline passes after `d` reads, and a deadline error
      ends every body it meets. */
  function Play(plan: Plan, d: nat): Run
    decreases plan, 1
  {
    if d == 0 then Run(plan.stage, Late)
    else Run(plan.stage, Body(PlayAll(plan.steps, d - 1), Finished(if d < Reads(plan) then Timeout else Status.Ok)))
  }

  function PlayAll(steps: seq<Move>, d: nat): seq<Step>
    decreases steps, 0
  {
    if steps == [] then []
    else
      var before := ReadsAll(Init(steps));
      PlayAll(Init(steps), d) + (if d < before then [] else [PlayOne(Last(steps), d - before)])
  }

  function PlayOne(step: Move, d: nat): Step
    decreases step, 2
  {
    match step
    case Nest(plan) => Nested(Play(plan, d))
    case Look(stage) => Check(stage, d == 0)
  }

  // Bodies that go on after a deadline error: for a plan that nests nothing
  // every look from the one the deadline falls before finds it passed.

  predicate OnlyLooks(plan: Plan) {
    forall i :: 0 <= i < |plan.steps| ==> plan.steps[i].Look?
  }

  function GoOnAll(steps: seq<Move>, d: nat): seq<Step>
    requires forall i :: 0 <= i < |steps| ==> steps[i].Look?
  {
    seq(|steps|, i requires 0 <= i < |steps| => Check(steps[i].stage, i >= d))
  }

  /** The run when the deadline passes after `d` reads, and its body goes on to `end` all the same. */
  function GoOn(plan: Plan, d: nat, end: End): Run
    requires OnlyLooks(plan)
  {
    Run(plan.stage, if d == 0 then Late else Body(GoOnAll(plan.steps, d - 1), end))
  }

  function LooksFrom(looks: nat, d: nat): nat {
    if d < looks then looks - d else 0
  }

  lemma {:induction false} LooksThatCharge(steps: seq<Move>, d: nat)
    requires forall i :: 0 <= i < |steps| ==> steps[i].Look?
    ensures Charges(GoOnAll(steps, d)) == LooksFrom(|steps|, d)
  {
    if steps != [] {
      LooksThatCharge(Init(steps), d);
      assert Init(GoOnAll(steps, d)) == GoOnAll(Init(steps), d);
    }
  }

  /** For every placement of the deadline, by the number of looks. */
  lemma LeafRestoresAt(plan: Plan, d: nat, end: End, t: Trace)
    requires InOrder(t) && OnlyLooks(plan)
    ensures Exec(GoOn(plan, d, end), t).active == t.active <==>
            if d == 0 then TopName(t.active) != Some(plan.stage)
            else GivesBack(plan.stage, end, LooksFrom(|plan.steps|, d - 1), t.active)
  {
    LeafRestores(GoOn(plan, d, end), t);
    if d > 0 {
      LooksThatCharge(plan.steps, d - 1);
    }
  }

  /** A run that nests nothing and ends, whatever its body does after a deadline
      error, gives the stack back wherever the deadline falls exactly when it
      finds the stack empty, or looks once and its name is not in progress
      outside, or never looks and its name is not on top. */
  lemma LeafIsSafeExactlyWhen(plan: Plan, status: Status, t: Trace)
    requires InOrder(t) && OnlyLooks(plan)
    ensures (forall d: nat :: Exec(GoOn(plan, d, Finished(status)), t).active == t.active)
       <==> t.active == []
            || (|plan.steps| == 1 && plan.stage !in FloorOf(t.active).names)
            || (|plan.steps| == 0 && TopName(t.active) != Some(plan.stage))
  {
    assert t.active != [] ==> Last(t.active).name in FloorOf(t.active).names;
    forall d: nat
      ensures Exec(GoOn(plan, d, Finished(status)), t).active == t.active <==>
              if d == 0 then TopName(t.active) != Some(plan.stage)
              else GivesBack(plan.stage, Finished(status), LooksFrom(|plan.steps|, d - 1), t.active)
    {
      LeafRestoresAt(plan, d, Finished(status), t);
    }
    if forall d: nat :: Exec(GoOn(plan, d, Finished(status)), t).active == t.active {
      assert Exec(GoOn(plan, 0, Finished(status)), t).active == t.active;
      assert Exec(GoOn(plan, 1, Finished(status)), t).active == t.active;
    }
  }

  /** The stage that is charged with the deadline under a run that will still
      finish it, or that another run had in progress. */
  function Hit(plan: Plan, d: nat, top: Option<string>): Option<string>
    decreases plan, 1
  {
    if d == 0 then (if top == Some(plan.stage) then top else None) else HitIn(plan.steps, d - 1, plan.stage)
  }

  function HitIn(steps: seq<Move>, d: nat, stage: string): Option<string>
    decreases steps, 0
  {
    if steps == [] then None
    else if d < ReadsAll(Init(steps)) then HitIn(Init(steps), d, stage)
    else HitAt(Last(steps), d - ReadsAll(Init(steps)), stage)
  }

  function HitAt(step: Move, d: nat, stage: string): Option<string>
    decreases step, 2
  {
    match step
    case Nest(plan) => Hit(plan, d, Some(stage))
    case Look(_) => if d == 0 then Some(stage) else None
  }

  function WithoutLast(active: seq<Active>, name: string): seq<Active> {
    LastNamedIsLast(active, name);
    match LastNamed(active, name)
    case Some(i) => Without(active, i)
    case None => active
  }

  function StackAfter(active: seq<Active>, hit: Option<string>): seq<Active> {
    match hit
    case None => active
    case Some(name) => WithoutLast(active, name)
  }

  lemma WithoutLastPushed(active: seq<Active>, top: Active, name: string)
    ensures WithoutLast(active + [top], name) ==
            if top.name == name then active else WithoutLast(active, name) + [top]
  {
    assert Init(active + [top]) == active && Last(active + [top]) == top;
    LastNamedIsLast(active, name);
  }

  lemma FinishRemovesLast(t: Trace, token: Token, status: Status)
    ensures Finish(t, token, status).active == if token.nested then t.active else WithoutLast(t.active, token.name)
  {
  }

  lemma MarkTop(t: Trace, status: Status)
    requires t.active != []
    ensures Mark(t, status).active == Init(t.active) == WithoutLast(t.active, Last(t.active).name)
  {
    assert t.active == Init(t.active) + [Last(t.active)];
    WithoutLastPushed(Init(t.active), Last(t.active), Last(t.active).name);
  }

  lemma FinishedEffect(t: Trace, stage: string, ran: Trace, hit: Option<string>, status: Status)
    requires ran.active == StackAfter(Begin(t, stage).0.active, hit)
    ensures Finish(ran, Begin(t, stage).1, status).active == StackAfter(t.active, hit)
  {
    var (begun, token) := Begin(t, stage);
    FinishRemovesLast(ran, token, status);
    if !token.nested {
      var top := Active(stage, t.pushes);
      WithoutLastPushed(t.active, top, stage);
      if hit.Some? {
        WithoutLastPushed(t.active, top, hit.value);
        WithoutLastPushed(WithoutLast(t.active, hit.value), top, stage);
      }
    }
  }

  lemma LateEffect(stage: string, t: Trace)
    ensures Mark(Begin(t, stage).0, Timeout).active
         == StackAfter(t.active, if TopName(t.active) == Some(stage) then Some(stage) else None)
  {
    var begun := Begin(t, stage).0;
    MarkTop(begun, Timeout);
    assert TopName(t.active) != Some(stage) ==> Init(begun.active) == t.active;
  }

  /** The exact stack a run leaves wherever the deadline falls: the one it found,
      without the innermost stage of the name that was hit. */
  lemma {:induction false} PlayEffect(plan: Plan, d: nat, t: Trace)
    ensures Exec(Play(plan, d), t).active == StackAfter(t.active, Hit(plan, d, TopName(t.active)))
    decreases plan, 1
  {
    var begun := Begin(t, plan.stage).0;
    if d == 0 {
      LateEffect(plan.stage, t);
    } else {
      PlayAllEffect(plan.steps, d - 1, plan.stage, begun);
      FinishedEffect(t, plan.stage, ExecAll(PlayAll(plan.steps, d - 1), begun),
                     HitIn(plan.steps, d - 1, plan.stage), if d < Reads(plan) then Timeout else Status.Ok);
    }
  }

  lemma {:induction false} PlayAllEffect(steps: seq<Move>, d: nat, stage: string, t: Trace)
    requires TopName(t.active) == Some(stage)
    ensures ExecAll(PlayAll(steps, d), t).active == StackAfter(t.active, HitIn(steps, d, stage))
    decreases steps, 0
  {
    if steps != [] {
      var before, first := ReadsAll(Init(steps)), PlayAll(Init(steps), d);
      PlayAllEffect(Init(steps), d, stage, t);
      if d < before {
        assert PlayAll(steps, d) == first;
      } else {
        NoHitLater(Init(steps), d, stage);
        var step := PlayOne(Last(steps), d - before);
        assert Init(first + [step]) == first && Last(first + [step]) == step;
        PlayOneEffect(Last(steps), d - before, stage, ExecAll(first, t));
      }
    }
  }

  lemma {:induction false} PlayOneEffect(step: Move, d: nat, stage: string, t: Trace)
    requires TopName(t.active) == Some(stage)
    ensures ExecStep(PlayOne(step, d), t).active == StackAfter(t.active, HitAt(step, d, stage))
    decreases step, 2
  {
    match step
    case Nest(plan) => PlayEffect(plan, d, t);
    case Look(name) => MarkTop(t.(current := name), Timeout);
  }

  // Past the last read nothing is hit.

  lemma {:induction false} NoHitAfter(plan: Plan, d: nat, top: Option<string>)
    requires d >= Reads(plan)
    ensures Hit(plan, d, top).None?
    decreases plan, 1
  {
    NoHitLater(plan.steps, d - 1, plan.stage);
  }

  lemma {:induction false} NoHitLater(steps: seq<Move>, d: nat, stage: string)
    requires d >= ReadsAll(steps)
    ensures HitIn(steps, d, stage).None?
    decreases steps, 0
  {
    if steps != [] {
      NoHitAt(Last(steps), d - ReadsAll(Init(steps)), stage);
    }
  }

  lemma {:induction false} NoHitAt(step: Move, d: nat, stage: string)
    requires d >= ReadsOne(step)
    ensures HitAt(step, d, stage).None?
    decreases step, 2
  {
    if step.Nest? {
      NoHitAfter(step.plan, d, Some(stage));
    }
  }

  // ---- What a caller can check before the run ----

  /** The stages whose charge would be felt outside their own run, were they in
      progress there too: those that look at the deadline themselves, and those
      whose run begins with its own name on top. */
  function Charged(plan: Plan, top: Option<string>): set<string>
    decreases plan, 1
  {
    (if top == Some(plan.stage) then {plan.stage} else {}) + ChargedIn(plan.steps, plan.stage)
  }

  function ChargedIn(steps: seq<Move>, stage: string): set<string>
    decreases steps, 0
  {
    if steps == [] then {} else ChargedIn(Init(steps), stage) + ChargedAt(Last(steps), stage)
  }

  function ChargedAt(step: Move, stage: string): set<string>
    decreases step, 2
  {
    match step
    case Nest(plan) => Charged(plan, Some(stage))
    case Look(_) => {stage}
  }

  lemma {:induction false} HitIsCharged(plan: Plan, d: nat, top: Option<string>)
    ensures Hit(plan, d, top).Some? ==> Hit(plan, d, top).value in Charged(plan, top)
    decreases plan, 1
  {
    if d > 0 {
      HitInIsCharged(plan.steps, d - 1, plan.stage);
    }
  }

  lemma {:induction false} HitInIsCharged(steps: seq<Move>, d: nat, stage: string)
    ensures HitIn(steps, d, stage).Some? ==> HitIn(steps, d, stage).value in ChargedIn(steps, stage)
    decreases steps, 0
  {
    if steps != [] {
      HitInIsCharged(Init(steps), d, stage);
      if d >= ReadsAll(Init(steps)) {
        HitAtIsCharged(Last(steps), d - ReadsAll(Init(steps)), stage);
      }
    }
  }

  lemma {:induction false} HitAtIsCharged(step: Move, d: nat, stage: string)
    ensures HitAt(step, d, stage).Some? ==> HitAt(step, d, stage).value in ChargedAt(step, stage)
    decreases step, 2
  {
    if step.Nest? {
      HitIsCharged(step.plan, d, Some(stage));
    }
  }

  lemma {:induction false} ChargedIsHit(plan: Plan, top: Option<string>, name: string) returns (d: nat)
    requires name in Charged(plan, top)
    ensures d < Reads(plan) && Hit(plan, d, top) == Some(name)
    decreases plan, 1
  {
    if top == Some(name) == Some(plan.stage) {
      d := 0;
    } else {
      d := ChargedInIsHit(plan.steps, plan.stage, name);
      d := d + 1;
    }
  }

  lemma {:induction false} ChargedInIsHit(steps: seq<Move>, stage: string, name: string) returns (d: nat)
    requires name in ChargedIn(steps, stage)
    ensures d < ReadsAll(steps) && HitIn(steps, d, stage) == Some(name)
    decreases steps, 0
  {
    if name in ChargedIn(Init(steps), stage) {
      d := ChargedInIsHit(Init(steps), stage, name);
    } else {
      d := ChargedAtIsHit(Last(steps), stage, name);
      d := d + ReadsAll(Init(steps));
    }
  }

  lemma {:induction false} ChargedAtIsHit(step: Move, stage: string, name: string) returns (d: nat)
    requires name in ChargedAt(step, stage)
    ensures d < ReadsOne(step) && HitAt(step, d, stage) == Some(name)
    decreases step, 2
  {
    d := 0;
    if step.Nest? {
      d := ChargedIsHit(step.plan, Some(stage), name);
    }
  }

  lemma RestoresUnlessHit(plan: Plan, d: nat, t: Trace)
    ensures var hit := Hit(plan, d, TopName(t.active));
            Exec(Play(plan, d), t).active == t.active <==> hit.None? || hit.value !in FloorOf(t.active).names
  {
    PlayEffect(plan, d, t);
    var hit := Hit(plan, d, TopName(t.active));
    if hit.Some? {
      LastNamedIsLast(t.active, hit.value);
    }
  }

  /** The caller's condition: a run gives the stack back wherever the deadline
      falls exactly when no stage it may charge is in progress outside it. */
  lemma SafeWhereverTheDeadlineFalls(plan: Plan, t: Trace)
    ensures (forall d: nat :: Exec(Play(plan, d), t).active == t.active)
       <==> Charged(plan, TopName(t.active)) !! FloorOf(t.active).names
  {
    var charged := Charged(plan, TopName(t.active));
    if charged !! FloorOf(t.active).names {
      forall d: nat ensures Exec(Play(plan, d), t).active == t.active {
        HitIsCharged(plan, d, TopName(t.active));
        RestoresUnlessHit(plan, d, t);
      }
    } else {
      var name :| name in charged && name in FloorOf(t.active).names;
      var d := ChargedIsHit(plan, TopName(t.active), name);
      RestoresUnlessHit(plan, d, t);
      assert Exec(Play(plan, d), t).active != t.active;
    }
  }

  function StagesIn(plan: Plan): set<string>
    decreases plan, 1
  {
    {plan.stage} + StagesInAll(plan.steps)
  }

  function StagesInAll(steps: seq<Move>): set<string>
    decreases steps, 0
  {
    if steps == [] then {} else StagesInAll(Init(steps)) + StagesAt(Last(steps))
  }

  function StagesAt(step: Move): set<string>
    decreases step, 2
  {
    if step.Nest? then StagesIn(step.plan) else {}
  }

  /** Every body looks at the deadline somewhere. */
  predicate LooksEverywhere(plan: Plan) {
    (exists i :: 0 <= i < |plan.steps| && plan.steps[i].Look?)
    && forall i :: 0 <= i < |plan.steps| && plan.steps[i].Nest? ==> LooksEverywhere(plan.steps[i].plan)
  }

  lemma {:induction false} ChargedAreStages(plan: Plan, top: Option<string>)
    ensures Charged(plan, top) <= StagesIn(plan)
    ensures LooksEverywhere(plan) ==> Charged(plan, top) == StagesIn(plan)
    decreases plan, 1
  {
    ChargedInAreStages(plan.steps, plan.stage);
    if LooksEverywhere(plan) {
      assert plan.stage in ChargedIn(plan.steps, plan.stage);
    }
  }

  lemma {:induction false} ChargedInAreStages(steps: seq<Move>, stage: string)
    ensures ChargedIn(steps, stage) <= {stage} + StagesInAll(steps)
    ensures (exists i :: 0 <= i < |steps| && steps[i].Look?) ==> stage in ChargedIn(steps, stage)
    ensures (forall i :: 0 <= i < |steps| && steps[i].Nest? ==> LooksEverywhere(steps[i].plan))
            ==> StagesInAll(steps) <= ChargedIn(steps, stage)
    decreases steps, 0
  {
    if steps != [] {
      var before := Init(steps);
      assert forall i :: 0 <= i < |before| ==> before[i] == steps[i];
      ChargedInAreStages(before, stage);
      ChargedAtAreStages(Last(steps), stage);
    }
  }

  lemma {:induction false} ChargedAtAreStages(step: Move, stage: string)
    ensures ChargedAt(step, stage) <= {stage} + StagesAt(step)
    ensures (step.Nest? ==> LooksEverywhere(step.plan)) ==> StagesAt(step) <= ChargedAt(step, stage)
    decreases step, 2
  {
    if step.Nest? {
      ChargedAreStages(step.plan, Some(stage));
    }
  }

  /** Sharing no name with what is in progress outside is enough; for a plan
      whose bodies all look at the deadline it is also needed. */
  lemma SafeWithoutSharedNames(plan: Plan, t: Trace)
    ensures StagesIn(plan) !! FloorOf(t.active).names ==> forall d: nat :: Exec(Play(plan, d), t).active == t.active
    ensures LooksEverywhere(plan) && (forall d: nat :: Exec(Play(plan, d), t).active == t.active)
            ==> StagesIn(plan) !! FloorOf(t.active).names
  {
    ChargedAreStages(plan, TopName(t.active));
    SafeWhereverTheDeadlineFalls(plan, t);
  }

  // ---- What goes wrong otherwise ----

  /** A run of a stage inside a run of that stage, finding the deadline passed,
      closes the stage of that name that was in progress outside both. */
  lemma SharedNameClosesTheOuterStage(stage: string, outer: Active, between: Active, t: Trace)
    requires t.active == [outer, between] && outer.name == stage != between.name
    ensures Exec(Play(Plan(stage, [Nest(Plan(stage, []))]), 1), t).active == [between]
  {
    var inner := Nest(Plan(stage, []));
    assert Init([inner]) == [] && Last([inner]) == inner;
    assert HitIn([inner], 0, stage) == HitAt(inner, 0, stage) == Some(stage);
    PlayEffect(Plan(stage, [inner]), 1, t);
    assert t.active == [outer] + [between] && [] + [outer] == [outer];
    WithoutLastPushed([], outer, stage);
    WithoutLastPushed([outer], between, stage);
  }

  /** A body that reads the passed deadline twice takes a stage in progress
      around it, whatever that is called. */
  lemma SecondReadTakesAnOuterStage(run: Run, t: Trace)
    requires InOrder(t) && t.active != []
    requires IsLeaf(run) && run.fate.Body? && Charges(run.fate.steps) > 1
    ensures exists a :: a in t.active && Left(Exec(run, t), a)
  {
    ExecStands(run, t, t.active, []);
    ChecksWithin(run.fate.steps, FloorOf(t.active), BeginWithin(FloorOf(t.active), [], run.stage));
  }

  /** A run whose own timer fires while another run is in progress inside it
      leaves that one's stage behind. */
  lemma OwnTimerLeavesTheInnerStage(stage: string, inner: string, status: Status, t: Trace)
    requires InOrder(t) && inner != stage
    ensures var run := Run(stage, Body([Nested(Run(inner, Body([], CutOff)))], Finished(status)));
            t.active <= Exec(run, t).active && Named(Exec(run, t).active[|t.active|..]) == [inner]
  {
    ExecStands(Run(stage, Body([Nested(Run(inner, Body([], CutOff)))], Finished(status))), t, t.active, []);
    TimerWithin(stage, inner, status, FloorOf(t.active));
  }

  lemma TimerWithin(stage: string, inner: string, status: Status, floor: Floor)
    requires inner != stage
    ensures Within(Run(stage, Body([Nested(Run(inner, Body([], CutOff)))], Finished(status))), floor, [])
            == Some([inner])
  {
    var cut := Run(inner, Body([], CutOff));
    var begun := BeginWithin(floor, [], stage);
    CutWithin(cut, floor, begun);
    if begun == [] {
      assert begun + [inner] == [inner];
    } else {
      assert begun + [inner] == [stage, inner] && Init([stage, inner]) == [stage] && Init([stage]) == [];
      assert DropLast([stage, inner], stage) == DropLast([stage], stage) + [inner] == [inner];
    }
  }

  lemma CutWithin(cut: Run, floor: Floor, own: seq<string>)
    requires cut.fate == Body([], CutOff) && OwnTop(floor, own) != Some(cut.stage)
    ensures AllWithin([Nested(cut)], floor, own) == Some(own + [cut.stage])
  {
    assert Init([Nested(cut)]) == [] && Last([Nested(cut)]) == Nested(cut);
    assert AllWithin([], floor, own) == Some(own);
    assert Within(cut, floor, own) == Some(own + [cut.stage]);
  }
}
