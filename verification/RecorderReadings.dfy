/** What the fetch trace says about the calls made on it: which call finished
    which stage, with what status, and what stage is current. */
module RecorderReadings {

  import opened Wrappers
  import opened Sequences
  import opened StageRecorder

  // ---- One call ----

  /** The call takes the stage at place `i` off the stack: an end that is not
      nested the innermost one of its name, a mark the one on top. */
  predicate Takes(active: seq<Active>, call: Call, i: nat) {
    i < |active|
    && match call
       case Ends(token, _) =>
         !token.nested && active[i].name == token.name && forall j :: i < j < |active| ==> active[j].name != token.name
       case Marks(_) => i == |active| - 1
       case _ => false
  }

  /** A stage taken off gets one record, with the call's status, and is current. */
  lemma TakingRecords(t: Trace, call: Call, i: nat)
    requires Takes(t.active, call, i)
    ensures var after := AfterCall(t, call);
            && after.stages == t.stages + [Record(t.active[i].name, call.status, t.active[i].serial)]
            && after.active == t.active[..i] + t.active[i + 1..]
            && after.current == t.active[i].name && after.pushes == t.pushes
  {
    if call.Ends? {
      LastNamedIsLast(t.active, call.token.name);
    }
  }

  /** A call that takes none records nothing; a start names the current stage,
      and pushes its own unless that is on top. */
  lemma OthersRecordNothing(t: Trace, call: Call)
    requires forall i: nat :: !Takes(t.active, call, i)
    ensures var after := AfterCall(t, call);
            && after.stages == t.stages
            && after.active == t.active + PushedBy(t, call)
            && after.pushes == t.pushes + |PushedBy(t, call)|
            && after.current == if call.Starts? || call.Notes? then call.stage else t.current
  {
    if call.Ends? {
      LastNamedIsLast(t.active, call.token.name);
      var found := LastNamed(t.active, call.token.name);
      if !call.token.nested && found.Some? {
        assert Takes(t.active, call, found.value);
      }
    } else if call.Marks? && t.active != [] {
      assert Takes(t.active, call, |t.active| - 1);
    }
  }

  // ---- Any sequence of calls ----

  /** Call `k` takes that stage off the stack. */
  ghost predicate TakenAt(calls: seq<Call>, k: nat, stage: Active) {
    k < |calls| && exists i: nat :: Takes(TraceAfter(calls[..k]).active, calls[k], i)
                                    && TraceAfter(calls[..k]).active[i] == stage
  }

  ghost predicate Taken(calls: seq<Call>, stage: Active) {
    exists k: nat :: TakenAt(calls, k, stage)
  }

  /** Some call takes the record's stage off, and with the record's status. */
  ghost predicate GivenStatus(calls: seq<Call>, record: Record) {
    exists k: nat :: TakenAt(calls, k, Active(record.name, record.serial)) && calls[k].status == record.status
  }

  lemma TakenInPrefix(calls: seq<Call>, k: nat, stage: Active)
    requires calls != [] && k < |calls| - 1
    ensures TakenAt(Init(calls), k, stage) <==> TakenAt(calls, k, stage)
  {
    assert Init(calls)[..k] == calls[..k];
  }

  lemma TakenStep(calls: seq<Call>, stage: Active)
    requires calls != []
    ensures Taken(calls, stage) <==> Taken(Init(calls), stage) || TakenAt(calls, |calls| - 1, stage)
  {
    if k: nat :| TakenAt(Init(calls), k, stage) {
      TakenInPrefix(calls, k, stage);
    }
    if k: nat :| TakenAt(calls, k, stage) && k < |calls| - 1 {
      TakenInPrefix(calls, k, stage);
    }
  }

  lemma GivenStep(calls: seq<Call>, record: Record)
    requires calls != []
    ensures GivenStatus(calls, record) <==>
            GivenStatus(Init(calls), record)
            || (TakenAt(calls, |calls| - 1, Active(record.name, record.serial)) && Last(calls).status == record.status)
  {
    var stage := Active(record.name, record.serial);
    if k: nat :| TakenAt(Init(calls), k, stage) && Init(calls)[k].status == record.status {
      TakenInPrefix(calls, k, stage);
    }
    if k: nat :| TakenAt(calls, k, stage) && calls[k].status == record.status && k < |calls| - 1 {
      TakenInPrefix(calls, k, stage);
    }
  }

  /** The last call takes what stands at place `i`. */
  lemma LastTakes(calls: seq<Call>, i: nat, stage: Active)
    requires calls != [] && Takes(TraceAfter(Init(calls)).active, Last(calls), i)
    ensures TakenAt(calls, |calls| - 1, stage) <==> TraceAfter(Init(calls)).active[i] == stage
  {
    assert calls[..|calls| - 1] == Init(calls);
    forall j: nat | Takes(TraceAfter(Init(calls)).active, Last(calls), j) ensures j == i {
    }
  }

  lemma LastTakesNone(calls: seq<Call>, stage: Active)
    requires calls != [] && forall i: nat :: !Takes(TraceAfter(Init(calls)).active, Last(calls), i)
    ensures !TakenAt(calls, |calls| - 1, stage)
  {
    assert calls[..|calls| - 1] == Init(calls) && calls[|calls| - 1] == Last(calls);
  }

  /** A record is there exactly if some call took its stage off with that status. */
  lemma {:induction false} RecordsReadTheCalls(calls: seq<Call>, record: Record)
    ensures record in TraceAfter(calls).stages <==> GivenStatus(calls, record)
  {
    if calls != [] {
      RecordsReadTheCalls(Init(calls), record);
      GivenStep(calls, record);
      var t := TraceAfter(Init(calls));
      if i: nat :| Takes(t.active, Last(calls), i) {
        TakingRecords(t, Last(calls), i);
        LastTakes(calls, i, Active(record.name, record.serial));
      } else {
        OthersRecordNothing(t, Last(calls));
        LastTakesNone(calls, Active(record.name, record.serial));
      }
    }
  }

  lemma {:induction false} TakenWasPushed(calls: seq<Call>, stage: Active)
    requires Taken(calls, stage)
    ensures stage.serial < TraceAfter(calls).pushes
  {
    var k: nat :| TakenAt(calls, k, stage);
    TracesAreInOrder(calls[..k]);
    PushesGrow(calls, k);
  }

  lemma {:induction false} PushesGrow(calls: seq<Call>, k: nat)
    requires k <= |calls|
    ensures TraceAfter(calls[..k]).pushes <= TraceAfter(calls).pushes
  {
    if k == |calls| {
      assert calls[..k] == calls;
    } else {
      PushesGrow(Init(calls), k);
      assert Init(calls)[..k] == calls[..k];
      CallAccounts(TraceAfter(Init(calls)), Last(calls));
    }
  }

  lemma RemainsUnlessTaken(active: seq<Active>, i: nat, stage: Active)
    requires i < |active| && forall j, k :: 0 <= j < k < |active| ==> active[j].serial < active[k].serial
    ensures stage in active[..i] + active[i + 1..] <==> stage in active && stage != active[i]
  {
    if stage in active && stage != active[i] {
      var j :| 0 <= j < |active| && active[j] == stage;
      assert (active[..i] + active[i + 1..])[if j < i then j else j - 1] == stage;
    }
  }

  /** A stage is in progress exactly if it was pushed and no call has taken it off. */
  lemma {:induction false} InProgressReadsTheCalls(calls: seq<Call>, stage: Active)
    ensures stage in TraceAfter(calls).active <==> stage in Pushed(calls) && !Taken(calls, stage)
  {
    if calls != [] {
      var t := TraceAfter(Init(calls));
      InProgressReadsTheCalls(Init(calls), stage);
      TakenStep(calls, stage);
      TracesAreInOrder(Init(calls));
      if i: nat :| Takes(t.active, Last(calls), i) {
        TakingRecords(t, Last(calls), i);
        LastTakes(calls, i, stage);
        RemainsUnlessTaken(t.active, i, stage);
      } else {
        OthersRecordNothing(t, Last(calls));
        LastTakesNone(calls, stage);
        if Taken(Init(calls), stage) {
          TakenWasPushed(Init(calls), stage);
        }
      }
    }
  }

  /** What a snapshot says of every stage ever pushed: the status given by the
      call that took it off the stack, or `Started` while none has; and it says
      nothing else. */
  lemma SnapshotReadsTheCalls(calls: seq<Call>, record: Record)
    ensures var stage := Active(record.name, record.serial);
            record in Snapshot(TraceAfter(calls)) <==>
            GivenStatus(calls, record)
            || (stage in Pushed(calls) && !Taken(calls, stage) && record.status.Started?)
  {
    RecordsReadTheCalls(calls, record);
    InProgressReadsTheCalls(calls, Active(record.name, record.serial));
    SnapshotShows(TraceAfter(calls), record);
  }

  lemma SnapshotShows(t: Trace, record: Record)
    ensures record in Snapshot(t) <==>
            record in t.stages || (Active(record.name, record.serial) in t.active && record.status.Started?)
  {
    var going := Snapshot(t)[|t.stages|..];
    assert Snapshot(t) == t.stages + going && |going| == |t.active|;
    if record.status.Started? && Active(record.name, record.serial) in t.active {
      var i :| 0 <= i < |t.active| && t.active[i] == Active(record.name, record.serial);
      assert going[i] == record;
    }
    if record in going {
      var i :| 0 <= i < |going| && going[i] == record;
      assert t.active[i] == Active(record.name, record.serial);
    }
  }

  /** A snapshot shows the finished ones first, then those in progress from the outermost in. */
  lemma SnapshotInOrder(t: Trace)
    ensures |Snapshot(t)| == |t.stages| + |t.active|
    ensures forall i :: 0 <= i < |t.stages| ==> Snapshot(t)[i] == t.stages[i]
    ensures forall i :: 0 <= i < |t.active| ==>
              Snapshot(t)[|t.stages| + i] == Record(t.active[i].name, Started, t.active[i].serial)
  {
    var going := Snapshot(t)[|t.stages|..];
    assert Snapshot(t) == t.stages + going && |going| == |t.active|;
    assert forall i :: 0 <= i < |t.active| ==> going[i] == Record(t.active[i].name, Started, t.active[i].serial);
  }

  /** No stage is taken off twice, so its status is that of one call. */
  lemma {:induction false} TakenOnce(calls: seq<Call>, j: nat, k: nat, stage: Active)
    requires j < k && TakenAt(calls, k, stage)
    ensures !TakenAt(calls, j, stage)
  {
    var before := calls[..k];
    InProgressReadsTheCalls(before, stage);
    if TakenAt(calls, j, stage) {
      assert before[..j] == calls[..j];
      assert TakenAt(before, j, stage);
      assert Taken(before, stage);
    }
  }

  /** The records stand in the order their stages were taken off. */
  lemma {:induction false} RecordsInOrder(calls: seq<Call>, n: nat) returns (k: nat)
    requires n < |TraceAfter(calls).stages|
    ensures var record := TraceAfter(calls).stages[n];
            TakenAt(calls, k, Active(record.name, record.serial)) && calls[k].status == record.status
    ensures n == |TraceAfter(calls[..k]).stages|
  {
    var t := TraceAfter(Init(calls));
    assert calls[..|calls| - 1] == Init(calls);
    if n < |t.stages| {
      k := RecordsInOrder(Init(calls), n);
      assert Init(calls)[..k] == calls[..k];
      StagesGrow(t, Last(calls));
      var record := t.stages[n];
      TakenInPrefix(calls, k, Active(record.name, record.serial));
    } else {
      k := |calls| - 1;
      if i: nat :| Takes(t.active, Last(calls), i) {
        TakingRecords(t, Last(calls), i);
        LastTakes(calls, i, t.active[i]);
      } else {
        OthersRecordNothing(t, Last(calls));
      }
    }
  }

  lemma StagesGrow(t: Trace, call: Call)
    ensures t.stages <= AfterCall(t, call).stages
  {
    if i: nat :| Takes(t.active, call, i) {
      TakingRecords(t, call, i);
    } else {
      OthersRecordNothing(t, call);
    }
  }

  /** The stage the call makes current, if it does: the one it names, or the one it takes off. */
  ghost predicate MakesCurrent(calls: seq<Call>, k: nat, name: string)
    requires k < |calls|
  {
    ((calls[k].Starts? || calls[k].Notes?) && calls[k].stage == name)
    || exists stage: Active :: TakenAt(calls, k, stage) && stage.name == name
  }

  ghost predicate LeavesCurrent(calls: seq<Call>, k: nat)
    requires k < |calls|
  {
    forall name :: !MakesCurrent(calls, k, name)
  }

  ghost predicate LatestCurrent(calls: seq<Call>, name: string) {
    exists k :: 0 <= k < |calls| && MakesCurrent(calls, k, name)
                && forall j :: k < j < |calls| ==> LeavesCurrent(calls, j)
  }

  lemma CurrentInPrefix(calls: seq<Call>, k: nat)
    requires calls != [] && k < |calls| - 1
    ensures forall name :: MakesCurrent(Init(calls), k, name) <==> MakesCurrent(calls, k, name)
    ensures LeavesCurrent(Init(calls), k) <==> LeavesCurrent(calls, k)
  {
    forall stage: Active ensures TakenAt(Init(calls), k, stage) <==> TakenAt(calls, k, stage) {
      TakenInPrefix(calls, k, stage);
    }
  }

  lemma LatestStays(calls: seq<Call>, name: string)
    requires calls != [] && LatestCurrent(Init(calls), name) && LeavesCurrent(calls, |calls| - 1)
    ensures LatestCurrent(calls, name)
  {
    var k :| 0 <= k < |Init(calls)| && MakesCurrent(Init(calls), k, name)
             && forall j :: k < j < |Init(calls)| ==> LeavesCurrent(Init(calls), j);
    CurrentInPrefix(calls, k);
    forall j | k < j < |calls| ensures LeavesCurrent(calls, j) {
      if j < |calls| - 1 {
        CurrentInPrefix(calls, j);
      }
    }
  }

  /** `name` is what the calls made current last, or what stands there at first. */
  ghost predicate IsCurrent(calls: seq<Call>, name: string) {
    LatestCurrent(calls, name) || (name == "start" && forall k :: 0 <= k < |calls| ==> LeavesCurrent(calls, k))
  }

  /** The current stage is the one the latest call made current; "start" if none has. */
  lemma {:induction false} CurrentReadsTheCalls(calls: seq<Call>)
    ensures IsCurrent(calls, TraceAfter(calls).current)
  {
    if calls != [] {
      var t, last := TraceAfter(Init(calls)), |calls| - 1;
      CurrentReadsTheCalls(Init(calls));
      if i: nat :| Takes(t.active, Last(calls), i) {
        TakingRecords(t, Last(calls), i);
        LastTakes(calls, i, t.active[i]);
        assert MakesCurrent(calls, last, TraceAfter(calls).current);
      } else {
        OthersRecordNothing(t, Last(calls));
        if Last(calls).Starts? || Last(calls).Notes? {
          assert MakesCurrent(calls, last, TraceAfter(calls).current);
        } else {
          forall stage: Active ensures !TakenAt(calls, last, stage) {
            LastTakesNone(calls, stage);
          }
          CurrentStays(calls, t.current);
        }
      }
    }
  }

  lemma CurrentStays(calls: seq<Call>, name: string)
    requires calls != [] && LeavesCurrent(calls, |calls| - 1) && IsCurrent(Init(calls), name)
    ensures IsCurrent(calls, name)
  {
    if LatestCurrent(Init(calls), name) {
      LatestStays(calls, name);
    } else {
      forall k | 0 <= k < |calls| ensures LeavesCurrent(calls, k) {
        if k < |calls| - 1 {
          CurrentInPrefix(calls, k);
        }
      }
    }
  }

  // ---- Runs are sequences of calls ----

  /** The calls a run makes, begun on `t`. */
  function CallsOf(run: Run, t: Trace): seq<Call>
    decreases run, 1
  {
    var (begun, token) := Begin(t, run.stage);
    [Starts(run.stage)]
    + match run.fate
      case Late => [Marks(Timeout)]
      case Body(steps, end) => CallsOfAll(steps, begun) + (if end.CutOff? then [] else [Ends(token, end.status)])
  }

  function CallsOfAll(steps: seq<Step>, t: Trace): seq<Call>
    decreases steps, 0
  {
    if steps == [] then [] else CallsOfAll(Init(steps), t) + CallsOfStep(Last(steps), ExecAll(Init(steps), t))
  }

  function CallsOfStep(step: Step, t: Trace): seq<Call>
    decreases step, 2
  {
    match step
    case Nested(run) => CallsOf(run, t)
    case Check(stage, expired) => [Notes(stage)] + (if expired then [Marks(Timeout)] else [])
  }

  function Replay(t: Trace, calls: seq<Call>): Trace {
    if calls == [] then t else AfterCall(Replay(t, Init(calls)), Last(calls))
  }

  lemma {:induction false} ReplayJoins(t: Trace, a: seq<Call>, b: seq<Call>)
    ensures Replay(t, a + b) == Replay(Replay(t, a), b)
    decreases |b|
  {
    if b == [] {
      assert a + b == a;
    } else {
      assert Init(a + b) == a + Init(b) && Last(a + b) == Last(b);
      ReplayJoins(t, a, Init(b));
    }
  }

  lemma ReplayOne(t: Trace, call: Call)
    ensures Replay(t, [call]) == AfterCall(t, call)
  {
    assert Init([call]) == [] && Last([call]) == call;
    assert Replay(t, []) == t;
  }

  lemma ReplayTwo(t: Trace, first: Call, more: seq<Call>)
    ensures Replay(t, [first] + more) == Replay(AfterCall(t, first), more)
  {
    ReplayOne(t, first);
    ReplayJoins(t, [first], more);
  }

  lemma {:induction false} RunReplays(run: Run, t: Trace)
    ensures Replay(t, CallsOf(run, t)) == Exec(run, t)
    decreases run, 1
  {
    var (begun, token) := Begin(t, run.stage);
    match run.fate
    case Late =>
      ReplayTwo(t, Starts(run.stage), [Marks(Timeout)]);
      ReplayOne(begun, Marks(Timeout));
    case Body(steps, end) =>
      var tail := if end.CutOff? then [] else [Ends(token, end.status)];
      ReplayTwo(t, Starts(run.stage), CallsOfAll(steps, begun) + tail);
      ReplayJoins(begun, CallsOfAll(steps, begun), tail);
      StepsReplay(steps, begun);
      if end.Finished? {
        ReplayOne(ExecAll(steps, begun), Ends(token, end.status));
      }
  }

  lemma {:induction false} StepsReplay(steps: seq<Step>, t: Trace)
    ensures Replay(t, CallsOfAll(steps, t)) == ExecAll(steps, t)
    decreases steps, 0
  {
    if steps != [] {
      var before := ExecAll(Init(steps), t);
      StepsReplay(Init(steps), t);
      StepReplays(Last(steps), before);
      ReplayJoins(t, CallsOfAll(Init(steps), t), CallsOfStep(Last(steps), before));
    }
  }

  lemma {:induction false} StepReplays(step: Step, t: Trace)
    ensures Replay(t, CallsOfStep(step, t)) == ExecStep(step, t)
    decreases step, 2
  {
    match step
    case Nested(run) => RunReplays(run, t);
    case Check(stage, expired) =>
      ReplayTwo(t, Notes(stage), if expired then [Marks(Timeout)] else []);
      if expired {
        ReplayOne(t.(current := stage), Marks(Timeout));
      }
  }

  lemma {:induction false} TraceReplays(before: seq<Call>, more: seq<Call>)
    ensures TraceAfter(before + more) == Replay(TraceAfter(before), more)
    decreases |more|
  {
    if more == [] {
      assert before + more == before;
    } else {
      assert Init(before + more) == before + Init(more) && Last(before + more) == Last(more);
      TraceReplays(before, Init(more));
    }
  }

  /** A run leaves what its calls leave, so all that holds of calls holds of runs. */
  lemma RunsAreCalls(before: seq<Call>, run: Run)
    ensures Exec(run, TraceAfter(before)) == TraceAfter(before + CallsOf(run, TraceAfter(before)))
  {
    RunReplays(run, TraceAfter(before));
    TraceReplays(before, CallsOf(run, TraceAfter(before)));
  }

  // ---- The record of a run's own stage ----

  /** No run nested in these steps, however deep, is of that stage. */
  predicate NestsNo(steps: seq<Step>, stage: string)
    decreases steps, 0
  {
    steps == [] || (NestsNo(Init(steps), stage) && StepNestsNo(Last(steps), stage))
  }

  predicate StepNestsNo(step: Step, stage: string)
    decreases step, 2
  {
    step.Nested? ==> RunNestsNo(step.run, stage)
  }

  predicate RunNestsNo(run: Run, stage: string)
    decreases run, 1
  {
    run.stage != stage && (run.fate.Body? ==> NestsNo(run.fate.steps, stage))
  }

  /** The innermost of its name in progress. */
  predicate Stays(t: Trace, p: Active) {
    exists i :: 0 <= i < |t.active| && t.active[i] == p && forall j :: i < j < |t.active| ==> t.active[j].name != p.name
  }

  /** Not charged with the deadline, or charged and so recorded. */
  predicate StaysOrCharged(t: Trace, p: Active) {
    Stays(t, p) || Record(p.name, Timeout, p.serial) in t.stages
  }

  lemma CallKeepsOwn(t: Trace, call: Call, p: Active)
    requires StaysOrCharged(t, p)
    requires call.Starts? ==> call.stage != p.name
    requires call.Ends? ==> call.token.name != p.name
    requires call.Marks? ==> call.status == Timeout
    ensures StaysOrCharged(AfterCall(t, call), p)
  {
    StagesGrow(t, call);
    if Stays(t, p) {
      var i :| 0 <= i < |t.active| && t.active[i] == p && forall j :: i < j < |t.active| ==> t.active[j].name != p.name;
      if k: nat :| Takes(t.active, call, k) {
        TakingRecords(t, call, k);
        if k != i {
          OneOutStays(t, AfterCall(t, call), i, k, p);
        }
      } else {
        OthersRecordNothing(t, call);
        assert AfterCall(t, call).active[i] == p;
      }
    }
  }

  lemma OneOutStays(t: Trace, after: Trace, i: nat, k: nat, p: Active)
    requires i < |t.active| && t.active[i] == p && forall j :: i < j < |t.active| ==> t.active[j].name != p.name
    requires k < |t.active| && k != i && after.active == t.active[..k] + t.active[k + 1..]
    ensures Stays(after, p)
  {
    var place := if i < k then i else i - 1;
    assert after.active[place] == p;
    forall j | place < j < |after.active| ensures after.active[j].name != p.name {
      assert after.active[j] == t.active[if j < k then j else j + 1];
    }
  }

  lemma {:induction false} RunKeepsOwn(run: Run, t: Trace, p: Active)
    requires RunNestsNo(run, p.name) && StaysOrCharged(t, p)
    ensures StaysOrCharged(Exec(run, t), p)
    decreases run, 1
  {
    var (begun, token) := Begin(t, run.stage);
    CallKeepsOwn(t, Starts(run.stage), p);
    match run.fate
    case Late => CallKeepsOwn(begun, Marks(Timeout), p);
    case Body(steps, end) =>
      StepsKeepOwn(steps, begun, p);
      if end.Finished? {
        CallKeepsOwn(ExecAll(steps, begun), Ends(token, end.status), p);
      }
  }

  lemma {:induction false} StepsKeepOwn(steps: seq<Step>, t: Trace, p: Active)
    requires NestsNo(steps, p.name) && StaysOrCharged(t, p)
    ensures StaysOrCharged(ExecAll(steps, t), p)
    decreases steps, 0
  {
    if steps != [] {
      StepsKeepOwn(Init(steps), t, p);
      StepKeepsOwn(Last(steps), ExecAll(Init(steps), t), p);
    }
  }

  lemma {:induction false} StepKeepsOwn(step: Step, t: Trace, p: Active)
    requires StepNestsNo(step, p.name) && StaysOrCharged(t, p)
    ensures StaysOrCharged(ExecStep(step, t), p)
    decreases step, 2
  {
    match step
    case Nested(run) => RunKeepsOwn(run, t, p);
    case Check(stage, expired) =>
      CallKeepsOwn(t, Notes(stage), p);
      if expired {
        CallKeepsOwn(t.(current := stage), Marks(Timeout), p);
      }
  }

  /** How a run's own stage is recorded, if no run nested in it shares its name:
      `Timeout` if the run began too late or a check charged the stage, else the
      run's own end status; and a stage not charged is left in progress only by a
      run cut off. */
  lemma OwnStageIsRecorded(run: Run, t: Trace)
    requires TopName(t.active) != Some(run.stage) && (run.fate.Body? ==> NestsNo(run.fate.steps, run.stage))
    ensures var own := Active(run.stage, t.pushes);
            var timedOut := Record(run.stage, Timeout, t.pushes);
            match run.fate
            case Late => timedOut in Exec(run, t).stages
            case Body(steps, end) =>
              var ran := ExecAll(steps, Begin(t, run.stage).0);
              if !Stays(ran, own) then timedOut in Exec(run, t).stages
              else if end.CutOff? then own in Exec(run, t).active
              else Record(run.stage, end.status, t.pushes) in Exec(run, t).stages && Exec(run, t).current == run.stage
  {
    var own := Active(run.stage, t.pushes);
    var (begun, token) := Begin(t, run.stage);
    assert begun.active[|t.active|] == own && Stays(begun, own);
    match run.fate
    case Late => TakingRecords(begun, Marks(Timeout), |t.active|);
    case Body(steps, end) =>
      StepsKeepOwn(steps, begun, own);
      var ran := ExecAll(steps, begun);
      if end.Finished? {
        StagesGrow(ran, Ends(token, end.status));
        if i :| 0 <= i < |ran.active| && ran.active[i] == own
                && forall j :: i < j < |ran.active| ==> ran.active[j].name != run.stage {
          TakingRecords(ran, Ends(token, end.status), i);
        }
      }
  }

  lemma {:induction false} ChecksLeave(steps: seq<Step>, t: Trace)
    requires forall i :: 0 <= i < |steps| ==> steps[i].Check?
    ensures var after := ExecAll(steps, t);
            if Charges(steps) == 0 then after.active == t.active
            else after.active == [] || (t.active != [] && after.active <= Init(t.active))
  {
    if steps != [] {
      var before := Init(steps);
      assert forall i :: 0 <= i < |before| ==> before[i] == steps[i];
      ChecksLeave(before, t);
      var ran := ExecAll(before, t);
      var noted := ran.(current := Last(steps).stage);
      if Last(steps).expired && ran.active != [] {
        TakingRecords(noted, Marks(Timeout), |ran.active| - 1);
      }
    }
  }

  lemma {:induction false} ChecksNest(steps: seq<Step>, stage: string)
    requires forall i :: 0 <= i < |steps| ==> steps[i].Check?
    ensures NestsNo(steps, stage)
  {
    if steps != [] {
      var before := Init(steps);
      assert forall i :: 0 <= i < |before| ==> before[i] == steps[i];
      ChecksNest(before, stage);
    }
  }

  /** For a run with no run inside it, by its reads of the passed deadline:
      `Timeout` if there was one, else the run's end status. */
  lemma LeafIsRecorded(run: Run, t: Trace)
    requires InOrder(t) && TopName(t.active) != Some(run.stage) && IsLeaf(run)
    ensures var timedOut := Record(run.stage, Timeout, t.pushes);
            match run.fate
            case Late => timedOut in Exec(run, t).stages
            case Body(steps, end) =>
              if Charges(steps) > 0 then timedOut in Exec(run, t).stages
              else if end.CutOff? then Active(run.stage, t.pushes) in Exec(run, t).active
              else Record(run.stage, end.status, t.pushes) in Exec(run, t).stages
  {
    if run.fate.Body? {
      var steps, begun, own := run.fate.steps, Begin(t, run.stage).0, Active(run.stage, t.pushes);
      ChecksNest(steps, run.stage);
      ChecksLeave(steps, begun);
      assert begun.active == t.active + [own] && Init(begun.active) == t.active;
      assert begun.active[|t.active|] == own;
      assert Charges(steps) > 0 ==> forall a :: a in ExecAll(steps, begun).active ==> a in t.active;
    }
    OwnStageIsRecorded(run, t);
  }
}
