/** When the event buffer is flushed, and how far: what each operation on it does, and how its
    sizes move. */
module BufferSteps {
  import opened WordArithmetic
  import opened TimeOrder
  import opened EventBuffer
  import opened BufferRuns
  import opened BufferSizes
  import opened Lifetimes
  import opened TrailingTaskEvents
  import opened FlushEnds

  // ------------------------------------------------------------ received events

  /** The state with the event of an operation in its buffer. */
  ghost predicate Received(s: Unwind, op: Op, r: Unwind) {
    && r.samples == s.samples + (if op.BufferSample? then [op.sample] else [])
    && r.mmaps == s.mmaps + (if op.BufferMmap? then [op.mmap] else [])
    && r.tasks == s.tasks + (if op.BufferTask? then [op.task] else [])
    && r.size == s.size + SizeOf(op)
    && r == s.(samples := r.samples, mmaps := r.mmaps, tasks := r.tasks, size := r.size)
  }

  /** A received event is buffered. If there is a target and more is buffered then, the buffer is
      flushed down to half the target. */
  lemma ReceivesExactly(s: Unwind, op: Op) returns (full: Unwind, n: nat)
    requires ExactSize(s) && Buffers(op) && Fits(s, op)
    ensures Received(s, op, full) && full.target == s.target
    ensures s.target == 0 || full.size <= s.target ==> Step(s, op) == full
    ensures s.target != 0 && full.size > s.target ==>
      && StopsAt(full, 0, n, s.target / 2, Violates(full, s.target / 2))
      && Dispatches(full, Step(s, op), n, s.target / 2) && Counts(full, Step(s, op), s.target / 2)
  {
    hide Flush, StopsAt, Dispatches, Counts, ExactSize, Violates;
    full := Append(s, op);
    AppendExact(s, op);
    ReceivedFull(s, op);
    n := FlushExactly(full, s.target / 2);
  }

  lemma ReceivedFull(s: Unwind, op: Op)
    requires ExactSize(s) && Buffers(op) && Fits(s, op)
    ensures Received(s, op, Append(s, op)) && Append(s, op).target == s.target
  {
    hide TotalSize, AllSizesPositive;
  }

  // ------------------------------------------------------------ finished rounds

  /** At the end of a round a buffer without a target is flushed down to half of what it holds.
      Any other one loses its target, unless there was a violation or there are trace points. */
  lemma RoundExactly(s: Unwind) returns (n: nat)
    requires ExactSize(s)
    ensures s.target != 0 && s.violations == 0 && !s.tracePoints ==>
      Step(s, RoundFinished) == s.(lastTarget := s.target, target := 0)
    ensures s.target != 0 && (s.violations > 0 || s.tracePoints) ==> Step(s, RoundFinished) == s
    ensures s.target == 0 ==>
      && StopsAt(s, 0, n, s.size / 2, Violates(s, s.size / 2))
      && Dispatches(s, Step(s, RoundFinished), n, s.size / 2) && Counts(s, Step(s, RoundFinished), s.size / 2)
  {
    hide Flush, StopsAt, Dispatches, Counts, ExactSize, Violates;
    n := FlushExactly(s, s.size / 2);
  }

  /** The end of a recording is the end of a round, and then everything is flushed. */
  lemma FinalExactly(s: Unwind) returns (n: nat)
    requires ExactSize(s)
    ensures var round := Step(s, RoundFinished);
      && StopsAt(round, 0, n, 0, Violates(round, 0))
      && Dispatches(round, Step(s, Finalized), n, 0) && Counts(round, Step(s, Finalized), 0)
  {
    hide Flush, StopsAt, Dispatches, Counts, ExactSize, Violates;
    FlushExact(s, s.size / 2);
    SettersExact(s);
    n := FlushExactly(FinishedRound(s), 0);
  }

  /** Without a violation, that leaves nothing but mappings behind the last sample. */
  lemma FinalLeaves(s: Unwind)
    requires ExactSize(s) && !Violates(Step(s, RoundFinished), 0)
    ensures var round, r := Step(s, RoundFinished), Step(s, Finalized);
      && r.samples == [] && r.tasks == []
      && r.mmaps == Behind(StableSort(round.mmaps), TimeBefore(round, |Samples(round)|))
  {
    hide Violates, Step, ExactSize, Counts, StopsAt, Dispatches, StableSort, LeftAt, Behind;
    var round := Step(s, RoundFinished);
    var n := FinalExactly(s);
    RoundPositive(s);
    AllDispatched(round, n);
    AllSent(round, Step(s, Finalized), n);
  }

  lemma AllDispatched(s: Unwind, n: nat)
    requires ExactSize(s) && !Violates(s, 0) && StopsAt(s, 0, n, 0, false)
    ensures n == |Samples(s)|
  {
    hide Violates, LeftAt;
    if n < |Samples(s)| {
      PositiveLeft(s, n);
    }
  }

  lemma AllSent(s: Unwind, r: Unwind, n: nat)
    requires ExactSize(s) && !Violates(s, 0) && n == |Samples(s)| && Dispatches(s, r, n, 0)
    ensures r.samples == [] && r.tasks == [] && r.mmaps == Behind(StableSort(s.mmaps), TimeBefore(s, n))
  {
    hide Violates, LeftAt, StableSort, Behind;
    var tasks := TasksBehind(s, n);
    if r.tasks != [] {
      PositiveTasks(s, n, |tasks| - |r.tasks|);
    }
  }

  lemma RoundPositive(s: Unwind)
    requires ExactSize(s)
    ensures ExactSize(Step(s, RoundFinished))
  {
    hide Flush;
    FlushExact(s, s.size / 2);
    SettersExact(s);
  }

  lemma PositiveLeft(s: Unwind, n: nat)
    requires PositiveSizes(s) && n < |Samples(s)|
    ensures LeftAt(s, n) > 0
  {
    SortedPositive(s.samples);
    PositiveRest(Samples(s), n);
  }

  lemma PositiveTasks(s: Unwind, n: nat, k: nat)
    requires PositiveSizes(s) && n <= |Samples(s)| && k < |TasksBehind(s, n)|
    ensures TotalSize(TasksBehind(s, n)[k..]) > 0
  {
    hide StableSort;
    SortedPositive(s.tasks);
    BehindMembers(StableSort(s.tasks), TimeBefore(s, n));
    forall i | 0 <= i < |TasksBehind(s, n)|
      ensures 0 < TasksBehind(s, n)[i].size
    {
      assert TasksBehind(s, n)[i] in TasksBehind(s, n);
    }
    PositiveRest(TasksBehind(s, n), k);
  }

  lemma SortedPositive<T>(x: seq<Timed<T>>)
    requires AllSizesPositive(x)
    ensures AllSizesPositive(StableSort(x))
  {
    RestPositive(x, StableSort(x));
  }

  lemma PositiveRest<T>(x: seq<Timed<T>>, k: nat)
    requires AllSizesPositive(x) && k < |x|
    ensures TotalSize(x[k..]) > 0
  {
  }

  // ------------------------------------------------------------ the sizes

  /** Attributes of a trace point bring back the last target of a buffer without one. */
  lemma AttributesExactly(s: Unwind, tracePoint: bool, isNew: bool)
    ensures var r := Step(s, AttributesAdded(tracePoint, isNew));
      && r.tracePoints == (s.tracePoints || (isNew && tracePoint))
      && r.target == (if tracePoint && s.target == 0 then s.lastTarget else s.target)
      && r.lastTarget == (if tracePoint && s.target == 0 then 0 else s.lastTarget)
      && r.maxTarget == (if tracePoint && s.target == 0 then Max(s.maxTarget, s.lastTarget) else s.maxTarget)
      && r == s.(tracePoints := r.tracePoints, target := r.target, lastTarget := r.lastTarget, maxTarget := r.maxTarget)
  {
  }

  /** The features of a recent enough recording take the target away, unless there was a violation
      or there are trace points. */
  lemma FeaturesExactly(s: Unwind, recent: bool)
    ensures Step(s, FeaturesRead(recent)) ==
      if recent && s.violations == 0 && !s.tracePoints then s.(lastTarget := s.target, target := 0) else s
  {
  }

  /** Setting the maximum lowers the target to it, setting the target raises the maximum to it;
      both keep the last target, and reverting swaps the two. */
  lemma SettersExactly(s: Unwind, size: u32)
    ensures var r := SetMaximum(s, size);
      && r.maxTarget == size && r.target == Min(s.target, size)
      && r.lastTarget == (if r.target == s.target then s.lastTarget else s.target)
      && r == s.(maxTarget := size, target := r.target, lastTarget := r.lastTarget)
    ensures SetTarget(s, size) == s.(target := size, lastTarget := s.target, maxTarget := Max(s.maxTarget, size))
    ensures s.target <= s.maxTarget ==>
      SetTarget(SetTarget(s, size), SetTarget(s, size).lastTarget) ==
        s.(lastTarget := size, maxTarget := Max(s.maxTarget, size))
  {
  }

  /** With trace points and a target there is a target from then on. */
  lemma {:induction false} TracePointsKeepTarget(s: Unwind, ops: seq<Op>)
    requires ExactSize(s) && s.tracePoints && s.target > 0 && s.maxTarget > 0
    requires FittingRun(s, ops)
    ensures var r := Run(s, ops);
      ExactSize(r) && r.tracePoints && r.target > 0 && r.maxTarget > 0
    decreases |ops|
  {
    hide Flush, ExactSize, Step;
    if ops != [] {
      var before, op := Run(s, ops[..|ops| - 1]), ops[|ops| - 1];
      TracePointsKeepTarget(s, ops[..|ops| - 1]);
      StepExact(before, op);
      StepKeepsTarget(before, op);
    }
  }

  lemma StepKeepsTarget(s: Unwind, op: Op)
    requires ExactSize(s) && s.tracePoints && s.target > 0 && s.maxTarget > 0 && Fits(s, op)
    ensures var r := Step(s, op);
      r.tracePoints && r.target > 0 && r.maxTarget > 0
  {
    hide Flush, ExactSize, Drained;
    if Buffers(op) {
      AppendExact(s, op);
      FlushKeepsTargetPositive(Append(s, op), Append(s, op).target / 2);
      FlushSizes(Append(s, op), Append(s, op).target / 2);
    } else {
      FlushKeepsTargetPositive(s, 0);
      FlushSizes(s, 0);
    }
  }

  lemma FlushSizes(s: Unwind, desired: u32)
    requires ExactSize(s)
    ensures Counts(s, Flush(s, desired), desired)
  {
    hide Flush, StopsAt, Dispatches, Counts, ExactSize, Violates;
    var n := FlushExactly(s, desired);
  }

  // ------------------------------------------------------------ the default sizes

  /** With the sizes it starts with, nothing is flushed until more than 32 MiB are buffered. */
  lemma {:induction false} DefaultHolds(ops: seq<Op>)
    requires FittingRun(INITIAL, ops) && (forall op :: op in ops ==> Buffers(op))
    ensures var s := Run(INITIAL, ops);
      ReceivedBytes(ops) <= 32 * 1024 * 1024 ==>
        && s.log == [] && s.size == ReceivedBytes(ops)
        && s.violations == 0 && s.lastFlushMaxTime == 0 && !s.tracePoints
        && s.target == 32 * 1024 * 1024 && s.lastTarget == 1024 * 1024 && s.maxTarget == 1024 * 1024 * 1024
    decreases |ops|
  {
    hide Flush, Step;
    if ops != [] {
      var front, op := ops[..|ops| - 1], ops[|ops| - 1];
      assert op in ops && forall o :: o in front ==> o in ops;
      DefaultHolds(front);
      if ReceivedBytes(ops) <= 32 * 1024 * 1024 {
        HoldsOne(Run(INITIAL, front), op);
      }
    }
  }

  lemma HoldsOne(s: Unwind, op: Op)
    requires Buffers(op) && s.size + SizeOf(op) <= s.target
    ensures var r := Step(s, op);
      && r.log == s.log && r.size == s.size + SizeOf(op)
      && r.violations == s.violations && r.lastFlushMaxTime == s.lastFlushMaxTime && r.tracePoints == s.tracePoints
      && r.target == s.target && r.lastTarget == s.lastTarget && r.maxTarget == s.maxTarget
  {
    hide Flush;
  }

  ghost function ReceivedBytes(ops: seq<Op>): nat {
    if ops == [] then 0 else ReceivedBytes(ops[..|ops| - 1]) + SizeOf(ops[|ops| - 1])
  }
}
