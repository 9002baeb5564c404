/** Theorems about whole runs of the event buffer. */
module BufferRuns {
  import opened WordArithmetic
  import opened TimeOrder
  import opened EventBuffer
  import opened DrainFacts
  import opened BufferOrder

  // ------------------------------------------------------------ what a run received

  ghost function SamplesIn(ops: seq<Op>): seq<Sample> {
    if ops == [] then []
    else SamplesIn(ops[..|ops| - 1]) + (if ops[|ops| - 1].BufferSample? then [ops[|ops| - 1].sample] else [])
  }

  ghost function MmapsIn(ops: seq<Op>): seq<Mmap> {
    if ops == [] then []
    else MmapsIn(ops[..|ops| - 1]) + (if ops[|ops| - 1].BufferMmap? then [ops[|ops| - 1].mmap] else [])
  }

  ghost function TasksIn(ops: seq<Op>): seq<Task> {
    if ops == [] then []
    else TasksIn(ops[..|ops| - 1]) + (if ops[|ops| - 1].BufferTask? then [ops[|ops| - 1].task] else [])
  }

  /** A new unwinder with some configured buffer sizes. */
  ghost predicate Fresh(s: Unwind) {
    && s == INITIAL.(lastTarget := s.lastTarget, maxTarget := s.maxTarget, target := s.target)
    && s.target <= s.maxTarget
  }

  ghost function BufferedBytes(s: Unwind): nat {
    TotalSize(s.samples) + TotalSize(s.mmaps) + TotalSize(s.tasks)
  }

  ghost function SizeOf(op: Op): nat {
    match op
    case BufferSample(e) => e.size
    case BufferMmap(e) => e.size
    case BufferTask(e) => e.size
    case _ => 0
  }

  ghost predicate Buffers(op: Op) {
    op.BufferSample? || op.BufferMmap? || op.BufferTask?
  }

  /** The byte counter has room for the event, and no event is empty. */
  ghost predicate Fits(s: Unwind, op: Op) {
    Buffers(op) ==> 0 < SizeOf(op) && BufferedBytes(s) + SizeOf(op) < TWO_32
  }

  /** A run in which the byte counter never overflows. */
  ghost predicate FittingRun(init: Unwind, ops: seq<Op>) {
    ops == [] ||
    (FittingRun(init, ops[..|ops| - 1]) && Fits(Run(init, ops[..|ops| - 1]), ops[|ops| - 1]))
  }

  // ------------------------------------------------------------ conservation

  /** Dispatched and buffered events together are the received ones, each exactly once and
      with equal times in order of arrival; the counter is the buffered bytes modulo 2^32. */
  ghost predicate Conserves(s: Unwind, samples: seq<Sample>, mmaps: seq<Mmap>, tasks: seq<Task>) {
    && SameOrder(SamplesOf(s.log) + s.samples, samples)
    && SameOrder(MmapsOf(s.log) + s.mmaps, mmaps)
    && SameOrder(TasksOf(s.log) + s.tasks, tasks)
    && s.size == Wrap32(BufferedBytes(s))
  }

  lemma SameOrderReflexive<T>(x: seq<Timed<T>>)
    ensures SameOrder(x, x)
  {
  }

  /** Sorting the buffer and moving a front of it to the log changes no per-time order. */
  lemma SortAndTake<T>(logged: seq<Timed<T>>, buffer: seq<Timed<T>>, rest: seq<Timed<T>>, logged': seq<Timed<T>>,
                       received: seq<Timed<T>>)
    requires SameOrder(logged + buffer, received)
    requires TakenFrom(StableSort(buffer), rest, logged, logged')
    ensures SameOrder(logged' + rest, received)
    ensures logged' + rest == logged + StableSort(buffer)
  {
    hide StableSort, TotalSize, SameOrder, Sorted;
    StableSortFacts(buffer);
    var sorted := StableSort(buffer);
    assert sorted == Taken(sorted, rest) + rest;
    assert logged' + rest == logged + sorted;
    SameOrderReflexive(logged);
    SameOrderConcat(logged, logged, sorted, buffer);
    SameOrderTransitive(logged' + rest, logged + buffer, received);
  }

  lemma FlushFields(s: Unwind, desired: u32)
    ensures var r, (d, violates) := Flush(s, desired), Drained(s, desired);
      && r.samples == d.samples && r.mmaps == d.mmaps && r.tasks == d.tasks
      && r.size == d.size && r.lastFlushMaxTime == d.lastFlushMaxTime && r.log == d.log
      && r.violations == s.violations + (if violates then 1 else 0)
      && r.tracePoints == s.tracePoints
  {
  }

  lemma StartIsAccounted(s: Unwind)
    requires s.size == Wrap32(BufferedBytes(s))
    ensures Accounted(StartDrain(s)) && Bytes(StartDrain(s)) == BufferedBytes(s)
  {
    StableSortFacts(s.samples);
    StableSortFacts(s.mmaps);
    StableSortFacts(s.tasks);
  }

  lemma FlushConserves(s: Unwind, desired: u32, samples: seq<Sample>, mmaps: seq<Mmap>, tasks: seq<Task>)
    requires Conserves(s, samples, mmaps, tasks)
    ensures Conserves(Flush(s, desired), samples, mmaps, tasks)
  {
    hide Flush, Drained, StartDrain;
    FlushFields(s, desired);
    StartIsAccounted(s);
    FlushIsFaithful(s, desired);
    DrainConserves(s, Drained(s, desired).0, samples, mmaps, tasks);
  }

  lemma DrainConserves(s: Unwind, d: Drain, samples: seq<Sample>, mmaps: seq<Mmap>, tasks: seq<Task>)
    requires Conserves(s, samples, mmaps, tasks) && Since(StartDrain(s), d)
    ensures SameOrder(SamplesOf(d.log) + d.samples, samples)
    ensures SameOrder(MmapsOf(d.log) + d.mmaps, mmaps)
    ensures SameOrder(TasksOf(d.log) + d.tasks, tasks)
  {
    SortAndTake(SamplesOf(s.log), s.samples, d.samples, SamplesOf(d.log), samples);
    SortAndTake(MmapsOf(s.log), s.mmaps, d.mmaps, MmapsOf(d.log), mmaps);
    SortAndTake(TasksOf(s.log), s.tasks, d.tasks, TasksOf(d.log), tasks);
  }

  lemma AppendOne<T>(logged: seq<Timed<T>>, buffer: seq<Timed<T>>, e: Timed<T>, received: seq<Timed<T>>)
    requires SameOrder(logged + buffer, received)
    ensures SameOrder(logged + (buffer + [e]), received + [e])
    ensures TotalSize(buffer + [e]) == TotalSize(buffer) + e.size
  {
    SameOrderReflexive([e]);
    SameOrderConcat(logged + buffer, received, [e], [e]);
    assert logged + (buffer + [e]) == logged + buffer + [e];
    TotalSizeConcat(buffer, [e]);
    assert TotalSize([e]) == e.size;
  }

  lemma AppendConserves(s: Unwind, op: Op, samples: seq<Sample>, mmaps: seq<Mmap>, tasks: seq<Task>)
    requires Conserves(s, samples, mmaps, tasks) && Buffers(op)
    ensures BufferedBytes(Append(s, op)) == BufferedBytes(s) + SizeOf(op)
    ensures match op
      case BufferSample(e) => Conserves(Append(s, op), samples + [e], mmaps, tasks)
      case BufferMmap(e) => Conserves(Append(s, op), samples, mmaps + [e], tasks)
      case BufferTask(e) => Conserves(Append(s, op), samples, mmaps, tasks + [e])
  {
    Wrap32Sum(BufferedBytes(s), SizeOf(op));
    match op
    case BufferSample(e) => AppendOne(SamplesOf(s.log), s.samples, e, samples);
    case BufferMmap(e) => AppendOne(MmapsOf(s.log), s.mmaps, e, mmaps);
    case BufferTask(e) => AppendOne(TasksOf(s.log), s.tasks, e, tasks);
  }

  lemma FlushIfFullConserves(s: Unwind, samples: seq<Sample>, mmaps: seq<Mmap>, tasks: seq<Task>)
    requires Conserves(s, samples, mmaps, tasks)
    ensures Conserves(FlushIfFull(s), samples, mmaps, tasks)
  {
    FlushConserves(s, s.target / 2, samples, mmaps, tasks);
  }

  lemma FinishedRoundConserves(s: Unwind, samples: seq<Sample>, mmaps: seq<Mmap>, tasks: seq<Task>)
    requires Conserves(s, samples, mmaps, tasks)
    ensures Conserves(FinishedRound(s), samples, mmaps, tasks)
  {
    FlushConserves(s, s.size / 2, samples, mmaps, tasks);
  }

  lemma ReceivedAppend(ops: seq<Op>)
    requires ops != []
    ensures var front, op := ops[..|ops| - 1], ops[|ops| - 1];
      && SamplesIn(ops) == (if op.BufferSample? then SamplesIn(front) + [op.sample] else SamplesIn(front))
      && MmapsIn(ops) == (if op.BufferMmap? then MmapsIn(front) + [op.mmap] else MmapsIn(front))
      && TasksIn(ops) == (if op.BufferTask? then TasksIn(front) + [op.task] else TasksIn(front))
  {
  }

  lemma InitialConserves(init: Unwind)
    requires Fresh(init)
    ensures Conserves(init, [], [], [])
  {
    assert [] + init.samples == [] && [] + init.mmaps == [] && [] + init.tasks == [];
  }

  lemma SettersConserve(s: Unwind, samples: seq<Sample>, mmaps: seq<Mmap>, tasks: seq<Task>)
    requires Conserves(s, samples, mmaps, tasks)
    ensures forall tp, isNew :: Conserves(AddAttributes(s, tp, isNew), samples, mmaps, tasks)
    ensures forall auto :: Conserves(ReadFeatures(s, auto), samples, mmaps, tasks)
  {
  }

  /** In every run whatsoever, violating or not: every received event is either still
      buffered or was dispatched exactly once, events of equal time stay in order of arrival,
      and the byte counter is the buffered bytes modulo 2^32. */
  lemma {:induction false} RunConserves(init: Unwind, ops: seq<Op>)
    requires Fresh(init)
    ensures Conserves(Run(init, ops), SamplesIn(ops), MmapsIn(ops), TasksIn(ops))
    decreases |ops|
  {
    hide Conserves, FlushIfFull, FinishedRound, Flush, Append;
    if ops == [] {
      InitialConserves(init);
    } else {
      var front, op := ops[..|ops| - 1], ops[|ops| - 1];
      var s := Run(init, front);
      var samples, mmaps, tasks := SamplesIn(front), MmapsIn(front), TasksIn(front);
      RunConserves(init, front);
      ReceivedAppend(ops);
      if Buffers(op) {
        AppendConserves(s, op, samples, mmaps, tasks);
        FlushIfFullConserves(Append(s, op), SamplesIn(ops), MmapsIn(ops), TasksIn(ops));
      } else {
        FinishedRoundConserves(s, samples, mmaps, tasks);
        FlushConserves(FinishedRound(s), 0, samples, mmaps, tasks);
        SettersConserve(s, samples, mmaps, tasks);
      }
    }
  }

  /** Read as multisets: nothing is lost and nothing is invented. */
  lemma RunKeepsEvents(init: Unwind, ops: seq<Op>)
    requires Fresh(init)
    ensures var s := Run(init, ops);
      && multiset(SamplesOf(s.log)) + multiset(s.samples) == multiset(SamplesIn(ops))
      && multiset(MmapsOf(s.log)) + multiset(s.mmaps) == multiset(MmapsIn(ops))
      && multiset(TasksOf(s.log)) + multiset(s.tasks) == multiset(TasksIn(ops))
  {
    RunConserves(init, ops);
    var s := Run(init, ops);
    SameOrderKeepsEvents(SamplesOf(s.log) + s.samples, SamplesIn(ops));
    SameOrderKeepsEvents(MmapsOf(s.log) + s.mmaps, MmapsIn(ops));
    SameOrderKeepsEvents(TasksOf(s.log) + s.tasks, TasksIn(ops));
  }

  // ------------------------------------------------------------ the byte counter without overflow

  ghost predicate PositiveSizes(s: Unwind) {
    AllSizesPositive(s.samples) && AllSizesPositive(s.mmaps) && AllSizesPositive(s.tasks)
  }

  /** The counter is exactly the buffered bytes, so no subtraction ever underflows. */
  ghost predicate ExactSize(s: Unwind) {
    s.size == BufferedBytes(s) && PositiveSizes(s)
  }

  lemma RestPositive<T>(buffer: seq<Timed<T>>, rest: seq<Timed<T>>)
    requires AllSizesPositive(buffer)
    requires |rest| <= |buffer| && StableSort(buffer)[|buffer| - |rest|..] == rest
    ensures AllSizesPositive(rest) && TotalSize(rest) <= TotalSize(buffer)
  {
    StableSortFacts(buffer);
    var sorted := StableSort(buffer);
    SameOrderKeepsEvents(sorted, buffer);
    assert sorted == Taken(sorted, rest) + rest;
    TotalSizeConcat(Taken(sorted, rest), rest);
    forall i | 0 <= i < |rest|
      ensures 0 < rest[i].size
    {
      assert sorted[|sorted| - |rest| + i] in multiset(sorted);
      assert rest[i] in multiset(buffer);
    }
  }

  lemma FlushExact(s: Unwind, desired: u32)
    requires ExactSize(s)
    ensures ExactSize(Flush(s, desired)) && BufferedBytes(Flush(s, desired)) <= BufferedBytes(s)
  {
    hide Flush, Drained, StartDrain, ExactSize, Since, Accounted;
    FlushFields(s, desired);
    DrainAccounted(s, desired);
    DrainExact(s, Drained(s, desired).0);
    ExactFields(s, Flush(s, desired), Drained(s, desired).0);
  }

  lemma DrainAccounted(s: Unwind, desired: u32)
    requires ExactSize(s)
    ensures Since(StartDrain(s), Drained(s, desired).0) && Accounted(Drained(s, desired).0)
  {
    hide Drained, StartDrain, Since, Accounted, AllSorted, Faithful;
    StartIsAccounted(s);
    FlushIsFaithful(s, desired);
  }

  lemma ExactFields(s: Unwind, r: Unwind, d: Drain)
    requires r.samples == d.samples && r.mmaps == d.mmaps && r.tasks == d.tasks && r.size == d.size == Bytes(d)
    requires AllSizesPositive(d.samples) && AllSizesPositive(d.mmaps) && AllSizesPositive(d.tasks)
    ensures ExactSize(r) && BufferedBytes(r) == Bytes(d)
  {
  }

  lemma DrainExact(s: Unwind, d: Drain)
    requires ExactSize(s) && Since(StartDrain(s), d) && Accounted(d)
    ensures d.size == Bytes(d) && Bytes(d) <= BufferedBytes(s)
    ensures AllSizesPositive(d.samples) && AllSizesPositive(d.mmaps) && AllSizesPositive(d.tasks)
  {
    RestPositive(s.samples, d.samples);
    RestPositive(s.mmaps, d.mmaps);
    RestPositive(s.tasks, d.tasks);
  }

  lemma AppendPositive<T>(buffer: seq<Timed<T>>, e: Timed<T>)
    requires AllSizesPositive(buffer) && 0 < e.size
    ensures AllSizesPositive(buffer + [e])
    ensures TotalSize(buffer + [e]) == TotalSize(buffer) + e.size
  {
    TotalSizeConcat(buffer, [e]);
    assert TotalSize([e]) == e.size;
  }

  lemma AppendExact(s: Unwind, op: Op)
    requires ExactSize(s) && Buffers(op) && Fits(s, op)
    ensures ExactSize(Append(s, op)) && Append(s, op).size > 0
    ensures Append(s, op).log == s.log && Append(s, op).lastFlushMaxTime == s.lastFlushMaxTime
    ensures Append(s, op).violations == s.violations
  {
    match op
    case BufferSample(e) => AppendPositive(s.samples, e);
    case BufferMmap(e) => AppendPositive(s.mmaps, e);
    case BufferTask(e) => AppendPositive(s.tasks, e);
  }

  lemma StepExact(s: Unwind, op: Op)
    requires ExactSize(s) && Fits(s, op)
    ensures ExactSize(Step(s, op))
  {
    hide Flush, Append, ExactSize;
    if Buffers(op) {
      AppendExact(s, op);
      FlushExact(Append(s, op), Append(s, op).target / 2);
    } else {
      FlushExact(s, s.size / 2);
      SettersExact(s);
      FlushExact(FinishedRound(s), 0);
    }
  }

  lemma SettersExact(s: Unwind)
    requires ExactSize(s)
    ensures ExactSize(SetTarget(s, 0)) && ExactSize(SetTarget(s, s.lastTarget))
    ensures forall tp, isNew :: ExactSize(AddAttributes(s, tp, isNew))
  {
  }

  /** In every run without counter overflow the counter is exactly the buffered bytes. */
  lemma {:induction false} RunExact(init: Unwind, ops: seq<Op>)
    requires Fresh(init) && FittingRun(init, ops)
    ensures ExactSize(Run(init, ops))
    decreases |ops|
  {
    if ops != [] {
      RunExact(init, ops[..|ops| - 1]);
      StepExact(Run(init, ops[..|ops| - 1]), ops[|ops| - 1]);
    }
  }

  /** A flush that sees no violation reaches the desired size or leaves only mappings. */
  lemma FlushReachesTarget(s: Unwind, desired: u32)
    requires !Drained(s, desired).1
    ensures var r := Flush(s, desired);
      r.size <= desired || (r.samples == [] && r.tasks == [])
  {
    var start := StartDrain(s);
    StartFacts(s);
    if MmapsViolate(s) {
      ViolationStays(start, desired);
    }
    SampleLoopStops(start, desired);
    SampleLoopFacts(start, start, 0, desired, false);
    TrailingTasksFacts(start, SampleLoop(start, desired, false).0, desired);
  }

  lemma {:induction false} SampleLoopStops(d: Drain, desired: u32)
    requires !SampleLoop(d, desired, false).1
    ensures var r := SampleLoop(d, desired, false).0;
      r.size <= desired || r.samples == []
    decreases |d.samples|
  {
    if d.size > desired && d.samples != [] {
      if d.samples[0].time < d.lastFlushMaxTime {
        ViolationStays(DispatchSample(d), desired);
      } else {
        SampleLoopStops(DispatchSample(d.(lastFlushMaxTime := d.samples[0].time)), desired);
      }
    }
  }

  // ------------------------------------------------------------ runs without violation

  /** Every flush of a run starts with something to drain, or with nothing at all. */
  predicate WorthFlushing(s: Unwind, desired: u32) {
    s.size > desired || s.samples == []
  }

  lemma PositiveSize<T>(s: seq<Timed<T>>)
    requires AllSizesPositive(s) && s != []
    ensures TotalSize(s) > 0
  {
  }

  lemma HalfIsWorthFlushing(s: Unwind)
    requires ExactSize(s)
    ensures WorthFlushing(s, s.size / 2) && WorthFlushing(s, 0)
  {
    if s.samples != [] {
      PositiveSize(s.samples);
    }
  }

  lemma FlushCalm(s: Unwind, desired: u32)
    requires Calm(s) && WorthFlushing(s, desired) && Flush(s, desired).violations == s.violations
    ensures Calm(Flush(s, desired)) && InOrder(Drained(s, desired).0)
  {
    FlushFields(s, desired);
    FlushInOrder(s, desired);
  }

  lemma ViolationsGrow(s: Unwind, op: Op)
    ensures s.violations <= Step(s, op).violations
    ensures s.violations <= FinishedRound(s).violations
  {
    hide Drained, Flush, Append;
    FlushFields(s, s.size / 2);
    FlushFields(FinishedRound(s), 0);
    if Buffers(op) {
      FlushFields(Append(s, op), Append(s, op).target / 2);
      AppendViolations(s, op);
    }
  }

  lemma AppendViolations(s: Unwind, op: Op)
    requires Buffers(op)
    ensures Append(s, op).violations == s.violations && Append(s, op).log == s.log
    ensures Append(s, op).lastFlushMaxTime == s.lastFlushMaxTime && Append(s, op).target == s.target
  {
  }

  lemma StepCalm(s: Unwind, op: Op)
    requires Calm(s) && ExactSize(s) && Fits(s, op) && Step(s, op).violations == s.violations
    ensures Calm(Step(s, op))
  {
    hide Drained, Flush, Append, ExactSize;
    ViolationsGrow(s, op);
    if Buffers(op) {
      var a := Append(s, op);
      AppendViolations(s, op);
      AppendExact(s, op);
      if a.target != 0 && a.size > a.target {
        FlushCalm(a, a.target / 2);
      }
    } else {
      FinishedRoundCalm(s, op);
    }
  }

  lemma FinishedRoundCalm(s: Unwind, op: Op)
    requires Calm(s) && ExactSize(s) && !Buffers(op) && Step(s, op).violations == s.violations
    ensures Calm(Step(s, op))
    ensures FinishedRound(s).violations == s.violations || !(op.RoundFinished? || op.Finalized?)
    ensures op.RoundFinished? || op.Finalized? ==> Calm(FinishedRound(s)) && ExactSize(FinishedRound(s))
  {
    hide Drained, Flush, ExactSize;
    HalfIsWorthFlushing(s);
    FlushExact(s, s.size / 2);
    SettersExact(s);
    var r := FinishedRound(s);
    FlushFields(r, 0);
    FlushFields(s, s.size / 2);
    if op.RoundFinished? || op.Finalized? {
      if s.target == 0 {
        FlushCalm(s, s.size / 2);
      }
      if op.Finalized? {
        HalfIsWorthFlushing(r);
        FlushCalm(r, 0);
      }
    }
  }

  /** While no violation was seen, the log of registrations and analyses never steps back in
      time, across all flushes. */
  lemma {:induction false} RunIsChronological(init: Unwind, ops: seq<Op>)
    requires Fresh(init) && FittingRun(init, ops) && Run(init, ops).violations == 0
    ensures Calm(Run(init, ops))
    decreases |ops|
  {
    if ops != [] {
      var front, op := ops[..|ops| - 1], ops[|ops| - 1];
      ViolationsGrow(Run(init, front), op);
      RunIsChronological(init, front);
      RunExact(init, front);
      StepCalm(Run(init, front), op);
    }
  }

  /** Whether an operation ends with a flush. */
  predicate EndsWithFlush(s: Unwind, op: Op) {
    if op.BufferSample? || op.BufferMmap? || op.BufferTask? then
      Append(s, op).target != 0 && Append(s, op).size > Append(s, op).target
    else op.Finalized? || (op.RoundFinished? && s.target == 0)
  }

  /** The state and the desired size of the flush an operation ends with. */
  function LastFlush(s: Unwind, op: Op): (Unwind, u32)
    requires EndsWithFlush(s, op)
  {
    if op.RoundFinished? then (s, s.size / 2)
    else if op.Finalized? then (FinishedRound(s), 0)
    else (Append(s, op), Append(s, op).target / 2)
  }

  lemma LastFlushFacts(s: Unwind, op: Op)
    requires Calm(s) && ExactSize(s) && Fits(s, op) && EndsWithFlush(s, op)
    requires Step(s, op).violations == s.violations
    ensures var (b, desired) := LastFlush(s, op);
      && Step(s, op) == Flush(b, desired)
      && Calm(b) && WorthFlushing(b, desired)
      && b.violations == s.violations
      && InOrder(Drained(b, desired).0)
  {
    hide Drained, Flush, Append, ExactSize, FinishedRound;
    ViolationsGrow(s, op);
    if Buffers(op) {
      AppendViolations(s, op);
      AppendExact(s, op);
    } else {
      FinishedRoundCalm(s, op);
      HalfIsWorthFlushing(s);
      if op.Finalized? {
        HalfIsWorthFlushing(FinishedRound(s));
      } else {
        FinishedRoundFlushes(s);
      }
    }
    var (b, desired) := LastFlush(s, op);
    FlushFields(b, desired);
    FlushCalm(b, desired);
  }

  lemma FinishedRoundFlushes(s: Unwind)
    requires s.target == 0
    ensures FinishedRound(s) == Flush(s, s.size / 2)
  {
  }

  /** The state before the last operation of a violation-free run. */
  lemma BeforeLast(init: Unwind, ops: seq<Op>)
    requires Fresh(init) && FittingRun(init, ops) && ops != [] && Run(init, ops).violations == 0
    ensures var s := Run(init, ops[..|ops| - 1]);
      && Calm(s) && ExactSize(s) && Fits(s, ops[|ops| - 1])
      && s.violations == 0
  {
    hide Calm, ExactSize, Step;
    var front := ops[..|ops| - 1];
    ViolationsGrow(Run(init, front), ops[|ops| - 1]);
    RunIsChronological(init, front);
    RunExact(init, front);
  }

  lemma JoinSorted<T>(x: seq<Timed<T>>, y: seq<Timed<T>>, t: nat)
    requires Sorted(x) && Sorted(y) && AllAtMost(x, t) && AllAtLeast(y, t)
    ensures Sorted(x + y)
  {
  }

  /** The sort is the only sorted arrangement of what was received. */
  lemma IsOneShotSort<T>(x: seq<Timed<T>>, received: seq<Timed<T>>)
    requires Sorted(x) && SameOrder(x, received)
    ensures x == StableSort(received)
  {
    StableSortFacts(received);
    forall t: nat
      ensures AtTime(x, t) == AtTime(StableSort(received), t)
    {
      assert AtTime(x, t) == AtTime(received, t);
      assert AtTime(StableSort(received), t) == AtTime(received, t);
    }
    SortedUnique(x, StableSort(received));
  }

  /** Incremental flushing is one big sort: after every flush of a violation-free run, the
      dispatched samples followed by the buffered ones are the stable sort of all samples
      received so far, and the same holds for the mappings. */
  lemma IncrementalIsOneShotSort(init: Unwind, ops: seq<Op>)
    requires Fresh(init) && FittingRun(init, ops) && Run(init, ops).violations == 0
    requires ops != [] && EndsWithFlush(Run(init, ops[..|ops| - 1]), ops[|ops| - 1])
    ensures var s := Run(init, ops);
      && SamplesOf(s.log) + s.samples == StableSort(SamplesIn(ops))
      && MmapsOf(s.log) + s.mmaps == StableSort(MmapsIn(ops))
  {
    hide Flush, Step, Drained, Append, EndsWithFlush, FinishedRound;
    var before, op := Run(init, ops[..|ops| - 1]), ops[|ops| - 1];
    BeforeLast(init, ops);
    LastFlushFacts(before, op);
    var (b, desired) := LastFlush(before, op);
    FlushFields(b, desired);
    var d, s := Drained(b, desired).0, Run(init, ops);
    ChronologicalParts(d.log);
    JoinSorted(SamplesOf(d.log), d.samples, Latest(d.log));
    JoinSorted(MmapsOf(d.log), d.mmaps, Latest(d.log));
    RunConserves(init, ops);
    IsOneShotSort(SamplesOf(s.log) + s.samples, SamplesIn(ops));
    IsOneShotSort(MmapsOf(s.log) + s.mmaps, MmapsIn(ops));
  }

  // ------------------------------------------------------------ what a sample has seen

  lemma {:induction false} ChronologicalPrefix(log: seq<Entry>, i: nat)
    requires Chronological(log) && i <= |log|
    ensures Chronological(log[..i])
    ensures i < |log| && IsKeyed(log[i]) ==> Latest(log[..i]) <= KeyTime(log[i])
    decreases |log| - i
  {
    if i < |log| {
      ChronologicalPrefix(log, i + 1);
      assert log[..i + 1][..i] == log[..i];
    } else {
      assert log[..i] == log;
    }
  }

  lemma {:induction false} LatestMonotone(log: seq<Entry>, i: nat)
    requires i <= |log|
    ensures Latest(log[..i]) <= Latest(log)
    decreases |log|
  {
    if i < |log| {
      LatestMonotone(log[..|log| - 1], i);
      assert log[..|log| - 1][..i] == log[..i];
    } else {
      assert log[..i] == log;
    }
  }

  lemma {:induction false} UpToConcat<T>(x: seq<Timed<T>>, y: seq<Timed<T>>, t: nat)
    requires AllAtMost(x, t)
    ensures UpTo(x + y, t) == x + UpTo(y, t)
  {
    if x == [] {
      assert x + y == y;
    } else {
      assert (x + y)[1..] == x[1..] + y;
      UpToConcat(x[1..], y, t);
    }
  }

  /** Whether every sample analysed from position `from` on has seen exactly the received
      mappings up to its own time, in stable time order. */
  ghost predicate SeesExactMmaps(log: seq<Entry>, from: nat, received: seq<Mmap>) {
    forall i: nat :: from <= i < |log| && log[i].Analyzed? ==>
      MmapsOf(log[..i]) == UpTo(StableSort(received), log[i].sample.time)
  }

  lemma SortedBehindLog(s: Unwind, received: seq<Mmap>)
    requires Calm(s) && !MmapsViolate(s)
    requires SameOrder(MmapsOf(s.log) + s.mmaps, received)
    ensures MmapsOf(s.log) + StableSort(s.mmaps) == StableSort(received)
  {
    ChronologicalParts(s.log);
    StableSortFacts(s.mmaps);
    var sorted := StableSort(s.mmaps);
    SortedFrom(sorted, s.lastFlushMaxTime);
    JoinSorted(MmapsOf(s.log), sorted, Latest(s.log));
    SameOrderReflexive(MmapsOf(s.log));
    SameOrderConcat(MmapsOf(s.log), MmapsOf(s.log), sorted, s.mmaps);
    SameOrderTransitive(MmapsOf(s.log) + sorted, MmapsOf(s.log) + s.mmaps, received);
    IsOneShotSort(MmapsOf(s.log) + sorted, received);
  }

  lemma NoViolationNoMmapViolation(s: Unwind, desired: u32)
    requires !Drained(s, desired).1
    ensures !MmapsViolate(s)
  {
    if MmapsViolate(s) {
      ViolationStays(StartDrain(s), desired);
    }
  }

  lemma FlushSeesExactMmaps(s: Unwind, desired: u32, received: seq<Mmap>)
    requires Calm(s) && !Drained(s, desired).1 && InOrder(Drained(s, desired).0)
    requires SameOrder(MmapsOf(s.log) + s.mmaps, received)
    ensures s.log <= Flush(s, desired).log
    ensures SeesExactMmaps(Flush(s, desired).log, |s.log|, received)
  {
    hide Flush, Drained, StartDrain, StableSort, UpTo, Faithful, InOrder;
    FlushFields(s, desired);
    FlushIsFaithful(s, desired);
    NoViolationNoMmapViolation(s, desired);
    SortedBehindLog(s, received);
    var d := Drained(s, desired).0;
    StartMmaps(s);
    InOrderLog(d);
    forall i: nat | |s.log| <= i < |d.log| && d.log[i].Analyzed?
      ensures MmapsOf(d.log[..i]) == UpTo(StableSort(received), d.log[i].sample.time)
    {
      SampleFaithful(StartDrain(s), d, i);
      SampleIsLater(s, d.log, i);
      UpToConcat(MmapsOf(s.log), StableSort(s.mmaps), d.log[i].sample.time);
    }
  }

  lemma StartMmaps(s: Unwind)
    ensures StartDrain(s).log == s.log && StartDrain(s).mmaps == StableSort(s.mmaps)
  {
  }

  lemma InOrderLog(d: Drain)
    requires InOrder(d)
    ensures Chronological(d.log)
  {
  }

  lemma SampleFaithful(start: Drain, d: Drain, i: nat)
    requires Faithful(start, d) && |start.log| <= i < |d.log| && d.log[i].Analyzed?
    ensures MmapsOf(d.log[..i]) == MmapsOf(start.log) + UpTo(start.mmaps, d.log[i].sample.time)
  {
    assert EntryFaithful(start, d.log, i);
  }

  /** What was logged before a sample is not later than it. */
  lemma SampleIsLater(s: Unwind, log: seq<Entry>, i: nat)
    requires Calm(s) && Chronological(log) && s.log <= log && |s.log| <= i < |log| && log[i].Analyzed?
    ensures AllAtMost(MmapsOf(s.log), log[i].sample.time)
  {
    hide Chronological, Latest;
    ChronologicalPrefix(log, i);
    LatestMonotone(log[..i], |s.log|);
    assert log[..i][..|s.log|] == s.log;
    ChronologicalParts(s.log);
  }

  /** Whatever operation a violation-free run ends with: each sample it analyses has been
      preceded by exactly those mappings received so far whose time is at most its own, in
      stable time order. */
  lemma SamplesSeeExactMmaps(init: Unwind, ops: seq<Op>)
    requires Fresh(init) && FittingRun(init, ops) && ops != [] && Run(init, ops).violations == 0
    ensures var before := Run(init, ops[..|ops| - 1]);
      && before.log <= Run(init, ops).log
      && SeesExactMmaps(Run(init, ops).log, |before.log|, MmapsIn(ops))
  {
    hide ExactSize, Drained, Flush, Append, FinishedRound, EndsWithFlush;
    var front, op := ops[..|ops| - 1], ops[|ops| - 1];
    var before := Run(init, front);
    BeforeLast(init, ops);
    RunConserves(init, front);
    ReceivedAppend(ops);
    if Buffers(op) {
      var a := Append(before, op);
      AppendViolations(before, op);
      AppendConserves(before, op, SamplesIn(front), MmapsIn(front), TasksIn(front));
      AppendExact(before, op);
      BufferingSees(a, op, MmapsIn(ops));
    } else {
      RoundSees(before, op, MmapsIn(ops));
    }
  }

  lemma BufferingSees(a: Unwind, op: Op, received: seq<Mmap>)
    requires Calm(a) && FlushIfFull(a).violations == a.violations
    requires SameOrder(MmapsOf(a.log) + a.mmaps, received)
    ensures a.log <= FlushIfFull(a).log && SeesExactMmaps(FlushIfFull(a).log, |a.log|, received)
  {
    hide Flush, Drained;
    if a.target != 0 && a.size > a.target {
      FlushFields(a, a.target / 2);
      FlushCalm(a, a.target / 2);
      FlushSeesExactMmaps(a, a.target / 2, received);
    }
  }

  lemma RoundSees(s: Unwind, op: Op, received: seq<Mmap>)
    requires Calm(s) && ExactSize(s) && !Buffers(op) && Step(s, op).violations == s.violations
    requires SameOrder(MmapsOf(s.log) + s.mmaps, received)
    ensures s.log <= Step(s, op).log && SeesExactMmaps(Step(s, op).log, |s.log|, received)
  {
    hide Flush, Drained, Calm, ExactSize;
    FinishedRoundCalm(s, op);
    HalfIsWorthFlushing(s);
    var r := FinishedRound(s);
    if (op.RoundFinished? || op.Finalized?) && s.target == 0 {
      FlushFields(s, s.size / 2);
      FlushCalm(s, s.size / 2);
      FlushSeesExactMmaps(s, s.size / 2, received);
      FlushKeepsReceived(s, s.size / 2, received);
    }
    if op.Finalized? {
      HalfIsWorthFlushing(r);
      FlushFields(r, 0);
      FlushCalm(r, 0);
      FlushSeesExactMmaps(r, 0, received);
      LaterLogKeeps(r.log, Flush(r, 0).log, |s.log|, received);
    }
  }

  lemma FlushKeepsReceived(s: Unwind, desired: u32, received: seq<Mmap>)
    requires SameOrder(MmapsOf(s.log) + s.mmaps, received)
    ensures SameOrder(MmapsOf(Flush(s, desired).log) + Flush(s, desired).mmaps, received)
  {
    hide Flush, Drained;
    FlushFields(s, desired);
    FlushIsFaithful(s, desired);
    SortAndTake(MmapsOf(s.log), s.mmaps, Drained(s, desired).0.mmaps, MmapsOf(Drained(s, desired).0.log), received);
  }

  lemma LaterLogKeeps(log: seq<Entry>, later: seq<Entry>, from: nat, received: seq<Mmap>)
    requires from <= |log| && log <= later
    requires SeesExactMmaps(log, from, received) && SeesExactMmaps(later, |log|, received)
    ensures SeesExactMmaps(later, from, received)
  {
    forall i: nat | from <= i < |later| && later[i].Analyzed?
      ensures MmapsOf(later[..i]) == UpTo(StableSort(received), later[i].sample.time)
    {
      if i < |log| {
        assert later[..i] == log[..i];
      }
    }
  }
}
