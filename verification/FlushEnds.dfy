/** Exactly what a flush dispatches, with and without a time order violation, from the state
    before it. */
module FlushEnds {
  import opened WordArithmetic
  import opened TimeOrder
  import ElfMaps
  import opened EventBuffer
  import opened DrainFacts
  import opened BufferRuns
  import opened Lifetimes
  import opened InTimeRuns
  import opened TrailingTaskEvents

  ghost function Samples(s: Unwind): seq<Sample> {
    StableSort(s.samples)
  }

  /** The time of the last of the first `k` samples, -1 if there is none. */
  ghost function TimeBefore(s: Unwind, k: nat): int
    requires k <= |Samples(s)|
  {
    if k == 0 then -1 else Samples(s)[k - 1].time
  }

  /** The bytes that are left when the first `k` samples are dispatched, with the mappings and
      task events up to them. */
  ghost function LeftAt(s: Unwind, k: nat): nat
    requires k <= |Samples(s)|
  {
    TotalSize(Samples(s)[k..]) + TotalSize(Behind(StableSort(s.mmaps), TimeBefore(s, k)))
    + TotalSize(Behind(StableSort(s.tasks), TimeBefore(s, k)))
  }

  // ------------------------------------------------------------ along the sample loop

  /** The flush after dispatching the first `k` samples. */
  ghost predicate At(s: Unwind, d: Drain, k: nat) {
    && k <= |Samples(s)| && d.samples == Samples(s)[k..]
    && Flushing(StartDrain(s), d)
    && Bounded(StartDrain(s), d, if k == 0 then 0 else Samples(s)[k - 1].time)
    && d.mmaps == Behind(StableSort(s.mmaps), TimeBefore(s, k))
    && d.tasks == Behind(StableSort(s.tasks), TimeBefore(s, k))
  }

  lemma StartAt(s: Unwind)
    ensures At(s, StartDrain(s), 0)
  {
    hide StableSort, Flushing, StartDrain, Behind;
    StartFacts(s);
    StartParts(s);
    assert Samples(s)[0..] == Samples(s);
    AllBehind(StableSort(s.mmaps), -1);
    AllBehind(StableSort(s.tasks), -1);
  }

  lemma DispatchAt(s: Unwind, d: Drain, k: nat)
    requires At(s, d, k) && d.samples != []
    ensures At(s, DispatchSample(d), k + 1)
    ensures DispatchSample(d).lastFlushMaxTime == d.lastFlushMaxTime
  {
    hide StableSort, Flushing, DispatchSample, StartDrain, Behind;
    var start, t := StartDrain(s), Samples(s)[k].time;
    StartParts(s);
    SortedSamples(s);
    DispatchFacts(start, d, if k == 0 then 0 else Samples(s)[k - 1].time);
    DispatchDrops(d);
    FlushingParts(start, DispatchSample(d));
    Leaves(start.mmaps, DispatchSample(d).mmaps, t);
    Leaves(start.tasks, DispatchSample(d).tasks, t);
  }

  lemma StartParts(s: Unwind)
    ensures var d := StartDrain(s);
      && d.samples == Samples(s) && d.mmaps == StableSort(s.mmaps) && d.tasks == StableSort(s.tasks)
      && d.size == s.size && d.lastFlushMaxTime == s.lastFlushMaxTime && d.log == s.log
  {
  }

  lemma SortedSamples(s: Unwind)
    ensures Sorted(Samples(s))
  {
    StableSortFacts(s.samples);
  }

  lemma SizeAt(s: Unwind, d: Drain, k: nat)
    requires ExactSize(s) && At(s, d, k)
    ensures d.size == LeftAt(s, k)
  {
    hide ExactSize, Flushing, StableSort, Behind;
    LoopExact(s, d);
  }

  /** The samples that a loop in violation dispatches: from `k` on up to `n`. */
  ghost predicate StopsAt(s: Unwind, k: nat, n: nat, desired: u32, violates: bool) {
    && k <= n <= |Samples(s)|
    && (forall j :: k <= j < n ==> LeftAt(s, j) > desired && (violates ==> Samples(s)[j].time < s.lastFlushMaxTime))
    && (n < |Samples(s)| && LeftAt(s, n) > desired ==> violates && s.lastFlushMaxTime <= Samples(s)[n].time)
  }

  lemma LoopStep(d: Drain, desired: u32, violates: bool)
    ensures SampleLoop(d, desired, violates) ==
      if d.size <= desired || d.samples == [] then (d, violates)
      else if d.samples[0].time < d.lastFlushMaxTime then SampleLoop(DispatchSample(d), desired, true)
      else if violates then (ForwardMmaps(d, d.lastFlushMaxTime), true)
      else SampleLoop(DispatchSample(d.(lastFlushMaxTime := d.samples[0].time)), desired, false)
  {
  }

  /** A loop in violation goes on until the desired size or a sample that is not too early. At
      such a sample it forwards the mappings up to the last flushed time. */
  lemma {:induction false} LoopInViolation(s: Unwind, d: Drain, k: nat, desired: u32) returns (n: nat)
    requires ExactSize(s) && At(s, d, k) && d.lastFlushMaxTime == s.lastFlushMaxTime
    requires k > 0 ==> Samples(s)[k - 1].time < s.lastFlushMaxTime
    ensures StopsAt(s, k, n, desired, true)
    ensures var (r, violates) := SampleLoop(d, desired, true);
      && violates && r.lastFlushMaxTime == s.lastFlushMaxTime && r.samples == Samples(s)[n..]
      && Since(StartDrain(s), r)
      && r.mmaps == Behind(StableSort(s.mmaps),
           if n < |Samples(s)| && LeftAt(s, n) > desired then s.lastFlushMaxTime else TimeBefore(s, n))
      && r.tasks == Behind(StableSort(s.tasks), TimeBefore(s, n))
    decreases |d.samples|
  {
    hide ExactSize, Flushing, StableSort, StartDrain, DispatchSample, LeftAt, Behind, SampleLoop, ForwardMmaps, Since;
    LoopStep(d, desired, true);
    SizeAt(s, d, k);
    FlushingParts(StartDrain(s), d);
    if d.size > desired && d.samples != [] {
      if d.samples[0].time < d.lastFlushMaxTime {
        DispatchAt(s, d, k);
        n := LoopInViolation(s, DispatchSample(d), k + 1, desired);
      } else {
        n := k;
        EndsAt(s, d, k);
      }
    } else {
      n := k;
    }
  }

  lemma EndsAt(s: Unwind, d: Drain, k: nat)
    requires At(s, d, k) && k < |Samples(s)| && d.lastFlushMaxTime == s.lastFlushMaxTime <= Samples(s)[k].time
    requires k > 0 ==> Samples(s)[k - 1].time < s.lastFlushMaxTime
    ensures var r := ForwardMmaps(d, s.lastFlushMaxTime);
      && Since(StartDrain(s), r) && r.mmaps == Behind(StableSort(s.mmaps), s.lastFlushMaxTime)
      && r.samples == d.samples && r.tasks == d.tasks && r.lastFlushMaxTime == s.lastFlushMaxTime
  {
    hide StableSort, Flushing, ForwardMmaps, StartDrain, Behind;
    var start, t := StartDrain(s), s.lastFlushMaxTime;
    StartParts(s);
    FlushingParts(start, d);
    ForwardMmapsFacts(start, d, t);
    var r := ForwardMmaps(d, t);
    FlushingParts(start, r);
    Leaves(start.mmaps, r.mmaps, t);
  }

  /** A loop without violation goes on until the desired size, and the last sample's time is
      the last flushed time. */
  lemma {:induction false} LoopWithoutViolation(s: Unwind, d: Drain, k: nat, desired: u32) returns (n: nat)
    requires ExactSize(s) && At(s, d, k) && (d.samples != [] ==> d.lastFlushMaxTime <= d.samples[0].time)
    ensures StopsAt(s, k, n, desired, false)
    ensures var (r, violates) := SampleLoop(d, desired, false);
      && !violates && r.lastFlushMaxTime == (if k < n then Samples(s)[n - 1].time else d.lastFlushMaxTime)
      && Since(StartDrain(s), r) && r.samples == Samples(s)[n..]
      && r.mmaps == Behind(StableSort(s.mmaps), TimeBefore(s, n))
      && r.tasks == Behind(StableSort(s.tasks), TimeBefore(s, n))
    decreases |d.samples|
  {
    hide ExactSize, Flushing, StableSort, StartDrain, DispatchSample, LeftAt, Behind, SampleLoop, ForwardMmaps, Since;
    LoopStep(d, desired, false);
    SizeAt(s, d, k);
    FlushingParts(StartDrain(s), d);
    if d.size > desired && d.samples != [] {
      SortedSamples(s);
      var m := d.(lastFlushMaxTime := d.samples[0].time);
      AtAnyTime(s, d, k, d.samples[0].time);
      DispatchAt(s, m, k);
      n := LoopWithoutViolation(s, DispatchSample(m), k + 1, desired);
    } else {
      n := k;
    }
  }

  lemma AtAnyTime(s: Unwind, d: Drain, k: nat, t: nat)
    requires At(s, d, k)
    ensures At(s, d.(lastFlushMaxTime := t), k)
  {
    hide StableSort, StartDrain, Flushing;
    NewMaxTime(StartDrain(s), d, t);
  }

  // ------------------------------------------------------------ the whole flush

  /** Where the loop of a flush stops, and what it leaves. */
  lemma LoopEnds(s: Unwind, desired: u32) returns (n: nat)
    requires ExactSize(s)
    ensures var (d, violates) := SampleLoop(StartDrain(s), desired, MmapsViolate(s));
      && violates == Violates(s, desired)
      && StopsAt(s, 0, n, desired, violates)
      && Since(StartDrain(s), d) && d.samples == Samples(s)[n..]
      && d.lastFlushMaxTime == (if violates || n == 0 then s.lastFlushMaxTime else Samples(s)[n - 1].time)
      && d.mmaps == Behind(StableSort(s.mmaps),
           if violates && n < |Samples(s)| && LeftAt(s, n) > desired then s.lastFlushMaxTime else TimeBefore(s, n))
      && d.tasks == Behind(StableSort(s.tasks), TimeBefore(s, n))
  {
    hide ExactSize, Flushing, StableSort, StartDrain, DispatchSample, LeftAt, Behind, SampleLoop, Since;
    var start := StartDrain(s);
    StartParts(s);
    StartAt(s);
    EarlyMmap(s);
    if MmapsViolate(s) {
      n := LoopInViolation(s, start, 0, desired);
    } else if start.samples != [] && start.samples[0].time < s.lastFlushMaxTime {
      FirstIsEarly(s, start, desired);
      if start.size > desired {
        SizeAt(s, start, 0);
        DispatchAt(s, start, 0);
        n := LoopInViolation(s, DispatchSample(start), 1, desired);
      } else {
        n := 0;
        SizeAt(s, start, 0);
        FlushingParts(start, start);
      }
    } else {
      FirstIsLate(s);
      n := LoopWithoutViolation(s, start, 0, desired);
    }
  }

  /** When a flush sees a time order violation: an mmap is earlier than the last flushed time,
      or the loop meets such a sample. */
  ghost predicate Violates(s: Unwind, desired: u32) {
    || (exists m :: m in s.mmaps && m.time < s.lastFlushMaxTime)
    || (s.size > desired && exists e :: e in s.samples && e.time < s.lastFlushMaxTime)
  }

  lemma SortFirst<T>(x: seq<Timed<T>>, t: nat)
    ensures (exists e :: e in x && e.time < t) <==> StableSort(x) != [] && StableSort(x)[0].time < t
  {
    hide StableSort;
    SortMembers(x);
    StableSortFacts(x);
    SameOrderKeepsEvents(StableSort(x), x);
    if e :| e in x && e.time < t {
      assert e in multiset(x);
      assert e in multiset(StableSort(x));
    }
  }

  lemma EarlyMmap(s: Unwind)
    ensures MmapsViolate(s) <==> exists m :: m in s.mmaps && m.time < s.lastFlushMaxTime
  {
    SortFirst(s.mmaps, s.lastFlushMaxTime);
  }

  lemma FirstIsEarly(s: Unwind, start: Drain, desired: u32)
    requires start.samples == Samples(s) != [] && Samples(s)[0].time < s.lastFlushMaxTime == start.lastFlushMaxTime
    ensures exists e :: e in s.samples && e.time < s.lastFlushMaxTime
    ensures SampleLoop(start, desired, false) ==
      if start.size <= desired then (start, false) else SampleLoop(DispatchSample(start), desired, true)
  {
    SortFirst(s.samples, s.lastFlushMaxTime);
  }

  lemma FirstIsLate(s: Unwind)
    requires Samples(s) == [] || s.lastFlushMaxTime <= Samples(s)[0].time
    ensures !exists e :: e in s.samples && e.time < s.lastFlushMaxTime
  {
    SortFirst(s.samples, s.lastFlushMaxTime);
  }

  /** The task events behind the first `n` samples. */
  ghost function TasksBehind(s: Unwind, n: nat): seq<Task>
    requires n <= |Samples(s)|
  {
    Behind(StableSort(s.tasks), TimeBefore(s, n))
  }

  /** Up to where a flush registers mappings if its loop stops before sample `n`: up to the last
      flushed time if it stops at a sample that is late enough, up to the last dispatched one
      otherwise. */
  ghost function MmapsUntil(s: Unwind, n: nat, desired: u32): int
    requires n <= |Samples(s)|
  {
    if Violates(s, desired) && n < |Samples(s)| && LeftAt(s, n) > desired then s.lastFlushMaxTime
    else TimeBefore(s, n)
  }

  lemma LoopSize(s: Unwind, desired: u32)
    requires ExactSize(s)
    ensures var d := SampleLoop(StartDrain(s), desired, MmapsViolate(s)).0;
      && d.size == Bytes(d)
      && Drained(s, desired) == (TrailingTasks(d, desired), SampleLoop(StartDrain(s), desired, MmapsViolate(s)).1)
  {
    hide ExactSize, StartDrain;
    var start := StartDrain(s);
    StartFacts(s);
    SampleLoopFacts(start, start, 0, desired, MmapsViolate(s));
    LoopExact(s, SampleLoop(start, desired, MmapsViolate(s)).0);
  }

  lemma {:induction false} TrailingKeeps(d: Drain, desired: u32)
    ensures var r := TrailingTasks(d, desired);
      && r.samples == d.samples && r.mmaps == d.mmaps && r.lastFlushMaxTime == d.lastFlushMaxTime
    decreases |d.tasks|
  {
    if d.size > desired && d.tasks != [] {
      TrailingKeeps(SendFirst(d), desired);
    }
  }

  lemma SinceParts(s: Unwind, r: Drain)
    requires Flushing(StartDrain(s), r)
    ensures |r.samples| <= |Samples(s)| && |r.mmaps| <= |s.mmaps| && |r.tasks| <= |s.tasks|
    ensures TasksOf(r.log) == TasksOf(s.log) + StableSort(s.tasks)[..|s.tasks| - |r.tasks|]
    ensures SamplesOf(r.log) == SamplesOf(s.log) + Samples(s)[..|Samples(s)| - |r.samples|]
    ensures MmapsOf(r.log) == MmapsOf(s.log) + StableSort(s.mmaps)[..|s.mmaps| - |r.mmaps|]
  {
    hide StableSort;
    StartParts(s);
  }

  /** What the trailing loop sends, given what the sample loop leaves. */
  ghost predicate SentUntilSmall(r: Unwind, tasks: seq<Task>, desired: u32) {
    && |r.tasks| <= |tasks| && r.tasks == tasks[|tasks| - |r.tasks|..]
    && forall k :: 0 <= k < |tasks| ==>
         (k < |tasks| - |r.tasks| <==>
           TotalSize(r.samples) + TotalSize(r.mmaps) + TotalSize(tasks[k..]) > desired)
  }

  lemma FlushTail(s: Unwind, desired: u32)
    requires ExactSize(s)
    ensures var (d, violates) := SampleLoop(StartDrain(s), desired, MmapsViolate(s));
      var r := Flush(s, desired);
      && r.violations == s.violations + (if violates then 1 else 0)
      && r.samples == d.samples && r.mmaps == d.mmaps && r.lastFlushMaxTime == d.lastFlushMaxTime
      && r.log == Drained(s, desired).0.log && r.tasks == Drained(s, desired).0.tasks
      && SentUntilSmall(r, d.tasks, desired)
  {
    hide ExactSize, Flushing, StableSort, StartDrain, Flush, SampleLoop, TrailingTasks, Drained;
    FlushFields(s, desired);
    LoopSize(s, desired);
    var d := SampleLoop(StartDrain(s), desired, MmapsViolate(s)).0;
    TrailingViews(d, desired);
    TrailingKeeps(d, desired);
    forall k | 0 <= k < |d.tasks|
      ensures k < |d.tasks| - |TrailingTasks(d, desired).tasks| <==>
        TotalSize(d.samples) + TotalSize(d.mmaps) + TotalSize(d.tasks[k..]) > desired
    {
      TrailingSends(d, desired, k);
    }
  }

  /** A flush that stops before sample `n` made `r` of `s`. */
  ghost predicate Dispatches(s: Unwind, r: Unwind, n: nat, desired: u32)
    requires n <= |Samples(s)|
  {
    && r.samples == Samples(s)[n..] && SamplesOf(r.log) == SamplesOf(s.log) + Samples(s)[..n]
    && r.mmaps == Behind(StableSort(s.mmaps), MmapsUntil(s, n, desired)) && |r.mmaps| <= |s.mmaps|
    && MmapsOf(r.log) == MmapsOf(s.log) + StableSort(s.mmaps)[..|s.mmaps| - |r.mmaps|]
    && SentUntilSmall(r, TasksBehind(s, n), desired) && |r.tasks| <= |s.tasks|
    && TasksOf(r.log) == TasksOf(s.log) + StableSort(s.tasks)[..|s.tasks| - |r.tasks|]
    && r.lastFlushMaxTime == (if Violates(s, desired) || n == 0 then s.lastFlushMaxTime else Samples(s)[n - 1].time)
  }

  /** A flush with a violation counts it, and makes the target twice what was buffered or twice
      the last target, whatever is larger, up to the maximum. */
  ghost predicate Counts(s: Unwind, r: Unwind, desired: u32) {
    && r.maxTarget == s.maxTarget && r.tracePoints == s.tracePoints
    && if Violates(s, desired) then
         && r.violations == s.violations + 1
         && r.target == Min(s.maxTarget, 2 * Max(s.size, s.lastTarget)) && r.lastTarget == s.target
       else r.violations == s.violations && r.target == s.target && r.lastTarget == s.lastTarget
  }

  lemma FlushCounts(s: Unwind, desired: u32)
    requires ExactSize(s) && (SampleLoop(StartDrain(s), desired, MmapsViolate(s)).1 <==> Violates(s, desired))
    ensures Counts(s, Flush(s, desired), desired)
  {
    hide ExactSize, StartDrain, SampleLoop, Violates, TrailingTasks;
  }

  /** What a flush does, violating or not, from the state before it. It dispatches the first `n`
      samples: as long as more than the desired bytes are left, and after a violation only
      those earlier than the last flushed time. It registers the mappings up to the last of
      them, or up to the last flushed time; and then it sends task events as long as too many
      bytes are left. */
  lemma FlushExactly(s: Unwind, desired: u32) returns (n: nat)
    requires ExactSize(s)
    ensures StopsAt(s, 0, n, desired, Violates(s, desired))
    ensures Dispatches(s, Flush(s, desired), n, desired)
    ensures Counts(s, Flush(s, desired), desired)
  {
    hide ExactSize, Flushing, StableSort, StartDrain, LeftAt, Behind, Flush, SampleLoop, StopsAt, SentUntilSmall;
    hide Violates, Drained, SamplesOf, MmapsOf, TasksOf, TimeBefore, Samples, Since, MmapsViolate;
    n := LoopEnds(s, desired);
    FlushTail(s, desired);
    FlushIsFaithful(s, desired);
    SinceParts(s, Drained(s, desired).0);
    DrainedSamples(s, desired);
    StopsInRange(s, n, desired);
    FlushCounts(s, desired);
  }

  lemma StopsInRange(s: Unwind, n: nat, desired: u32)
    requires StopsAt(s, 0, n, desired, Violates(s, desired))
    ensures n <= |Samples(s)|
  {
  }

  lemma DrainedSamples(s: Unwind, desired: u32)
    requires ExactSize(s)
    ensures var d := SampleLoop(StartDrain(s), desired, MmapsViolate(s)).0;
      Drained(s, desired).0.samples == d.samples && Drained(s, desired).0.mmaps == d.mmaps
  {
    hide ExactSize, StartDrain, SampleLoop, TrailingTasks, Drained;
    LoopSize(s, desired);
    TrailingKeeps(SampleLoop(StartDrain(s), desired, MmapsViolate(s)).0, desired);
  }

  // ------------------------------------------------------------ late mappings

  lemma {:induction false} LessBehind<T>(x: seq<Timed<T>>, t: int, u: int)
    requires t <= u
    ensures TotalSize(Behind(x, u)) <= TotalSize(Behind(x, t))
    decreases |x|
  {
    if x != [] {
      var front, e := x[..|x| - 1], x[|x| - 1];
      LessBehind(front, t, u);
      TotalSizeConcat(Behind(front, t), [e]);
      TotalSizeConcat(Behind(front, u), [e]);
      assert Behind(front, u) + [] == Behind(front, u) && Behind(front, t) + [] == Behind(front, t);
    }
  }

  lemma LeftShrinks(s: Unwind, j: nat, k: nat)
    requires j <= k <= |Samples(s)|
    ensures LeftAt(s, k) <= LeftAt(s, j)
  {
    hide StableSort, Behind;
    SortedSamples(s);
    assert Samples(s)[j..][k - j..] == Samples(s)[k..];
    SizeOfRest(Samples(s)[j..], k - j);
    LessBehind(StableSort(s.mmaps), TimeBefore(s, j), TimeBefore(s, k));
    LessBehind(StableSort(s.tasks), TimeBefore(s, j), TimeBefore(s, k));
  }

  /** A flush in violation that gets to sample `n`, the first one that is not too early: it ends
      there, and exactly the mappings up to the last flushed time are registered. So none is
      late any more. */
  lemma LateMmapsLeave(s: Unwind, desired: u32, n: nat)
    requires ExactSize(s) && Violates(s, desired)
    requires n < |Samples(s)| && LeftAt(s, n) > desired
    requires s.lastFlushMaxTime <= Samples(s)[n].time && (n > 0 ==> Samples(s)[n - 1].time < s.lastFlushMaxTime)
    ensures var r := Flush(s, desired);
      && r.samples == Samples(s)[n..] && SamplesOf(r.log) == SamplesOf(s.log) + Samples(s)[..n]
      && MmapsOf(r.log) == MmapsOf(s.log) + UpTo(StableSort(s.mmaps), s.lastFlushMaxTime)
      && (forall m :: m in r.mmaps <==> m in s.mmaps && s.lastFlushMaxTime < m.time)
      && r.lastFlushMaxTime == s.lastFlushMaxTime
    ensures !MmapsViolate(Flush(s, desired))
  {
    hide ExactSize, StableSort, LeftAt, Behind, Flush, Violates, UpTo, MmapsViolate, StopsAt;
    var m := FlushExactly(s, desired);
    StopsThere(s, desired, n, m);
    var r := Flush(s, desired);
    StableSortFacts(s.mmaps);
    CutAt(StableSort(s.mmaps), r.mmaps, s.lastFlushMaxTime);
    LaterLeft(s, r);
  }

  lemma StopsThere(s: Unwind, desired: u32, n: nat, m: nat)
    requires StopsAt(s, 0, m, desired, true) && n < |Samples(s)| && LeftAt(s, n) > desired
    requires s.lastFlushMaxTime <= Samples(s)[n].time && (n > 0 ==> Samples(s)[n - 1].time < s.lastFlushMaxTime)
    ensures m == n
  {
    hide StableSort, LeftAt;
    SortedSamples(s);
    if m < n {
      LeftShrinks(s, m, n);
    }
  }

  lemma LaterLeft(s: Unwind, r: Unwind)
    requires r.mmaps == Behind(StableSort(s.mmaps), s.lastFlushMaxTime) && r.lastFlushMaxTime == s.lastFlushMaxTime
    ensures forall m :: m in r.mmaps <==> m in s.mmaps && s.lastFlushMaxTime < m.time
    ensures !MmapsViolate(r)
  {
    hide StableSort, Behind, MmapsViolate;
    BehindMembers(StableSort(s.mmaps), s.lastFlushMaxTime);
    SameMembers(s.mmaps);
    EarlyMmap(r);
  }

  lemma SameMembers<T>(x: seq<Timed<T>>)
    ensures forall e :: e in StableSort(x) <==> e in x
  {
    hide StableSort;
    StableSortFacts(x);
    SameOrderKeepsEvents(StableSort(x), x);
    assert forall e :: e in StableSort(x) <==> e in multiset(StableSort(x));
    assert forall e :: e in x <==> e in multiset(x);
  }

  lemma CutAt<T>(x: seq<Timed<T>>, rest: seq<Timed<T>>, t: nat)
    requires Sorted(x) && rest == Behind(x, t)
    ensures |rest| <= |x| && x[..|x| - |rest|] == UpTo(x, t)
  {
    hide Behind, UpTo;
    SizeBehind(x, t);
    SortedCut(x, t);
  }

  lemma {:induction false} SortedCut<T>(x: seq<Timed<T>>, t: nat)
    requires Sorted(x)
    ensures x == UpTo(x, t) + Behind(x, t)
    decreases |x|
  {
    if x != [] {
      hide UpTo;
      var front, e := x[..|x| - 1], x[|x| - 1];
      assert x == front + [e];
      if e.time <= t {
        NoneBehind(x, t);
        assert x + [] == x;
      } else {
        SortedCut(front, t);
        UpToSnoc(front, e, t);
        assert UpTo(front, t) + [] == UpTo(front, t);
      }
    }
  }

  /** Exactly which late mappings the next flush sees again: those behind the last dispatched
      sample, unless the flush got to a sample that is not too early. */
  lemma LateMmapsStay(s: Unwind, desired: u32) returns (n: nat)
    requires ExactSize(s) && Violates(s, desired)
    ensures StopsAt(s, 0, n, desired, true)
    ensures MmapsViolate(Flush(s, desired)) <==>
      && (n == |Samples(s)| || LeftAt(s, n) <= desired)
      && exists m :: m in s.mmaps && TimeBefore(s, n) < m.time < s.lastFlushMaxTime
  {
    hide ExactSize, StableSort, LeftAt, Behind, Flush, Violates, MmapsViolate;
    n := FlushExactly(s, desired);
    var r := Flush(s, desired);
    EarlyMmap(r);
    BehindMembers(StableSort(s.mmaps), MmapsUntil(s, n, desired));
    SameMembers(s.mmaps);
  }

  const LATE := Timed(5, 1, MmapBody(7, ElfMaps.MappingRequest(0x1000, 0x1000, 0, ElfMaps.NO_FILE, "a", "/a")))
  const NEXT := Timed(20, 1, SampleBody(7, 0x1000))
  const ONLY_LATE := INITIAL.(mmaps := [LATE], size := 1, lastFlushMaxTime := 10)
  const LATE_AND_NEXT := ONLY_LATE.(samples := [NEXT], size := 2)

  /** A late mapping without a sample is counted in every flush. With a later sample it is
      registered and counted once, and the sample stays buffered, even by the flush that ends
      a recording. */
  lemma LateMmapExample()
    ensures var r := Flush(ONLY_LATE, 0);
      && r.violations == 1 && r.mmaps == [LATE] && Flush(r, 0).violations == 2
    ensures var r := Flush(LATE_AND_NEXT, 0);
      && r.violations == 1 && r.log == [Registered(LATE)] && r.samples == [NEXT] && Flush(r, 0).violations == 1
  {
    var start := StartDrain(LATE_AND_NEXT);
    assert start == Drain([NEXT], [LATE], [], 2, 10, []);
    var d := Drain([NEXT], [], [], 1, 10, [Registered(LATE)]);
    assert ForwardMmaps(start, 10) == d;
    var r := Flush(LATE_AND_NEXT, 0);
    assert r.samples == [NEXT] && r.mmaps == [] && r.tasks == [] && r.log == [Registered(LATE)];
    var m := StartDrain(r).(lastFlushMaxTime := 20);
    assert ForwardTasks(m, 20) == m && ForwardMmaps(m, 20) == m;
    assert SampleLoop(StartDrain(r), 0, false) == (AnalyzeFirst(m), false);
  }
}
