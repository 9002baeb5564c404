/** Which task events a flush sends when no sample is left, and with them forks and exits that
    take no effect. */
module TrailingTaskEvents {
  import opened WordArithmetic
  import opened TimeOrder
  import opened EventBuffer
  import opened DrainFacts
  import opened BufferOrder
  import opened BufferRuns
  import opened Lifetimes
  import opened InTimeRuns

  // ------------------------------------------------------------ the sample loop

  lemma {:induction false} ForwardMmapsEffects(d: Drain, t: nat)
    ensures var r := ForwardMmaps(d, t); TasksOf(r.log) == TasksOf(d.log) && LifeOf(r.log) == LifeOf(d.log)
    decreases |d.mmaps|
  {
    hide TasksOf, LifeOf;
    if d.mmaps != [] && d.mmaps[0].time <= t {
      EffectAppend(d.log, Registered(d.mmaps[0]));
      ForwardMmapsEffects(RegisterFirst(d), t);
    }
  }

  lemma HandleTaskEffects(d: Drain)
    requires d.tasks != [] && AllTookEffect(d.log)
    ensures AllTookEffect(HandleTask(d).log)
  {
    hide TasksOf, LifeOf, LifeEvents;
    var t := d.tasks[0];
    if IsFork(t) {
      ForwardMmapsEffects(d, t.time);
      EffectAppend(ForwardMmaps(d, t.time).log, Forked(t));
    } else if IsExit(t) {
      EffectAppend(d.log, Exited(t));
    }
    ForwardKeepsTasks(d, t.time);
    EffectAppend(ApplyTask(d, t).log, Sent(t));
    LifeConcat(TasksOf(d.log), [t]);
    LifeOfOne(t, 0);
  }

  lemma {:induction false} ForwardTasksEffects(d: Drain, t: nat)
    requires AllTookEffect(d.log)
    ensures AllTookEffect(ForwardTasks(d, t).log)
    decreases |d.tasks|
  {
    hide AllTookEffect;
    if d.tasks != [] && d.tasks[0].time <= t {
      HandleTaskEffects(d);
      ForwardTasksEffects(HandleTask(d), t);
    }
  }

  lemma DispatchEffects(d: Drain)
    requires d.samples != [] && AllTookEffect(d.log)
    ensures AllTookEffect(DispatchSample(d).log)
  {
    hide TasksOf, LifeOf, LifeEvents;
    var t := d.samples[0].time;
    ForwardTasksEffects(d, t);
    ForwardMmapsEffects(ForwardTasks(d, t), t);
    ForwardKeepsTasks(ForwardTasks(d, t), t);
    EffectAppend(ForwardMmaps(ForwardTasks(d, t), t).log, Analyzed(d.samples[0]));
  }

  /** In the sample loop every fork and every exit takes effect. */
  lemma {:induction false} SampleLoopEffects(d: Drain, desired: u32, violates: bool)
    requires AllTookEffect(d.log)
    ensures AllTookEffect(SampleLoop(d, desired, violates).0.log)
    decreases |d.samples|
  {
    hide TasksOf, LifeOf, LifeEvents;
    if d.size > desired && d.samples != [] {
      if d.samples[0].time < d.lastFlushMaxTime {
        DispatchEffects(d);
        SampleLoopEffects(DispatchSample(d), desired, true);
      } else if violates {
        ForwardMmapsEffects(d, d.lastFlushMaxTime);
      } else {
        var n := d.(lastFlushMaxTime := d.samples[0].time);
        DispatchEffects(n);
        SampleLoopEffects(DispatchSample(n), desired, false);
      }
    }
  }

  /** What was taken off the buffers is at most `t`; once no sample is left, what remains is
      later. */
  ghost predicate TakenUntil(start: Drain, d: Drain, t: nat) {
    && Since(start, d)
    && AllAtMost(Taken(start.mmaps, d.mmaps), t) && AllAtMost(Taken(start.tasks, d.tasks), t)
    && (d.samples == [] ==> AllAfter(d.mmaps, t) && AllAfter(d.tasks, t))
  }

  lemma {:induction false} SampleLoopTakes(start: Drain, d: Drain, b: nat, t: nat, desired: u32)
    requires Flushing(start, d) && Bounded(start, d, b) && b <= d.lastFlushMaxTime && AllAtLeast(d.samples, b)
    requires d.samples != [] && d.samples[|d.samples| - 1].time == t && !SampleLoop(d, desired, false).1
    ensures TakenUntil(start, SampleLoop(d, desired, false).0, t)
    decreases |d.samples|
  {
    hide Flushing, DispatchSample;
    var s := d.samples[0];
    FlushingParts(start, d);
    if d.size > desired {
      if s.time < d.lastFlushMaxTime {
        ViolationStays(DispatchSample(d), desired);
      } else {
        var n := d.(lastFlushMaxTime := s.time);
        NewMaxTime(start, d, s.time);
        DispatchFacts(start, n, b);
        DispatchDrops(n);
        FlushingParts(start, DispatchSample(n));
        if |d.samples| > 1 {
          SampleLoopTakes(start, DispatchSample(n), s.time, t, desired);
        }
      }
    }
  }

  lemma FlushingParts(start: Drain, d: Drain)
    requires Flushing(start, d)
    ensures Since(start, d) && Sorted(d.samples)
  {
  }

  // ------------------------------------------------------------ the trailing loop

  lemma {:induction false} SizeOfRest<T>(s: seq<Timed<T>>, k: nat)
    requires k <= |s|
    ensures TotalSize(s[k..]) <= TotalSize(s)
  {
    if k > 0 {
      SizeOfRest(s[1..], k - 1);
      assert s[1..][k - 1..] == s[k..];
    }
  }

  lemma {:induction false} TrailingViews(d: Drain, desired: u32)
    ensures var r := TrailingTasks(d, desired);
      && |r.tasks| <= |d.tasks| && r.tasks == d.tasks[|d.tasks| - |r.tasks|..]
      && TasksOf(r.log) == TasksOf(d.log) + d.tasks[..|d.tasks| - |r.tasks|] && LifeOf(r.log) == LifeOf(d.log)
    decreases |d.tasks|
  {
    hide TasksOf, LifeOf;
    if d.size > desired && d.tasks != [] {
      var next, r := SendFirst(d), TrailingTasks(d, desired);
      EffectAppend(d.log, Sent(d.tasks[0]));
      TrailingViews(next, desired);
      var m := |next.tasks| - |r.tasks|;
      assert d.tasks[..m + 1] == [d.tasks[0]] + next.tasks[..m];
    }
  }

  /** With an exact counter the trailing loop sends a task event exactly if the bytes left
      before it exceed the desired size. */
  lemma {:induction false} TrailingSends(d: Drain, desired: u32, k: nat)
    requires d.size == Bytes(d) && k < |d.tasks|
    ensures k < |d.tasks| - |TrailingTasks(d, desired).tasks| <==>
      TotalSize(d.samples) + TotalSize(d.mmaps) + TotalSize(d.tasks[k..]) > desired
    decreases |d.tasks|
  {
    hide TasksOf, LifeOf;
    TrailingViews(d, desired);
    if d.size > desired {
      var next := SendFirst(d);
      TrailingViews(next, desired);
      if k == 0 {
        assert d.tasks[0..] == d.tasks;
      } else {
        assert next.tasks[k - 1..] == d.tasks[k..];
        TrailingSends(next, desired, k - 1);
      }
    } else {
      SizeOfRest(d.tasks, k);
    }
  }

  // ------------------------------------------------------------ a flush, from the state before it

  lemma {:induction false} BehindSplit<T>(x: seq<Timed<T>>, y: seq<Timed<T>>, t: int)
    requires AllUntil(x, t)
    ensures Behind(x + y, t) == Behind(y, t)
    decreases |y|
  {
    if y == [] {
      assert x + y == x;
      NoneBehind(x, t);
    } else {
      assert (x + y)[..|x + y| - 1] == x + y[..|y| - 1];
      BehindSplit(x, y[..|y| - 1], t);
    }
  }

  lemma {:induction false} AllBehind<T>(s: seq<Timed<T>>, t: int)
    requires forall i :: 0 <= i < |s| ==> t < s[i].time
    ensures Behind(s, t) == s
    decreases |s|
  {
    if s != [] {
      AllBehind(s[..|s| - 1], t);
    }
  }

  lemma {:induction false} SizeBehind<T>(s: seq<Timed<T>>, t: int)
    ensures TotalSize(Behind(s, t)) <= TotalSize(s) && |Behind(s, t)| <= |s|
    decreases |s|
  {
    if s != [] {
      var front, e := s[..|s| - 1], s[|s| - 1];
      assert s == front + [e];
      SizeBehind(front, t);
      TotalSizeConcat(front, [e]);
      TotalSizeConcat(Behind(front, t), [e]);
      assert Behind(front, t) + [] == Behind(front, t);
    }
  }

  /** The last buffered sample's time, -1 if there is none. */
  ghost function LastSample(s: Unwind): int {
    LatestTime(StableSort(s.samples))
  }

  /** The task events behind all samples. */
  ghost function LateTasks(s: Unwind): seq<Task> {
    Behind(StableSort(s.tasks), LastSample(s))
  }

  /** The bytes that are left when all samples are dispatched and the task events behind them
      are sent up to the one at `k`. */
  ghost function LeftBefore(s: Unwind, k: nat): nat
    requires k <= |LateTasks(s)|
  {
    TotalSize(Behind(StableSort(s.mmaps), LastSample(s))) + TotalSize(LateTasks(s)[k..])
  }

  lemma SortedLatest<T>(s: seq<Timed<T>>)
    requires Sorted(s) && s != []
    ensures LatestTime(s) == s[|s| - 1].time
  {
    LatestUntil(s[..|s| - 1], s[|s| - 1].time);
  }

  lemma LoopExact(s: Unwind, d: Drain)
    requires ExactSize(s) && Flushing(StartDrain(s), d)
    ensures d.size == Bytes(d)
  {
    hide StartDrain;
    StartIsAccounted(s);
    DrainExact(s, d);
  }

  lemma CalmLoop(s: Unwind, desired: u32)
    requires ExactSize(s) && !Drained(s, desired).1
    ensures var (d, violates) := SampleLoop(StartDrain(s), desired, false);
      && Drained(s, desired).0 == TrailingTasks(d, desired)
      && !violates && d.size == Bytes(d) && (d.size <= desired || d.samples == [])
      && Since(StartDrain(s), d)
  {
    hide ExactSize, Flushing, StartDrain;
    var start := StartDrain(s);
    StartFacts(s);
    if MmapsViolate(s) {
      ViolationStays(start, desired);
    }
    SampleLoopStops(start, desired);
    SampleLoopFacts(start, start, 0, desired, false);
    var d := SampleLoop(start, desired, false).0;
    FlushingParts(start, d);
    LoopExact(s, d);
  }

  lemma Leaves<T>(all: seq<Timed<T>>, rest: seq<Timed<T>>, t: int)
    requires |rest| <= |all| && all[|all| - |rest|..] == rest && AllUntil(Taken(all, rest), t)
    ensures Behind(all, t) == Behind(rest, t)
    ensures (forall i :: 0 <= i < |rest| ==> t < rest[i].time) ==> Behind(rest, t) == rest
  {
    assert all == Taken(all, rest) + rest;
    BehindSplit(Taken(all, rest), rest, t);
    if forall i :: 0 <= i < |rest| ==> t < rest[i].time {
      AllBehind(rest, t);
    }
  }

  /** What the sample loop leaves of the sorted mappings and task events. */
  lemma LoopLeaves(s: Unwind, desired: u32)
    requires ExactSize(s) && !Drained(s, desired).1
    ensures var d := SampleLoop(StartDrain(s), desired, false).0;
      && Behind(StableSort(s.mmaps), LastSample(s)) == Behind(d.mmaps, LastSample(s))
      && LateTasks(s) == Behind(d.tasks, LastSample(s))
      && (d.samples == [] ==> Behind(d.mmaps, LastSample(s)) == d.mmaps && LateTasks(s) == d.tasks)
  {
    hide ExactSize, Flushing, StableSort, Behind, LatestTime, SampleLoop, Drained, TrailingTasks, Since;
    CalmLoop(s, desired);
    StartFacts(s);
    var start, d := StartDrain(s), SampleLoop(StartDrain(s), desired, false).0;
    if start.samples == [] {
      NoTime(start.samples);
      NothingToLoop(start, desired);
      AllBehind(start.mmaps, LastSample(s));
      AllBehind(start.tasks, LastSample(s));
    } else {
      FlushingParts(start, start);
      SortedLatest(start.samples);
      SampleLoopTakes(start, start, 0, start.samples[|start.samples| - 1].time, desired);
      LeavesBoth(start, d, LastSample(s));
    }
  }

  lemma NothingToLoop(d: Drain, desired: u32)
    requires d.samples == []
    ensures SampleLoop(d, desired, false).0 == d
  {
  }

  lemma LeavesBoth(start: Drain, d: Drain, t: nat)
    requires TakenUntil(start, d, t)
    ensures Behind(start.mmaps, t) == Behind(d.mmaps, t) && Behind(start.tasks, t) == Behind(d.tasks, t)
    ensures d.samples == [] ==> Behind(d.mmaps, t) == d.mmaps && Behind(d.tasks, t) == d.tasks
  {
    hide Behind;
    Leaves(start.mmaps, d.mmaps, t);
    Leaves(start.tasks, d.tasks, t);
  }

  lemma {:induction false} NoLifeEvents(tasks: seq<Task>)
    ensures LifeEvents(tasks) == [] <==> forall i :: 0 <= i < |tasks| ==> !IsLifeEvent(tasks[i])
    decreases |tasks|
  {
    if tasks != [] {
      NoLifeEvents(tasks[..|tasks| - 1]);
    }
  }

  /** If samples are left, the buffer is small enough, and so are all bytes behind them. */
  lemma SamplesLeft(s: Unwind, d: Drain, desired: u32, k: nat)
    requires d.size == Bytes(d) <= desired && k < |LateTasks(s)|
    requires Behind(StableSort(s.mmaps), LastSample(s)) == Behind(d.mmaps, LastSample(s))
    requires LateTasks(s) == Behind(d.tasks, LastSample(s))
    ensures TrailingTasks(d, desired) == d && |LateTasks(s)| <= |d.tasks| && LeftBefore(s, k) <= desired
  {
    hide StableSort, Behind, LastSample;
    SizeBehind(d.mmaps, LastSample(s));
    SizeBehind(d.tasks, LastSample(s));
    SizeOfRest(LateTasks(s), k);
  }

  /** A flush without violation gets to the task event at `k` behind all samples exactly if the
      bytes that are left before it exceed the desired size. */
  lemma LateTaskLeaves(s: Unwind, desired: u32, k: nat)
    requires ExactSize(s) && !Drained(s, desired).1 && k < |LateTasks(s)|
    ensures |Flush(s, desired).tasks| < |LateTasks(s)| - k <==> LeftBefore(s, k) > desired
  {
    hide ExactSize, StableSort, Behind, SampleLoop, StartDrain, TrailingTasks, Flush, Drained, LastSample, LateTasks;
    FlushFields(s, desired);
    CalmLoop(s, desired);
    LoopLeaves(s, desired);
    var d := SampleLoop(StartDrain(s), desired, false).0;
    TrailingViews(d, desired);
    if d.samples == [] {
      TrailingSends(d, desired, k);
      NoBytes(d);
    } else {
      SamplesLeft(s, d, desired, k);
    }
  }

  lemma NoBytes(d: Drain)
    requires d.samples == []
    ensures TotalSize(d.samples) == 0
  {
  }

  /** A flush without violation sends a fork or an exit without effect exactly if there is one
      behind all samples before which more bytes than desired are left. */
  lemma EffectsExactly(s: Unwind, desired: u32)
    requires ExactSize(s) && !Drained(s, desired).1 && AllTookEffect(s.log)
    ensures AllTookEffect(Flush(s, desired).log) <==>
      forall k :: 0 <= k < |LateTasks(s)| && IsLifeEvent(LateTasks(s)[k]) ==> LeftBefore(s, k) <= desired
  {
    hide ExactSize, StableSort, SampleLoop, TrailingTasks, Flush, Drained, LateTasks, LeftBefore;
    hide AllTookEffect, IsLifeEvent;
    FlushFields(s, desired);
    CalmLoop(s, desired);
    LoopLeaves(s, desired);
    var d := SampleLoop(StartDrain(s), desired, false).0;
    SampleLoopEffects(StartDrain(s), desired, false);
    TrailingViews(d, desired);
    var r := TrailingTasks(d, desired);
    EffectsOfTrailing(d, r);
    forall k | 0 <= k < |LateTasks(s)|
      ensures |r.tasks| < |LateTasks(s)| - k <==> LeftBefore(s, k) > desired
    {
      LateTaskLeaves(s, desired, k);
    }
    if d.samples != [] {
      NothingTrails(d, desired);
      forall k | 0 <= k < |LateTasks(s)|
        ensures LeftBefore(s, k) <= desired
      {
        SamplesLeft(s, d, desired, k);
      }
    }
  }

  lemma NothingTrails(d: Drain, desired: u32)
    requires d.size <= desired
    ensures TrailingTasks(d, desired) == d
  {
  }

  lemma EffectsOfTrailing(d: Drain, r: Drain)
    requires AllTookEffect(d.log) && |r.tasks| <= |d.tasks|
    requires TasksOf(r.log) == TasksOf(d.log) + d.tasks[..|d.tasks| - |r.tasks|] && LifeOf(r.log) == LifeOf(d.log)
    ensures AllTookEffect(r.log) <==> forall k :: 0 <= k < |d.tasks| - |r.tasks| ==> !IsLifeEvent(d.tasks[k])
  {
    hide TasksOf, LifeOf, LifeEvents, IsLifeEvent;
    var sent := d.tasks[..|d.tasks| - |r.tasks|];
    LifeConcat(TasksOf(d.log), sent);
    NoLifeEvents(sent);
    assert AllTookEffect(r.log) <==> LifeEvents(sent) == [];
    assert forall k :: 0 <= k < |sent| ==> sent[k] == d.tasks[k];
  }
}
