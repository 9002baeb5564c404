/** Time order across flushes, as long as no time order violation is seen. */
module BufferOrder {
  import opened WordArithmetic
  import opened TimeOrder
  import opened EventBuffer
  import opened DrainFacts

  /** Mapping registrations and sample analyses are the entries whose order matters. */
  predicate IsKeyed(e: Entry) {
    e.Registered? || e.Analyzed?
  }

  function KeyTime(e: Entry): nat
    requires IsKeyed(e)
  {
    if e.Registered? then e.mmap.time else e.sample.time
  }

  /** The time of the latest keyed entry, zero if there is none. */
  function Latest(log: seq<Entry>): nat {
    if log == [] then 0
    else
      var e, before := log[|log| - 1], Latest(log[..|log| - 1]);
      if IsKeyed(e) then Max(before, KeyTime(e)) else before
  }

  predicate Chronological(log: seq<Entry>) {
    if log == [] then true
    else
      var e, before := log[|log| - 1], log[..|log| - 1];
      Chronological(before) && (IsKeyed(e) ==> Latest(before) <= KeyTime(e))
  }

  /** Chronological means: no keyed entry comes before an earlier one. */
  lemma {:induction false} ChronologicalPairs(log: seq<Entry>, i: nat, j: nat)
    requires Chronological(log) && i < j < |log| && IsKeyed(log[i]) && IsKeyed(log[j])
    ensures KeyTime(log[i]) <= KeyTime(log[j])
    decreases |log|
  {
    var before := log[..|log| - 1];
    if j < |log| - 1 {
      ChronologicalPairs(before, i, j);
    } else {
      LatestBounds(before, i);
    }
  }

  lemma {:induction false} LatestBounds(log: seq<Entry>, i: nat)
    requires i < |log| && IsKeyed(log[i])
    ensures KeyTime(log[i]) <= Latest(log)
    decreases |log|
  {
    if i < |log| - 1 {
      LatestBounds(log[..|log| - 1], i);
    }
  }

  lemma OrderAppend(log: seq<Entry>, e: Entry)
    ensures Latest(log + [e]) == if IsKeyed(e) then Max(Latest(log), KeyTime(e)) else Latest(log)
    ensures Chronological(log + [e]) <==> Chronological(log) && (IsKeyed(e) ==> Latest(log) <= KeyTime(e))
  {
    assert (log + [e])[..|log|] == log;
  }

  /** In a chronological log the samples and the mappings are each sorted. */
  lemma {:induction false} ChronologicalParts(log: seq<Entry>)
    requires Chronological(log)
    ensures Sorted(SamplesOf(log)) && AllAtMost(SamplesOf(log), Latest(log))
    ensures Sorted(MmapsOf(log)) && AllAtMost(MmapsOf(log), Latest(log))
    decreases |log|
  {
    if log != [] {
      ChronologicalParts(log[..|log| - 1]);
    }
  }

  /** Nothing left in the sorted buffers is earlier than what was logged. */
  ghost predicate InOrder(d: Drain) {
    && AllSorted(d)
    && Chronological(d.log)
    && Latest(d.log) <= d.lastFlushMaxTime
    && AllAtLeast(d.samples, Latest(d.log))
    && AllAtLeast(d.mmaps, Latest(d.log))
  }

  lemma {:induction false} ForwardMmapsInOrder(d: Drain, t: nat)
    requires InOrder(d) && t <= d.lastFlushMaxTime && AllAtLeast(d.samples, t)
    ensures InOrder(ForwardMmaps(d, t)) && AllAfter(ForwardMmaps(d, t).mmaps, t)
    ensures ForwardMmaps(d, t).samples == d.samples && ForwardMmaps(d, t).tasks == d.tasks
    ensures ForwardMmaps(d, t).lastFlushMaxTime == d.lastFlushMaxTime
    decreases |d.mmaps|
  {
    if d.mmaps != [] && d.mmaps[0].time <= t {
      OrderAppend(d.log, Registered(d.mmaps[0]));
      SortedRest(d.mmaps);
      ForwardMmapsInOrder(RegisterFirst(d), t);
    }
  }

  lemma UnkeyedInOrder(d: Drain, e: Entry)
    requires InOrder(d) && !IsKeyed(e)
    ensures InOrder(d.(log := d.log + [e]))
  {
    OrderAppend(d.log, e);
  }

  lemma SendInOrder(d: Drain)
    requires InOrder(d) && d.tasks != []
    ensures InOrder(SendFirst(d))
  {
    SortedRest(d.tasks);
    UnkeyedInOrder(d, Sent(d.tasks[0]));
  }

  lemma HandleTaskInOrder(d: Drain, t: nat)
    requires InOrder(d) && d.tasks != [] && d.tasks[0].time <= t
    requires t <= d.lastFlushMaxTime && AllAtLeast(d.samples, t)
    ensures InOrder(HandleTask(d))
  {
    var task := d.tasks[0];
    if IsFork(task) {
      ForwardMmapsInOrder(d, task.time);
      UnkeyedInOrder(ForwardMmaps(d, task.time), Forked(task));
    } else if IsExit(task) {
      UnkeyedInOrder(d, Exited(task));
    }
    ForwardKeepsTasks(d, task.time);
    SendInOrder(ApplyTask(d, task));
  }

  lemma {:induction false} ForwardTasksInOrder(d: Drain, t: nat)
    requires InOrder(d) && t <= d.lastFlushMaxTime && AllAtLeast(d.samples, t)
    ensures InOrder(ForwardTasks(d, t))
    decreases |d.tasks|
  {
    if d.tasks != [] && d.tasks[0].time <= t {
      HandleTaskInOrder(d, t);
      ForwardTasksInOrder(HandleTask(d), t);
    }
  }

  lemma DispatchInOrder(d: Drain)
    requires InOrder(d) && d.samples != [] && d.lastFlushMaxTime == d.samples[0].time
    ensures InOrder(DispatchSample(d))
  {
    var t := d.samples[0].time;
    ForwardTasksInOrder(d, t);
    var f := ForwardTasks(d, t);
    ForwardMmapsInOrder(f, t);
    var g := ForwardMmaps(f, t);
    OrderAppend(g.log, Analyzed(g.samples[0]));
    SortedRest(g.samples);
  }

  lemma {:induction false} ViolationStays(d: Drain, desired: u32)
    ensures SampleLoop(d, desired, true).1
    decreases |d.samples|
  {
    if d.size > desired && d.samples != [] && d.samples[0].time < d.lastFlushMaxTime {
      ViolationStays(DispatchSample(d), desired);
    }
  }

  lemma {:induction false} SampleLoopInOrder(d: Drain, desired: u32)
    requires InOrder(d) && !SampleLoop(d, desired, false).1
    ensures InOrder(SampleLoop(d, desired, false).0)
    ensures d.lastFlushMaxTime <= SampleLoop(d, desired, false).0.lastFlushMaxTime
    decreases |d.samples|
  {
    if d.size > desired && d.samples != [] {
      if d.samples[0].time < d.lastFlushMaxTime {
        ViolationStays(DispatchSample(d), desired);
      } else {
        var n := d.(lastFlushMaxTime := d.samples[0].time);
        DispatchInOrder(n);
        SampleLoopInOrder(DispatchSample(n), desired);
      }
    }
  }

  lemma {:induction false} TrailingTasksInOrder(d: Drain, desired: u32)
    requires InOrder(d)
    ensures InOrder(TrailingTasks(d, desired))
    decreases |d.tasks|
  {
    if d.size > desired && d.tasks != [] {
      SendInOrder(d);
      TrailingTasksInOrder(SendFirst(d), desired);
    }
  }

  /** What holds between flushes while no violation was seen. */
  predicate Calm(s: Unwind) {
    Chronological(s.log) && Latest(s.log) <= s.lastFlushMaxTime
  }

  lemma SortedFrom<T>(s: seq<Timed<T>>, t: nat)
    requires Sorted(s) && (s != [] ==> t <= s[0].time)
    ensures AllAtLeast(s, t)
  {
  }

  /** A flush that sees no violation leaves its buffers in order behind the log, provided it
      looks at all: it has something to drain or no sample. */
  lemma FlushInOrder(s: Unwind, desired: u32)
    requires Calm(s) && !Drained(s, desired).1
    requires s.size > desired || s.samples == []
    ensures InOrder(Drained(s, desired).0)
  {
    var start := StartDrain(s);
    StartFacts(s);
    if MmapsViolate(s) {
      ViolationStays(start, desired);
    }
    SortedFrom(start.mmaps, s.lastFlushMaxTime);
    if start.samples != [] && start.samples[0].time < s.lastFlushMaxTime {
      ViolationStays(DispatchSample(start), desired);
    }
    SortedFrom(start.samples, s.lastFlushMaxTime);
    SampleLoopInOrder(start, desired);
    TrailingTasksInOrder(SampleLoop(start, desired, false).0, desired);
  }
}
