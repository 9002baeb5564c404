/** What one flush keeps: nothing lost or invented, exact byte accounting, and every sample
    preceded by exactly the mappings and task events up to its time. */
module DrainFacts {
  import opened WordArithmetic
  import opened TimeOrder
  import opened EventBuffer

  // ------------------------------------------------------------ the log grows at its end

  lemma LogAppend(log: seq<Entry>, e: Entry)
    ensures SamplesOf(log + [e]) == SamplesOf(log) + (if e.Analyzed? then [e.sample] else [])
    ensures MmapsOf(log + [e]) == MmapsOf(log) + (if e.Registered? then [e.mmap] else [])
    ensures TasksOf(log + [e]) == TasksOf(log) + (if e.Sent? then [e.task] else [])
  {
    assert (log + [e])[..|log|] == log;
  }

  // ------------------------------------------------------------ conservation and accounting

  ghost function Bytes(d: Drain): nat {
    TotalSize(d.samples) + TotalSize(d.mmaps) + TotalSize(d.tasks)
  }

  ghost predicate Accounted(d: Drain) {
    d.size == Wrap32(Bytes(d))
  }

  /** `d` is reached from `start` by taking events off the fronts and logging them. */
  ghost predicate Since(start: Drain, d: Drain) {
    && start.log <= d.log
    && TakenFrom(start.samples, d.samples, SamplesOf(start.log), SamplesOf(d.log))
    && TakenFrom(start.mmaps, d.mmaps, MmapsOf(start.log), MmapsOf(d.log))
    && TakenFrom(start.tasks, d.tasks, TasksOf(start.log), TasksOf(d.log))
  }

  ghost predicate TakenFrom<T>(all: seq<Timed<T>>, rest: seq<Timed<T>>, loggedBefore: seq<Timed<T>>,
                               logged: seq<Timed<T>>)
  {
    && |rest| <= |all|
    && all[|all| - |rest|..] == rest
    && logged == loggedBefore + Taken(all, rest)
  }

  ghost function Taken<T>(all: seq<Timed<T>>, rest: seq<Timed<T>>): seq<Timed<T>>
    requires |rest| <= |all|
  {
    all[..|all| - |rest|]
  }

  lemma TakeOne<T>(all: seq<Timed<T>>, rest: seq<Timed<T>>, before: seq<Timed<T>>, logged: seq<Timed<T>>)
    requires TakenFrom(all, rest, before, logged) && rest != []
    ensures TakenFrom(all, rest[1..], before, logged + [rest[0]])
    ensures Taken(all, rest[1..]) == Taken(all, rest) + [rest[0]]
  {
  }

  lemma SinceStart(d: Drain)
    ensures Since(d, d)
    ensures Taken(d.mmaps, d.mmaps) == [] && Taken(d.tasks, d.tasks) == []
  {
  }

  lemma SinceRegister(start: Drain, d: Drain)
    requires Since(start, d) && d.mmaps != []
    ensures Since(start, RegisterFirst(d))
    ensures Taken(start.mmaps, d.mmaps[1..]) == Taken(start.mmaps, d.mmaps) + [d.mmaps[0]]
    ensures Accounted(d) ==> Accounted(RegisterFirst(d))
  {
    LogAppend(d.log, Registered(d.mmaps[0]));
    TakeOne(start.mmaps, d.mmaps, MmapsOf(start.log), MmapsOf(d.log));
    Wrap32Difference(Bytes(d), d.mmaps[0].size);
  }

  lemma SinceSend(start: Drain, d: Drain)
    requires Since(start, d) && d.tasks != []
    ensures Since(start, SendFirst(d))
    ensures Taken(start.tasks, d.tasks[1..]) == Taken(start.tasks, d.tasks) + [d.tasks[0]]
    ensures Accounted(d) ==> Accounted(SendFirst(d))
  {
    LogAppend(d.log, Sent(d.tasks[0]));
    TakeOne(start.tasks, d.tasks, TasksOf(start.log), TasksOf(d.log));
    Wrap32Difference(Bytes(d), d.tasks[0].size);
  }

  lemma SinceNote(start: Drain, d: Drain, e: Entry)
    requires Since(start, d) && (e.Forked? || e.Exited?)
    ensures Since(start, d.(log := d.log + [e]))
    ensures Accounted(d) ==> Accounted(d.(log := d.log + [e]))
  {
    LogAppend(d.log, e);
  }

  lemma SinceAnalyze(start: Drain, d: Drain)
    requires Since(start, d) && d.samples != []
    ensures Since(start, AnalyzeFirst(d))
    ensures Accounted(d) ==> Accounted(AnalyzeFirst(d))
  {
    LogAppend(d.log, Analyzed(d.samples[0]));
    TakeOne(start.samples, d.samples, SamplesOf(start.log), SamplesOf(d.log));
    Wrap32Difference(Bytes(d), d.samples[0].size);
  }

  // ------------------------------------------------------------ exact context of an entry

  /** Before a sample is analysed, exactly the mappings and task events up to its time have
      left the buffers; before a fork, exactly the mappings up to its time. */
  ghost predicate EntryFaithful(start: Drain, log: seq<Entry>, i: nat)
    requires i < |log|
  {
    match log[i]
    case Analyzed(s) =>
      && MmapsOf(log[..i]) == MmapsOf(start.log) + UpTo(start.mmaps, s.time)
      && TasksOf(log[..i]) == TasksOf(start.log) + UpTo(start.tasks, s.time)
    case Forked(t) => MmapsOf(log[..i]) == MmapsOf(start.log) + UpTo(start.mmaps, t.time)
    case _ => true
  }

  ghost predicate Faithful(start: Drain, d: Drain) {
    forall i: nat :: |start.log| <= i < |d.log| ==> EntryFaithful(start, d.log, i)
  }

  lemma FaithfulAppend(start: Drain, d: Drain, r: Drain, e: Entry)
    requires Faithful(start, d) && r.log == d.log + [e]
    requires |start.log| <= |d.log|
    requires EntryFaithful(start, r.log, |d.log|)
    ensures Faithful(start, r)
  {
    forall i: nat | |start.log| <= i < |r.log|
      ensures EntryFaithful(start, r.log, i)
    {
      if i < |d.log| {
        assert r.log[..i] == d.log[..i];
        assert EntryFaithful(start, d.log, i);
      }
    }
  }

  ghost predicate AllSorted(d: Drain) {
    Sorted(d.samples) && Sorted(d.mmaps) && Sorted(d.tasks)
  }

  /** The invariant of a flush. */
  ghost predicate Flushing(start: Drain, d: Drain) {
    && AllSorted(start)
    && AllSorted(d)
    && Since(start, d)
    && Faithful(start, d)
    && (Accounted(start) ==> Accounted(d))
  }

  /** Everything taken so far is at most `b`, and no task event before `b` is left. */
  ghost predicate Bounded(start: Drain, d: Drain, b: nat)
    requires Since(start, d)
  {
    && AllAtMost(Taken(start.mmaps, d.mmaps), b)
    && AllAtMost(Taken(start.tasks, d.tasks), b)
    && AllAtLeast(d.tasks, b)
  }

  lemma FlushingStart(d: Drain)
    requires AllSorted(d)
    ensures Flushing(d, d) && Bounded(d, d, 0)
  {
    SinceStart(d);
  }

  lemma SortedRest<T>(s: seq<Timed<T>>)
    requires Sorted(s) && s != []
    ensures Sorted(s[1..]) && AllAtLeast(s[1..], s[0].time)
  {
  }

  /** What was taken off a sorted buffer up to `t`, if only later events are left, is exactly
      the events up to `t`. */
  lemma TakenIsUpTo<T>(all: seq<Timed<T>>, rest: seq<Timed<T>>, t: nat)
    requires |rest| <= |all| && all[|all| - |rest|..] == rest
    requires AllAtMost(Taken(all, rest), t) && AllAfter(rest, t)
    ensures Taken(all, rest) == UpTo(all, t)
  {
    UpToSplit(Taken(all, rest), rest, t);
    assert all == Taken(all, rest) + rest;
  }

  lemma {:induction false} ForwardMmapsFacts(start: Drain, d: Drain, t: nat)
    requires Flushing(start, d) && AllAtMost(Taken(start.mmaps, d.mmaps), t)
    ensures var r := ForwardMmaps(d, t);
      && Flushing(start, r)
      && r.samples == d.samples && r.tasks == d.tasks && r.lastFlushMaxTime == d.lastFlushMaxTime
      && AllAtMost(Taken(start.mmaps, r.mmaps), t)
      && AllAfter(r.mmaps, t)
      && Taken(start.mmaps, r.mmaps) == UpTo(start.mmaps, t)
    decreases |d.mmaps|
  {
    if d.mmaps == [] || t < d.mmaps[0].time {
      TakenIsUpTo(start.mmaps, d.mmaps, t);
    } else {
      SortedRest(d.mmaps);
      SinceRegister(start, d);
      var r := RegisterFirst(d);
      FaithfulAppend(start, d, r, Registered(d.mmaps[0]));
      ForwardMmapsFacts(start, r, t);
    }
  }

  lemma NoteFacts(start: Drain, d: Drain, e: Entry)
    requires Flushing(start, d)
    requires e.Exited? || (e.Forked? && Taken(start.mmaps, d.mmaps) == UpTo(start.mmaps, e.child.time))
    ensures Flushing(start, d.(log := d.log + [e]))
  {
    SinceNote(start, d, e);
    var r := d.(log := d.log + [e]);
    assert r.log[..|d.log|] == d.log;
    FaithfulAppend(start, d, r, e);
  }

  lemma SendFacts(start: Drain, d: Drain)
    requires Flushing(start, d) && d.tasks != []
    ensures Flushing(start, SendFirst(d))
    ensures Taken(start.tasks, SendFirst(d).tasks) == Taken(start.tasks, d.tasks) + [d.tasks[0]]
    ensures AllAtLeast(SendFirst(d).tasks, d.tasks[0].time)
  {
    SinceSend(start, d);
    SortedRest(d.tasks);
    FaithfulAppend(start, d, SendFirst(d), Sent(d.tasks[0]));
  }

  lemma HandleTaskFacts(start: Drain, d: Drain, b: nat)
    requires Flushing(start, d) && d.tasks != [] && Bounded(start, d, b)
    ensures Flushing(start, HandleTask(d)) && Bounded(start, HandleTask(d), d.tasks[0].time)
  {
    var t := d.tasks[0];
    var a := ApplyTask(d, t);
    if IsFork(t) {
      ForwardMmapsFacts(start, d, t.time);
      NoteFacts(start, ForwardMmaps(d, t.time), Forked(t));
    } else if IsExit(t) {
      NoteFacts(start, d, Exited(t));
    }
    SendFacts(start, a);
  }

  lemma {:induction false} ForwardTasksFacts(start: Drain, d: Drain, b: nat, t: nat)
    requires Flushing(start, d) && Bounded(start, d, b) && b <= t
    ensures var r := ForwardTasks(d, t);
      && Flushing(start, r)
      && AllAtMost(Taken(start.mmaps, r.mmaps), t)
      && AllAtMost(Taken(start.tasks, r.tasks), t)
      && AllAfter(r.tasks, t)
      && Taken(start.tasks, r.tasks) == UpTo(start.tasks, t)
    decreases |d.tasks|
  {
    if d.tasks == [] || t < d.tasks[0].time {
      TakenIsUpTo(start.tasks, d.tasks, t);
    } else {
      HandleTaskFacts(start, d, b);
      ForwardTasksFacts(start, HandleTask(d), d.tasks[0].time, t);
    }
  }

  lemma DispatchFacts(start: Drain, d: Drain, b: nat)
    requires Flushing(start, d) && d.samples != [] && Bounded(start, d, b) && b <= d.samples[0].time
    ensures Flushing(start, DispatchSample(d)) && Bounded(start, DispatchSample(d), d.samples[0].time)
    ensures AllAfter(DispatchSample(d).mmaps, d.samples[0].time)
    ensures AllAfter(DispatchSample(d).tasks, d.samples[0].time)
  {
    var s := d.samples[0];
    var t := ForwardTasks(d, s.time);
    ForwardTasksFacts(start, d, b, s.time);
    ForwardMmapsFacts(start, t, s.time);
    AnalyzeFacts(start, ForwardMmaps(t, s.time));
  }

  lemma AnalyzeFacts(start: Drain, d: Drain)
    requires Flushing(start, d) && d.samples != []
    requires Taken(start.mmaps, d.mmaps) == UpTo(start.mmaps, d.samples[0].time)
    requires Taken(start.tasks, d.tasks) == UpTo(start.tasks, d.samples[0].time)
    ensures Flushing(start, AnalyzeFirst(d))
  {
    SinceAnalyze(start, d);
    SortedRest(d.samples);
    var r := AnalyzeFirst(d);
    assert r.log[..|d.log|] == d.log;
    FaithfulAppend(start, d, r, Analyzed(d.samples[0]));
  }

  lemma NewMaxTime(start: Drain, d: Drain, t: nat)
    requires Flushing(start, d)
    ensures Flushing(start, d.(lastFlushMaxTime := t))
  {
    var r := d.(lastFlushMaxTime := t);
    assert forall i: nat :: |start.log| <= i < |r.log| ==>
      EntryFaithful(start, d.log, i) ==> EntryFaithful(start, r.log, i);
  }

  lemma {:induction false} SampleLoopFacts(start: Drain, d: Drain, b: nat, desired: u32, violates: bool)
    requires Flushing(start, d) && Bounded(start, d, b)
    requires b <= d.lastFlushMaxTime && AllAtLeast(d.samples, b)
    ensures Flushing(start, SampleLoop(d, desired, violates).0)
    decreases |d.samples|
  {
    if d.size > desired && d.samples != [] {
      var t := d.samples[0].time;
      SortedRest(d.samples);
      if t < d.lastFlushMaxTime {
        DispatchFacts(start, d, b);
        SampleLoopFacts(start, DispatchSample(d), t, desired, true);
      } else if violates {
        ForwardMmapsFacts(start, d, d.lastFlushMaxTime);
      } else {
        var n := d.(lastFlushMaxTime := t);
        NewMaxTime(start, d, t);
        DispatchFacts(start, n, b);
        SampleLoopFacts(start, DispatchSample(n), t, desired, false);
      }
    }
  }

  lemma {:induction false} TrailingTasksFacts(start: Drain, d: Drain, desired: u32)
    requires Flushing(start, d)
    ensures Flushing(start, TrailingTasks(d, desired))
    ensures var r := TrailingTasks(d, desired);
      && r.samples == d.samples && r.mmaps == d.mmaps && r.lastFlushMaxTime == d.lastFlushMaxTime
      && (r.size <= desired || r.tasks == [])
      && (d.size <= desired ==> r == d)
    decreases |d.tasks|
  {
    if d.size > desired && d.tasks != [] {
      SendFacts(start, d);
      TrailingTasksFacts(start, SendFirst(d), desired);
    }
  }

  lemma StartFacts(s: Unwind)
    ensures AllSorted(StartDrain(s)) && Flushing(StartDrain(s), StartDrain(s))
    ensures Bounded(StartDrain(s), StartDrain(s), 0)
  {
    StableSortFacts(s.samples);
    StableSortFacts(s.mmaps);
    StableSortFacts(s.tasks);
    FlushingStart(StartDrain(s));
  }

  /** Any flush, violating or not: what it logs comes off the fronts of the sorted buffers,
      the byte counter stays exact, and every analysed sample has seen exactly the buffered
      mappings and task events up to its time, every fork exactly the mappings up to its own. */
  lemma FlushIsFaithful(s: Unwind, desired: u32)
    ensures Flushing(StartDrain(s), Drained(s, desired).0)
  {
    var start := StartDrain(s);
    StartFacts(s);
    SampleLoopFacts(start, start, 0, desired, MmapsViolate(s));
    TrailingTasksFacts(start, SampleLoop(start, desired, MmapsViolate(s)).0, desired);
  }
}
