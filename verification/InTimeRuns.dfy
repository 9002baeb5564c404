/** Runs in which events arrive in time: what every sample finds, through forks and exits. */
module InTimeRuns {
  import opened WordArithmetic
  import opened TimeOrder
  import opened ElfMaps
  import opened EventBuffer
  import opened DrainFacts
  import opened BufferRuns
  import opened AddressSpaces
  import opened Lifetimes

  // ------------------------------------------------------------ one entry

  /** How far samples were analysed, and how far mappings were forwarded. */
  ghost function Reached(log: seq<Entry>): int {
    LatestTime(SamplesOf(log))
  }

  ghost function Forwarded(log: seq<Entry>): int {
    Later(Reached(log), LatestFork(LifeOf(log)))
  }

  lemma EntryAppend(log: seq<Entry>, e: Entry)
    requires InTime(log, e)
    ensures SamplesOf(log + [e]) == (if e.Analyzed? then SamplesOf(log) + [e.sample] else SamplesOf(log))
    ensures MmapsOf(log + [e]) == (if e.Registered? then MmapsOf(log) + [e.mmap] else MmapsOf(log))
    ensures LifeOf(log + [e]) == (if e.Forked? then LifeOf(log) + [e.child]
                                  else if e.Exited? then LifeOf(log) + [e.leaver] else LifeOf(log))
    ensures Orderly(log) ==> Orderly(log + [e])
    ensures Reached(log + [e]) == if e.Analyzed? then Later(Reached(log), e.sample.time) else Reached(log)
    ensures Forwarded(log + [e]) ==
      if e.Analyzed? then Later(Forwarded(log), e.sample.time)
      else if e.Forked? then Later(Forwarded(log), e.child.time)
      else Forwarded(log)
  {
    var longer := log + [e];
    assert longer[..|longer| - 1] == log && longer[|longer| - 1] == e;
    Views(longer);
    LatestAppend(SamplesOf(log), SamplesOf(longer));
    LatestForkAppend(LifeOf(log), LifeOf(longer));
  }

  lemma LatestAppend<T>(s: seq<Timed<T>>, longer: seq<Timed<T>>)
    ensures forall e :: longer == s + [e] ==> LatestTime(longer) == Later(LatestTime(s), e.time)
  {
    forall e | longer == s + [e]
      ensures LatestTime(longer) == Later(LatestTime(s), e.time)
    {
      assert (s + [e])[..|s|] == s;
    }
  }

  lemma LatestForkAppend(s: seq<Task>, longer: seq<Task>)
    ensures forall e :: longer == s + [e] ==>
      LatestFork(longer) == if IsFork(e) then Later(LatestFork(s), e.time) else LatestFork(s)
  {
    forall e | longer == s + [e]
      ensures LatestFork(longer) == if IsFork(e) then Later(LatestFork(s), e.time) else LatestFork(s)
    {
      assert (s + [e])[..|s|] == s;
    }
  }

  // ------------------------------------------------------------ one flush

  ghost predicate MmapsAhead(d: Drain) {
    Sorted(d.mmaps) && forall i :: 0 <= i < |d.mmaps| ==> Forwarded(d.log) < d.mmaps[i].time
  }

  /** The buffered events are behind what was logged. */
  ghost predicate Ahead(d: Drain) {
    && AllSorted(d)
    && (forall i :: 0 <= i < |d.samples| ==> Reached(d.log) <= d.samples[i].time)
    && MmapsAhead(d)
    && (forall i :: 0 <= i < |d.tasks| && IsLifeEvent(d.tasks[i]) ==>
          Reached(d.log) < d.tasks[i].time && AllAtMost(LifeOf(d.log), d.tasks[i].time))
  }

  ghost predicate Underway(d: Drain) {
    Orderly(d.log) && Ahead(d) && AllUntil(MmapsOf(d.log), Forwarded(d.log))
  }

  lemma {:induction false} ForwardMmapsOrderly(d: Drain, t: nat)
    requires Orderly(d.log) && Ahead(d) && AllUntil(MmapsOf(d.log), Later(Forwarded(d.log), t))
    requires d.mmaps != [] ==> AllAtMost(MmapsOf(d.log), d.mmaps[0].time)
    ensures var r := ForwardMmaps(d, t);
      && Orderly(r.log) && Ahead(r) && AllUntil(MmapsOf(r.log), Later(Forwarded(r.log), t))
      && r.samples == d.samples && r.tasks == d.tasks && r.lastFlushMaxTime == d.lastFlushMaxTime
      && Reached(r.log) == Reached(d.log) && LifeOf(r.log) == LifeOf(d.log) && Forwarded(r.log) == Forwarded(d.log)
      && AllAfter(r.mmaps, t)
    decreases |d.mmaps|
  {
    hide Orderly, LatestTime, LatestFork, SamplesOf, MmapsOf, LifeOf, Reached, Forwarded;
    FirstIsLeast(d.mmaps);
    if d.mmaps != [] && d.mmaps[0].time <= t {
      ForwardedParts(d.log);
      EntryAppend(d.log, Registered(d.mmaps[0]));
      ForwardMmapsOrderly(RegisterFirst(d), t);
    }
  }

  lemma FirstIsLeast<T>(s: seq<Timed<T>>)
    requires Sorted(s)
    ensures s != [] ==> Sorted(s[1..]) && AllAtLeast(s[1..], s[0].time) && AllAtLeast(s, s[0].time)
  {
  }

  lemma ForwardedParts(log: seq<Entry>)
    ensures Reached(log) <= Forwarded(log) && LatestFork(LifeOf(log)) <= Forwarded(log)
    ensures Reached(log) == LatestTime(SamplesOf(log))
    ensures Forwarded(log) == Later(Reached(log), LatestFork(LifeOf(log)))
  {
  }

  lemma ApplyOrderly(d: Drain)
    requires Underway(d) && d.tasks != []
    ensures var t, r := d.tasks[0], ApplyTask(d, d.tasks[0]);
      && Orderly(r.log) && AllUntil(MmapsOf(r.log), Forwarded(r.log)) && MmapsAhead(r)
      && r.samples == d.samples && r.tasks == d.tasks && r.lastFlushMaxTime == d.lastFlushMaxTime
      && Reached(r.log) == Reached(d.log)
      && LifeOf(r.log) == if IsLifeEvent(t) then LifeOf(d.log) + [t] else LifeOf(d.log)
  {
    hide Orderly, LatestTime, LatestFork, SamplesOf, MmapsOf, LifeOf, Reached, Forwarded;
    var t := d.tasks[0];
    ForwardedParts(d.log);
    if IsFork(t) {
      FirstIsLeast(d.mmaps);
      ForwardMmapsOrderly(d, t.time);
      var f := ForwardMmaps(d, t.time);
      ForwardedParts(f.log);
      ForksUntil(LifeOf(d.log), t.time);
      EntryAppend(f.log, Forked(t));
    } else if IsExit(t) {
      EntryAppend(d.log, Exited(t));
    }
  }

  lemma HandleTaskUnderway(d: Drain)
    requires Underway(d) && d.tasks != []
    ensures var t, r := d.tasks[0], HandleTask(d);
      && Underway(r) && Reached(r.log) == Reached(d.log)
      && LifeOf(r.log) == if IsLifeEvent(t) then LifeOf(d.log) + [t] else LifeOf(d.log)
  {
    hide Orderly, LatestTime, LatestFork, SamplesOf, MmapsOf, LifeOf, Reached, Forwarded, ApplyTask, MmapsAhead;
    ApplyOrderly(d);
    FirstIsLeast(d.tasks);
    var a := ApplyTask(d, d.tasks[0]);
    ForwardedParts(a.log);
    EntryAppend(a.log, Sent(d.tasks[0]));
    SameMmapsAhead(a, HandleTask(d));
  }

  lemma SameMmapsAhead(d: Drain, r: Drain)
    requires MmapsAhead(d) && r.mmaps == d.mmaps && Forwarded(r.log) == Forwarded(d.log)
    ensures MmapsAhead(r) && Sorted(r.mmaps)
  {
  }

  lemma {:induction false} ForwardTasksUnderway(d: Drain, t: nat)
    requires Underway(d) && AllAtMost(LifeOf(d.log), t)
    ensures var r := ForwardTasks(d, t);
      && Underway(r) && Reached(r.log) == Reached(d.log) && AllAtMost(LifeOf(r.log), t)
      && AllAfter(r.tasks, t)
    decreases |d.tasks|
  {
    hide Orderly, LatestTime, LatestFork, SamplesOf, MmapsOf, LifeOf, Reached, Forwarded, HandleTask;
    if d.tasks != [] && d.tasks[0].time <= t {
      HandleTaskUnderway(d);
      HandleTaskDrops(d);
      ForwardTasksUnderway(HandleTask(d), t);
    }
  }

  lemma HandleTaskDrops(d: Drain)
    requires d.tasks != []
    ensures HandleTask(d).tasks == d.tasks[1..]
  {
  }

  /** Between two samples nothing was forwarded beyond the first of them. */
  ghost predicate Rested(d: Drain) {
    Underway(d) && AllUntil(LifeOf(d.log), Reached(d.log))
  }

  lemma DispatchRested(d: Drain)
    requires Rested(d) && d.samples != []
    ensures Rested(DispatchSample(d)) && Reached(DispatchSample(d).log) == d.samples[0].time
  {
    hide Orderly, LatestTime, LatestFork, SamplesOf, MmapsOf, LifeOf, Reached, Forwarded, ForwardTasks, ForwardMmaps;
    var s := d.samples[0];
    ForwardTasksUnderway(d, s.time);
    var t := ForwardTasks(d, s.time);
    FirstIsLeast(t.mmaps);
    FirstIsLeast(d.samples);
    ForwardedParts(t.log);
    ForwardMmapsOrderly(t, s.time);
    var f := ForwardMmaps(t, s.time);
    ForksUntil(LifeOf(t.log), s.time);
    ForwardedParts(f.log);
    SamplesUntil(SamplesOf(f.log), s.time);
    EntryAppend(f.log, Analyzed(s));
  }

  lemma {:induction false} SamplesUntil(samples: seq<Sample>, t: nat)
    requires LatestTime(samples) <= t
    ensures AllAtMost(samples, t)
    decreases |samples|
  {
    if samples != [] {
      SamplesUntil(samples[..|samples| - 1], t);
    }
  }

  lemma {:induction false} SampleLoopRested(d: Drain, desired: u32)
    requires Rested(d) && d.lastFlushMaxTime == Later(Reached(d.log), 0)
    ensures var (r, violates) := SampleLoop(d, desired, false);
      !violates && Rested(r) && r.lastFlushMaxTime == Later(Reached(r.log), 0)
    decreases |d.samples|
  {
    hide Orderly, Reached, Forwarded, DispatchSample;
    if d.size > desired && d.samples != [] {
      var n := d.(lastFlushMaxTime := d.samples[0].time);
      DispatchRested(n);
      DispatchDrops(n);
      SampleLoopRested(DispatchSample(n), desired);
    }
  }

  lemma DispatchDrops(d: Drain)
    requires d.samples != []
    ensures DispatchSample(d).samples == d.samples[1..] && DispatchSample(d).lastFlushMaxTime == d.lastFlushMaxTime
  {
  }

  lemma {:induction false} TrailingRested(d: Drain, desired: u32)
    requires Rested(d)
    ensures var r := TrailingTasks(d, desired);
      Rested(r) && Reached(r.log) == Reached(d.log) && r.lastFlushMaxTime == d.lastFlushMaxTime
    decreases |d.tasks|
  {
    hide Orderly, LatestTime, LatestFork, SamplesOf, MmapsOf, LifeOf, Reached, Forwarded;
    if d.size > desired && d.tasks != [] {
      FirstIsLeast(d.tasks);
      ForwardedParts(d.log);
      EntryAppend(d.log, Sent(d.tasks[0]));
      TrailingRested(SendFirst(d), desired);
    }
  }

  // ------------------------------------------------------------ whole runs

  /** What holds between flushes. */
  ghost predicate Waiting(s: Unwind) {
    var n := Reached(s.log);
    && Orderly(s.log) && AllUntil(MmapsOf(s.log), n) && AllUntil(LifeOf(s.log), n)
    && s.lastFlushMaxTime == Later(n, 0)
    && (forall i :: 0 <= i < |s.samples| ==> n <= s.samples[i].time)
    && (forall i :: 0 <= i < |s.mmaps| ==> n < s.mmaps[i].time)
    && (forall i :: 0 <= i < |s.tasks| && IsLifeEvent(s.tasks[i]) ==> n < s.tasks[i].time)
  }

  /** An event that is not too late for what was analysed already: a sample may be as late as
      the last flushed one, a mapping, a fork and an exit must come before. */
  ghost predicate Arrives(s: Unwind, op: Op) {
    match op
    case BufferSample(e) => s.lastFlushMaxTime <= e.time
    case BufferMmap(e) => SamplesOf(s.log) == [] || s.lastFlushMaxTime < e.time
    case BufferTask(e) => IsLifeEvent(e) ==> SamplesOf(s.log) == [] || s.lastFlushMaxTime < e.time
    case _ => true
  }

  ghost predicate InTimeRun(init: Unwind, ops: seq<Op>) {
    ops == [] ||
    (InTimeRun(init, ops[..|ops| - 1]) && Arrives(Run(init, ops[..|ops| - 1]), ops[|ops| - 1]))
  }

  lemma SortMembers<T>(s: seq<Timed<T>>)
    ensures Sorted(StableSort(s)) && forall i :: 0 <= i < |StableSort(s)| ==> StableSort(s)[i] in s
  {
    StableSortFacts(s);
    SameOrderKeepsEvents(StableSort(s), s);
    forall i | 0 <= i < |StableSort(s)|
      ensures StableSort(s)[i] in s
    {
      assert StableSort(s)[i] in multiset(StableSort(s));
    }
  }

  lemma {:induction false} NoTime<T>(s: seq<Timed<T>>)
    ensures -1 <= LatestTime(s) && (s == [] <==> LatestTime(s) == -1)
    decreases |s|
  {
    if s != [] {
      NoTime(s[..|s| - 1]);
    }
  }

  lemma RestedForwarded(log: seq<Entry>)
    requires AllUntil(LifeOf(log), Reached(log))
    ensures Forwarded(log) == Reached(log)
  {
    NoTime(SamplesOf(log));
    ForksUntil(LifeOf(log), Reached(log));
  }

  lemma StartRested(s: Unwind)
    requires Waiting(s)
    ensures Rested(StartDrain(s)) && !MmapsViolate(s)
  {
    hide Orderly, LatestTime, LatestFork, SamplesOf, MmapsOf, LifeOf, Reached, Forwarded, StableSort;
    SortMembers(s.samples);
    SortMembers(s.mmaps);
    SortMembers(s.tasks);
    RestedForwarded(s.log);
  }

  lemma FlushWaits(s: Unwind, desired: u32)
    requires Waiting(s)
    ensures Waiting(Flush(s, desired)) && Flush(s, desired).violations == s.violations
  {
    hide Flush, Orderly, LatestTime, LatestFork, SamplesOf, MmapsOf, LifeOf, Reached, Forwarded, StartDrain;
    FlushFields(s, desired);
    StartRested(s);
    StartFields(s);
    SampleLoopRested(StartDrain(s), desired);
    var d := SampleLoop(StartDrain(s), desired, false).0;
    TrailingRested(d, desired);
    RestedForwarded(TrailingTasks(d, desired).log);
  }

  lemma StartFields(s: Unwind)
    ensures StartDrain(s).log == s.log && StartDrain(s).lastFlushMaxTime == s.lastFlushMaxTime
  {
  }

  lemma AppendWaits(s: Unwind, op: Op)
    requires Waiting(s) && Arrives(s, op) && Buffers(op)
    ensures Waiting(Append(s, op)) && Append(s, op).violations == s.violations
  {
    hide Orderly, LatestTime, SamplesOf, MmapsOf, LifeOf, Reached;
    NoTimeReached(s.log);
  }

  lemma SettersWait(s: Unwind)
    requires Waiting(s)
    ensures forall size: u32 :: Waiting(SetTarget(s, size))
    ensures forall tracePoint, isNew :: Waiting(AddAttributes(s, tracePoint, isNew))
  {
    hide Orderly, SamplesOf, MmapsOf, LifeOf, Reached;
  }

  lemma StepWaits(s: Unwind, op: Op)
    requires Waiting(s) && Arrives(s, op)
    ensures Waiting(Step(s, op)) && Step(s, op).violations == s.violations
  {
    hide Flush, Waiting, Append, Arrives;
    SettersWait(s);
    if Buffers(op) {
      AppendWaits(s, op);
      FlushWaits(Append(s, op), Append(s, op).target / 2);
    } else {
      FlushWaits(s, s.size / 2);
      FlushWaits(FinishedRound(s), 0);
    }
  }

  lemma NoTimeReached(log: seq<Entry>)
    ensures SamplesOf(log) == [] <==> Reached(log) < 0
  {
    NoTime(SamplesOf(log));
  }

  /** A run whose events arrive in time sees no violation, and its log is in order. */
  lemma {:induction false} InTimeRunIsOrderly(init: Unwind, ops: seq<Op>)
    requires Fresh(init) && InTimeRun(init, ops)
    ensures Waiting(Run(init, ops)) && Run(init, ops).violations == 0
    decreases |ops|
  {
    if ops != [] {
      InTimeRunIsOrderly(init, ops[..|ops| - 1]);
      StepWaits(Run(init, ops[..|ops| - 1]), ops[|ops| - 1]);
    }
  }

  // ------------------------------------------------------------ what a sample has seen

  /** What is sent later than a sample is no fork and no exit up to its time. */
  ghost predicate SentLater(before: seq<Task>, sent: seq<Task>, t: nat) {
    && before <= sent
    && forall i :: |before| <= i < |sent| && IsLifeEvent(sent[i]) ==> t < sent[i].time
  }

  /** After the sample at `i`, the mappings, forks and exits up to its time stay what they were,
      and later samples are not earlier. */
  lemma {:induction false} ContextStays(log: seq<Entry>, i: nat)
    requires Orderly(log) && i < |log| && log[i].Analyzed?
    ensures var t, before := log[i].sample.time, log[..i];
      && t <= Reached(log)
      && UpTo(MmapsOf(log), t) == MmapsOf(before) && UpTo(LifeOf(log), t) == LifeOf(before)
      && AllAtMost(LifeOf(before), t)
      && SamplesOf(before) <= SamplesOf(log)
      && AllAtLeast(SamplesOf(log)[|SamplesOf(before)|..], t)
      && SentLater(TasksOf(before), TasksOf(log), t)
    decreases |log|
  {
    hide SamplesOf, MmapsOf, LifeOf, TasksOf, UpTo, LatestTime, LatestFork;
    var front, e, t := log[..|log| - 1], log[|log| - 1], log[i].sample.time;
    assert log == front + [e];
    EntryAppend(front, e);
    LogAppend(front, e);
    if i == |log| - 1 {
      NoneBehind(MmapsOf(front), t);
      NoneBehind(LifeOf(front), t);
    } else {
      assert front[..i] == log[..i];
      ContextStays(front, i);
      ContextStep(front, e, i);
    }
  }

  lemma ContextStep(front: seq<Entry>, e: Entry, i: nat)
    requires InTime(front, e) && i < |front| && front[i].Analyzed?
    requires var t, before := front[i].sample.time, front[..i];
      && t <= Reached(front)
      && UpTo(MmapsOf(front), t) == MmapsOf(before) && UpTo(LifeOf(front), t) == LifeOf(before)
      && SamplesOf(before) <= SamplesOf(front)
      && AllAtLeast(SamplesOf(front)[|SamplesOf(before)|..], t)
      && SentLater(TasksOf(before), TasksOf(front), t)
    ensures var t, before, log := front[i].sample.time, front[..i], front + [e];
      && UpTo(MmapsOf(log), t) == MmapsOf(before) && UpTo(LifeOf(log), t) == LifeOf(before)
      && SamplesOf(before) <= SamplesOf(log)
      && AllAtLeast(SamplesOf(log)[|SamplesOf(before)|..], t)
      && SentLater(TasksOf(before), TasksOf(log), t)
  {
    hide SamplesOf, MmapsOf, LifeOf, TasksOf, UpTo, LatestTime, LatestFork;
    var t := front[i].sample.time;
    EntryAppend(front, e);
    LogAppend(front, e);
    ForwardedParts(front);
    match e
    case Registered(m) => UpToSnoc(MmapsOf(front), m, t);
    case Forked(f) => UpToSnoc(LifeOf(front), f, t);
    case Exited(x) => UpToSnoc(LifeOf(front), x, t);
    case Analyzed(s) => LatestUntil(SamplesOf(front), s.time);
    case Sent(_) =>
  }

  lemma {:induction false} LatestUntil<T>(s: seq<Timed<T>>, t: nat)
    requires AllAtMost(s, t)
    ensures LatestTime(s) <= t
    decreases |s|
  {
    if s != [] {
      LatestUntil(s[..|s| - 1], t);
    }
  }

  lemma {:induction false} UpToLater<T>(s: seq<Timed<T>>, later: seq<Timed<T>>, t: nat)
    requires AllAfter(later, t)
    ensures UpTo(s + later, t) == UpTo(s, t)
    decreases |later|
  {
    if later == [] {
      assert s + later == s;
    } else {
      var front, e := later[..|later| - 1], later[|later| - 1];
      UpToLater(s, front, t);
      UpToSnoc(s + front, e, t);
      assert s + later == s + front + [e];
    }
  }

  lemma {:induction false} OrderlyParts(log: seq<Entry>)
    requires Orderly(log)
    ensures Sorted(SamplesOf(log)) && Sorted(MmapsOf(log)) && Sorted(LifeOf(log))
    decreases |log|
  {
    if log != [] {
      OrderlyParts(log[..|log| - 1]);
    }
  }

  // ------------------------------------------------------------ what was received

  lemma {:induction false} LifeConcat(x: seq<Task>, y: seq<Task>)
    ensures LifeEvents(x + y) == LifeEvents(x) + LifeEvents(y)
    decreases |y|
  {
    if y == [] {
      assert x + y == x;
    } else {
      assert (x + y)[..|x + y| - 1] == x + y[..|y| - 1];
      LifeConcat(x, y[..|y| - 1]);
    }
  }

  lemma LifeOfOne(e: Task, t: nat)
    ensures LifeEvents([e]) == if IsLifeEvent(e) then [e] else []
    ensures LifeEvents(FirstIfAt(e, t)) == AtTime(LifeEvents([e]), t)
  {
    assert [e][..0] == [] && [e][1..] == [];
  }

  lemma {:induction false} LifeAtTime(s: seq<Task>, t: nat)
    ensures AtTime(LifeEvents(s), t) == LifeEvents(AtTime(s, t))
  {
    if s != [] {
      hide AtTime, LifeEvents, FirstIfAt;
      var e, rest := s[0], s[1..];
      assert s == [e] + rest;
      LifeAtTime(rest, t);
      LifeOfOne(e, t);
      LifeConcat([e], rest);
      AtTimeConcat(LifeEvents([e]), LifeEvents(rest), t);
      AtTimeStep(e, rest, t);
      LifeConcat(FirstIfAt(e, t), AtTime(rest, t));
    }
  }

  lemma LifeInOrder(x: seq<Task>, y: seq<Task>)
    requires SameOrder(x, y)
    ensures SameOrder(LifeEvents(x), LifeEvents(y))
  {
    forall t: nat
      ensures AtTime(LifeEvents(x), t) == AtTime(LifeEvents(y), t)
    {
      LifeAtTime(x, t);
      LifeAtTime(y, t);
      assert AtTime(x, t) == AtTime(y, t);
    }
  }

  lemma {:induction false} LifeMembers(s: seq<Task>)
    ensures forall i :: 0 <= i < |LifeEvents(s)| ==> LifeEvents(s)[i] in s && IsLifeEvent(LifeEvents(s)[i])
    decreases |s|
  {
    if s != [] {
      LifeMembers(s[..|s| - 1]);
    }
  }

  /** A sorted log followed by a buffer that lies behind it is the sort of all that was
      received. */
  lemma LogAndBuffer<T>(logged: seq<Timed<T>>, buffer: seq<Timed<T>>, received: seq<Timed<T>>, n: int)
    requires Sorted(logged) && AllUntil(logged, n) && SameOrder(logged + buffer, received)
    requires forall i :: 0 <= i < |buffer| ==> n <= buffer[i].time
    ensures StableSort(received) == logged + StableSort(buffer)
    ensures forall i :: 0 <= i < |StableSort(buffer)| ==> StableSort(buffer)[i] in buffer
  {
    SortMembers(buffer);
    StableSortFacts(buffer);
    SameOrderReflexive(logged);
    SameOrderConcat(logged, logged, StableSort(buffer), buffer);
    SameOrderTransitive(logged + StableSort(buffer), logged + buffer, received);
    IsOneShotSort(logged + StableSort(buffer), received);
  }

  lemma ReceivedMmaps(s: Unwind, received: seq<Mmap>, t: nat)
    requires Waiting(s) && SameOrder(MmapsOf(s.log) + s.mmaps, received) && t <= Reached(s.log)
    ensures UpTo(StableSort(received), t) == UpTo(MmapsOf(s.log), t)
  {
    hide Orderly, LatestTime, SamplesOf, MmapsOf, LifeOf, Reached, UpTo;
    OrderlyParts(s.log);
    LogAndBuffer(MmapsOf(s.log), s.mmaps, received, Reached(s.log));
    UpToLater(MmapsOf(s.log), StableSort(s.mmaps), t);
  }

  lemma {:induction false} AtTimeUpTo<T>(s: seq<Timed<T>>, t: nat, u: nat)
    ensures AtTime(UpTo(s, t), u) == if u <= t then AtTime(s, u) else []
  {
    if s != [] {
      hide AtTime, UpTo;
      var e, rest := s[0], s[1..];
      assert s == [e] + rest;
      AtTimeUpTo(rest, t, u);
      UpToStep(e, rest, t);
      AtTimeStep(e, rest, u);
      if e.time <= t {
        AtTimeStep(e, UpTo(rest, t), u);
      } else {
        assert FirstIfUpTo(e, t) + UpTo(rest, t) == UpTo(rest, t);
      }
    }
  }

  lemma {:induction false} UpToSorted<T>(s: seq<Timed<T>>, t: nat)
    requires Sorted(s)
    ensures Sorted(UpTo(s, t))
  {
    if s != [] {
      UpToSorted(s[1..], t);
      UpToMembers(s[1..], t);
    }
  }

  /** Sorting and cutting off what is later can be exchanged. */
  lemma SortUpTo<T>(x: seq<Timed<T>>, received: seq<Timed<T>>, t: nat)
    requires SameOrder(x, received)
    ensures UpTo(StableSort(received), t) == StableSort(UpTo(x, t))
  {
    StableSortFacts(received);
    UpToSorted(StableSort(received), t);
    forall u: nat
      ensures AtTime(UpTo(StableSort(received), t), u) == AtTime(UpTo(x, t), u)
    {
      AtTimeUpTo(StableSort(received), t, u);
      AtTimeUpTo(x, t, u);
      assert AtTime(StableSort(received), u) == AtTime(received, u) && AtTime(x, u) == AtTime(received, u);
    }
    IsOneShotSort(UpTo(StableSort(received), t), UpTo(x, t));
  }

  lemma {:induction false} NoLife(s: seq<Task>, t: nat)
    requires forall i :: 0 <= i < |s| && IsLifeEvent(s[i]) ==> t < s[i].time
    ensures AllAfter(LifeEvents(s), t)
    decreases |s|
  {
    if s != [] {
      NoLife(s[..|s| - 1], t);
    }
  }

  lemma ReceivedLife(s: Unwind, before: seq<Entry>, received: seq<Task>, t: nat)
    requires Waiting(s) && SameOrder(TasksOf(s.log) + s.tasks, received) && t <= Reached(s.log)
    requires SentLater(TasksOf(before), TasksOf(s.log), t) && Sorted(LifeOf(before))
    ensures UpTo(StableSort(LifeEvents(received)), t) == LifeOf(before) <==> TookEffect(before, t)
  {
    hide Orderly, LatestTime, SamplesOf, LifeOf, TasksOf, Reached, UpTo, LifeEvents, StableSort;
    var sent, all := TasksOf(before), TasksOf(s.log) + s.tasks;
    var later := all[|sent|..];
    assert all == sent + later;
    LifeInOrder(all, received);
    LifeConcat(sent, later);
    NoLife(later, t);
    SortUpTo(LifeEvents(all), LifeEvents(received), t);
    UpToLater(LifeEvents(sent), LifeEvents(later), t);
    var upTo := UpTo(LifeEvents(sent), t);
    StableSortFacts(upTo);
    if TookEffect(before, t) {
      SameOrderSwap(upTo, LifeOf(before));
      IsOneShotSort(LifeOf(before), upTo);
    }
    if StableSort(upTo) == LifeOf(before) {
      SameOrderSwap(LifeOf(before), upTo);
    }
  }

  lemma SameOrderSwap<T>(x: seq<Timed<T>>, y: seq<Timed<T>>)
    requires SameOrder(x, y)
    ensures SameOrder(y, x)
  {
  }

  lemma ReceivedSamples(s: Unwind, received: seq<Sample>, before: seq<Sample>, t: nat)
    requires Waiting(s) && SameOrder(SamplesOf(s.log) + s.samples, received) && t <= Reached(s.log)
    requires before <= SamplesOf(s.log) && AllAtLeast(SamplesOf(s.log)[|before|..], t)
    ensures before <= StableSort(received) && AllAtLeast(StableSort(received)[|before|..], t)
  {
    hide Orderly, LatestTime, SamplesOf, LifeOf, Reached;
    OrderlyParts(s.log);
    ReachedAll(s.log);
    LogAndBuffer(SamplesOf(s.log), s.samples, received, Reached(s.log));
  }

  lemma ReachedAll(log: seq<Entry>)
    ensures AllUntil(SamplesOf(log), Reached(log))
  {
    NoTime(SamplesOf(log));
    if SamplesOf(log) != [] {
      SamplesUntil(SamplesOf(log), LatestTime(SamplesOf(log)));
    }
  }

  lemma {:induction false} OrderlyPrefix(log: seq<Entry>, i: nat)
    requires Orderly(log) && i <= |log|
    ensures Orderly(log[..i])
    decreases |log|
  {
    if i < |log| {
      OrderlyPrefix(log[..|log| - 1], i);
      assert log[..|log| - 1][..i] == log[..i];
    } else {
      assert log[..i] == log;
    }
  }

  /** End to end, through forks and exits: in a run whose events arrive in time, at every sample
      that was analysed each address of each process means what the received samples and mappings
      up to the sample's time, each in stable order, and the forks and exits that took effect
      before it make of it. */
  lemma SampleFindsEffects(init: Unwind, ops: seq<Op>, i: nat, pid: int, a: int)
    requires Fresh(init) && InTimeRun(init, ops)
    requires i < |Run(init, ops).log| && Run(init, ops).log[i].Analyzed?
    ensures var log := Run(init, ops).log;
      var t := log[i].sample.time;
      Lookup(TableOf(Replay(log[..i]), pid).elfs, a) ==
      Seen(StableSort(SamplesIn(ops)), UpTo(StableSort(MmapsIn(ops)), t), LifeOf(log[..i]), pid, a)
  {
    hide Run, Replay, Meaning, Orderly, LatestTime, Reached, UpTo, LifeEvents, StableSort, Seen;
    hide SamplesOf, MmapsOf, LifeOf, TasksOf;
    var s := Run(init, ops);
    var t, before := s.log[i].sample.time, s.log[..i];
    InTimeRunIsOrderly(init, ops);
    RunConserves(init, ops);
    ContextStays(s.log, i);
    OrderlyPrefix(s.log, i);
    TablesMeanTheLog(before, pid, a);
    OrderlyMeaning(before, pid, a);
    ReceivedMmaps(s, MmapsIn(ops), t);
    ReceivedSamples(s, SamplesIn(ops), SamplesOf(before), t);
    var later := StableSort(SamplesIn(ops))[|SamplesOf(before)|..];
    assert SamplesOf(before) + later == StableSort(SamplesIn(ops));
    SeenSamples(SamplesOf(before), later, MmapsOf(before), LifeOf(before), t, pid, a);
  }

  /** The forks and exits that took effect before a sample are the received ones up to its time,
      in stable order, if and only if none of these was sent before without taking effect. */
  lemma EffectsAreReceived(init: Unwind, ops: seq<Op>, i: nat)
    requires Fresh(init) && InTimeRun(init, ops)
    requires i < |Run(init, ops).log| && Run(init, ops).log[i].Analyzed?
    ensures var log := Run(init, ops).log;
      var t := log[i].sample.time;
      LifeOf(log[..i]) == UpTo(StableSort(LifeEvents(TasksIn(ops))), t) <==> TookEffect(log[..i], t)
  {
    hide Run, Orderly, LatestTime, Reached, UpTo, LifeEvents, StableSort;
    hide SamplesOf, MmapsOf, LifeOf, TasksOf, TookEffect;
    var s := Run(init, ops);
    InTimeRunIsOrderly(init, ops);
    RunConserves(init, ops);
    ContextStays(s.log, i);
    OrderlyPrefix(s.log, i);
    OrderlyParts(s.log[..i]);
    ReceivedLife(s, s.log[..i], TasksIn(ops), s.log[i].sample.time);
  }

  /** The same with the received forks and exits up to the sample's time, as long as none of
      them was sent before the sample without taking effect. */
  lemma SampleFindsReceived(init: Unwind, ops: seq<Op>, i: nat, pid: int, a: int)
    requires Fresh(init) && InTimeRun(init, ops)
    requires i < |Run(init, ops).log| && Run(init, ops).log[i].Analyzed?
    requires TookEffect(Run(init, ops).log[..i], Run(init, ops).log[i].sample.time)
    ensures var log := Run(init, ops).log;
      var t := log[i].sample.time;
      Lookup(TableOf(Replay(log[..i]), pid).elfs, a) ==
      Seen(StableSort(SamplesIn(ops)), UpTo(StableSort(MmapsIn(ops)), t), UpTo(StableSort(LifeEvents(TasksIn(ops))), t),
           pid, a)
  {
    hide Run, Replay, UpTo, LifeEvents, StableSort, Seen, LifeOf, TookEffect;
    SampleFindsEffects(init, ops, i, pid, a);
    EffectsAreReceived(init, ops, i);
  }

  lemma LifeSorted(tasks: seq<Task>, t: nat)
    ensures var life := UpTo(StableSort(LifeEvents(tasks)), t);
      Sorted(life) && forall i :: 0 <= i < |life| ==> IsLifeEvent(life[i])
  {
    hide StableSort, LifeEvents, UpTo;
    SortMembers(LifeEvents(tasks));
    LifeMembers(tasks);
    UpToSorted(StableSort(LifeEvents(tasks)), t);
    UpToMembers(StableSort(LifeEvents(tasks)), t);
  }

  /** If no exit overtakes a mapping of its process, every sample finds what is expected: the
      mappings of a process over those that it inherited, since its last exit. */
  lemma SampleFindsExpected(init: Unwind, ops: seq<Op>, i: nat, pid: int, a: int)
    requires Fresh(init) && InTimeRun(init, ops)
    requires i < |Run(init, ops).log| && Run(init, ops).log[i].Analyzed?
    requires TookEffect(Run(init, ops).log[..i], Run(init, ops).log[i].sample.time)
    requires var t := Run(init, ops).log[i].sample.time;
      NothingOvertaken(StableSort(SamplesIn(ops)), UpTo(StableSort(MmapsIn(ops)), t),
                       UpTo(StableSort(LifeEvents(TasksIn(ops))), t))
    ensures var log := Run(init, ops).log;
      var t := log[i].sample.time;
      Lookup(TableOf(Replay(log[..i]), pid).elfs, a) ==
      Expected(UpTo(StableSort(MmapsIn(ops)), t), UpTo(StableSort(LifeEvents(TasksIn(ops))), t), pid, a)
  {
    hide Run, Replay, UpTo, LifeEvents, StableSort, Seen, Expected, NothingOvertaken, TookEffect;
    var t := Run(init, ops).log[i].sample.time;
    SampleFindsReceived(init, ops, i, pid, a);
    LifeSorted(TasksIn(ops), t);
    SeenAsExpected(StableSort(SamplesIn(ops)), UpTo(StableSort(MmapsIn(ops)), t),
                   UpTo(StableSort(LifeEvents(TasksIn(ops))), t), pid, a);
  }
}
