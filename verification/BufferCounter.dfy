/** The byte counter inside a flush, subtraction by subtraction. */
module BufferCounter {
  import opened WordArithmetic
  import opened TimeOrder
  import opened EventBuffer
  import opened DrainFacts
  import opened BufferRuns

  /** What one step of a flush takes off the counter: the size of the event that leaves. */
  function TakenSize(d: Drain, e: Drain): nat {
    if d.mmaps != [] && e == RegisterFirst(d) then d.mmaps[0].size
    else if d.tasks != [] && e == SendFirst(d) then d.tasks[0].size
    else if d.samples != [] && e == AnalyzeFirst(d) then d.samples[0].size
    else 0
  }

  /** One event leaves, or only the log or the maximal time changes. */
  predicate OneStep(d: Drain, e: Drain) {
    || (d.mmaps != [] && e == RegisterFirst(d))
    || (d.tasks != [] && e == SendFirst(d))
    || (d.samples != [] && e == AnalyzeFirst(d))
    || e == d.(log := e.log, lastFlushMaxTime := e.lastFlushMaxTime)
  }

  ghost predicate Path(ds: seq<Drain>, from: Drain, to: Drain) {
    && ds != [] && ds[0] == from && ds[|ds| - 1] == to
    && forall i :: 0 < i < |ds| ==> OneStep(ds[i - 1], ds[i])
  }

  lemma Extended(ds: seq<Drain>, from: Drain, mid: Drain, to: Drain)
    requires Path(ds, from, mid) && OneStep(mid, to)
    ensures Path(ds + [to], from, to)
  {
  }

  lemma Joined(x: seq<Drain>, y: seq<Drain>, from: Drain, mid: Drain, to: Drain)
    requires Path(x, from, mid) && Path(y, mid, to)
    ensures Path(x + y[1..], from, to)
  {
    hide OneStep;
    var z := x + y[1..];
    forall i | 0 < i < |z|
      ensures OneStep(z[i - 1], z[i])
    {
      if i >= |x| {
        assert OneStep(y[i - |x|], y[i - |x| + 1]);
      }
    }
  }

  lemma {:induction false} ForwardMmapsPath(d: Drain, t: nat) returns (ds: seq<Drain>)
    ensures Path(ds, d, ForwardMmaps(d, t))
    decreases |d.mmaps|
  {
    ds := [d];
    if d.mmaps != [] && d.mmaps[0].time <= t {
      var later := ForwardMmapsPath(RegisterFirst(d), t);
      Joined([d, RegisterFirst(d)], later, d, RegisterFirst(d), ForwardMmaps(d, t));
      ds := [d, RegisterFirst(d)] + later[1..];
    }
  }

  lemma HandleTaskPath(d: Drain) returns (ds: seq<Drain>)
    requires d.tasks != []
    ensures Path(ds, d, HandleTask(d))
  {
    hide ForwardMmaps;
    var t := d.tasks[0];
    ForwardKeepsTasks(d, t.time);
    var applied := ApplyTask(d, t);
    if IsFork(t) {
      var f := ForwardMmaps(d, t.time);
      ds := ForwardMmapsPath(d, t.time);
      Extended(ds, d, f, applied);
      ds := ds + [applied];
    } else {
      ds := [d, applied];
    }
    Extended(ds, d, applied, SendFirst(applied));
    ds := ds + [SendFirst(applied)];
  }

  lemma {:induction false} ForwardTasksPath(d: Drain, t: nat) returns (ds: seq<Drain>)
    ensures Path(ds, d, ForwardTasks(d, t))
    decreases |d.tasks|
  {
    hide HandleTask;
    ds := [d];
    if d.tasks != [] && d.tasks[0].time <= t {
      var first := HandleTaskPath(d);
      var later := ForwardTasksPath(HandleTask(d), t);
      Joined(first, later, d, HandleTask(d), ForwardTasks(d, t));
      ds := first + later[1..];
    }
  }

  lemma DispatchPath(d: Drain) returns (ds: seq<Drain>)
    requires d.samples != []
    ensures Path(ds, d, DispatchSample(d))
  {
    hide ForwardTasks, ForwardMmaps, OneStep;
    var t := d.samples[0].time;
    var tasks := ForwardTasks(d, t);
    ForwardKeepsTasks(tasks, t);
    var mmaps := ForwardMmaps(tasks, t);
    var x := ForwardTasksPath(d, t);
    var y := ForwardMmapsPath(tasks, t);
    Joined(x, y, d, tasks, mmaps);
    AnalyzeIsStep(mmaps);
    Extended(x + y[1..], d, mmaps, AnalyzeFirst(mmaps));
    ds := x + y[1..] + [AnalyzeFirst(mmaps)];
  }

  lemma AnalyzeIsStep(d: Drain)
    requires d.samples != []
    ensures OneStep(d, AnalyzeFirst(d))
  {
  }

  lemma {:induction false} SampleLoopPath(d: Drain, desired: u32, violates: bool) returns (ds: seq<Drain>)
    ensures Path(ds, d, SampleLoop(d, desired, violates).0)
    decreases |d.samples|
  {
    hide DispatchSample, ForwardMmaps;
    var end := SampleLoop(d, desired, violates).0;
    ds := [d];
    if d.size > desired && d.samples != [] {
      if d.samples[0].time < d.lastFlushMaxTime {
        ds := DispatchPath(d);
        var later := SampleLoopPath(DispatchSample(d), desired, true);
        Joined(ds, later, d, DispatchSample(d), end);
        ds := ds + later[1..];
      } else if violates {
        ds := ForwardMmapsPath(d, d.lastFlushMaxTime);
      } else {
        var n := d.(lastFlushMaxTime := d.samples[0].time);
        var next := DispatchPath(n);
        Joined([d, n], next, d, n, DispatchSample(n));
        ds := [d, n] + next[1..];
        var later := SampleLoopPath(DispatchSample(n), desired, false);
        Joined(ds, later, d, DispatchSample(n), end);
        ds := ds + later[1..];
      }
    }
  }

  lemma {:induction false} TrailingTasksPath(d: Drain, desired: u32) returns (ds: seq<Drain>)
    ensures Path(ds, d, TrailingTasks(d, desired))
    decreases |d.tasks|
  {
    ds := [d];
    if d.size > desired && d.tasks != [] {
      var later := TrailingTasksPath(SendFirst(d), desired);
      Joined([d, SendFirst(d)], later, d, SendFirst(d), TrailingTasks(d, desired));
      ds := [d, SendFirst(d)] + later[1..];
    }
  }

  lemma ExactStep(d: Drain, e: Drain)
    requires OneStep(d, e) && d.size == Bytes(d)
    ensures e.size == Bytes(e) && TakenSize(d, e) <= d.size && e.size == d.size - TakenSize(d, e)
  {
  }

  /** A whole flush, as the steps it makes: from an exact counter on, the counter is exact
      after every step, and no event that leaves is larger than the counter it is taken off,
      so that no subtraction wraps. */
  lemma FlushNeverUnderflows(s: Unwind, desired: u32) returns (ds: seq<Drain>)
    requires ExactSize(s)
    ensures Path(ds, StartDrain(s), Drained(s, desired).0)
    ensures forall i :: 0 <= i < |ds| ==> ds[i].size == Bytes(ds[i])
    ensures forall i :: 0 < i < |ds| ==>
      && TakenSize(ds[i - 1], ds[i]) <= ds[i - 1].size
      && ds[i].size == ds[i - 1].size - TakenSize(ds[i - 1], ds[i])
  {
    hide SampleLoop, TrailingTasks, OneStep, TakenSize, StartDrain;
    var start := StartDrain(s);
    var (d, violates) := SampleLoop(start, desired, MmapsViolate(s));
    var x := SampleLoopPath(start, desired, MmapsViolate(s));
    var y := TrailingTasksPath(d, desired);
    Joined(x, y, start, d, TrailingTasks(d, desired));
    ds := x + y[1..];
    StartIsExact(s);
    ExactAlong(ds, |ds| - 1);
  }

  lemma StartIsExact(s: Unwind)
    requires ExactSize(s)
    ensures StartDrain(s).size == Bytes(StartDrain(s))
  {
    StableSortFacts(s.samples);
    StableSortFacts(s.mmaps);
    StableSortFacts(s.tasks);
  }

  lemma {:induction false} ExactAlong(ds: seq<Drain>, n: nat)
    requires n < |ds| && ds[0].size == Bytes(ds[0])
    requires forall i :: 0 < i < |ds| ==> OneStep(ds[i - 1], ds[i])
    ensures forall i :: 0 <= i <= n ==> ds[i].size == Bytes(ds[i])
    ensures forall i :: 0 < i <= n ==>
      && TakenSize(ds[i - 1], ds[i]) <= ds[i - 1].size
      && ds[i].size == ds[i - 1].size - TakenSize(ds[i - 1], ds[i])
  {
    hide OneStep, TakenSize, Bytes;
    if n > 0 {
      ExactAlong(ds, n - 1);
      ExactStep(ds[n - 1], ds[n]);
    }
  }
}
