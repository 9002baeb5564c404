/** The address maps of all processes, as the log of the event buffer builds them up, and
    what a sample finds in them when it is analysed. */
module AddressSpaces {
  import opened WordArithmetic
  import opened TimeOrder
  import opened ElfMaps
  import opened EventBuffer
  import opened BufferRuns

  const KERNEL_PID := -1

  type Tables = map<int, ElfState>

  /** A process without a table has an empty address map. */
  function TableOf(t: Tables, pid: int): ElfState {
    if pid in t then t[pid] else EMPTY_STATE
  }

  /** What one log entry does to the tables. */
  function Apply(t: Tables, e: Entry): Tables {
    match e
    case Registered(m) => t[m.body.pid := Register(TableOf(t, m.body.pid), m.body.mapping)]
    case Forked(f) =>
      var parent := f.body.kind;
      if parent.ThreadStart? then
        t[parent.parentPid := TableOf(t, parent.parentPid)][f.body.pid := TableOf(t, parent.parentPid)]
      else t
    case Exited(x) => t - {x.body.pid}
    case Sent(_) => t
    case Analyzed(s) =>
      t[KERNEL_PID := TableOf(t, KERNEL_PID)][s.body.pid := TableOf(t, s.body.pid)]
  }

  function Replay(log: seq<Entry>): Tables {
    if log == [] then map[] else Apply(Replay(log[..|log| - 1]), log[|log| - 1])
  }

  // ------------------------------------------------------------ the meaning of a log

  /** What an address of a process means after a log: the last registration of the process
      that covers it, as seen through forks, since the process last ended. */
  ghost function Meaning(log: seq<Entry>, pid: int, a: int): Target {
    if log == [] then Unmapped
    else
      var front := log[..|log| - 1];
      match log[|log| - 1]
      case Registered(m) =>
        if m.body.pid == pid then Overwritten(m.body.mapping, Meaning(front, pid, a), a)
        else Meaning(front, pid, a)
      case Forked(f) =>
        if f.body.pid == pid && f.body.kind.ThreadStart? then Meaning(front, f.body.kind.parentPid, a)
        else Meaning(front, pid, a)
      case Exited(x) => if x.body.pid == pid then Unmapped else Meaning(front, pid, a)
      case _ => Meaning(front, pid, a)
  }

  /** Every address map always means what the log says, through every registration, fork
      and exit. */
  lemma {:induction false} TablesMeanTheLog(log: seq<Entry>, pid: int, a: int)
    ensures Lookup(TableOf(Replay(log), pid).elfs, a) == Meaning(log, pid, a)
    decreases |log|
  {
    hide Register;
    if log != [] {
      var front, e := log[..|log| - 1], log[|log| - 1];
      TablesMeanTheLog(front, pid, a);
      match e
      case Registered(m) =>
        RegisterRefinesOverwrite(TableOf(Replay(front), m.body.pid), m.body.mapping, a);
      case Forked(f) =>
        if f.body.kind.ThreadStart? {
          TablesMeanTheLog(front, f.body.kind.parentPid, a);
        }
      case _ =>
    }
  }

  /** Whether an entry changes the address map of a process. */
  predicate Concerns(e: Entry, pid: int) {
    match e
    case Registered(m) => m.body.pid == pid
    case Forked(f) => f.body.pid == pid
    case Exited(x) => x.body.pid == pid
    case _ => false
  }

  /** A fork gives the child the map of its parent at that point; whatever happens to other
      processes afterwards, the parent included, the child keeps it. */
  lemma {:induction false} ForkCopiesOnce(log: seq<Entry>, fork: Task, later: seq<Entry>, a: int)
    requires IsFork(fork)
    requires forall e :: e in later ==> !Concerns(e, fork.body.pid)
    ensures Meaning(log + [Forked(fork)] + later, fork.body.pid, a) == Meaning(log, fork.body.kind.parentPid, a)
    decreases |later|
  {
    var whole := log + [Forked(fork)] + later;
    if later == [] {
      assert whole == log + [Forked(fork)];
      assert whole[..|whole| - 1] == log;
    } else {
      ForkCopiesOnce(log, fork, later[..|later| - 1], a);
      assert whole[..|whole| - 1] == log + [Forked(fork)] + later[..|later| - 1];
      assert later[|later| - 1] in later;
    }
  }

  /** A fork leaves every other process as it was. */
  lemma ForkLeavesOthers(log: seq<Entry>, fork: Task, pid: int, a: int)
    requires pid != fork.body.pid
    ensures Meaning(log + [Forked(fork)], pid, a) == Meaning(log, pid, a)
  {
    assert (log + [Forked(fork)])[..|log|] == log;
  }

  lemma MeaningAfter(log: seq<Entry>, e: Entry, t: Task, pid: int, a: int)
    ensures Meaning(log + [e] + [Sent(t)], pid, a) == Meaning(log + [e], pid, a)
    ensures Meaning(log + [Sent(t)], pid, a) == Meaning(log, pid, a)
    ensures Meaning(log + [Exited(t)], pid, a) == if pid == t.body.pid then Unmapped else Meaning(log, pid, a)
  {
    assert (log + [e] + [Sent(t)])[..|log| + 1] == log + [e];
    assert (log + [Sent(t)])[..|log|] == log && (log + [Exited(t)])[..|log|] == log;
  }

  lemma MeaningOfFork(log: seq<Entry>, t: Task, pid: int, a: int)
    requires t.body.kind.ThreadStart?
    ensures Meaning(log + [Forked(t)], pid, a) ==
      Meaning(log, if pid == t.body.pid then t.body.kind.parentPid else pid, a)
  {
    assert (log + [Forked(t)])[..|log|] == log;
  }

  /** What the first buffered task event does to the address maps. The start of a thread in
      another process is a fork: the mappings up to its time are registered, and the child gets
      its parent's map. The end of a process's main thread ends the process. Every other event
      is sent and changes nothing. */
  lemma TaskMeaning(d: Drain, pid: int, a: int)
    requires d.tasks != []
    ensures var t, after := d.tasks[0], HandleTask(d).log;
      var kind := t.body.kind;
      if kind.ThreadStart? && t.body.pid != kind.parentPid then
        var before := ForwardMmaps(d, t.time).log;
        && after == before + [Forked(t)] + [Sent(t)]
        && Meaning(after, pid, a) == Meaning(before, if pid == t.body.pid then kind.parentPid else pid, a)
      else if kind.ThreadEnd? && t.body.pid == t.body.tid then
        && after == d.log + [Exited(t)] + [Sent(t)]
        && Meaning(after, pid, a) == if pid == t.body.pid then Unmapped else Meaning(d.log, pid, a)
      else after == d.log + [Sent(t)] && Meaning(after, pid, a) == Meaning(d.log, pid, a)
  {
    hide Meaning;
    var t := d.tasks[0];
    ForwardKeepsTasks(d, t.time);
    if t.body.kind.ThreadStart? {
      MeaningAfter(ForwardMmaps(d, t.time).log, Forked(t), t, pid, a);
      MeaningOfFork(ForwardMmaps(d, t.time).log, t, pid, a);
    }
    MeaningAfter(d.log, Exited(t), t, pid, a);
  }

  // ------------------------------------------------------------ end to end

  /** Mappings in order over what was there: at every address of a process the last one wins. */
  ghost function LaidOver(mmaps: seq<Mmap>, pid: int, a: int, below: Target): Target {
    if mmaps == [] then below
    else
      var m := mmaps[|mmaps| - 1].body;
      if m.pid == pid && InMapping(m.mapping, a)
      then Mapped(m.mapping.originalPath, m.mapping.pgoff + a - m.mapping.addr)
      else LaidOver(mmaps[..|mmaps| - 1], pid, a, below)
  }

  /** The overlay of mappings in order, over nothing. */
  ghost function Overlay(mmaps: seq<Mmap>, pid: int, a: int): Target {
    LaidOver(mmaps, pid, a, Unmapped)
  }

  /** No fork and no exit of a process. */
  ghost predicate Lasting(log: seq<Entry>, pid: int) {
    forall i :: 0 <= i < |log| && (log[i].Forked? || log[i].Exited?) ==> !Concerns(log[i], pid)
  }

  lemma {:induction false} LastingMeaning(log: seq<Entry>, pid: int, a: int)
    requires Lasting(log, pid)
    ensures Meaning(log, pid, a) == Overlay(MmapsOf(log), pid, a)
    decreases |log|
  {
    if log != [] {
      var front, e := log[..|log| - 1], log[|log| - 1];
      LastingMeaning(front, pid, a);
      if e.Registered? {
        assert MmapsOf(log)[..|MmapsOf(log)| - 1] == MmapsOf(front);
      } else {
        assert !Concerns(e, pid);
        assert MmapsOf(log) == MmapsOf(front);
      }
    }
  }

  /** No thread of another process starts the process, and its main thread does not end. */
  ghost predicate LastingTasks(tasks: seq<Task>, pid: int) {
    forall i :: 0 <= i < |tasks| && tasks[i].body.pid == pid ==>
      var t := tasks[i].body;
      && (t.kind.ThreadStart? ==> t.pid == t.kind.parentPid)
      && (t.kind.ThreadEnd? ==> t.pid != t.tid)
  }

  lemma LastingAppend(log: seq<Entry>, e: Entry, pid: int)
    requires Lasting(log, pid) && (e.Forked? || e.Exited? ==> !Concerns(e, pid))
    ensures Lasting(log + [e], pid)
  {
  }

  lemma {:induction false} ForwardMmapsLasting(d: Drain, t: nat, pid: int)
    requires Lasting(d.log, pid)
    ensures Lasting(ForwardMmaps(d, t).log, pid)
    decreases |d.mmaps|
  {
    if d.mmaps != [] && d.mmaps[0].time <= t {
      ForwardMmapsLasting(RegisterFirst(d), t, pid);
    }
  }

  lemma HandleTaskLasting(d: Drain, pid: int)
    requires Lasting(d.log, pid) && LastingTasks(d.tasks, pid) && d.tasks != []
    ensures Lasting(HandleTask(d).log, pid) && LastingTasks(HandleTask(d).tasks, pid)
  {
    var t := d.tasks[0];
    if IsFork(t) {
      ForwardMmapsLasting(d, t.time, pid);
      LastingAppend(ForwardMmaps(d, t.time).log, Forked(t), pid);
    }
    ForwardKeepsTasks(d, t.time);
    LastingAppend(ApplyTask(d, t).log, Sent(t), pid);
  }

  lemma {:induction false} ForwardTasksLasting(d: Drain, t: nat, pid: int)
    requires Lasting(d.log, pid) && LastingTasks(d.tasks, pid)
    ensures Lasting(ForwardTasks(d, t).log, pid) && LastingTasks(ForwardTasks(d, t).tasks, pid)
    decreases |d.tasks|
  {
    if d.tasks != [] && d.tasks[0].time <= t {
      HandleTaskLasting(d, pid);
      ForwardTasksLasting(HandleTask(d), t, pid);
    }
  }

  lemma DispatchLasting(d: Drain, pid: int)
    requires d.samples != [] && Lasting(d.log, pid) && LastingTasks(d.tasks, pid)
    ensures Lasting(DispatchSample(d).log, pid) && LastingTasks(DispatchSample(d).tasks, pid)
  {
    var t := d.samples[0].time;
    ForwardTasksLasting(d, t, pid);
    ForwardMmapsLasting(ForwardTasks(d, t), t, pid);
    ForwardKeepsTasks(ForwardTasks(d, t), t);
    LastingAppend(ForwardMmaps(ForwardTasks(d, t), t).log, Analyzed(d.samples[0]), pid);
  }

  lemma {:induction false} SampleLoopLasting(d: Drain, desired: u32, violates: bool, pid: int)
    requires Lasting(d.log, pid) && LastingTasks(d.tasks, pid)
    ensures var r := SampleLoop(d, desired, violates).0;
      Lasting(r.log, pid) && LastingTasks(r.tasks, pid)
    decreases |d.samples|
  {
    if d.size > desired && d.samples != [] {
      if d.samples[0].time < d.lastFlushMaxTime {
        DispatchLasting(d, pid);
        SampleLoopLasting(DispatchSample(d), desired, true, pid);
      } else if violates {
        ForwardMmapsLasting(d, d.lastFlushMaxTime, pid);
        ForwardKeepsTasks(d, d.lastFlushMaxTime);
      } else {
        var n := d.(lastFlushMaxTime := d.samples[0].time);
        DispatchLasting(n, pid);
        SampleLoopLasting(DispatchSample(n), desired, false, pid);
      }
    }
  }

  lemma {:induction false} TrailingLasting(d: Drain, desired: u32, pid: int)
    requires Lasting(d.log, pid) && LastingTasks(d.tasks, pid)
    ensures Lasting(TrailingTasks(d, desired).log, pid) && LastingTasks(TrailingTasks(d, desired).tasks, pid)
    decreases |d.tasks|
  {
    if d.size > desired && d.tasks != [] {
      TrailingLasting(SendFirst(d), desired, pid);
    }
  }

  lemma FlushLasting(s: Unwind, desired: u32, pid: int)
    requires Lasting(s.log, pid) && LastingTasks(s.tasks, pid)
    ensures Lasting(Flush(s, desired).log, pid) && LastingTasks(Flush(s, desired).tasks, pid)
  {
    hide Flush;
    FlushFields(s, desired);
    var start := StartDrain(s);
    StableSortFacts(s.tasks);
    SameOrderKeepsEvents(start.tasks, s.tasks);
    forall i | 0 <= i < |start.tasks|
      ensures start.tasks[i] in s.tasks
    {
      assert start.tasks[i] in multiset(start.tasks);
      assert start.tasks[i] in multiset(s.tasks);
    }
    SampleLoopLasting(start, desired, MmapsViolate(s), pid);
    TrailingLasting(SampleLoop(start, desired, MmapsViolate(s)).0, desired, pid);
  }

  /** Without received fork and exit events of a process, none is logged. */
  lemma {:induction false} RunLasting(init: Unwind, ops: seq<Op>, pid: int)
    requires Fresh(init) && LastingTasks(TasksIn(ops), pid)
    ensures Lasting(Run(init, ops).log, pid) && LastingTasks(Run(init, ops).tasks, pid)
    decreases |ops|
  {
    hide Flush;
    if ops != [] {
      var front, op := ops[..|ops| - 1], ops[|ops| - 1];
      var s := Run(init, front);
      ReceivedAppend(ops);
      if op.BufferTask? {
        assert TasksIn(ops)[|TasksIn(front)|] == op.task;
      }
      assert forall i :: 0 <= i < |TasksIn(front)| ==> TasksIn(ops)[i] == TasksIn(front)[i];
      RunLasting(init, front, pid);
      if Buffers(op) {
        FlushLasting(Append(s, op), Append(s, op).target / 2, pid);
      } else {
        FlushLasting(s, s.size / 2, pid);
        FlushLasting(FinishedRound(s), 0, pid);
      }
    }
  }

  /** End to end, for a process that neither was forked nor exited: in a run without time order
      violation and counter overflow, when a sample is analysed its address map is the overlay,
      in stable time order, of exactly those mappings of the process received so far whose time
      is at most the sample's. */
  lemma SampleFindsOverlay(init: Unwind, ops: seq<Op>, i: nat, pid: int, a: int)
    requires Fresh(init) && FittingRun(init, ops) && ops != [] && Run(init, ops).violations == 0
    requires LastingTasks(TasksIn(ops), pid)
    requires |Run(init, ops[..|ops| - 1]).log| <= i < |Run(init, ops).log|
    requires Run(init, ops).log[i].Analyzed?
    ensures var log := Run(init, ops).log;
      Lookup(TableOf(Replay(log[..i]), pid).elfs, a) ==
      Overlay(UpTo(StableSort(MmapsIn(ops)), log[i].sample.time), pid, a)
  {
    hide Run, Replay, Meaning;
    var log := Run(init, ops).log;
    SamplesSeeExactMmaps(init, ops);
    RunLasting(init, ops, pid);
    TablesMeanTheLog(log[..i], pid, a);
    LastingMeaning(log[..i], pid, a);
  }
}
