/** The unwinder's event buffer and address maps as the program keeps them: fields and
    tables updated in place. */
module PerfUnwinds {
  import opened WordArithmetic
  import opened TimeOrder
  import opened ElfMaps
  import opened PerfElfMaps
  import opened EventBuffer
  import opened AddressSpaces

  lemma ReplayAppend(log: seq<Entry>, e: Entry)
    ensures Replay(log + [e]) == Apply(Replay(log), e)
  {
    assert (log + [e])[..|log|] == log;
  }

  class PerfUnwind {
    var sampleBuffer: seq<Sample>
    var mmapBuffer: seq<Mmap>
    var taskEventsBuffer: seq<Task>
    var symbolTables: map<int, PerfElfMap>

    var lastEventBufferSize: u32
    var maxEventBufferSize: u32
    var targetEventBufferSize: u32
    var eventBufferSize: u32
    var timeOrderViolations: nat
    var lastFlushMaxTime: nat
    var tracePointAttributes: bool

    ghost var log: seq<Entry>
    ghost var repr: set<PerfElfMap>

    /** Every process has its own address map object. */
    ghost predicate TablesValid()
      reads this`symbolTables, this`repr, repr
    {
      && (forall pid :: pid in symbolTables ==> symbolTables[pid] in repr && symbolTables[pid].Valid())
      && (forall p, q :: p in symbolTables && q in symbolTables && p != q ==> symbolTables[p] != symbolTables[q])
    }

    ghost function Tables(): Tables
      requires TablesValid()
      reads this`symbolTables, this`repr, repr
    {
      map pid | pid in symbolTables :: symbolTables[pid].State()
    }

    /** The address maps are exactly what the log says. */
    ghost predicate Valid()
      reads this, repr
    {
      TablesValid() && Tables() == Replay(log)
    }

    ghost function Abs(): Unwind
      reads this
    {
      Unwind(sampleBuffer, mmapBuffer, taskEventsBuffer, eventBufferSize, lastFlushMaxTime,
             lastEventBufferSize, maxEventBufferSize, targetEventBufferSize,
             timeOrderViolations, tracePointAttributes, log)
    }

    constructor ()
      ensures Valid() && Abs() == INITIAL
    {
      sampleBuffer, mmapBuffer, taskEventsBuffer, symbolTables := [], [], [], map[];
      lastEventBufferSize, maxEventBufferSize, targetEventBufferSize := 0x10_0000, 0x4000_0000, 0x200_0000;
      eventBufferSize, timeOrderViolations, lastFlushMaxTime := 0, 0, 0;
      tracePointAttributes := false;
      log, repr := [], {};
    }

    // ---------------------------------------------------------- address maps

    /** The address map of a process, created on first use. */
    method SymbolTable(pid: int) returns (t: PerfElfMap)
      requires TablesValid()
      modifies this`symbolTables, this`repr
      ensures TablesValid() && pid in symbolTables && symbolTables[pid] == t
      ensures symbolTables == old(symbolTables)[pid := t]
      ensures pid in old(symbolTables) ==> symbolTables == old(symbolTables)
      ensures Tables() == old(Tables())[pid := TableOf(old(Tables()), pid)]
      ensures fresh(repr - old(repr))
    {
      hide ValidElfs;
      if pid !in symbolTables {
        var n := new PerfElfMap();
        symbolTables := symbolTables[pid := n];
        repr := repr + {n};
      }
      t := symbolTables[pid];
    }

    /** Registers a mapping in one existing table; the others stay as they are. */
    method RegisterIn(pid: int, m: Mapping)
      requires TablesValid() && pid in symbolTables
      modifies symbolTables[pid]
      ensures TablesValid()
      ensures Tables() == old(Tables())[pid := Register(old(Tables())[pid], m)]
    {
      hide Register, ValidElfs, Lookup, Overwritten;
      var t := symbolTables[pid];
      var _ := t.RegisterElf(m);
      assert forall p :: p in symbolTables && p != pid ==> symbolTables[p] != t;
    }

    /** Overwrites one existing table with a copy of another one. */
    method CopyTable(parentPid: int, childPid: int)
      requires TablesValid() && parentPid in symbolTables && childPid in symbolTables
      modifies symbolTables[childPid]
      ensures TablesValid()
      ensures Tables() == old(Tables())[childPid := old(Tables())[parentPid]]
    {
      hide ValidElfs;
      var child := symbolTables[childPid];
      child.CopyDataFrom(symbolTables[parentPid]);
      assert forall p :: p in symbolTables && p != childPid ==> symbolTables[p] != child;
    }

    method RegisterMapping(m: Mmap)
      requires TablesValid()
      modifies this`symbolTables, this`repr, repr
      ensures TablesValid() && Tables() == Apply(old(Tables()), Registered(m))
      ensures fresh(repr - old(repr))
    {
      hide Register, ValidElfs;
      var t := SymbolTable(m.body.pid);
      RegisterIn(m.body.pid, m.body.mapping);
    }

    /** Creates the tables of two processes where they are missing. */
    method TwoTables(p: int, q: int)
      requires TablesValid()
      modifies this`symbolTables, this`repr
      ensures TablesValid() && p in symbolTables && q in symbolTables
      ensures Tables() == old(Tables())[p := TableOf(old(Tables()), p)][q := TableOf(old(Tables()), q)]
      ensures fresh(repr - old(repr))
    {
      hide ValidElfs;
      var first := SymbolTable(p);
      var second := SymbolTable(q);
    }

    method InitAfterFork(f: Task)
      requires TablesValid() && IsFork(f)
      modifies this`symbolTables, this`repr, repr
      ensures TablesValid() && Tables() == Apply(old(Tables()), Forked(f))
      ensures fresh(repr - old(repr))
    {
      hide ValidElfs;
      TwoTables(f.body.kind.parentPid, f.body.pid);
      CopyTable(f.body.kind.parentPid, f.body.pid);
    }

    method TakeTable(x: Task)
      requires TablesValid()
      modifies this`symbolTables
      ensures TablesValid() && Tables() == Apply(old(Tables()), Exited(x))
    {
      symbolTables := symbolTables - {x.body.pid};
    }

    /** Looks up what a sample needs; only the creation of missing tables is observable. */
    method Analyze(s: Sample)
      requires TablesValid()
      modifies this`symbolTables, this`repr
      ensures TablesValid() && Tables() == Apply(old(Tables()), Analyzed(s))
      ensures fresh(repr - old(repr))
    {
      TwoTables(KERNEL_PID, s.body.pid);
    }

    // ---------------------------------------------------------- flushing

    ghost predicate InBuffers(si: nat, mi: nat, ti: nat)
      reads this
    {
      si <= |sampleBuffer| && mi <= |mmapBuffer| && ti <= |taskEventsBuffer|
    }

    /** The flush in progress that three iterators into the buffers stand for. */
    ghost function Draining(si: nat, mi: nat, ti: nat): Drain
      requires InBuffers(si, mi, ti)
      reads this
    {
      Drain(sampleBuffer[si..], mmapBuffer[mi..], taskEventsBuffer[ti..], eventBufferSize, lastFlushMaxTime, log)
    }

    method RegisterNext(ghost si: nat, mi: nat, ghost ti: nat)
      requires Valid() && InBuffers(si, mi, ti) && mi < |mmapBuffer|
      modifies this`eventBufferSize, this`log, this`symbolTables, this`repr, repr
      ensures Valid() && fresh(repr - old(repr)) && InBuffers(si, mi + 1, ti)
      ensures Draining(si, mi + 1, ti) == RegisterFirst(old(Draining(si, mi, ti)))
    {
      hide Apply, Replay, ValidElfs;
      RegisterMapping(mmapBuffer[mi]);
      eventBufferSize := Wrap32(eventBufferSize - mmapBuffer[mi].size);
      ReplayAppend(log, Registered(mmapBuffer[mi]));
      log := log + [Registered(mmapBuffer[mi])];
    }

    /** Registers the buffered mappings up to a time. */
    method ForwardMmapBuffer(ghost si: nat, begin: nat, ghost ti: nat, timestamp: nat) returns (mi: nat)
      requires Valid() && InBuffers(si, begin, ti)
      modifies this`eventBufferSize, this`log, this`symbolTables, this`repr, repr
      ensures Valid() && fresh(repr - old(repr)) && InBuffers(si, mi, ti)
      ensures Draining(si, mi, ti) == ForwardMmaps(old(Draining(si, begin, ti)), timestamp)
    {
      hide RegisterFirst, Replay, ValidElfs;
      mi := begin;
      while mi < |mmapBuffer| && mmapBuffer[mi].time <= timestamp
        invariant Valid() && fresh(repr - old(repr)) && InBuffers(si, mi, ti)
        invariant ForwardMmaps(Draining(si, mi, ti), timestamp) == ForwardMmaps(old(Draining(si, begin, ti)), timestamp)
      {
        RegisterNext(si, mi, ti);
        mi := mi + 1;
      }
    }

    /** Sends one task event, after what it does to the processes. */
    method HandleNext(ghost si: nat, begin: nat, ti: nat) returns (mi: nat)
      requires Valid() && InBuffers(si, begin, ti) && ti < |taskEventsBuffer|
      modifies this`eventBufferSize, this`log, this`symbolTables, this`repr, repr
      ensures Valid() && fresh(repr - old(repr)) && InBuffers(si, mi, ti + 1)
      ensures Draining(si, mi, ti + 1) == HandleTask(old(Draining(si, begin, ti)))
    {
      hide ForwardMmaps, Replay, ValidElfs;
      ForwardKeepsTasks(Draining(si, begin, ti), taskEventsBuffer[ti].time);
      mi := ApplyNext(si, begin, ti, taskEventsBuffer[ti]);
      SendTaskEvent(taskEventsBuffer[ti]);
    }

    /** What a task event does to the processes: a fork brings the mappings up to date and
        copies the parent's map, the end of a process drops its map. */
    method ApplyNext(ghost si: nat, begin: nat, ghost ti: nat, task: Task) returns (mi: nat)
      requires Valid() && InBuffers(si, begin, ti)
      modifies this`eventBufferSize, this`log, this`symbolTables, this`repr, repr
      ensures Valid() && fresh(repr - old(repr)) && InBuffers(si, mi, ti)
      ensures Draining(si, mi, ti) == ApplyTask(old(Draining(si, begin, ti)), task)
    {
      hide ForwardMmaps, Replay, ValidElfs, IsFork, IsExit;
      mi := begin;
      if IsFork(task) {
        mi := ForwardMmapBuffer(si, mi, ti, task.time);
        Fork(task);
      } else if IsExit(task) {
        Exit(task);
      }
    }

    method Fork(task: Task)
      requires Valid() && IsFork(task)
      modifies this`log, this`symbolTables, this`repr, repr
      ensures Valid() && fresh(repr - old(repr)) && log == old(log) + [Forked(task)]
    {
      hide Apply, Replay, ValidElfs;
      InitAfterFork(task);
      ReplayAppend(log, Forked(task));
      log := log + [Forked(task)];
    }

    method Exit(task: Task)
      requires Valid() && IsExit(task)
      modifies this`log, this`symbolTables
      ensures Valid() && log == old(log) + [Exited(task)]
    {
      hide Apply, Replay, ValidElfs;
      TakeTable(task);
      ReplayAppend(log, Exited(task));
      log := log + [Exited(task)];
    }

    /** Writes a task event to the output and takes it off the byte counter. */
    method SendTaskEvent(task: Task)
      requires Valid()
      modifies this`eventBufferSize, this`log
      ensures Valid() && log == old(log) + [Sent(task)]
      ensures eventBufferSize == Wrap32(old(eventBufferSize) - task.size)
    {
      hide Replay, ValidElfs;
      ReplayAppend(log, Sent(task));
      log := log + [Sent(task)];
      eventBufferSize := Wrap32(eventBufferSize - task.size);
    }

    /** Handles the buffered task events up to a time. */
    method ForwardTaskEvents(ghost si: nat, mBegin: nat, tBegin: nat, timestamp: nat) returns (mi: nat, ti: nat)
      requires Valid() && InBuffers(si, mBegin, tBegin)
      modifies this`eventBufferSize, this`log, this`symbolTables, this`repr, repr
      ensures Valid() && fresh(repr - old(repr)) && InBuffers(si, mi, ti)
      ensures Draining(si, mi, ti) == ForwardTasks(old(Draining(si, mBegin, tBegin)), timestamp)
    {
      hide HandleTask, Replay, ValidElfs;
      mi, ti := mBegin, tBegin;
      while ti < |taskEventsBuffer| && taskEventsBuffer[ti].time <= timestamp
        invariant Valid() && fresh(repr - old(repr)) && InBuffers(si, mi, ti)
        invariant ForwardTasks(Draining(si, mi, ti), timestamp) ==
          ForwardTasks(old(Draining(si, mBegin, tBegin)), timestamp)
      {
        mi := HandleNext(si, mi, ti);
        ti := ti + 1;
      }
    }

    /** Brings tasks and mappings up to the next sample and analyses it. */
    method DispatchNext(si: nat, mBegin: nat, tBegin: nat) returns (mi: nat, ti: nat)
      requires Valid() && InBuffers(si, mBegin, tBegin) && si < |sampleBuffer|
      modifies this`eventBufferSize, this`log, this`symbolTables, this`repr, repr
      ensures Valid() && fresh(repr - old(repr)) && InBuffers(si + 1, mi, ti)
      ensures Draining(si + 1, mi, ti) == DispatchSample(old(Draining(si, mBegin, tBegin)))
    {
      hide ForwardTasks, ForwardMmaps, Replay, ValidElfs;
      var sample := sampleBuffer[si];
      ghost var start := Draining(si, mBegin, tBegin);
      mi, ti := ForwardTaskEvents(si, mBegin, tBegin, sample.time);
      ForwardKeepsTasks(Draining(si, mi, ti), sample.time);
      mi := ForwardMmapBuffer(si, mi, ti, sample.time);
      assert Draining(si, mi, ti) == ForwardMmaps(ForwardTasks(start, sample.time), sample.time);
      AnalyzeNext(sample);
      eventBufferSize := Wrap32(eventBufferSize - sample.size);
    }

    method AnalyzeNext(sample: Sample)
      requires Valid()
      modifies this`log, this`symbolTables, this`repr
      ensures Valid() && fresh(repr - old(repr)) && log == old(log) + [Analyzed(sample)]
    {
      hide Apply, Replay, ValidElfs;
      Analyze(sample);
      ReplayAppend(log, Analyzed(sample));
      log := log + [Analyzed(sample)];
    }

    /** The sample loop. Behind samples that violate the time order it stops at the first
        one that does not, after registering the mappings that violate it too. */
    method DrainSamples(desired: u32, violatesBefore: bool) returns (si: nat, mi: nat, ti: nat, violates: bool)
      requires Valid()
      modifies this`eventBufferSize, this`lastFlushMaxTime, this`log, this`symbolTables, this`repr, repr
      ensures Valid() && fresh(repr - old(repr)) && InBuffers(si, mi, ti)
      ensures (Draining(si, mi, ti), violates) == SampleLoop(old(Draining(0, 0, 0)), desired, violatesBefore)
    {
      hide DispatchSample, ForwardMmaps, Replay, ValidElfs;
      si, mi, ti, violates := 0, 0, 0, violatesBefore;
      while eventBufferSize > desired && si < |sampleBuffer|
        invariant Valid() && fresh(repr - old(repr)) && InBuffers(si, mi, ti)
        invariant SampleLoop(Draining(si, mi, ti), desired, violates) ==
                  SampleLoop(old(Draining(0, 0, 0)), desired, violatesBefore)
        decreases |sampleBuffer| - si
      {
        var timestamp := sampleBuffer[si].time;
        if timestamp < lastFlushMaxTime {
          violates := true;
        } else {
          if violates {
            mi := ForwardMmapBuffer(si, mi, ti, lastFlushMaxTime);
            return;
          }
          lastFlushMaxTime := timestamp;
        }
        mi, ti := DispatchNext(si, mi, ti);
        si := si + 1;
      }
    }

    /** Sends task events behind the last sample while the buffer is still too large. */
    method DrainTaskEvents(desired: u32, ghost si: nat, ghost mi: nat, begin: nat) returns (ti: nat)
      requires Valid() && InBuffers(si, mi, begin)
      modifies this`eventBufferSize, this`log
      ensures Valid() && InBuffers(si, mi, ti)
      ensures Draining(si, mi, ti) == TrailingTasks(old(Draining(si, mi, begin)), desired)
    {
      hide Replay, ValidElfs;
      ti := begin;
      while eventBufferSize > desired && ti < |taskEventsBuffer|
        invariant Valid() && InBuffers(si, mi, ti)
        invariant TrailingTasks(Draining(si, mi, ti), desired) == TrailingTasks(old(Draining(si, mi, begin)), desired)
        decreases |taskEventsBuffer| - ti
      {
        SendTaskEvent(taskEventsBuffer[ti]);
        ti := ti + 1;
      }
    }

    /** Sorts the buffers by time; says whether the first mapping comes too late. */
    method SortBuffers() returns (violates: bool)
      requires Valid()
      modifies this`sampleBuffer, this`mmapBuffer, this`taskEventsBuffer
      ensures Valid()
      ensures Draining(0, 0, 0) == StartDrain(old(Abs()))
      ensures violates == MmapsViolate(old(Abs()))
    {
      hide StableSort, Replay, ValidElfs;
      // the sort must be stable: mappings that come with time 0 must not be shuffled
      mmapBuffer := StableSort(mmapBuffer);
      sampleBuffer := StableSort(sampleBuffer);
      taskEventsBuffer := StableSort(taskEventsBuffer);
      violates := mmapBuffer != [] && mmapBuffer[0].time < lastFlushMaxTime;
    }

    /** Dispatches the fronts of the sorted buffers and erases them. */
    method DrainBuffers(desired: u32, violatesBefore: bool) returns (violates: bool)
      requires Valid()
      modifies this`sampleBuffer, this`mmapBuffer, this`taskEventsBuffer
      modifies this`eventBufferSize, this`lastFlushMaxTime, this`log, this`symbolTables, this`repr, repr
      ensures Valid() && fresh(repr - old(repr))
      ensures var (d, v) := SampleLoop(old(Draining(0, 0, 0)), desired, violatesBefore);
        Draining(0, 0, 0) == TrailingTasks(d, desired) && violates == v
    {
      hide SampleLoop, TrailingTasks, Replay, ValidElfs;
      var si, mi, ti;
      si, mi, ti, violates := DrainSamples(desired, violatesBefore);
      ti := DrainTaskEvents(desired, si, mi, ti);
      sampleBuffer, mmapBuffer, taskEventsBuffer := sampleBuffer[si..], mmapBuffer[mi..], taskEventsBuffer[ti..];
    }

    /** Sorts the buffers by time and dispatches their fronts until the desired size is
        reached. */
    method FlushEventBuffer(desired: u32)
      requires Valid()
      modifies this, repr
      ensures Valid() && fresh(repr - old(repr))
      ensures Abs() == Flush(old(Abs()), desired)
    {
      hide SampleLoop, TrailingTasks, StartDrain, MmapsViolate, Replay, ValidElfs;
      var bufferSize := eventBufferSize;
      var violatesTimeOrder := SortBuffers();
      violatesTimeOrder := DrainBuffers(desired, violatesTimeOrder);
      if violatesTimeOrder {
        IncreaseBufferSize(bufferSize);
      }
    }

    /** Counts a violation and enlarges the target to reduce further ones. */
    method IncreaseBufferSize(fill: u32)
      modifies this`timeOrderViolations, this`lastEventBufferSize, this`targetEventBufferSize, this`maxEventBufferSize
      ensures Abs() == SetTarget(old(Abs()).(violations := old(timeOrderViolations) + 1),
                                 IncreasedTarget(fill, old(lastEventBufferSize), old(maxEventBufferSize)))
    {
      var bufferSize := fill;
      timeOrderViolations := timeOrderViolations + 1;
      if bufferSize < lastEventBufferSize {
        bufferSize := lastEventBufferSize;
      }
      if bufferSize > UINT_MAX / 2 {
        bufferSize := UINT_MAX;
      } else {
        bufferSize := bufferSize * 2;
      }
      if bufferSize > maxEventBufferSize {
        bufferSize := maxEventBufferSize;
      }
      SetTargetEventBufferSize(bufferSize);
    }

    // ---------------------------------------------------------- buffer sizes

    /** The two setters call each other, at most once each way. */
    method SetMaxEventBufferSize(size: u32)
      modifies this`lastEventBufferSize, this`targetEventBufferSize, this`maxEventBufferSize
      ensures Abs() == SetMaximum(old(Abs()), size)
      decreases if size < targetEventBufferSize then 1 else 0
    {
      maxEventBufferSize := size;
      if size < targetEventBufferSize {
        SetTargetEventBufferSize(size);
      }
    }

    method SetTargetEventBufferSize(size: u32)
      modifies this`lastEventBufferSize, this`targetEventBufferSize, this`maxEventBufferSize
      ensures Abs() == SetTarget(old(Abs()), size)
      decreases if size > maxEventBufferSize then 1 else 0
    {
      lastEventBufferSize := targetEventBufferSize;
      targetEventBufferSize := size;
      if size > maxEventBufferSize {
        SetMaxEventBufferSize(size);
      }
    }

    method RevertTargetEventBufferSize()
      modifies this`lastEventBufferSize, this`targetEventBufferSize, this`maxEventBufferSize
      ensures Abs() == SetTarget(old(Abs()), old(lastEventBufferSize))
    {
      SetTargetEventBufferSize(lastEventBufferSize);
    }

    // ---------------------------------------------------------- operations

    method FlushWhenFull()
      requires Valid()
      modifies this, repr
      ensures Valid() && fresh(repr - old(repr))
      ensures Abs() == FlushIfFull(old(Abs()))
    {
      hide Flush, Replay, ValidElfs;
      if targetEventBufferSize != 0 && eventBufferSize > targetEventBufferSize {
        FlushEventBuffer(targetEventBufferSize / 2);
      }
    }

    method AddSample(e: Sample)
      requires Valid()
      modifies this, repr
      ensures Valid() && fresh(repr - old(repr))
      ensures Abs() == Step(old(Abs()), BufferSample(e))
    {
      hide FlushIfFull, Replay, ValidElfs;
      sampleBuffer := sampleBuffer + [e];
      eventBufferSize := Wrap32(eventBufferSize + e.size);
      FlushWhenFull();
    }

    method AddMmap(e: Mmap)
      requires Valid()
      modifies this, repr
      ensures Valid() && fresh(repr - old(repr))
      ensures Abs() == Step(old(Abs()), BufferMmap(e))
    {
      hide FlushIfFull, Replay, ValidElfs;
      mmapBuffer := mmapBuffer + [e];
      eventBufferSize := Wrap32(eventBufferSize + e.size);
      FlushWhenFull();
    }

    method AddTaskEvent(e: Task)
      requires Valid()
      modifies this, repr
      ensures Valid() && fresh(repr - old(repr))
      ensures Abs() == Step(old(Abs()), BufferTask(e))
    {
      hide FlushIfFull, Replay, ValidElfs;
      taskEventsBuffer := taskEventsBuffer + [e];
      eventBufferSize := Wrap32(eventBufferSize + e.size);
      FlushWhenFull();
    }

    method FinishRound()
      requires Valid()
      modifies this, repr
      ensures Valid() && fresh(repr - old(repr))
      ensures Abs() == Step(old(Abs()), RoundFinished)
    {
      hide Flush, Replay, ValidElfs;
      if targetEventBufferSize == 0 {
        FlushEventBuffer(eventBufferSize / 2);
      } else if timeOrderViolations == 0 && !tracePointAttributes {
        SetTargetEventBufferSize(0);
      }
    }

    method Finalize()
      requires Valid()
      modifies this, repr
      ensures Valid() && fresh(repr - old(repr))
      ensures Abs() == Step(old(Abs()), Finalized)
    {
      hide Flush, FinishedRound, Replay, ValidElfs;
      FinishRound();
      FlushEventBuffer(0);
    }

    method NoteAttributes(tracePoint: bool, isNew: bool)
      requires Valid()
      modifies this
      ensures Valid() && repr == old(repr)
      ensures Abs() == Step(old(Abs()), AttributesAdded(tracePoint, isNew))
    {
      hide Replay, ValidElfs;
      if tracePoint && targetEventBufferSize == 0 {
        RevertTargetEventBufferSize();
      }
      if isNew {
        tracePointAttributes := tracePointAttributes || tracePoint;
      }
    }

    method NoteFeatures(automaticBuffering: bool)
      requires Valid()
      modifies this
      ensures Valid() && repr == old(repr)
      ensures Abs() == Step(old(Abs()), FeaturesRead(automaticBuffering))
    {
      hide Replay, ValidElfs;
      if automaticBuffering && timeOrderViolations == 0 && !tracePointAttributes {
        SetTargetEventBufferSize(0);
      }
    }
  }
}
