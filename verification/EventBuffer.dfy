/** The event reordering buffer as a function of its state: three buffers that are sorted
    by time and drained together, down to a byte target that adapts to late events. */
module EventBuffer {
  import opened WordArithmetic
  import opened TimeOrder
  import ElfMaps

  datatype SampleBody = SampleBody(pid: int, ip: u64)
  datatype MmapBody = MmapBody(pid: int, mapping: ElfMaps.Mapping)

  datatype TaskKind =
    | ThreadStart(parentPid: int)
    | ThreadEnd
    | Command(name: int)
    | LostDefinition(lost: u64)
    | ContextSwitchDefinition(switchOut: bool)

  datatype TaskBody = TaskBody(pid: int, tid: int, cpu: u32, kind: TaskKind)

  type Sample = Timed<SampleBody>
  type Mmap = Timed<MmapBody>
  type Task = Timed<TaskBody>

  /** What leaves the buffer, in the order in which it leaves. */
  datatype Entry =
    | Registered(mmap: Mmap)
    | Forked(child: Task)
    | Exited(leaver: Task)
    | Sent(task: Task)
    | Analyzed(sample: Sample)

  predicate IsFork(t: Task) {
    t.body.kind.ThreadStart? && t.body.pid != t.body.kind.parentPid
  }

  predicate IsExit(t: Task) {
    t.body.kind.ThreadEnd? && t.body.pid == t.body.tid
  }

  // ------------------------------------------------------------ views of the log

  function SamplesOf(log: seq<Entry>): seq<Sample> {
    if log == [] then []
    else SamplesOf(log[..|log| - 1]) + (if log[|log| - 1].Analyzed? then [log[|log| - 1].sample] else [])
  }

  function MmapsOf(log: seq<Entry>): seq<Mmap> {
    if log == [] then []
    else MmapsOf(log[..|log| - 1]) + (if log[|log| - 1].Registered? then [log[|log| - 1].mmap] else [])
  }

  function TasksOf(log: seq<Entry>): seq<Task> {
    if log == [] then []
    else TasksOf(log[..|log| - 1]) + (if log[|log| - 1].Sent? then [log[|log| - 1].task] else [])
  }

  // ------------------------------------------------------------ one flush

  /** A flush in progress: what is left of the sorted buffers. */
  datatype Drain = Drain(samples: seq<Sample>, mmaps: seq<Mmap>, tasks: seq<Task>,
                         size: u32, lastFlushMaxTime: nat, log: seq<Entry>)

  function RegisterFirst(d: Drain): Drain
    requires d.mmaps != []
  {
    d.(mmaps := d.mmaps[1..], size := Wrap32(d.size - d.mmaps[0].size),
       log := d.log + [Registered(d.mmaps[0])])
  }

  /** Registers every buffered mapping up to a time. */
  function ForwardMmaps(d: Drain, timestamp: nat): Drain
    decreases |d.mmaps|
  {
    if d.mmaps == [] || timestamp < d.mmaps[0].time then d
    else ForwardMmaps(RegisterFirst(d), timestamp)
  }

  function SendFirst(d: Drain): Drain
    requires d.tasks != []
  {
    d.(tasks := d.tasks[1..], size := Wrap32(d.size - d.tasks[0].size),
       log := d.log + [Sent(d.tasks[0])])
  }

  /** What a task event does to the processes before it is sent. */
  function ApplyTask(d: Drain, t: Task): Drain {
    if IsFork(t) then
      var f := ForwardMmaps(d, t.time);
      f.(log := f.log + [Forked(t)])
    else if IsExit(t) then d.(log := d.log + [Exited(t)])
    else d
  }

  lemma {:induction false} ForwardKeepsTasks(d: Drain, timestamp: nat)
    ensures var r := ForwardMmaps(d, timestamp);
      && r.samples == d.samples && r.tasks == d.tasks && r.lastFlushMaxTime == d.lastFlushMaxTime
      && |r.mmaps| <= |d.mmaps|
    decreases |d.mmaps|
  {
    if d.mmaps != [] && d.mmaps[0].time <= timestamp {
      ForwardKeepsTasks(RegisterFirst(d), timestamp);
    }
  }

  function HandleTask(d: Drain): (r: Drain)
    requires d.tasks != []
    ensures r.samples == d.samples && r.tasks == d.tasks[1..] && r.lastFlushMaxTime == d.lastFlushMaxTime
  {
    ForwardKeepsTasks(d, d.tasks[0].time);
    SendFirst(ApplyTask(d, d.tasks[0]))
  }

  /** Handles every buffered task event up to a time. */
  function ForwardTasks(d: Drain, timestamp: nat): (r: Drain)
    ensures r.samples == d.samples && r.lastFlushMaxTime == d.lastFlushMaxTime
    decreases |d.tasks|
  {
    if d.tasks == [] || timestamp < d.tasks[0].time then d
    else ForwardTasks(HandleTask(d), timestamp)
  }

  function AnalyzeFirst(d: Drain): Drain
    requires d.samples != []
  {
    d.(samples := d.samples[1..], size := Wrap32(d.size - d.samples[0].size),
       log := d.log + [Analyzed(d.samples[0])])
  }

  /** Brings tasks and mappings up to the time of the first sample and analyses it. */
  function DispatchSample(d: Drain): (r: Drain)
    requires d.samples != []
    ensures r.samples == d.samples[1..] && r.lastFlushMaxTime == d.lastFlushMaxTime
  {
    var s := d.samples[0];
    var t := ForwardTasks(d, s.time);
    ForwardKeepsTasks(t, s.time);
    var f := ForwardMmaps(t, s.time);
    AnalyzeFirst(f)
  }

  /** The sample loop; the flag says whether a time order violation was seen. */
  function SampleLoop(d: Drain, desired: u32, violates: bool): (Drain, bool)
    decreases |d.samples|
  {
    if d.size <= desired || d.samples == [] then (d, violates)
    else if d.samples[0].time < d.lastFlushMaxTime then
      SampleLoop(DispatchSample(d), desired, true)
    else if violates then (ForwardMmaps(d, d.lastFlushMaxTime), true)
    else SampleLoop(DispatchSample(d.(lastFlushMaxTime := d.samples[0].time)), desired, false)
  }

  /** Sends remaining task events while the buffer is still too large. */
  function TrailingTasks(d: Drain, desired: u32): Drain
    decreases |d.tasks|
  {
    if d.size <= desired || d.tasks == [] then d else TrailingTasks(SendFirst(d), desired)
  }

  // ------------------------------------------------------------ the buffer between flushes

  datatype Unwind = Unwind(
    samples: seq<Sample>, mmaps: seq<Mmap>, tasks: seq<Task>, size: u32,
    lastFlushMaxTime: nat, lastTarget: u32, maxTarget: u32, target: u32,
    violations: nat, tracePoints: bool, log: seq<Entry>)

  /** The state of a new unwinder. */
  const INITIAL := Unwind([], [], [], 0, 0, 0x10_0000, 0x4000_0000, 0x200_0000, 0, false, [])

  function SetTarget(s: Unwind, size: u32): Unwind {
    s.(lastTarget := s.target, target := size, maxTarget := Max(s.maxTarget, size))
  }

  function SetMaximum(s: Unwind, size: u32): Unwind {
    if size < s.target then s.(maxTarget := size, lastTarget := s.target, target := size)
    else s.(maxTarget := size)
  }

  /** The target after a violation: double the larger of the current fill and the previous
      target, clamped by the word size and by the maximum. */
  function IncreasedTarget(bufferSize: u32, lastTarget: u32, maxTarget: u32): u32 {
    var larger := Max(bufferSize, lastTarget);
    var doubled := if larger > UINT_MAX / 2 then UINT_MAX else 2 * larger;
    Min(doubled, maxTarget)
  }

  function StartDrain(s: Unwind): Drain {
    Drain(StableSort(s.samples), StableSort(s.mmaps), StableSort(s.tasks), s.size, s.lastFlushMaxTime, s.log)
  }

  predicate MmapsViolate(s: Unwind) {
    var sorted := StableSort(s.mmaps);
    sorted != [] && sorted[0].time < s.lastFlushMaxTime
  }

  function Drained(s: Unwind, desired: u32): (Drain, bool) {
    var (d, violates) := SampleLoop(StartDrain(s), desired, MmapsViolate(s));
    (TrailingTasks(d, desired), violates)
  }

  /** One flush down to a desired size. */
  function Flush(s: Unwind, desired: u32): Unwind {
    var (d, violates) := Drained(s, desired);
    var r := s.(samples := d.samples, mmaps := d.mmaps, tasks := d.tasks, size := d.size,
                lastFlushMaxTime := d.lastFlushMaxTime, log := d.log);
    if !violates then r
    else
      SetTarget(r.(violations := r.violations + 1), IncreasedTarget(s.size, s.lastTarget, s.maxTarget))
  }

  /** What happens after an event was appended. */
  function FlushIfFull(s: Unwind): Unwind {
    if s.target != 0 && s.size > s.target then Flush(s, s.target / 2) else s
  }

  function FinishedRound(s: Unwind): Unwind {
    if s.target == 0 then Flush(s, s.size / 2)
    else if s.violations == 0 && !s.tracePoints then SetTarget(s, 0)
    else s
  }

  // ------------------------------------------------------------ runs

  datatype Op =
    | BufferSample(sample: Sample)
    | BufferMmap(mmap: Mmap)
    | BufferTask(task: Task)
    | RoundFinished
    | Finalized
    | AttributesAdded(tracePoint: bool, isNew: bool)
    | FeaturesRead(automaticBuffering: bool)

  function Append(s: Unwind, op: Op): Unwind
    requires op.BufferSample? || op.BufferMmap? || op.BufferTask?
  {
    match op
    case BufferSample(e) => s.(samples := s.samples + [e], size := Wrap32(s.size + e.size))
    case BufferMmap(e) => s.(mmaps := s.mmaps + [e], size := Wrap32(s.size + e.size))
    case BufferTask(e) => s.(tasks := s.tasks + [e], size := Wrap32(s.size + e.size))
  }

  function AddAttributes(s: Unwind, tracePoint: bool, isNew: bool): Unwind {
    var r := if tracePoint && s.target == 0 then SetTarget(s, s.lastTarget) else s;
    if isNew then r.(tracePoints := r.tracePoints || tracePoint) else r
  }

  function ReadFeatures(s: Unwind, automaticBuffering: bool): Unwind {
    if automaticBuffering && s.violations == 0 && !s.tracePoints then SetTarget(s, 0) else s
  }

  function Step(s: Unwind, op: Op): Unwind {
    match op
    case BufferSample(_) => FlushIfFull(Append(s, op))
    case BufferMmap(_) => FlushIfFull(Append(s, op))
    case BufferTask(_) => FlushIfFull(Append(s, op))
    case RoundFinished => FinishedRound(s)
    case Finalized => Flush(FinishedRound(s), 0)
    case AttributesAdded(tracePoint, isNew) => AddAttributes(s, tracePoint, isNew)
    case FeaturesRead(automatic) => ReadFeatures(s, automatic)
  }

  function Run(init: Unwind, ops: seq<Op>): Unwind {
    if ops == [] then init else Step(Run(init, ops[..|ops| - 1]), ops[|ops| - 1])
  }
}
