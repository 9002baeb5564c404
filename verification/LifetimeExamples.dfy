/** Small runs that show what happens to the mappings of a process when it exits. */
module LifetimeExamples {
  import opened TimeOrder
  import opened ElfMaps
  import opened EventBuffer
  import opened BufferRuns
  import opened AddressSpaces
  import opened Lifetimes
  import opened InTimeRuns

  const MAPPED: ElfMaps.Mapping := MappingRequest(0x1000, 0x1000, 0, NO_FILE, "lib.so", "/lib.so")
  const MAPPING := Timed(10, 1, MmapBody(7, MAPPED))
  const LEAVING := Timed(20, 1, TaskBody(7, 7, 0, ThreadEnd))
  const SAMPLE := Timed(30, 1, SampleBody(7, 0))
  const RECORDS := [BufferMmap(MAPPING), BufferTask(LEAVING), BufferSample(SAMPLE), Finalized]

  const COLLECTED := INITIAL.(samples := [SAMPLE], mmaps := [MAPPING], tasks := [LEAVING], size := 3)

  lemma ExampleCollected()
    ensures Run(INITIAL, RECORDS[..3]) == COLLECTED && InTimeRun(INITIAL, RECORDS[..3])
  {
    hide Flush;
    assert RECORDS[..3][..2] == RECORDS[..2] && RECORDS[..2][..1] == RECORDS[..1] && RECORDS[..1][..0] == [];
    var one := INITIAL.(mmaps := [MAPPING], size := 1);
    var two := one.(tasks := [LEAVING], size := 2);
    assert Run(INITIAL, []) == INITIAL && InTimeRun(INITIAL, []);
    assert Run(INITIAL, RECORDS[..1]) == one && InTimeRun(INITIAL, RECORDS[..1]);
    assert Run(INITIAL, RECORDS[..2]) == two && InTimeRun(INITIAL, RECORDS[..2]);
  }

  lemma ExampleFlushed()
    ensures Flush(COLLECTED.(lastTarget := COLLECTED.target, target := 0), 0).log ==
      [Exited(LEAVING), Sent(LEAVING), Registered(MAPPING), Analyzed(SAMPLE)]
  {
    var s := COLLECTED.(lastTarget := COLLECTED.target, target := 0);
    var start := StartDrain(s);
    assert start == Drain([SAMPLE], [MAPPING], [LEAVING], 3, 0, []);
    var n := start.(lastFlushMaxTime := 30);
    var t := Drain([SAMPLE], [MAPPING], [], 2, 30, [Exited(LEAVING), Sent(LEAVING)]);
    assert HandleTask(n) == t && ForwardTasks(n, 30) == t;
    var m := Drain([SAMPLE], [], [], 1, 30, [Exited(LEAVING), Sent(LEAVING), Registered(MAPPING)]);
    assert ForwardMmaps(t, 30) == m;
    var r := Drain([], [], [], 0, 30, [Exited(LEAVING), Sent(LEAVING), Registered(MAPPING), Analyzed(SAMPLE)]);
    assert DispatchSample(n) == r;
    assert SampleLoop(start, 0, false) == (r, false);
  }

  lemma ExampleRun()
    ensures Run(INITIAL, RECORDS).log == [Exited(LEAVING), Sent(LEAVING), Registered(MAPPING), Analyzed(SAMPLE)]
    ensures InTimeRun(INITIAL, RECORDS)
  {
    hide Flush;
    ExampleCollected();
    ExampleFlushed();
    assert RECORDS[..|RECORDS| - 1] == RECORDS[..3];
  }

  lemma ExampleMeaning(log: seq<Entry>)
    requires log == [Exited(LEAVING), Sent(LEAVING), Registered(MAPPING)]
    ensures Meaning(log, 7, 0x1000) == Mapped("/lib.so", 0)
  {
  }

  lemma ExampleTookEffect(log: seq<Entry>)
    requires log == [Exited(LEAVING), Sent(LEAVING), Registered(MAPPING)]
    ensures TookEffect(log, 30)
  {
    hide LifeOf, TasksOf, LifeEvents, UpTo;
    assert log == [] + [log[0]] + [log[1]] + [log[2]];
    NothingLogged();
    var one, two := [] + [log[0]], [] + [log[0]] + [log[1]];
    EffectAppend([], log[0]);
    EffectAppend(one, log[1]);
    EffectAppend(two, log[2]);
    assert TasksOf(one) == [] && LifeOf(one) == [LEAVING];
    assert TasksOf(log) == LifeOf(log) == [LEAVING];
    LifeOfOne(LEAVING, 0);
    NoneBehind([LEAVING], 30);
    SameOrderReflexive([LEAVING]);
  }

  lemma NothingLogged()
    ensures TasksOf([]) == [] && LifeOf([]) == []
  {
  }

  /** A process maps a file and exits, and no sample comes between: a later sample that carries
      its id still finds the file. */
  lemma ExitOvertakesMmap()
    ensures InTimeRun(INITIAL, RECORDS)
    ensures var log := Run(INITIAL, RECORDS).log;
      && |log| == 4 && log[3] == Analyzed(SAMPLE) && TookEffect(log[..3], SAMPLE.time)
      && Lookup(TableOf(Replay(log[..3]), 7).elfs, 0x1000) == Mapped("/lib.so", 0)
      && Expected([MAPPING], [LEAVING], 7, 0x1000) == Unmapped
  {
    hide Run, Replay, Register, Meaning, InTimeRun, TookEffect, Lookup, TableOf;
    ExampleRun();
    var log := Run(INITIAL, RECORDS).log;
    ExampleTookEffect(log[..3]);
    ExampleMeaning(log[..3]);
    TablesMeanTheLog(log[..3], 7, 0x1000);
    NoneBehind([MAPPING], 20);
  }

  // ------------------------------------------------------------ an exit behind the last sample

  const LEAVING_LAST := LEAVING.(time := 40)
  const RECORDING := [BufferMmap(MAPPING), BufferSample(SAMPLE), BufferTask(LEAVING_LAST), Finalized]
  const ALL_BUFFERED := INITIAL.(samples := [SAMPLE], mmaps := [MAPPING], tasks := [LEAVING_LAST], size := 3)

  lemma RecordingCollected()
    ensures Run(INITIAL, RECORDING[..3]) == ALL_BUFFERED && InTimeRun(INITIAL, RECORDING[..3])
  {
    hide Flush;
    assert RECORDING[..3][..2] == RECORDING[..2] && RECORDING[..2][..1] == RECORDING[..1] && RECORDING[..1][..0] == [];
    var one := INITIAL.(mmaps := [MAPPING], size := 1);
    var two := one.(samples := [SAMPLE], size := 2);
    assert Run(INITIAL, []) == INITIAL && InTimeRun(INITIAL, []);
    assert Run(INITIAL, RECORDING[..1]) == one && InTimeRun(INITIAL, RECORDING[..1]);
    assert Run(INITIAL, RECORDING[..2]) == two && InTimeRun(INITIAL, RECORDING[..2]);
  }

  lemma RecordingFlushed()
    ensures Flush(ALL_BUFFERED.(lastTarget := ALL_BUFFERED.target, target := 0), 0).log ==
      [Registered(MAPPING), Analyzed(SAMPLE), Sent(LEAVING_LAST)]
  {
    var start := StartDrain(ALL_BUFFERED.(lastTarget := ALL_BUFFERED.target, target := 0));
    assert start == Drain([SAMPLE], [MAPPING], [LEAVING_LAST], 3, 0, []);
    var n := start.(lastFlushMaxTime := 30);
    var m := Drain([SAMPLE], [], [LEAVING_LAST], 2, 30, [Registered(MAPPING)]);
    assert ForwardTasks(n, 30) == n && ForwardMmaps(n, 30) == m;
    var d := Drain([], [], [LEAVING_LAST], 1, 30, [Registered(MAPPING), Analyzed(SAMPLE)]);
    assert DispatchSample(n) == d;
    assert SampleLoop(start, 0, false) == (d, false);
    var r := Drain([], [], [], 0, 30, [Registered(MAPPING), Analyzed(SAMPLE), Sent(LEAVING_LAST)]);
    assert SendFirst(d) == r && TrailingTasks(r, 0) == r && TrailingTasks(d, 0) == r;
  }

  lemma RecordingRun()
    ensures Run(INITIAL, RECORDING).log == [Registered(MAPPING), Analyzed(SAMPLE), Sent(LEAVING_LAST)]
    ensures InTimeRun(INITIAL, RECORDING)
  {
    hide Flush;
    RecordingCollected();
    RecordingFlushed();
    assert RECORDING[..|RECORDING| - 1] == RECORDING[..3];
  }

  lemma RecordingMeaning(log: seq<Entry>)
    requires log == [Registered(MAPPING), Analyzed(SAMPLE), Sent(LEAVING_LAST)]
    ensures Meaning(log[..1], 7, 0x1000) == Meaning(log, 7, 0x1000) == Mapped("/lib.so", 0)
  {
    assert log[..2][..1] == log[..1];
  }

  lemma RecordingEffect(log: seq<Entry>)
    requires log == [Registered(MAPPING), Analyzed(SAMPLE), Sent(LEAVING_LAST)]
    ensures TookEffect(log[..1], 30) && !AllTookEffect(log)
  {
    hide LifeOf, TasksOf, LifeEvents, UpTo;
    assert log[..1] == [] + [log[0]] && log == [] + [log[0]] + [log[1]] + [log[2]];
    NothingLogged();
    EffectAppend([], log[0]);
    EffectAppend([] + [log[0]], log[1]);
    EffectAppend([] + [log[0]] + [log[1]], log[2]);
    LifeOfOne(LEAVING_LAST, 0);
    assert TasksOf(log) == [LEAVING_LAST];
    NoLifeUpTo(30);
    SameOrderReflexive<TaskBody>([]);
  }

  lemma NoLifeUpTo(t: nat)
    ensures UpTo(LifeEvents([]), t) == []
  {
  }

  /** An ordinary recording: a process maps a file, is sampled and exits. The sample finds the
      file. The exit is flushed when no sample is left: it is sent, but ends nothing. */
  lemma ExitBehindLastSample()
    ensures InTimeRun(INITIAL, RECORDING)
    ensures var log := Run(INITIAL, RECORDING).log;
      && log == [Registered(MAPPING), Analyzed(SAMPLE), Sent(LEAVING_LAST)]
      && TookEffect(log[..1], SAMPLE.time) && !AllTookEffect(log)
      && Lookup(TableOf(Replay(log[..1]), 7).elfs, 0x1000) == Mapped("/lib.so", 0)
      && Lookup(TableOf(Replay(log), 7).elfs, 0x1000) == Mapped("/lib.so", 0)
  {
    hide Run, Replay, Register, Meaning, InTimeRun, TookEffect, AllTookEffect, Lookup, TableOf;
    RecordingRun();
    var log := Run(INITIAL, RECORDING).log;
    RecordingEffect(log);
    RecordingMeaning(log);
    TablesMeanTheLog(log[..1], 7, 0x1000);
    TablesMeanTheLog(log, 7, 0x1000);
  }
}
