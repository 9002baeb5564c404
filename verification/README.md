# perfparser: event order, address maps, output ids and stream framing

perfparser reads the records of a perf stream, puts them in order, keeps an address map per
process, unwinds samples and sends their frames to a client as numbered definitions. This
project models the parts that keep state between calls and proves what each of them is for.
To verify: `dafny verify dfyconfig.toml`.

The parts, by file:

- **Event buffer.** `TimeOrder` is the stable sort by time. `EventBuffer` is the reordering
  buffer as a function of its state: three buffers, drained together to a byte target that
  adapts to late events. `DrainFacts` holds for a single flush, and `FlushEnds` says exactly
  what any flush dispatches and leaves; `BufferSteps` does so for each operation,
  `BufferOrder` and `BufferRuns` are about whole runs, `BufferCounter` about the byte counter
  inside a flush, `BufferSizes` about the size controller. `AddressSpaces` replays
  what leaves the buffer on the address maps, `ProcessMaps` and `Lifetimes` say what these are
  after forks and exits, `InTimeRuns` what each sample of a run finds in them, and
  `TrailingTasks` when forks and exits take no effect; `LifetimeExamples` has small runs.
  `PerfUnwind` is the object with its fields, its iterators and one map object per process.
- **Address map.** `ElfMaps` has the sorted vector, the value it stands for and the closed
  form of registering a mapping; `PerfElfMap` is the object whose loop moves its own bounds.
  `BaseAddresses` says which entry gets which base, `FoundEntries` what is found at an address.
- **Stream.** `Framing` cuts bytes into records, `FrameEncoding` is its inverse,
  `StreamReader` and `StreamChunks` do it resumably on chunks, `PerfData` is the object. `CompressedRecords` carries partial records
  over between payloads in a buffer. `PerfStdin` is the sliding buffer on standard input.
- **Symbols.** `SymbolScan` and `SymbolLookup` compare the sorted lookup with a scan of the
  symbol table; `PerfAddressCache` is the object that demangles names in place.
- **Output.** `OutputMessages` has the messages and the client, `OutputTables` and
  `OutputRuns` the producer's requests and its runs, `ClientViews` what the client knows
  after them, `IdTables` both as objects.
  `FrameAnswers` has the answers of the debug-information libraries, which may be anything,
  and the requests that a frame lookup makes with them; `InlineChains` and `ChainWalks` are what
  the client then walks, `FunctionStarts` where it has functions outside of modules,
  `FramesShown` what it has for a frame and its function, `NamedFrames` what lookups keep, `FrameCache` the cache they share, and `FrameLookup` the
  object.
- **Unwinding.** `Callchains`, `GuessedFrames` and `UnwindInfo` collect the frames of a
  sample for any behaviour of the unwinder; `UnwoundFrames` says exactly which these are.
- `WordArithmetic`, `Bytes` and `Wrappers` hold machine words, byte sequences and options.

Words are 32 or 64 bits wide where the program's are: the byte counter wraps at 2^32,
addresses, load biases and symbol ends at 2^64.

Some things the program does differ from what one would expect of it; each has an exact
condition here, and an input where the two differ.

- Tracing data whose second part is one to three bytes long and ends the stream are lost
  when a chunk ends behind their size field: resuming asks for four bytes once more
  (`StreamChunks.ChunksNeverMatter`, `StreamChunks.ShortTailExample`).
- A symbol lookup between two offsets takes the start of the last run of equal sizes at the
  lower offset, not the first symbol of the table (`SymbolLookup.LookupIsScan`,
  `SymbolLookup.PassedOverExample`).
- The assertion that a found entry is mapped at the address depends on the ranges that the
  unwinder reported (`FrameCaches.MappedExactly`, `FrameCaches.OvershootExample`).
- The producer may send commands, attributes and samples without a name or attributes; the
  test client then looks for them under -1, because its checks have no lower bound
  (`OutputRuns.ClientAcceptsRun`, `OutputRuns.NamelessIsNotAccepted`).
- The function of an address outside of all modules that is exactly the start of its symbol is
  put at the start of the mapped file, not at the symbol
  (`FunctionStarts.FunctionOutsideModule`, `FunctionStarts.FunctionStartExample`).
- The place of an inlined call has no relative address, the functions around it have. For a
  second address in the same call the client therefore passes the call and goes on with the
  functions' locations for the first one, as the end of the chains of `4015a4` and `40155c` in
  `tests/auto/perfdata/vector_static_gcc/perf.data.expected.txt:75` and `:219` shows
  (`ChainWalks.ChainIsFollowed`, `ChainWalks.SecondAddress`, `ChainWalks.SecondAddressExample`).
- A file that several processes map is looked up once for all of them, so a frame has the
  address and the process of whoever asked first (`FrameCaches.LocatedExactly`,
  `FrameCaches.SharedEntry`, `FrameCaches.SharedEntryExample`).
- An exit does not wait for the mappings of its process: those that no sample and no fork
  needed before are registered behind it and stay (`Lifetimes.SeenAsExpected`,
  `Lifetimes.ExitOvertakesExactly`, `LifetimeExamples.ExitOvertakesMmap`).
- Forks and exits that are flushed when no sample is left change no address map
  (`TrailingTaskEvents.EffectsExactly`, `InTimeRuns.EffectsAreReceived`,
  `LifetimeExamples.ExitBehindLastSample`).
- A late mmap is registered by the next flush only if the flush gets to a sample that is not
  late; until then every flush counts it again. Such a flush leaves the sample, even if it is
  the one that ends the recording (`FlushEnds.LateMmapsLeave`, `FlushEnds.LateMmapsStay`,
  `FlushEnds.LateMmapExample`).
- Mmaps behind the last sample are never registered (`BufferSteps.FinalLeaves`).
- Trace point attributes bring back the last target; if automatic buffering was chosen twice,
  that is zero as well and automatic buffering goes on (`BufferSteps.AttributesExactly`).

## Model

| member | source | states |
|---|---|---|
| `BufferRuns.IncrementalIsOneShotSort` | app/perfunwind.cpp:984-1149 | After every flush of a run without time order violation, the samples dispatched so far followed by the buffered ones are the stable sort by time of all samples received; the same for mmaps |
| `InTimeRuns.SampleFindsEffects` | app/perfunwind.cpp:1001-1117 | End to end, through forks and exits: in a run whose events arrive in time, at every analysed sample each address of each process means what the received samples and mmaps up to the sample's time, in stable order, and the forks and exits that took effect before it make of it; the flushes and their interleaving do not matter |
| `InTimeRuns.EffectsAreReceived` | app/perfunwind.cpp:1095-1127 | The forks and exits that took effect before a sample are the received ones up to its time, in stable order, if and only if none of these was sent before the sample without taking effect |
| `InTimeRuns.SampleFindsReceived` | app/perfunwind.cpp:1001-1117 | So in a run whose events arrive in time, at every analysed sample before which no fork or exit up to its time was sent without effect, each address of each process means what the received samples, mmaps, forks and exits up to the sample's time make of it |
| `TrailingTaskEvents.EffectsExactly` | app/perfunwind.cpp:1067-1127 | From the state before a flush without violation and with an exact counter: it sends a fork or exit without effect if and only if there is one behind all buffered samples before which, with all samples and what they need dispatched, more bytes than desired are left |
| `TrailingTaskEvents.LateTaskLeaves` | app/perfunwind.cpp:1119-1127 | The same for each task event behind all samples: the flush gets to it exactly if the bytes left before it exceed the desired size |
| `TrailingTaskEvents.SampleLoopEffects` | app/perfunwind.cpp:1067-1117 | In the sample loop, violating or not, every fork and exit takes effect |
| `AddressSpaces.TaskMeaning` | app/perfunwind.cpp:1095-1111 | Which task events count, by kind and ids: in the sample loop exactly a thread start with another parent process is a fork and exactly a thread end with equal process and thread id is an exit; every other one is only sent and changes no address of any process |
| `Lifetimes.LifeEventsAre` | app/perfunwind.cpp:1095-1105 | The forks and exits among received task events, by their kinds and ids |
| `InTimeRuns.SampleFindsExpected` | app/perfunwind.cpp:1001-1117 | If moreover no exit up to the sample's time overtakes an mmap of its process, that is the overlay of the process's mmaps over those it inherited, since its last exit |
| `InTimeRuns.InTimeRunIsOrderly` | app/perfunwind.cpp:1044-1117 | A run whose events arrive in time sees no violation, and mmaps, forks, exits and samples leave it in order |
| `Lifetimes.OrderlyMeaning` | app/perfunwind.cpp:1095-1116 | The meaning of an orderly log is a function of its samples, mmaps, forks and exits, whatever their interleaving: a fork gives the child the parent's map of its time, an exit ends what was registered before it |
| `Lifetimes.SeenAsExpected` | app/perfunwind.cpp:1095-1113 | Mmaps that no sample and no fork needs before an exit are registered behind it; if no process has such an mmap, every address is as if an exit ended all that was mapped up to its time |
| `Lifetimes.ExitOvertakesExactly` | app/perfunwind.cpp:1104-1113 | Exactly which addresses of an exited process differ: those that an overtaken mmap covers and no mmap of the process later than the exit |
| `LifetimeExamples.ExitOvertakesMmap` | app/perfunwind.cpp:1104-1113 | A process maps a file and exits, and no sample comes between: a later sample with its process id still finds the file |
| `LifetimeExamples.ExitBehindLastSample` | app/perfunwind.cpp:1119-1127 | A process maps a file, is sampled and exits: the sample finds the file; the exit is flushed when no sample is left, is sent and ends nothing |
| `AddressSpaces.SampleFindsOverlay` | app/perfunwind.cpp:1001-1117 | End to end, for a process that neither was forked nor exited: in a run without violation, when a sample is analysed its address map is the last-writer-wins overlay, in stable time order, of exactly those of its mmaps received so far with time at most the sample's, equal times and late task events included |
| `BufferRuns.SamplesSeeExactMmaps` | app/perfunwind.cpp:1044-1117 | In a run without violation each analysed sample was preceded, over all flushes, by exactly the mmaps received so far with time at most its own, in stable order |
| `DrainFacts.FlushIsFaithful` | app/perfunwind.cpp:1020-1127 | Any single flush, violating or not: what it dispatches comes off the fronts of the sorted buffers, the byte counter follows, before each sample exactly the buffered mmaps and task events with time at most its own were handled, and before each fork exactly the mmaps with time at most the fork's |
| `BufferRuns.RunIsChronological` | app/perfunwind.cpp:1044-1117 | In a run without violation the log of registrations and analyses never steps back in time, across all flushes, and ends no later than the maximal flushed time |
| `BufferRuns.RunConserves` | app/perfunwind.cpp:984-1149 | In every run, violating or not, dispatched plus buffered events are the received ones with events of equal time in order of arrival, and the byte counter is the buffered bytes modulo 2^32 |
| `BufferRuns.RunKeepsEvents` | app/perfunwind.cpp:1137-1139 | The same as multisets: every received event is buffered or was dispatched, exactly once |
| `BufferRuns.RunExact` | app/perfunwind.cpp:988-998 | In a run without counter overflow the byte counter is exactly the buffered bytes after every operation |
| `BufferCounter.FlushNeverUnderflows` | app/perfunwind.cpp:1005-1147 | A whole flush is a sequence of single steps; from an exact counter on it is exact after each of them, and no event that leaves is larger than the counter it is taken off |
| `BufferRuns.FlushReachesTarget` | app/perfunwind.cpp:1067-1127 | A flush that sees no violation gets down to the desired size or leaves nothing but mmaps |
| `FlushEnds.FlushExactly` | app/perfunwind.cpp:1020-1171 | Any flush with an exact counter, violating or not, from the state before it: samples are dispatched as long as more than the desired bytes are left, after a violation only those earlier than the last flushed time; mmaps are registered up to the last of them, or up to that time at a later sample; then task events are sent as long as too many bytes are left. A violation is an earlier mmap, or an earlier sample in a buffer that is too large; it is counted and makes the target twice the larger of fill and last target, up to the maximum |
| `FlushEnds.LateMmapsLeave` | app/perfunwind.cpp:1085-1089 | A violating flush that gets to the first sample that is not early ends there, exactly the mmaps up to the last flushed time are registered, that time stays, and the next flush sees no early mmap |
| `FlushEnds.LateMmapsStay` | app/perfunwind.cpp:1044-1092 | Exactly when a following flush sees an early mmap again: if the loop ended before any such sample, and the mmap is later than the last dispatched one |
| `FlushEnds.LateMmapExample` | app/perfunwind.cpp:1085-1092 | A late mmap alone is counted in every flush; with a later sample behind it, it is registered and counted once, and the sample stays buffered even by a flush to zero |
| `BufferSteps.ReceivesExactly` | app/perfunwind.cpp:983-999 | A received event is buffered; exactly if there is a target and more than that is buffered then, the buffer is flushed down to half the target |
| `BufferSteps.RoundExactly` | app/perfunwind.cpp:963-981 | A finished round flushes a buffer without target down to half of what it holds; any other one loses its target, unless there was a violation or there are trace points |
| `BufferSteps.FinalExactly` | app/perfunwind.h:236-240 | The end of a recording does what a finished round does and then flushes down to zero |
| `BufferSteps.FinalLeaves` | app/perfunwind.h:236-240 | Without a violation that leaves no sample and no task event, and exactly the mmaps behind the last sample |
| `BufferSteps.AttributesExactly` | app/perfunwind.cpp:387-391 | Trace point attributes bring back the last target of a buffer without one; that is none if none was there before |
| `BufferSteps.FeaturesExactly` | app/perfunwind.cpp:450-457 | The features of a recent enough recording take the target away unless there was a violation or there are trace points |
| `BufferSteps.SettersExactly` | app/perfunwind.cpp:305-323 | What the three setters do to target, last target and maximum |
| `BufferSteps.TracePointsKeepTarget` | app/perfunwind.cpp:975-980 | Once there are trace points and a target, with a positive maximum there is a target after every further operation |
| `BufferSteps.DefaultHolds` | app/perfunwind.cpp:249-250 | With the default sizes nothing is dispatched until more than 32 MiB were received |
| `BufferOrder.FlushInOrder` | app/perfunwind.cpp:1044-1127 | A flush without violation from an ordered state leaves the buffers behind the log and the log in order |
| `BufferOrder.ViolationStays` | app/perfunwind.cpp:1067-1092 | Once the loop has seen a violation, the flush counts as violating |
| `BufferSizes.TargetBelowMaximum` | app/perfunwind.cpp:305-323 | In every run the target never exceeds the maximum, however the two setters call each other |
| `BufferSizes.FlushKeepsMaximum` | app/perfunwind.cpp:1144-1170 | No flush changes the maximum |
| `BufferSizes.ViolationGrowsTarget` | app/perfunwind.cpp:997-998 | A violation in a flush that a full buffer started makes the target the maximum or more than doubles it |
| `BufferSizes.DynamicBufferingStays` | app/perfunwind.cpp:963-981 | With a positive maximum, from the first violation on the target is never zero again |
| `TimeOrder.StableSortFacts` | app/perfunwind.cpp:1022-1027 | Sorting by time is sorted, keeps every event and every byte, and keeps the order of equal times |
| `TimeOrder.SortedUnique` | app/perfunwind.cpp:1022-1027 | There is only one sorted sequence with the order of equal times kept |
| `AddressSpaces.TablesMeanTheLog` | app/perfunwind.cpp:1095-1111 | After any log of registrations, forks and exits, what an address means in a process is what the last entry that concerns it says |
| `AddressSpaces.ForkCopiesOnce` | app/perfsymboltable.cpp:978-982 | A fork gives the child the parent's map at that point, and nothing that happens to other processes later changes it |
| `AddressSpaces.ForkLeavesOthers` | app/perfelfmap.h:109-113 | A fork leaves every process but the child as it was |
| `ProcessMaps.MapIsHistory` | app/perfunwind.cpp:1001-1111 | Every process's whole map, base addresses included, is what registering its history into an empty map gives: its own mappings since the last exit and, before a fork, those of its parent |
| `ProcessMaps.TableExists` | app/perfunwind.cpp:334-340 | Exactly which processes have a table: those that registered, forked, were forked or were sampled, since their last exit |
| `PerfUnwinds.PerfUnwind.constructor` | app/perfunwind.cpp:243-274 | A new unwinder is in the initial state: empty buffers and the three default buffer sizes |
| `PerfUnwinds.PerfUnwind.SymbolTable` | app/perfunwind.cpp:334-340 | Finds or creates a process's table; the others keep theirs |
| `PerfUnwinds.PerfUnwind.RegisterMapping` | app/perfunwind.cpp:1005-1009 | Registers a mapping in its process's own map object only |
| `PerfUnwinds.PerfUnwind.InitAfterFork` | app/perfsymboltable.cpp:978-982 | The child's map object takes over the parent's contents without sharing the object |
| `PerfUnwinds.PerfUnwind.TakeTable` | app/perfunwind.cpp:1104-1105 | An exit takes the process's map away |
| `PerfUnwinds.PerfUnwind.Analyze` | app/perfunwind.cpp:725-726 | Analysing a sample creates the kernel's and the process's tables where they are missing |
| `PerfUnwinds.PerfUnwind.ForwardMmapBuffer` | app/perfunwind.cpp:1001-1012 | The iterator loop registers exactly the mmaps up to a time, with the counter and the maps updated |
| `PerfUnwinds.PerfUnwind.ForwardTaskEvents` | app/perfunwind.cpp:1095-1111 | The task loop handles exactly the task events up to a time, forks after their mmaps |
| `PerfUnwinds.PerfUnwind.SendTaskEvent` | app/perfunwind.cpp:1108-1110 | Sends a task event once and takes its size off the counter, wrapping |
| `PerfUnwinds.PerfUnwind.DrainSamples` | app/perfunwind.cpp:1067-1117 | The sample loop with its violation break is the recursive specification of a drain |
| `PerfUnwinds.PerfUnwind.DrainTaskEvents` | app/perfunwind.cpp:1119-1127 | The trailing loop sends task events while the buffer is too large |
| `PerfUnwinds.PerfUnwind.SortBuffers` | app/perfunwind.cpp:1022-1056 | The three buffers are stable-sorted, and an early mmap counts as a violation |
| `PerfUnwinds.PerfUnwind.FlushEventBuffer` | app/perfunwind.cpp:1020-1171 | The whole flush on the fields is the specified flush, with every address map equal to the replay of the log |
| `PerfUnwinds.PerfUnwind.IncreaseBufferSize` | app/perfunwind.cpp:1144-1170 | The new target doubles the larger of fill and previous target, clamped by the word and by the maximum |
| `PerfUnwinds.PerfUnwind.SetMaxEventBufferSize` | app/perfunwind.cpp:305-310 | Sets the maximum and lowers the target to it; the mutual recursion ends |
| `PerfUnwinds.PerfUnwind.SetTargetEventBufferSize` | app/perfunwind.cpp:312-318 | Sets the target, remembers the old one and raises the maximum to it; the mutual recursion ends |
| `PerfUnwinds.PerfUnwind.RevertTargetEventBufferSize` | app/perfunwind.cpp:320-323 | Goes back to the target before the last change |
| `PerfUnwinds.PerfUnwind.AddSample` | app/perfunwind.cpp:983-999 | Buffers a sample and flushes to half the target when the buffer is too full |
| `PerfUnwinds.PerfUnwind.AddMmap` | app/perfunwind.cpp:342-345 | The same for an mmap |
| `PerfUnwinds.PerfUnwind.AddTaskEvent` | app/perfunwind.cpp:824-836 | The same for a task event |
| `PerfUnwinds.PerfUnwind.FinishRound` | app/perfunwind.cpp:963-981 | A finished round halves the buffer in automatic mode, or switches to that mode if nothing speaks against it |
| `PerfUnwinds.PerfUnwind.Finalize` | app/perfunwind.h:236-240 | Ending a run finishes a round and flushes down to zero |
| `PerfUnwinds.PerfUnwind.NoteAttributes` | app/perfunwind.cpp:387-391 | Trace point attributes leave automatic mode |
| `PerfUnwinds.PerfUnwind.NoteFeatures` | app/perfunwind.cpp:450-457 | A new enough version enters automatic mode unless there were violations or trace points |
| `ElfMaps.RegisterRefinesOverwrite` | app/perfelfmap.cpp:69-140 | For every address the map after registering means the new file offset inside the mapping and what it meant before everywhere else, through all split, merge and early-return paths |
| `ElfMaps.RegisteredValid` | app/perfelfmap.cpp:129-139 | The vector stays sorted, disjoint, free of empty ranges and of base addresses above their entry |
| `ElfMaps.AnnouncedIsRemoved` | app/perfelfmap.cpp:114-120 | The entries announced as invalid are exactly the ones that leave the vector, once each, and are exactly the ones the mapping touches |
| `ElfMaps.TouchedIsContiguous` | app/perfelfmap.cpp:77-101 | The entries a mapping replaces form one contiguous stretch |
| `ElfMaps.WrapTestExact` | app/perfelfmap.cpp:82-82 | For ranges that overlap or touch, the wrapping comparison of load biases is integer equality |
| `PerfElfMaps.PerfElfMap.constructor` | app/perfelfmap.cpp:62-66 | A new map is empty and has no base |
| `PerfElfMaps.PerfElfMap.OverwriteEntry` | app/perfelfmap.cpp:78-115 | One round of the loop: passes over an entry, merges with it, cuts it, or finds the mapping contained |
| `PerfElfMaps.PerfElfMap.CollectOverwritten` | app/perfelfmap.cpp:77-116 | The loop with its moving bounds collects the closed form, returns early exactly for a contained mapping, and has collected nothing then, as the two assertions say |
| `PerfElfMaps.PerfElfMap.RemoveAt` | app/perfelfmap.cpp:118-120 | Removing marked positions from the back removes the touched stretch |
| `PerfElfMaps.PerfElfMap.TakeBase` | app/perfelfmap.cpp:122-131 | The base-address bookkeeping of a new entry |
| `PerfElfMaps.PerfElfMap.InsertElfs` | app/perfelfmap.cpp:133-139 | Inserts entries one by one at their lower bound |
| `PerfElfMaps.InsertAllRegistered` | app/perfelfmap.cpp:133-139 | These insertions put fragments and merged entry exactly between the untouched entries |
| `PerfElfMaps.PerfElfMap.RegisterElf` | app/perfelfmap.cpp:69-140 | The method as a whole: the registered vector, the announced entries, and the meaning of every address |
| `BaseAddresses.NewEntryBase` | app/perfelfmap.cpp:122-131 | For any list of registered mappings: a new entry has a base address if and only if it is a file and there is a file mapping of the same path from offset zero below it that no later file mapping has put out of force; that is then its base, so the file starts where that mapping starts |
| `BaseAddresses.BaseAfter` | app/perfelfmap.cpp:124-131 | Which mapping is in force as a base after any list of mappings, and which later ones end that |
| `BaseAddresses.EntriesAfter` | app/perfelfmap.cpp:119-139 | Every entry after registering a mapping is the new one, an old one, or what is left of an old one, with the old one's file and names and without a base |
| `BaseAddresses.InsertedIs` | app/perfelfmap.cpp:122-131 | The new entry has the file and the names of the mapping |
| `BaseAddresses.BaseExample` | tests/auto/elfmap/tst_elfmap.cpp:80-128 | A file mapped at 0x1000 and, from offset 0x2000, at 0x3000: the second entry has the first one's start as its base |
| `PerfElfMaps.PerfElfMap.FindElf` | app/perfelfmap.cpp:142-155 | The entry that starts last at or below an address, if its reported or mapped range holds the address |
| `PerfElfMaps.FindIsLookup` | app/perfelfmap.cpp:142-155 | Without reported ranges, finding an entry is looking the address up |
| `FoundEntries.FindExactly` | app/perfelfmap.cpp:142-155 | For every map and address: an entry is found exactly if it is the last one that starts at or below the address and its range holds the address, the reported one if there is one and the mapped one otherwise |
| `FoundEntries.ReportedFinds` | app/perfelfmap.cpp:157-165 | A reported range decides exactly the addresses between its entry and the next one; everywhere else the same is found as before |
| `PerfElfMaps.PerfElfMap.UpdateElf` | app/perfelfmap.cpp:157-165 | Remembers a reported range in one entry and changes no meaning |
| `PerfElfMaps.PerfElfMap.IsAddressInRange` | app/perfelfmap.cpp:167-175 | True exactly between the first and the last mapped address |
| `PerfElfMaps.PerfElfMap.CopyDataFrom` | app/perfelfmap.h:109-113 | Takes over entries and base of another map |
| `PerfElfMaps.ModuleElfIsRoot` | app/perfsymboltable.cpp:370-379 | The recursion over base addresses ends, moves down only, stays in the same file and stops at a start of the file; its measure is the start address |
| `FoundEntries.ModuleElfExactly` | app/perfsymboltable.cpp:370-379 | The module of an entry is the one at the end of a chain of base addresses, each leading to a mapping of the same file from offset zero that is found there and starts there; the chain ends exactly where no base address leads on |
| `Framing.FrameContinues` | app/perfdata.cpp:109-132 | Framing a longer stream goes on exactly where framing its front had to stop |
| `Framing.FrameIsLossless` | app/perfdata.cpp:109-132 | The framed records account for exactly the bytes in front of the unparsed rest |
| `Framing.BadHeaderStays` | app/perfdata.cpp:123-127 | A header smaller than itself stops the framing for good |
| `FrameEncoding.FrameOfEncoded` | app/perfdata.cpp:109-132 | For both byte orders, every kind and every size: framing the encoded records followed by any bytes gives these records and goes on with framing those bytes |
| `FrameEncoding.FramedIsEncoded` | app/perfdata.cpp:109-132 | The inverse: any stream is the encoding of the records framed from it, followed by the unparsed rest |
| `FrameEncoding.NumberIsEncoded` | app/perfdata.cpp:120-120 | In either byte order a number that was read from bytes is below 256 to the power of their count, and writing it by division and remainder gives the bytes back |
| `FrameEncoding.EncodedIsNumber` | app/perfdata.cpp:371-371 | The inverse: reading what was written of a number that fits gives the number, in either byte order |
| `StreamReader.ProcessFacts` | app/perfdata.cpp:109-277 | One attempt on a half-read record does what framing its bytes asks for, or stalls on a short second part of tracing data |
| `StreamReader.PumpFacts` | app/perfdata.cpp:375-379 | Attempts until no more is possible dispatch all records framed so far |
| `StreamChunks.ChunksNeverMatter` | app/perfdata.cpp:368-388 | For a given stream, all ways of cutting it into chunks dispatch its framed records, and all end with success exactly for a complete stream, if and only if the stream does not end in tracing data whose second part is shorter than its size field |
| `StreamChunks.CutBehindSize` | app/perfdata.cpp:131-132 | For every other stream a cut behind the size field loses the last record and ends in an error, because resuming asks for the four content bytes again |
| `StreamChunks.ShortTailExample` | app/perfdata.cpp:228-251 | A complete stream of thirteen bytes that ends in such tracing data |
| `StreamChunks.ChunksMatterLittle` | app/perfdata.cpp:368-388 | For any chunks: an error is seen exactly for a bad header; a stalled reader holds back exactly the last record; otherwise the records are the framed ones and the unparsed bytes are kept |
| `StreamChunks.VerdictOnStream` | app/perfdata.cpp:448-468 | The reading is judged successful exactly if the stream ends between records and the reader has not stalled |
| `PerfDatas.PerfData.ProcessEvents` | app/perfdata.cpp:109-362 | The method on header, tracing size and device bytes is one specified attempt |
| `PerfDatas.PerfData.ProcessTracingData` | app/perfdata.cpp:228-251 | The two-part tracing record, resumed with its size |
| `PerfDatas.PerfData.DoRead` | app/perfdata.cpp:374-388 | The read loop, with the unfinished record judged only once the device is closed |
| `PerfDatas.PerfData.Read` | app/perfdata.cpp:429-446 | Reports an end of the reading and stops listening then |
| `PerfDatas.PerfData.Arrive` | app/perfdata.cpp:429-446 | After any sequence of arriving chunks the object is in the state that the chunks determine |
| `PerfDatas.ReportsVerdict` | app/perfdata.cpp:381-386 | With a closed device the verdict on the stream is reported; before that only an error is |
| `PerfDatas.PerfData.FinishReading` | app/perfdata.cpp:448-468 | The final report is the verdict on the chunks, and for streams without a short tracing end it is success exactly for a complete stream, with its framed records dispatched |
| `CompressedRecords.PayloadReader.constructor` | app/perfdata.cpp:280-294 | A new reader has nothing left over |
| `CompressedRecords.PayloadReader.Uncompress` | app/perfdata.cpp:285-335 | After any list of payloads the dispatched records are those framed from their concatenation, and the front of the buffer is exactly the unparsed rest |
| `CompressedRecords.PayloadReader.ProcessBuffer` | app/perfdata.cpp:310-333 | The inner loop ends, since each record takes at least a header, and finds where the unparsed rest starts |
| `CompressedRecords.PayloadReader.ProcessEvents` | app/perfdata.cpp:109-132 | One record out of the buffer, from any position |
| `CompressedRecords.PayloadReader.MoveToFront` | app/perfdata.cpp:329-331 | Moving the rest to the front in place keeps it although source and target overlap |
| `CompressedRecords.PayloadReader.Resize` | app/perfdata.cpp:288-303 | Resizing keeps the leading bytes |
| `PerfStdins.PerfStdin.ReadData` | app/perfstdin.cpp:60-78 | Delivered bytes followed by buffered ones are the bytes taken from standard input; the result counts the delivered bytes, and is -1 exactly at the end with nothing delivered |
| `PerfStdins.PerfStdin.ReadUpTo` | app/perfstdin.cpp:65-74 | The copy and refill loop ends; if it delivers less than asked for, nothing is buffered and the last read took nothing although there was room; if enough was buffered, nothing is read |
| `PerfStdins.PerfStdin.ResizeBuffer` | app/perfstdin.cpp:95-104 | Compaction and growth keep the unread bytes, within the size limits |
| `PerfStdins.PerfStdin.FillBuffer` | app/perfstdin.cpp:106-129 | A refill appends what was read behind the unread bytes |
| `PerfStdins.PerfStdin.MakeRoom` | app/perfstdin.cpp:108-123 | There is room to read, unless a full backlog of the maximal size waits; the buffer grows to the asked size, doubles if it is full of unread bytes, and otherwise keeps its length |
| `PerfStdins.PerfStdin.constructor` | app/perfstdin.cpp:40-52 | An opened device is empty and has the minimal buffer |
| `SymbolLookup.FindExact` | app/perfaddresscache.cpp:77-122 | For every symbol table and address, exactly what a lookup finds: the first symbol at a hit offset, otherwise the start of the last run of equal sizes at the nearest offset, if it reaches the address |
| `SymbolLookup.LookupIsScan` | app/perfaddresscache.cpp:77-122 | At every 64-bit address a lookup finds the first symbol in table order with the nearest offset if it covers the address, if and only if no first symbol is passed over |
| `SymbolLookup.AliasesAreScanned` | app/perfaddresscache.cpp:107-117 | When entries at equal offsets have equal sizes, no symbol is passed over |
| `SymbolLookup.PassedOverExample` | app/perfaddresscache.cpp:105-122 | A label without a size in front of a function at its offset is passed over |
| `SymbolScan.TableFacts` | app/perfaddresscache.cpp:119-121 | The lookup table is sorted and has, offset by offset, the symbols in table order without repeated neighbours |
| `SymbolScan.ReachesExact` | app/perfaddresscache.cpp:98-98 | The wrapping test misses exactly the symbols whose end does not fit into 64 bits |
| `PerfAddressCaches.PerfAddressCache.SetSymbolCache` | app/perfaddresscache.cpp:105-122 | Stores the sorted table without duplicates for the path, and leaves the other paths |
| `PerfAddressCaches.PerfAddressCache.FindSymbol` | app/perfaddresscache.cpp:77-103 | The answer depends on the symbol table only: demangling on demand cannot be observed by any order of lookups; an unknown path gets an empty cache |
| `PerfAddressCaches.PerfAddressCache.LazyDemangle` | app/perfaddresscache.cpp:84-90 | Demangles an entry in place at most once, stores it, and changes nothing else |
| `PerfAddressCaches.AnswerIs` | app/perfaddresscache.cpp:77-103 | A found symbol is answered as it is in the table, with its name demangled unless it was before; nothing found is an invalid symbol |
| `PerfAddressCaches.Position` | app/perfaddresscache.cpp:80-98 | Binary search and the three cases behind it end at the specified index |
| `PerfAddressCaches.LowerBoundSearch` | app/perfaddresscache.cpp:80-80 | Binary search finds the first symbol not below the address |
| `PerfAddressCaches.RemoveDuplicates` | app/perfaddresscache.cpp:120-120 | Keeps the first of neighbours with equal offset and size |
| `OutputRuns.RunIsMirrored` | app/perfunwind.cpp:889-930 | In every run, replaying the output on a client that appends definitions rebuilds the string, location, symbol and attribute tables exactly, and every id in a message was defined by an earlier one |
| `OutputRuns.AnswersStay` | app/perfunwind.cpp:889-919 | Ids are given out once: later requests get the same id and send nothing |
| `OutputRuns.ClientFinds` | app/perfunwind.cpp:889-919 | Under the producer's id the client finds the text, and the location but for its parent |
| `OutputRuns.ClientAcceptsRun` | tests/auto/shared/perfparsertestclient.cpp:55-199 | In every run the client takes the whole output, with all checks holding and all indices in range, exactly if no request leaves out a name the client insists on (new attributes and commands without one, samples of events without attributes or of fields never sent) and none makes it look at a location without a process |
| `OutputRuns.NamelessIsNotAccepted` | tests/auto/shared/perfparsertestclient.cpp:131-137 | Attributes without a name are sent, and the client looks for their name under -1, outside of its texts |
| `OutputMessages.AcceptsExactly` | tests/auto/shared/perfparsertestclient.cpp:55-181 | For one message whose ids refer back: all checks hold with indices in range exactly if no such name and no such process is missing |
| `OutputMessages.ReplayIsGrounded` | tests/auto/shared/perfparsertestclient.cpp:104-146 | After any such stream every parent is -1 or smaller than its location's id, and files and names are texts of the client |
| `ClientViews.RequestAnswered` | app/perfunwind.cpp:782-930 | After every request of the producer the client has what was asked for or sent: the text, the place, the symbol, new attributes under their name, the event of a thread |
| `ClientViews.TakesInRange` | tests/auto/shared/perfparsertestclient.cpp:55-181 | A client with a text, a process and a name everywhere takes exactly the messages whose ids are all its own or, where that is allowed, -1 |
| `ClientViews.NamedExactly` | tests/auto/shared/perfparsertestclient.cpp:82-103 | For any stream of messages the client has a name for a thread exactly if it was named or started, or a thread of it was named |
| `ClientViews.LastNameCounts` | tests/auto/shared/perfparsertestclient.cpp:82-103 | The name of a thread is its last command, or the name its parent had when it started |
| `ClientViews.FirstThreadCounts` | tests/auto/shared/perfparsertestclient.cpp:98-101 | A process without a name of its own has that of the first of its threads that was named |
| `ClientViews.KeepsInOrder` | tests/auto/shared/perfparsertestclient.cpp:82-182 | Samples and the starts and ends of threads are kept as sent, in order |
| `ClientViews.SampleReceived` | app/perfunwind.cpp:782-821 | What a sample means to the client: its frames, each cost with the attributes announced for its event or with none, and the names of the fields that are known |
| `ClientViews.FirstAnnouncementCounts` | app/perfunwind.cpp:371-404 | In every run the attributes of an event id are those of the first announcement for it, and id zero belongs to the first announcement of all |
| `OutputTables.ResolveStringFacts` | app/perfunwind.cpp:889-899 | A new text gets the next id and its definition is sent first; the empty text has no id |
| `OutputTables.ResolveLocationFacts` | app/perfunwind.cpp:911-919 | A new location gets the next id; equality ignores the parent |
| `OutputTables.ResolveSymbolFacts` | app/perfunwind.cpp:926-930 | A symbol is stored and sent for an existing location |
| `OutputTables.AddAttributesFacts` | app/perfunwind.cpp:371-404 | Ids without attributes get the new ones, all others keep theirs, and id zero goes to the first attributes |
| `IdTables.Definitions.ResolveString` | app/perfunwind.cpp:889-899 | The hash-table method is the specified request |
| `IdTables.Definitions.ResolveLocation` | app/perfunwind.cpp:911-919 | The hash-table method is the specified request |
| `IdTables.Definitions.ResolveSymbol` | app/perfunwind.cpp:926-930 | The hash-table method is the specified request |
| `IdTables.Definitions.AddAttributes` | app/perfunwind.cpp:371-404 | The method with its filter and its loop is the specified request |
| `IdTables.PerfParserTestClient.ExtractTrace` | tests/auto/shared/perfparsertestclient.cpp:75-198 | The client's loop gets through exactly the streams on which all checks hold with indices in range, and then has replayed them |
| `IdTables.PerfParserTestClient.Take` | tests/auto/shared/perfparsertestclient.cpp:86-197 | One message: taken exactly if its checks hold with indices in range |
| `IdTables.PerfParserTestClient.PrintFrames` | tests/auto/shared/perfparsertestclient.cpp:231-251 | The walk over parents ends, each step at a smaller id, at a location without a parent |
| `FrameLookup.PerfSymbolTable.LookupFrame` | app/perfsymboltable.cpp:693-832 | For every answer of the libraries: the frame is the one of the first lookup of that address in that file, by whatever process; a new lookup is the specified one, looks for the module and adds its entry to its cache, a cached one sends and changes nothing; the location is right for the asking address, process and answers exactly if the first lookup was at the same place; every location keeps having a symbol at most one step up, and no address changes its meaning |
| `FrameLookup.PerfSymbolTable.LookupUncached` | app/perfsymboltable.cpp:705-831 | The two closing assertions hold for every answer: the parent is not -1 and has a symbol; the location says address, line, file and relative address as answered; tables and id are exactly the specified lookup |
| `FrameLookup.PerfSymbolTable.FindModule` | app/perfsymboltable.cpp:336-402 | Looking for a module changes at most the reported range of the entry where the file starts, makes the cache dirty exactly if reporting fails, and changes no meaning |
| `FrameLookup.PerfSymbolTable.InModule` | app/perfsymboltable.cpp:734-792 | With a module: the parent is the one that the debugging entries give, or the function's own location, exactly as specified |
| `FrameLookup.PerfSymbolTable.OutsideModule` | app/perfsymboltable.cpp:800-813 | Without a module: the parent is the function's location at the specified start |
| `FrameLookup.PerfSymbolTable.DebugInfo` | app/perfsymboltable.cpp:751-784 | A compilation unit adds the source line, the start of the innermost function and its parent, exactly as specified |
| `FrameLookup.PerfSymbolTable.InlineChain` | app/perfsymboltable.cpp:776-782 | A function without inlined calls, or one whose location has a symbol, is looked up and nothing is sent; any other chain is parsed |
| `FrameLookup.PerfSymbolTable.EnsureSymbol` | app/perfsymboltable.cpp:794-799 | A location with a symbol keeps it and nothing is sent; any other gets the known name, extent and binary |
| `FrameLookup.PerfSymbolTable.ParseDwarf` | app/perfsymboltable.cpp:308-329 | The loop over the entries sends exactly the specified chain and ends at a location with a symbol |
| `FrameLookup.PerfSymbolTable.ParseDie` | app/perfsymboltable.cpp:274-306 | An inlined call asks for a call location below the previous function and for a function below that, a function for one without parent |
| `FrameLookup.PerfSymbolTable.InsertSubprogram` | app/perfsymboltable.cpp:254-272 | Asks for the function's location with the given parent and gives it its symbol, exactly as specified |
| `ChainWalks.ChainIsFollowed` | app/perfsymboltable.cpp:274-329 | For any tables and any chain of entries: the client walks from the innermost function over each call to the outermost function, each with its place, name and extent, if and only if the chain fits, that is each location it asks for is new then or is recorded with exactly the parent it comes with |
| `ChainWalks.KnownPlacesKeepParents` | app/perfsymboltable.cpp:277-301 | An inlined call and its function, for any tables: a location whose place the client has keeps the parent it had; otherwise it is a new one, the call below the parent it comes with and the function below the call |
| `InlineChains.FreshChainIsSent` | app/perfsymboltable.cpp:308-329 | If all locations of a chain are new, exactly they are sent, in order, and the client walks the chain |
| `ChainWalks.FreshChainFits` | app/perfsymboltable.cpp:308-329 | A chain all of whose locations are new fits |
| `ChainWalks.SameAddressFits` | app/perfsymboltable.cpp:308-329 | A chain that the client walks already fits, and ends at the same location again |
| `ChainWalks.SecondAddress` | app/perfsymboltable.cpp:282-301 | After a chain was looked up for one address, the same chain for another address in the same inlined call never fits and is not what the client walks: the call's location has no relative address and is the known one, so from a new innermost function the client passes the call and then the next function's location for the first address |
| `ChainWalks.SecondAddressExample` | app/perfsymboltable.cpp:282-301 | Two addresses in one inlined call, looked up by a new producer: the second chain ends at the outer function's location for the first address |
| `FrameAnswers.FunctionStartsAtSymbol` | app/perfsymboltable.cpp:737-747 | Without debugging entries a function starts at the start of the file plus the symbol's offset, modulo 2^64 |
| `FunctionStarts.FunctionOutsideModule` | app/perfsymboltable.cpp:800-828 | Without a module, for kernel and perf map symbols: at the client the function's location is at its symbol's start if and only if the address is not that start or the mapped file starts there too; without a symbol it is at the start of the file; the address's own location, if it is new, has it as its parent |
| `FunctionStarts.FunctionStartExample` | app/perfsymboltable.cpp:801-815 | A kernel function and generated code, each looked up at its start and behind it: only in the second case the function lies at its start |
| `FrameCaches.RelativeAddressFits` | app/perfaddresscache.cpp:27-34 | A found entry starts at or below the address, base address included, so the difference does not wrap |
| `FrameCaches.LocatedExactly` | app/perfaddresscache.cpp:36-53 | A location that describes one lookup describes another one exactly if both have the same address, process, source line and relative address |
| `FrameCaches.SharedEntry` | app/perfaddresscache.cpp:27-53 | Two lookups that share a cache entry have the same address exactly if the file starts at the same address for both |
| `FrameCaches.SharedEntryExample` | app/perfaddresscache.cpp:36-53 | A file that two processes have mapped at different addresses: both share the entry, and its location is right for at most one of them |
| `FrameCaches.MappedExactly` | app/perfaddresscache.cpp:31-33 | The second assertion, that the found entry is mapped at the address, holds for every address exactly if no range reported by the unwinder overshoots its mapped range |
| `FrameCaches.OvershootExample` | app/perfsymboltable.cpp:336-363 | A file that is mapped once and reported with twice that length is found at the first address behind its mapping |
| `FramesShown.FrameShown` | app/perfsymboltable.cpp:705-831 | What the client has for a frame that is looked up, in terms of the answers: its address, process, source line and relative address; that is the symbol's value plus the distance of the address to the file's start and the symbol's offset modulo 2^64, on ARM with the lowest bit cleared, and zero without a module or a symbol |
| `FramesShown.RelAddrsApart` | app/perfsymboltable.cpp:738-742 | Two addresses with the same symbol have relative addresses as far apart as themselves |
| `FramesShown.FunctionShown` | app/perfsymboltable.cpp:734-831 | What the client has for the function of a frame: its place, by the symbol, the debugging entry, or the chain of inlined calls if there was no symbol at the entry before, a chain that the client walks if its locations are new; its name, extent, file names and whether it belongs to the kernel; and a new frame lies below it |
| `NamedFrames.NewIsSound` | app/perfunwind.cpp:243-274 | A new producer satisfies what frame lookups keep |
| `NamedFrames.LocationStaysSound` | app/perfunwind.cpp:911-919 | A new location needs a symbol of its own only if its parent has none |
| `NamedFrames.SymbolMakesSound` | app/perfunwind.cpp:926-930 | Giving it one restores that every location has a symbol at most one step up |
| `Callchains.CallchainReports` | app/perfunwind.cpp:594-626 | Without a branch stack every address of the callchain is looked up in its space, and the user part starts with the sample's own address |
| `Callchains.BranchStackReports` | app/perfunwind.cpp:604-618 | With a branch stack the callchain's user part is cut down to the sample's own address, and only where the callchain starts elsewhere |
| `Callchains.ReportsExact` | app/perfunwind.cpp:594-647 | Everything that is looked up for a sample: the kernel part of the callchain, then its user part led by the sample's own address or, with a branch stack, that address and the branches; the branches are left out exactly if the callchain has no user address and ends in the kernel or at an unknown marker |
| `Callchains.BranchesReported` | app/perfunwind.cpp:641-648 | The branch stack is looked up from its first callee on through all callers, in order |
| `Callchains.MarkerExample` | app/perfunwind.cpp:594-614 | A callchain with the kernel's and the user's markers |
| `Callchains.UnknownMarkerExample` | app/perfunwind.cpp:594-614 | The hypervisor's marker stands for the kernel, the largest address is 2^64 - 4095, and an unknown marker ends the chain |
| `GuessedFrames.AnalyzedFacts` | app/perfunwind.cpp:728-778 | For every limit and whatever the unwinder does in two attempts: a sample has a frame, the first guessed frame is within the frames, the number of guessed frames is between 0 and 255, and with a limit other than -1 the unwinder exceeds it by at most one |
| `GuessedFrames.UnwoundStackFacts` | app/perfunwind.cpp:551-576 | The interworking retry never leaves fewer frames than the first run, keeps the veneer's frame and the bound on the first guessed frame, for every limit |
| `GuessedFrames.UnwoundFacts` | app/perfunwind.cpp:512-549 | A run of the unwinder only appends frames, and if there is a limit exceeds it by at most one |
| `UnwoundFrames.UnwoundExactly` | app/perfunwind.cpp:512-549 | Exactly what one run of the unwinder does, for every sequence of calls and every limit: it ends at the first call without a program counter, behind more frames than the limit, or with a dirty cache; the frames before it are appended; guessing starts at the last failed read, or at the end if that is not for a dirty cache; a veneer is the first frame of all or none |
| `UnwoundFrames.UnwoundStackExactly` | app/perfunwind.cpp:551-576 | Exactly when a stack is unwound twice, from which frame, and which frames stay: those of the second run unless they are fewer |
| `UnwoundFrames.ReportedExactly` | app/perfunwind.cpp:583-589 | The reported addresses are looked up in order up to the first dirty cache, and the last lookup decides about a veneer |
| `UnwoundFrames.AnalyzedExactly` | app/perfunwind.cpp:728-778 | Which of the two attempts counts, when its stack is unwound behind its callchain, when the sample's own address stands in, and how many frames are reported as guessed |
| `UnwindInfos.UnwindInfo.FrameCallback` | app/perfunwind.cpp:512-549 | Appends a frame or stops, by the configured limit or none, marking where guessing starts |
| `UnwindInfos.UnwindInfo.SetMaxUnwindFrames` | app/perfunwind.h:176-177 | Sets the limit, -1 for none; everything else stays |
| `UnwindInfos.UnwindInfo.UnwindStack` | app/perfunwind.cpp:551-576 | The retry with truncation and swap is the specified one |
| `UnwindInfos.UnwindInfo.ResolveCallchain` | app/perfunwind.cpp:578-648 | The loop over callchain and branch stack looks up exactly the specified addresses until a cache is dirty |
| `UnwindInfos.UnwindInfo.Analyze` | app/perfunwind.cpp:728-778 | Both attempts, the fallback to the sample's address, and the assertion on guessed frames |

## Left out

- ElfMaps.RegisterRefinesOverwrite: mappings are not empty, end below 2^64 in memory and in the file, and are named as the entry constructor names them. A zero-length entry is inserted in front of a range at its address and would hide it.
- BufferRuns.IncrementalIsOneShotSort: for runs whose event sizes are positive and whose buffered bytes stay below 2^32; `BufferRuns.RunConserves` needs neither.
- BufferRuns.RunIsChronological: a flush with a time order violation, mmaps that no sample follows and the trailing task events are not claimed to be in order, since the program does not order them.
- InTimeRuns.SampleFindsEffects: an mmap, fork or exit arrives before a sample of its time or a later one is flushed. Other results need less: `AddressSpaces.SampleFindsOverlay` only that no violation is seen, `AddressSpaces.TablesMeanTheLog` nothing.
- TrailingTaskEvents.EffectsExactly: for a flush without time order violation and with an exact byte counter.
- FlushEnds.FlushExactly: from an exact byte counter, that is for event sizes that are positive and buffered bytes below 2^32; so do the results of `BufferSteps`.
- BaseAddresses.NewEntryBase: every file among the mappings has a path.
- BufferSizes.TargetBelowMaximum: starts from a target not above the maximum, as the command line sets them before any data.
- CompressedRecords.PayloadReader.Uncompress: tracing data and compressed records nested in a payload; decompression is one call that returns bytes, and its errors are not modelled.
- PerfDatas.PerfData.ProcessEvents: record bodies consume exactly their content, so that a record is its header, its content and for tracing data the second part; compressed records are an object of their own.
- FrameLookup.PerfSymbolTable.LookupFrame: clearing a dirty cache; the process id is not zero, as sending a location asserts.
- IdTables.PerfParserTestClient.ExtractTrace: the stream header, error, progress, context switch, lost event and trace point format messages, and what happens behind a failed check, which depends on how the client is built.
- IdTables.PerfParserTestClient.Take: the same messages.
- GuessedFrames.AnalyzedFacts: the answers of lookups and the dirty flags are arbitrary, and clearing caches has no further effect.
- PerfStdins.PerfStdin.FillBuffer: the end of standard input may be seen at any read.
- Statistics mode, progress reports, error texts and debug output.
- Files that are not pipes, seeking, and the device's own signals apart from arriving bytes and closing.
- File and debug-information search, build ids, PLT and section names, demangling libraries: their results are arguments.
- The contents of DWARF, the unwinder's registers and memory, kallsyms and perf map parsing: their results are arguments.
- Feature, attribute and tracing-data field readers, trace point formats and their messages.
- The violation counter is unbounded.
