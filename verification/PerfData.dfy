/** The object that reads records from a sequential device, as chunks arrive. */
module PerfDatas {
  import opened Bytes
  import opened Framing
  import opened StreamReader
  import opened StreamChunks

  class PerfData {
    const format: Format
    /** The header being processed; size zero means that there is none. */
    var eventHeader: Header
    var tracingSize: nat
    /** The bytes the device has available. */
    var source: seq<byte>
    /** Whether the device is still open, and whether its signals are still connected. */
    var sourceOpen: bool
    var connected: bool
    /** What was emitted: nothing yet, or that the reading finished or failed. */
    var emitted: seq<Verdict>
    /** The records handed to the destination so far. */
    ghost var dispatched: seq<Record>
    /** The bytes of the current record that were taken from the device. */
    ghost var held: seq<byte>
    /** The chunks that have arrived while the object was reading. */
    ghost var chunks: seq<seq<byte>>

    ghost function Abs(): Reader
      reads this
    {
      Reader(eventHeader, tracingSize, held, source, dispatched, emitted == [Verdict.Failed])
    }

    /** The object is reading, or has stopped with an error, exactly as the chunks demand. */
    ghost predicate Valid()
      reads this
    {
      var r := FeedAll(chunks, format);
      && (connected <==> emitted == [])
      && (connected <==> !r.failed)
      && (connected ==> Abs() == r)
      && (!connected ==> emitted == [Verdict.Failed] && dispatched == r.dispatched)
    }

    constructor (f: Format)
      ensures Valid() && sourceOpen && chunks == [] && format == f
    {
      format, eventHeader, tracingSize, source := f, NO_HEADER, 0, [];
      sourceOpen, connected, emitted := true, true, [];
      held, chunks, dispatched := [], [], [];
    }

    method TakeBytes(n: nat) returns (bytes: seq<byte>)
      requires n <= |source|
      modifies `source, `held
      ensures bytes == old(source)[..n]
      ensures Abs() == old(Abs()).(held := old(held) + bytes, pending := old(source)[n..])
    {
      bytes := source[..n];
      held := held + bytes;
      source := source[n..];
    }

    /** Hands the record over; the next attempt starts with a new header. */
    method Deliver(ghost content: seq<byte>, tail: seq<byte>)
      modifies `eventHeader, `tracingSize, `dispatched, `held
      ensures Abs() == Dispatch(old(Abs()), content, tail, source)
    {
      dispatched := dispatched + [Record(eventHeader, content, tail)];
      eventHeader := eventHeader.(size := 0);
      tracingSize := 0;
      held := [];
    }

    method ProcessTracingData() returns (status: Status)
      requires eventHeader.size >= HEADER_SIZE && AnnouncesTail(eventHeader, format)
      requires |held| >= HEADER_SIZE && |source| >= 4
      requires emitted == []
      modifies `source, `held, `eventHeader, `tracingSize, `dispatched
      ensures (Abs(), status) == ProcessContent(old(Abs()), format)
    {
      ghost var before := Abs();
      if tracingSize == 0 {
        var announced := TakeBytes(4);
        tracingSize := Number(announced, format.bigEndian);
      }
      ghost var taken := Abs();
      if |source| < tracingSize { return Rerun; }
      ghost var content := held[HEADER_SIZE..];
      var tail := TakeBytes(tracingSize);
      Deliver(content, tail);
      status := SignalFinished;
    }

    method TakeNextHeader()
      requires |source| >= HEADER_SIZE && held == []
      modifies `source, `held, `eventHeader
      ensures Abs() == TakeHeader(old(Abs()), format)
    {
      ReadHeaderOfFront(source, [], format);
      var bytes := TakeBytes(HEADER_SIZE);
      eventHeader := ReadHeader(bytes, format);
    }

    method ProcessEvents() returns (status: Status)
      requires Consistent(Abs(), format) && emitted == []
      modifies `source, `held, `eventHeader, `tracingSize, `dispatched
      ensures (Abs(), status) == Process(old(Abs()), format)
    {
      if eventHeader.size == 0 {
        if |source| < HEADER_SIZE { return Rerun; }
        TakeNextHeader();
        if eventHeader.size < HEADER_SIZE { return SignalError; }
      }
      var contentSize := eventHeader.size - HEADER_SIZE;
      if |source| < contentSize { return Rerun; }
      if eventHeader.kind == TRACING_DATA && contentSize == 4 && format.tracing {
        status := ProcessTracingData();
      } else {
        var content := TakeBytes(contentSize);
        Deliver(content, []);
        status := SignalFinished;
      }
    }

    /** Processes what the device has; an open device may deliver more. */
    method DoRead() returns (status: Status)
      requires Consistent(Abs(), format) && emitted == []
      modifies `source, `held, `eventHeader, `tracingSize, `dispatched
      ensures Abs() == Pump(old(Abs()), format).(failed := false)
      ensures status == StatusOf(Pump(old(Abs()), format), sourceOpen)
    {
      hide Process, Consistent, FrontOf, Frame;
      status := SignalFinished;
      ghost var goal := Pump(Abs(), format);
      while source != []
        invariant status == SignalFinished && Consistent(Abs(), format)
        invariant Pump(Abs(), format) == goal
        decreases |held| + |source|
      {
        ghost var before := Abs();
        ProcessFacts(before, format);
        status := ProcessEvents();
        if status != SignalFinished { break; }
      }
      if status != SignalError {
        if sourceOpen {
          status := Rerun;
        } else {
          status := if eventHeader.size != 0 then SignalError else SignalFinished;
        }
      }
    }

    /** Reads what has arrived and reports an end of the reading. */
    method Read()
      requires Consistent(Abs(), format) && connected && emitted == []
      modifies this
      ensures var after := Pump(old(Abs()), format);
        && Abs().(failed := false) == after.(failed := false)
        && emitted == Signals(StatusOf(after, sourceOpen))
        && (connected <==> emitted == [])
      ensures sourceOpen == old(sourceOpen) && chunks == old(chunks)
    {
      hide Pump, Consistent;
      var status := DoRead();
      match status
      case SignalFinished =>
        connected := false;
        emitted := emitted + [Finished];
      case SignalError =>
        connected := false;
        emitted := emitted + [Failed];
      case Rerun =>
    }

    /** The device announces bytes; nobody listens after an error. */
    method Arrive(chunk: seq<byte>)
      requires Valid() && sourceOpen
      modifies this
      ensures Valid() && sourceOpen && chunks == old(chunks) + [chunk]
    {
      hide Pump, Frame, Consistent, FeedAll, Represents;
      ghost var r := FeedAll(chunks, format);
      FeedAllStep(chunks, chunk, format);
      if connected {
        MorePending(r, r.pending + chunk, format);
      }
      source := source + chunk;
      if connected {
        Read();
      }
      chunks := chunks + [chunk];
    }

    /** The device is about to close: one last attempt, and the verdict. */
    method FinishReading()
      requires Valid()
      modifies this
      ensures !connected && chunks == old(chunks)
      ensures emitted == [Judge(FeedAll(chunks, format), format)]
      ensures var s := Concat(chunks);
        !EndsInShortTail(s, format) ==>
          && dispatched == Frame(s, format).records
          && (emitted == [Finished] <==> Frame(s, format).tail == Starved)
    {
      hide Pump, Frame, Consistent, FeedAll, Represents;
      ghost var r := FeedAll(chunks, format);
      ChunksNeverMatter(Concat(chunks), format);
      if connected {
        connected := false;
        FeedAllStep(chunks, [], format);
        assert source + [] == source;
        var status := DoRead();
        match status
        case SignalFinished => emitted := emitted + [Finished];
        case SignalError => emitted := emitted + [Failed];
        case Rerun => emitted := emitted + [if eventHeader.size == 0 then Finished else Failed];
      }
    }
  }

  /** What reading reports: an unfinished record is only bad if the device is closed. */
  function StatusOf(after: Reader, sourceOpen: bool): Status {
    if after.failed then SignalError
    else if sourceOpen then Rerun
    else if after.header.size != 0 then SignalError
    else SignalFinished
  }

  function Signals(status: Status): seq<Verdict> {
    match status
    case SignalFinished => [Finished]
    case SignalError => [Failed]
    case Rerun => []
  }

  /** What is reported is the verdict on the stream once the device is closed; before that only an
      error is reported. */
  lemma ReportsVerdict(r: Reader, f: Format)
    requires r.failed || Consistent(r, f)
    ensures Signals(StatusOf(Feed(r, [], f), false)) == [Judge(r, f)]
    ensures Signals(StatusOf(r, true)) == if r.failed then [Failed] else []
  {
    hide Pump;
  }

  lemma MorePending(r: Reader, bytes: seq<byte>, f: Format)
    requires Consistent(r, f)
    ensures Consistent(r.(pending := bytes), f)
  {
  }

  lemma FeedAllStep(chunks: seq<seq<byte>>, chunk: seq<byte>, f: Format)
    ensures Represents(FeedAll(chunks, f), Concat(chunks), f)
    ensures FeedAll(chunks, f).failed || Consistent(FeedAll(chunks, f), f)
    ensures FeedAll(chunks + [chunk], f) == Feed(FeedAll(chunks, f), chunk, f)
  {
    hide Feed;
    var all := chunks + [chunk];
    assert all[..|all| - 1] == chunks;
  }
}
