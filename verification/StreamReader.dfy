/** The resumable reader: it takes a stream in chunks of any size and keeps half-read
    records between them. */
module StreamReader {
  import opened Bytes
  import opened Framing

  datatype Status = Rerun | SignalError | SignalFinished

  /** The header being processed (size zero: none), the announced size of a second part, the
      bytes of the current record that were consumed already, the bytes that arrived but
      were not consumed, the dispatched records, and whether an error ended the reading. */
  datatype Reader = Reader(header: Header, tracingSize: nat, held: seq<byte>, pending: seq<byte>,
                           dispatched: seq<Record>, failed: bool)

  const NEW_READER := Reader(NO_HEADER, 0, [], [], [], false)

  function TakeHeader(r: Reader, f: Format): Reader
    requires |r.pending| >= HEADER_SIZE
  {
    r.(header := ReadHeader(r.pending, f), held := r.pending[..HEADER_SIZE], pending := r.pending[HEADER_SIZE..])
  }

  function TakeTracingSize(r: Reader, f: Format): Reader
    requires |r.pending| >= 4
  {
    r.(tracingSize := Number(r.pending[..4], f.bigEndian), held := r.held + r.pending[..4], pending := r.pending[4..])
  }

  function Dispatch(r: Reader, content: seq<byte>, tail: seq<byte>, rest: seq<byte>): Reader {
    r.(header := r.header.(size := 0), tracingSize := 0, held := [], pending := rest,
       dispatched := r.dispatched + [Record(r.header, content, tail)])
  }

  function ProcessContent(r: Reader, f: Format): (Reader, Status)
    requires r.header.size >= HEADER_SIZE && |r.held| >= HEADER_SIZE
  {
    var contentSize := r.header.size - HEADER_SIZE;
    if |r.pending| < contentSize then (r, Rerun)
    else if AnnouncesTail(r.header, f) then
      var s := if r.tracingSize == 0 then TakeTracingSize(r, f) else r;
      if |s.pending| >= s.tracingSize then
        (Dispatch(s, s.held[HEADER_SIZE..], s.pending[..s.tracingSize], s.pending[s.tracingSize..]), SignalFinished)
      else (s, Rerun)
    else
      (Dispatch(r, r.pending[..contentSize], [], r.pending[contentSize..]), SignalFinished)
  }

  /** One attempt to process a record. */
  function Process(r: Reader, f: Format): (Reader, Status)
    requires Consistent(r, f)
  {
    if r.header.size == 0 then
      if |r.pending| < HEADER_SIZE then (r, Rerun)
      else
        var s := TakeHeader(r, f);
        if s.header.size < HEADER_SIZE then (s, SignalError) else ProcessContent(s, f)
    else ProcessContent(r, f)
  }

  /** What a half-read record looks like between two attempts. */
  ghost predicate Consistent(r: Reader, f: Format) {
    if r.header.size == 0 then r.held == [] && r.tracingSize == 0
    else
      && r.header.size >= HEADER_SIZE
      && |r.held| == HEADER_SIZE + (if r.tracingSize == 0 then 0 else 4)
      && ReadHeader(r.held, f) == r.header
      && (r.tracingSize > 0 ==>
            AnnouncesTail(r.header, f) && Number(r.held[HEADER_SIZE..], f.bigEndian) == r.tracingSize)
      && FrontOf(r.held, f) == Stuck(Incomplete)
  }

  /** Resuming a second part asks for the four content bytes once more, although they were
      consumed: a shorter second part is not dispatched before four bytes are there. */
  predicate Stalled(r: Reader) {
    r.header.size != 0 && 0 < r.tracingSize <= |r.pending| < 4
  }

  lemma ReadHeaderOfFront(s: seq<byte>, t: seq<byte>, f: Format)
    requires |s| >= HEADER_SIZE
    ensures ReadHeader(s + t, f) == ReadHeader(s, f)
    ensures ReadHeader(s[..HEADER_SIZE], f) == ReadHeader(s, f)
  {
    assert (s + t)[..4] == s[..4] && (s + t)[4..6] == s[4..6] && (s + t)[6..8] == s[6..8];
    var h := s[..HEADER_SIZE];
    assert h[..4] == s[..4] && h[4..6] == s[4..6] && h[6..8] == s[6..8];
  }

  /** What an attempt may end with, for the bytes `s` of the current record and behind it. */
  ghost predicate Outcome(r: Reader, s: seq<byte>, r': Reader, status: Status, f: Format) {
    match status
    case SignalFinished =>
      && FrontOf(s, f).Whole?
      && r'.held == [] && r'.pending == s[FrontOf(s, f).size..]
      && r'.dispatched == r.dispatched + [FrontOf(s, f).record]
      && Consistent(r', f) && r'.header.size == 0 && r'.failed == r.failed
    case SignalError => FrontOf(s, f) == Stuck(BadHeader) && r'.dispatched == r.dispatched
    case Rerun =>
      && r'.held + r'.pending == s && r'.dispatched == r.dispatched
      && Consistent(r', f) && r'.failed == r.failed
      && (|| (FrontOf(s, f) == Stuck(Starved) && r'.header.size == 0)
          || (FrontOf(s, f) == Stuck(Incomplete) && r'.header.size != 0)
          || (FrontOf(s, f).Whole? && Stalled(r')))
  }

  /** What `FrontOf` says, for a stream that starts with a proper header. */
  lemma FrontWithHeader(s: seq<byte>, h: Header, f: Format)
    requires |s| >= HEADER_SIZE && ReadHeader(s, f) == h && h.size >= HEADER_SIZE
    ensures |s| < h.size ==> FrontOf(s, f) == Stuck(Incomplete)
    ensures |s| >= h.size && !AnnouncesTail(h, f) ==>
      FrontOf(s, f) == Whole(h.size, Record(h, s[HEADER_SIZE..h.size], []))
    ensures |s| >= h.size && AnnouncesTail(h, f) ==>
      var n := Number(s[HEADER_SIZE..h.size], f.bigEndian);
      FrontOf(s, f) == if |s| < h.size + n then Stuck(Incomplete)
                       else Whole(h.size + n, Record(h, s[HEADER_SIZE..h.size], s[h.size..h.size + n]))
  {
    if |s| >= h.size && !AnnouncesTail(h, f) {
      assert s[h.size..h.size] == [];
    }
  }

  ghost predicate HoldsHeader(r: Reader, f: Format) {
    && r.header.size >= HEADER_SIZE
    && |r.held| >= HEADER_SIZE
    && ReadHeader(r.held, f) == r.header
  }

  /** A plain record, or the first four bytes of tracing data, right behind the header. */
  lemma PlainContent(r: Reader, f: Format)
    requires HoldsHeader(r, f) && r.tracingSize == 0 && |r.held| == HEADER_SIZE && !AnnouncesTail(r.header, f)
    ensures Outcome(r, r.held + r.pending, ProcessContent(r, f).0, ProcessContent(r, f).1, f)
  {
    hide FrontOf, ReadHeader, AnnouncesTail;
    var s := r.held + r.pending;
    ReadHeaderOfFront(r.held, r.pending, f);
    FrontWithHeader(s, r.header, f);
    var n := r.header.size - HEADER_SIZE;
    if |r.pending| < n {
      FrontWithHeader(r.held, r.header, f);
    } else {
      assert s[HEADER_SIZE..r.header.size] == r.pending[..n];
      assert s[r.header.size..] == r.pending[n..];
    }
  }

  /** The second part of tracing data, once its size is known. */
  lemma TracingTail(r: Reader, f: Format)
    requires HoldsHeader(r, f) && AnnouncesTail(r.header, f) && |r.held| == HEADER_SIZE + 4
    requires r.tracingSize == Number(r.held[HEADER_SIZE..], f.bigEndian)
    ensures var s := r.held + r.pending;
      FrontOf(s, f) ==
        if |r.pending| < r.tracingSize then Stuck(Incomplete)
        else Whole(HEADER_SIZE + 4 + r.tracingSize,
                   Record(r.header, r.held[HEADER_SIZE..], r.pending[..r.tracingSize]))
    ensures r.tracingSize > 0 ==> FrontOf(r.held, f) == Stuck(Incomplete)
    ensures |r.pending| >= r.tracingSize ==>
      (r.held + r.pending)[HEADER_SIZE + 4 + r.tracingSize..] == r.pending[r.tracingSize..]
  {
    var s := r.held + r.pending;
    ReadHeaderOfFront(r.held, r.pending, f);
    FrontWithHeader(s, r.header, f);
    FrontWithHeader(r.held, r.header, f);
    assert s[HEADER_SIZE..r.header.size] == r.held[HEADER_SIZE..];
    assert r.held[HEADER_SIZE..r.header.size] == r.held[HEADER_SIZE..];
    if |r.pending| >= r.tracingSize {
      assert s[r.header.size..r.header.size + r.tracingSize] == r.pending[..r.tracingSize];
    }
  }

  lemma TracingContent(r: Reader, f: Format)
    requires HoldsHeader(r, f) && AnnouncesTail(r.header, f)
    requires |r.held| == HEADER_SIZE + (if r.tracingSize == 0 then 0 else 4)
    requires r.tracingSize > 0 ==> Number(r.held[HEADER_SIZE..], f.bigEndian) == r.tracingSize
    ensures Outcome(r, r.held + r.pending, ProcessContent(r, f).0, ProcessContent(r, f).1, f)
  {
    ReadHeaderOfFront(r.held, r.pending, f);
    if |r.pending| < 4 {
      if r.tracingSize == 0 {
        FrontWithHeader(r.held + r.pending, r.header, f);
        FrontWithHeader(r.held, r.header, f);
      } else {
        TracingTail(r, f);
      }
    } else if r.tracingSize == 0 {
      var t := TakeTracingSize(r, f);
      assert t.held[HEADER_SIZE..] == r.pending[..4];
      assert t.held + t.pending == r.held + r.pending;
      ReadHeaderOfFront(r.held, r.pending[..4], f);
      TracingTail(t, f);
    } else {
      TracingTail(r, f);
    }
  }

  /** Every attempt does what framing the bytes in hand asks for, or stalls. */
  lemma ProcessFacts(r: Reader, f: Format)
    requires Consistent(r, f)
    ensures var (r', status) := Process(r, f);
      Outcome(r, r.held + r.pending, r', status, f)
  {
    hide ProcessContent, FrontOf, ReadHeader;
    if r.header.size == 0 {
      assert r.held + r.pending == r.pending;
      if |r.pending| < HEADER_SIZE {
        ShortIsStarved(r.pending, f);
      } else {
        var s := TakeHeader(r, f);
        ReadHeaderOfFront(r.pending, [], f);
        assert s.held + s.pending == r.pending;
        if s.header.size < HEADER_SIZE {
          SmallIsBad(r.pending, f);
        } else if AnnouncesTail(s.header, f) {
          TracingContent(s, f);
        } else {
          PlainContent(s, f);
        }
      }
    } else if AnnouncesTail(r.header, f) {
      TracingContent(r, f);
    } else {
      PlainContent(r, f);
    }
  }

  lemma ShortIsStarved(s: seq<byte>, f: Format)
    requires |s| < HEADER_SIZE
    ensures FrontOf(s, f) == Stuck(Starved)
  {
  }

  lemma SmallIsBad(s: seq<byte>, f: Format)
    requires |s| >= HEADER_SIZE && ReadHeader(s, f).size < HEADER_SIZE
    ensures FrontOf(s, f) == Stuck(BadHeader)
  {
  }

  // ------------------------------------------------------------ reading

  /** Processes records until the bytes in hand do not suffice or are bad. */
  function Pump(r: Reader, f: Format): Reader
    requires Consistent(r, f)
    decreases |r.held| + |r.pending|
  {
    ProcessFacts(r, f);
    if r.pending == [] then r
    else
      var (r', status) := Process(r, f);
      match status
      case SignalFinished => Pump(r', f)
      case SignalError => r'.(failed := true)
      case Rerun => r'
  }

  /** What pumping leaves: all records framed so far are dispatched, unless it stalls. */
  ghost predicate Pumped(before: Reader, after: Reader, f: Format)
    requires !before.failed
  {
    var whole := Frame(before.held + before.pending, f);
    if after.failed then
      whole.tail == BadHeader && after.dispatched == before.dispatched + whole.records
    else
      && Consistent(after, f)
      && Resumed(before.dispatched, whole) == Resumed(after.dispatched, Frame(after.held + after.pending, f))
      && (Stalled(after) || Settled(after, f))
  }

  /** Nothing more can be dispatched, and a header is being processed exactly if its content
      is missing. */
  ghost predicate Settled(r: Reader, f: Format) {
    var front := FrontOf(r.held + r.pending, f);
    || (front == Stuck(Starved) && r.header.size == 0)
    || (front == Stuck(Incomplete) && r.header.size != 0)
  }

  /** The size of a second part is read as soon as its four bytes are there. */
  predicate SizeTaken(r: Reader, f: Format) {
    r.header.size != 0 && AnnouncesTail(r.header, f) && r.tracingSize == 0 ==> |r.pending| < 4
  }

  lemma {:induction false} PumpFacts(r: Reader, f: Format)
    requires Consistent(r, f) && !r.failed
    ensures Pumped(r, Pump(r, f), f)
    decreases |r.held| + |r.pending|
  {
    hide Process, FrontOf, ReadHeader;
    var s := r.held + r.pending;
    if r.pending == [] {
      assert s == r.held;
      if r.held == [] {
        ShortIsStarved(s, f);
      }
    } else {
      ProcessFacts(r, f);
      var (r', status) := Process(r, f);
      match status
      case SignalFinished =>
        assert r'.held + r'.pending == r'.pending;
        PumpFacts(r', f);
        var first := [FrontOf(s, f).record];
        ResumedTwice(r.dispatched, first, Frame(r'.pending, f));
        assert Frame(s, f) == Resumed(first, Frame(r'.pending, f));
        Regroup(r.dispatched, first, Frame(r'.pending, f).records);
      case SignalError =>
        assert r.dispatched + [] == r.dispatched;
      case Rerun =>
    }
  }
}
