/** Cutting a stream into chunks: what the reader has dispatched in the end, and how the
    reading ends. */
module StreamChunks {
  import opened Bytes
  import opened Framing
  import opened StreamReader

  /** One notification that bytes have arrived; after an error nothing is read any more. */
  function Feed(r: Reader, chunk: seq<byte>, f: Format): Reader
    requires r.failed || Consistent(r, f)
  {
    if r.failed then r
    else
      var s := r.(pending := r.pending + chunk);
      assert Consistent(s, f);
      Pump(s, f)
  }

  /** The reader `r` stands for the stream `s`: what it dispatched and what it still holds
      frame like `s`. */
  ghost predicate Represents(r: Reader, s: seq<byte>, f: Format) {
    if r.failed then Frame(s, f).tail == BadHeader && r.dispatched == Frame(s, f).records
    else
      && Consistent(r, f)
      && Frame(s, f) == Resumed(r.dispatched, Frame(r.held + r.pending, f))
      && (Stalled(r) || Settled(r, f))
      && SizeTaken(r, f)
  }

  lemma ProcessTakesSize(r: Reader, f: Format)
    requires Consistent(r, f) && Process(r, f).1 == Rerun
    ensures SizeTaken(Process(r, f).0, f)
  {
    hide Consistent, FrontOf, ReadHeader;
  }

  lemma {:induction false} PumpTakesSize(r: Reader, f: Format)
    requires Consistent(r, f) && !r.failed && !Pump(r, f).failed
    ensures SizeTaken(Pump(r, f), f)
    decreases |r.held| + |r.pending|
  {
    hide Process, FrontOf, ReadHeader;
    if r.pending != [] {
      ProcessFacts(r, f);
      var (r', status) := Process(r, f);
      match status
      case SignalFinished => PumpTakesSize(r', f);
      case SignalError =>
      case Rerun => ProcessTakesSize(r, f);
    }
  }

  lemma NewRepresents(f: Format)
    ensures Represents(NEW_READER, [], f)
  {
    ShortIsStarved([], f);
  }

  lemma FeedRepresents(r: Reader, s: seq<byte>, chunk: seq<byte>, f: Format)
    requires Represents(r, s, f)
    ensures Represents(Feed(r, chunk, f), s + chunk, f)
  {
    hide Frame, FrontOf, ReadHeader, Pump;
    if r.failed {
      BadHeaderStays(s, chunk, f);
    } else {
      var a := Frame(r.held + r.pending, f);
      FrameContinues(s, chunk, f);
      FrameContinues(r.held + r.pending, chunk, f);
      ResumedTwice(r.dispatched, a.records, Frame(a.rest + chunk, f));
      Regroup(r.held, r.pending, chunk);
      var fed := r.(pending := r.pending + chunk);
      PumpFacts(fed, f);
      if !Pump(fed, f).failed {
        PumpTakesSize(fed, f);
      }
    }
  }

  function FeedAll(chunks: seq<seq<byte>>, f: Format): (r: Reader)
    ensures Represents(r, Concat(chunks), f)
  {
    NewRepresents(f);
    if chunks == [] then NEW_READER
    else
      var earlier, last := chunks[..|chunks| - 1], chunks[|chunks| - 1];
      FeedRepresents(FeedAll(earlier, f), Concat(earlier), last, f);
      Feed(FeedAll(earlier, f), last, f)
  }

  // ------------------------------------------------------------ what chunks can change

  /** The stream ends shortly behind tracing data whose second part is shorter than its
      four byte size field. */
  predicate EndsInShortTail(s: seq<byte>, f: Format) {
    var a := Frame(s, f);
    && a.tail != BadHeader
    && a.records != []
    && var last := a.records[|a.records| - 1];
      AnnouncesTail(last.header, f) && last.tail != [] && |last.tail| + |a.rest| < 4
  }

  /** A stalled reader holds back exactly the last record, which is such tracing data. */
  lemma StalledMisses(r: Reader, s: seq<byte>, f: Format)
    requires Represents(r, s, f) && !r.failed && Stalled(r)
    ensures EndsInShortTail(s, f)
    ensures |Frame(s, f).records| == |r.dispatched| + 1 && r.dispatched == Frame(s, f).records[..|r.dispatched|]
  {
    hide ReadHeader;
    var here := r.held + r.pending;
    TracingTail(r, f);
    assert FrontOf(here, f).Whole?;
    ShortIsStarved(r.pending[r.tracingSize..], f);
    assert Frame(here, f) == Framed([FrontOf(here, f).record], r.pending[r.tracingSize..], Starved);
  }

  /** What the reader has done with a stream that came in any chunks. */
  lemma ChunksMatterLittle(chunks: seq<seq<byte>>, f: Format)
    ensures var r, whole := FeedAll(chunks, f), Frame(Concat(chunks), f);
      && (r.failed <==> whole.tail == BadHeader)
      && (!r.failed && Stalled(r) ==>
            && EndsInShortTail(Concat(chunks), f)
            && whole.records != [] && r.dispatched == whole.records[..|whole.records| - 1])
      && (r.failed || !Stalled(r) ==> r.dispatched == whole.records)
      && (!r.failed && !Stalled(r) ==>
            && r.held + r.pending == whole.rest
            && (r.header.size == 0 <==> whole.tail == Starved))
  {
    hide FeedAll, FrontOf, ReadHeader, Consistent;
    var r, s := FeedAll(chunks, f), Concat(chunks);
    assert Represents(r, s, f);
    if !r.failed {
      if Stalled(r) {
        StalledMisses(r, s, f);
      } else {
        assert Frame(r.held + r.pending, f).records == [];
        assert r.dispatched + [] == r.dispatched;
      }
    }
  }

  /** How a finished stream is judged: the device reports its closing, one more attempt is
      made, and a header that is still being processed is an error. */
  datatype Verdict = Finished | Failed

  function Judge(r: Reader, f: Format): Verdict
    requires r.failed || Consistent(r, f)
  {
    var last := Feed(r, [], f);
    if last.failed || last.header.size != 0 then Failed else Finished
  }

  /** One more attempt without new bytes changes nothing that counts. */
  lemma AttemptAgain(r: Reader, f: Format)
    requires Consistent(r, f) && !r.failed && (Stalled(r) || Settled(r, f))
    ensures var last := Feed(r, [], f);
      !last.failed && (last.header.size == 0 <==> r.header.size == 0)
  {
    hide FrontOf, ReadHeader;
    var again := r.(pending := r.pending + []);
    assert again == r;
    ProcessFacts(r, f);
    if !Stalled(r) {
      assert FrontOf(r.held + r.pending, f).Stuck?;
    }
  }

  /** The verdict is an error exactly if the stream has a bad header or ends between a
      header and the end of its content, or if the reader stalled. */
  lemma VerdictOnStream(chunks: seq<seq<byte>>, f: Format)
    ensures var r := FeedAll(chunks, f);
      Judge(r, f) == Finished <==>
        Frame(Concat(chunks), f).tail == Starved && !(Stalled(r) && !r.failed)
  {
    hide Frame, FrontOf, ReadHeader, Pump, Consistent, FeedAll, Settled;
    ChunksMatterLittle(chunks, f);
    var r := FeedAll(chunks, f);
    if !r.failed {
      assert Represents(r, Concat(chunks), f);
      AttemptAgain(r, f);
    }
  }

  // ------------------------------------------------------------ the exact condition

  /** The stream in front of its last record holds all the other records, and nothing else. */
  lemma {:induction false} LastRecord(s: seq<byte>, f: Format) returns (k: nat)
    requires Frame(s, f).records != []
    ensures k + |Frame(s, f).rest| <= |s|
    ensures var a := Frame(s, f);
      && FrontOf(s[k..], f) == Whole(|s| - |a.rest| - k, a.records[|a.records| - 1])
      && Frame(s[..k], f) == Framed(a.records[..|a.records| - 1], [], Starved)
    decreases |s|
  {
    hide FrontOf;
    var n := FrontOf(s, f).size;
    var later := Frame(s[n..], f);
    if later.records == [] {
      k := 0;
      FrameIsLossless(s, f);
      LastAlone(s, f);
    } else {
      var j := LastRecord(s[n..], f);
      k := n + j;
      assert s[n..][j..] == s[k..];
      FrontBefore(s, s[n..][..j], f);
      assert s[..n] + s[n..][..j] == s[..k];
    }
  }

  lemma LastAlone(s: seq<byte>, f: Format)
    requires |Frame(s, f).records| == 1 && |Frame(s, f).rest| <= |s|
    ensures var a := Frame(s, f);
      && FrontOf(s[0..], f) == Whole(|s| - |a.rest|, a.records[0])
      && Frame(s[..0], f) == Framed(a.records[..0], [], Starved)
  {
    hide FrontOf;
    assert s[0..] == s;
    ShortIsStarved(s[..0], f);
    var n := FrontOf(s, f).size;
    var later := Frame(s[n..], f);
    assert |[FrontOf(s, f).record] + later.records| == 1;
    assert later.records == [];
    assert FrontOf(s[n..], f).Stuck?;
  }

  /** A whole first record in front of a stretch of other records. */
  lemma FrontBefore(s: seq<byte>, t: seq<byte>, f: Format)
    requires FrontOf(s, f).Whole?
    ensures Frame(s[..FrontOf(s, f).size] + t, f) == Resumed([FrontOf(s, f).record], Frame(t, f))
  {
    hide FrontOf, Frame;
    FrontAlone(s, f);
    FrameContinues(s[..FrontOf(s, f).size], t, f);
    assert [] + t == t;
  }

  lemma FrontAlone(s: seq<byte>, f: Format)
    requires FrontOf(s, f).Whole?
    ensures var n := FrontOf(s, f).size;
      Frame(s[..n], f) == Framed([FrontOf(s, f).record], [], Starved)
  {
    var n := FrontOf(s, f).size;
    assert FrontOf(s[..n], f) == FrontOf(s, f) by {
      FrontOfPrefix(s, n, f);
    }
    hide FrontOf;
    assert s[..n][n..] == [];
    ShortIsStarved([], f);
  }

  lemma FrontOfPrefix(s: seq<byte>, n: nat, f: Format)
    requires FrontOf(s, f).Whole? && FrontOf(s, f).size == n
    ensures FrontOf(s[..n], f) == FrontOf(s, f)
  {
    var t := s[..n];
    assert t + s[n..] == s;
    assert t[..4] == s[..4] && t[4..6] == s[4..6] && t[6..8] == s[6..8];
    var h := ReadHeader(s, f);
    assert t[HEADER_SIZE..h.size] == s[HEADER_SIZE..h.size];
    assert t[h.size..n] == s[h.size..n];
  }

  /** The front of tracing data, up to and including the size field. */
  lemma SizeFieldOnly(t: seq<byte>, f: Format)
    requires FrontOf(t, f).Whole?
    requires var last := FrontOf(t, f).record; AnnouncesTail(last.header, f) && last.tail != []
    ensures var last, n := FrontOf(t, f).record, FrontOf(t, f).size;
      && n == HEADER_SIZE + 4 + |last.tail| <= |t|
      && ReadHeader(t[..HEADER_SIZE + 4], f) == last.header
      && FrontOf(t[..HEADER_SIZE + 4], f) == Stuck(Incomplete)
      && Frame(t[..HEADER_SIZE + 4], f) == Framed([], t[..HEADER_SIZE + 4], Incomplete)
      && Number(t[..HEADER_SIZE + 4][HEADER_SIZE..], f.bigEndian) == |last.tail|
  {
    var here := t[..HEADER_SIZE + 4];
    var h := ReadHeader(t, f);
    assert here + t[HEADER_SIZE + 4..] == t;
    ReadHeaderOfFront(here, t[HEADER_SIZE + 4..], f);
    FrontWithHeader(t, h, f);
    assert t[HEADER_SIZE..h.size] == here[HEADER_SIZE..h.size] == here[HEADER_SIZE..];
    FrontWithHeader(here, h, f);
  }

  /** A reader that was given exactly that front has taken the size field. */
  lemma SizeFieldTaken(r: Reader, here: seq<byte>, h: Header, f: Format)
    requires Consistent(r, f) && r.header.size != 0 && SizeTaken(r, f) && r.held + r.pending == here
    requires |here| == HEADER_SIZE + 4 && ReadHeader(here, f) == h && AnnouncesTail(h, f)
    ensures r.header == h && r.held == here && r.pending == [] && r.tracingSize > 0
    ensures r.tracingSize == Number(here[HEADER_SIZE..], f.bigEndian)
  {
    ReadHeaderOfFront(r.held, r.pending, f);
    assert r.tracingSize > 0;
    assert |r.pending| == 0;
    assert r.held + [] == r.held;
  }

  /** A short second part then stalls it. */
  lemma ShortTailStalls(r: Reader, t: seq<byte>, f: Format)
    requires Consistent(r, f) && !r.failed && r.header.size != 0 && AnnouncesTail(r.header, f)
    requires r.pending == [] && 0 < r.tracingSize <= |t| < 4
    ensures Feed(r, t, f) == r.(pending := t) && Stalled(Feed(r, t, f)) && Consistent(Feed(r, t, f), f)
  {
    hide FrontOf, ReadHeader;
    assert r.pending + t == t;
    var s := r.(pending := t);
    assert Process(s, f) == (s, Rerun);
  }

  lemma FeedTwice(x: seq<byte>, y: seq<byte>, f: Format)
    ensures Concat([x, y]) == x + y && Concat([x]) == x
    ensures FeedAll([x, y], f) == Feed(FeedAll([x], f), y, f)
  {
    hide Feed, Represents;
    var both := [x, y];
    assert both[..1] == [x] && [x][..0] == [];
    assert Concat([x]) == Concat([]) + x;
  }

  lemma RepresentsFacts(r: Reader, s: seq<byte>, f: Format)
    requires Represents(r, s, f) && !r.failed
    ensures Consistent(r, f) && SizeTaken(r, f)
  {
  }

  /** What the reader looks like after it was given a stream up to such a size field. */
  lemma AtSizeField(front: seq<byte>, here: seq<byte>, h: Header, f: Format)
    requires Frame(front, f).rest == [] && Frame(here, f) == Framed([], here, Incomplete)
    requires |here| == HEADER_SIZE + 4 && ReadHeader(here, f) == h && AnnouncesTail(h, f)
    ensures var r := FeedAll([front + here], f);
      && Consistent(r, f) && !r.failed && r.dispatched == Frame(front, f).records
      && r.header == h && r.pending == [] && 0 < r.tracingSize == Number(here[HEADER_SIZE..], f.bigEndian)
  {
    hide ReadHeader, FeedAll, Consistent, FrontOf, Frame;
    var s := front + here;
    assert Concat([s]) == s by {
      FeedTwice(s, [], f);
    }
    FrameContinues(front, here, f);
    assert [] + here == here && Frame(front, f).records + [] == Frame(front, f).records;
    var r := FeedAll([s], f);
    ChunksMatterLittle([s], f);
    RepresentsFacts(r, s, f);
    SizeFieldTaken(r, here, h, f);
  }

  /** Cutting such a stream right behind the size field makes the reader stall: the last
      record is lost, and a stream that is complete is judged to have failed. */
  lemma CutBehindSize(s: seq<byte>, f: Format) returns (chunks: seq<seq<byte>>)
    requires EndsInShortTail(s, f)
    ensures Concat(chunks) == s && FeedAll(chunks, f).dispatched != Frame(s, f).records
    ensures Judge(FeedAll(chunks, f), f) == Failed
  {
    hide ReadHeader, FeedAll, Feed, Represents, Consistent, Stalled, FrontOf, Frame;
    var last := Frame(s, f).records[|Frame(s, f).records| - 1];
    var k := LastRecord(s, f);
    SizeFieldOnly(s[k..], f);
    var cut := k + HEADER_SIZE + 4;
    var here := s[k..cut];
    assert s[k..][..HEADER_SIZE + 4] == here;
    assert s[..k] + here == s[..cut] && s[..cut] + s[cut..] == s;
    AtSizeField(s[..k], here, last.header, f);
    FeedTwice(s[..cut], s[cut..], f);
    ShortTailStalls(FeedAll([s[..cut]], f), s[cut..], f);
    chunks := [s[..cut], s[cut..]];
    AttemptAgain(FeedAll(chunks, f), f);
  }

  /** Chunks never matter exactly if the stream does not end in a short second part. */
  lemma ChunksNeverMatter(s: seq<byte>, f: Format)
    ensures (forall chunks: seq<seq<byte>> :: Concat(chunks) == s ==>
               FeedAll(chunks, f).dispatched == Frame(s, f).records)
            <==> !EndsInShortTail(s, f)
    ensures (forall chunks: seq<seq<byte>> :: Concat(chunks) == s ==>
               (Judge(FeedAll(chunks, f), f) == Finished <==> Frame(s, f).tail == Starved))
            <==> !EndsInShortTail(s, f)
  {
    hide Frame, FeedAll, Judge, FrontOf;
    if EndsInShortTail(s, f) {
      FrameIsLossless(s, f);
      ShortIsStarved(Frame(s, f).rest, f);
      var chunks := CutBehindSize(s, f);
      assert FeedAll(chunks, f).dispatched != Frame(s, f).records;
    } else {
      forall chunks: seq<seq<byte>> | Concat(chunks) == s
        ensures FeedAll(chunks, f).dispatched == Frame(s, f).records
        ensures Judge(FeedAll(chunks, f), f) == Finished <==> Frame(s, f).tail == Starved
      {
        ChunksMatterLittle(chunks, f);
        VerdictOnStream(chunks, f);
      }
    }
  }

  const EXAMPLE: seq<byte> := [66, 0, 0, 0, 0, 0, 12, 0, 1, 0, 0, 0, 7]

  /** A complete stream that chunks can damage: tracing data with a single byte behind the
      size field. */
  lemma ShortTailExample()
    ensures var f, s := Format(false, true), EXAMPLE;
      && EndsInShortTail(s, f)
      && Frame(s, f) == Framed([Record(Header(66, 0, 12), [1, 0, 0, 0], [7])], [], Starved)
  {
    hide FrontOf, ReadHeader, Number;
    var f, s := Format(false, true), EXAMPLE;
    ExampleHeader();
    var h := Header(66, 0, 12);
    assert s[HEADER_SIZE..h.size] == [1, 0, 0, 0];
    FourBytes(s[HEADER_SIZE..h.size]);
    FrontWithHeader(s, h, f);
    assert s[12..13] == [7] && s[13..] == [];
    assert FrontOf(s, f) == Whole(13, Record(h, [1, 0, 0, 0], [7]));
    ShortIsStarved(s[13..], f);
    var rest := Frame(s[13..], f);
    assert rest == Framed([], [], Starved);
  }

  lemma ExampleHeader()
    ensures ReadHeader(EXAMPLE, Format(false, true)) == Header(66, 0, 12)
  {
    var s := EXAMPLE;
    FourBytes(s[..4]);
    assert s[4..6] == [0, 0] && s[6..8] == [12, 0];
    TwoBytes(s[4..6]);
    TwoBytes(s[6..8]);
  }

  lemma TwoBytes(s: seq<byte>)
    requires |s| == 2 && s[1] == 0
    ensures Number(s, false) == s[0]
  {
    assert s[1..][1..] == [];
    assert Number(s[1..], false) == 0;
  }

  lemma FourBytes(s: seq<byte>)
    requires |s| == 4 && s[1] == s[2] == s[3] == 0
    ensures Number(s, false) == s[0]
  {
    assert s[1..][1..] == s[2..] && s[2..][1..] == s[3..] && s[3..][1..] == [];
    assert Number(s[3..], false) == 0 && Number(s[2..], false) == 0 && Number(s[1..], false) == 0;
  }
}
