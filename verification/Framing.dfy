/** How a byte stream is cut into records. */
module Framing {
  import opened Bytes

  const HEADER_SIZE := 8
  const TRACING_DATA := 66
  const COMPRESSED := 81

  datatype Header = Header(kind: nat, misc: nat, size: nat)

  const NO_HEADER := Header(0, 0, 0)

  /** A dispatched record: its header, its content, and for tracing data what follows. */
  datatype Record = Record(header: Header, content: seq<byte>, tail: seq<byte>)

  /** How the rest of a stream looks: no whole header, a header without its content, or a
      header that is smaller than itself. */
  datatype Tail = Starved | Incomplete | BadHeader

  datatype Framed = Framed(records: seq<Record>, rest: seq<byte>, tail: Tail)

  /** The byte order of the stream, and whether tracing data announce a second part. */
  datatype Format = Format(bigEndian: bool, tracing: bool)

  function ReadHeader(s: seq<byte>, f: Format): Header
    requires |s| >= HEADER_SIZE
  {
    Header(Number(s[..4], f.bigEndian), Number(s[4..6], f.bigEndian), Number(s[6..8], f.bigEndian))
  }

  /** Tracing data say in four bytes of content how many more bytes follow. */
  predicate AnnouncesTail(h: Header, f: Format) {
    f.tracing && h.kind == TRACING_DATA && h.size == HEADER_SIZE + 4
  }

  function TailSize(content: seq<byte>, f: Format): nat {
    Number(content, f.bigEndian)
  }

  /** The size of the whole record that starts with header `h`, once its content is known. */
  function WholeSize(s: seq<byte>, h: Header, f: Format): nat
    requires HEADER_SIZE <= h.size <= |s|
  {
    h.size + (if AnnouncesTail(h, f) then TailSize(s[HEADER_SIZE..h.size], f) else 0)
  }

  /** What a stream starts with. */
  datatype Front = Whole(size: nat, record: Record) | Stuck(tail: Tail)

  function FrontOf(s: seq<byte>, f: Format): (r: Front)
    ensures r.Whole? ==> HEADER_SIZE <= r.size <= |s|
  {
    if |s| < HEADER_SIZE then Stuck(Starved)
    else
      var h := ReadHeader(s, f);
      if h.size < HEADER_SIZE then Stuck(BadHeader)
      else if |s| < h.size || |s| < WholeSize(s, h, f) then Stuck(Incomplete)
      else
        var n := WholeSize(s, h, f);
        Whole(n, Record(h, s[HEADER_SIZE..h.size], s[h.size..n]))
  }

  /** The records of a stream, in order, and what is left behind the last whole one. */
  function Frame(s: seq<byte>, f: Format): Framed
    decreases |s|
  {
    match FrontOf(s, f)
    case Stuck(tail) => Framed([], s, tail)
    case Whole(n, record) =>
      var later := Frame(s[n..], f);
      later.(records := [record] + later.records)
  }

  /** More bytes change neither a whole first record nor a bad first header. */
  lemma FrontIsFinal(s: seq<byte>, t: seq<byte>, f: Format)
    requires FrontOf(s, f).Whole? || FrontOf(s, f) == Stuck(BadHeader)
    ensures FrontOf(s + t, f) == FrontOf(s, f)
  {
    assert (s + t)[..4] == s[..4] && (s + t)[4..6] == s[4..6] && (s + t)[6..8] == s[6..8];
    var h := ReadHeader(s, f);
    if HEADER_SIZE <= h.size <= |s| {
      assert (s + t)[HEADER_SIZE..h.size] == s[HEADER_SIZE..h.size];
      var n := WholeSize(s, h, f);
      if n <= |s| {
        assert (s + t)[h.size..n] == s[h.size..n];
      }
    }
  }

  /** Framing a longer stream goes on where framing its front had to stop. */
  lemma {:induction false} FrameContinues(s: seq<byte>, t: seq<byte>, f: Format)
    ensures Frame(s + t, f) == Resumed(Frame(s, f).records, Frame(Frame(s, f).rest + t, f))
    decreases |s|
  {
    hide FrontOf;
    if FrontOf(s, f).Whole? {
      FrontIsFinal(s, t, f);
      var n, first := FrontOf(s, f).size, [FrontOf(s, f).record];
      var a := Frame(s[n..], f);
      assert (s + t)[n..] == s[n..] + t;
      FrameContinues(s[n..], t, f);
      ResumedTwice(first, a.records, Frame(a.rest + t, f));
    } else {
      ResumedTwice([], [], Frame(s + t, f));
    }
  }

  /** A bad header stops the framing for good. */
  lemma BadHeaderStays(s: seq<byte>, t: seq<byte>, f: Format)
    requires Frame(s, f).tail == BadHeader
    ensures Frame(s + t, f).records == Frame(s, f).records && Frame(s + t, f).tail == BadHeader
  {
    hide FrontOf;
    var a := Frame(s, f);
    FrameContinues(s, t, f);
    FrameIsLossless(s, f);
    FrontIsFinal(a.rest, t, f);
    assert a.records + [] == a.records;
  }

  lemma ResumedTwice(x: seq<Record>, y: seq<Record>, later: Framed)
    ensures Resumed(x, Resumed(y, later)) == Resumed(x + y, later)
    ensures Resumed([], later) == later
  {
    Regroup(x, y, later.records);
    assert [] + later.records == later.records;
  }

  function Resumed(records: seq<Record>, later: Framed): Framed {
    later.(records := records + later.records)
  }

  function FramedSize(records: seq<Record>): nat {
    if records == [] then 0
    else HEADER_SIZE + |records[0].content| + |records[0].tail| + FramedSize(records[1..])
  }

  lemma FrontSize(s: seq<byte>, f: Format)
    requires FrontOf(s, f).Whole?
    ensures var record := FrontOf(s, f).record;
      FrontOf(s, f).size == HEADER_SIZE + |record.content| + |record.tail|
  {
  }

  /** Framing loses no byte: what is left is a suffix, and the records account for exactly
      the bytes before it. */
  lemma {:induction false} FrameIsLossless(s: seq<byte>, f: Format)
    ensures var a := Frame(s, f);
      && |a.rest| <= |s| && a.rest == s[|s| - |a.rest|..]
      && |s| - |a.rest| == FramedSize(a.records)
      && FrontOf(a.rest, f) == Stuck(a.tail)
    decreases |s|
  {
    hide FrontOf;
    if FrontOf(s, f).Whole? {
      var n := FrontOf(s, f).size;
      FrontSize(s, f);
      FrameIsLossless(s[n..], f);
      assert ([FrontOf(s, f).record] + Frame(s[n..], f).records)[1..] == Frame(s[n..], f).records;
    }
  }
}
