/** Streams as they are written: the records as bytes, and framing as the inverse. */
module FrameEncoding {
  import opened Bytes
  import opened Framing

  // ------------------------------------------------------------ numbers

  function Power(n: nat): (r: nat)
    ensures r > 0
  {
    if n == 0 then 1 else 256 * Power(n - 1)
  }

  /** The bytes of a number, lowest first. */
  function LowFirst(n: nat, width: nat): (s: seq<byte>)
    ensures |s| == width
  {
    if width == 0 then [] else [n % 256] + LowFirst(n / 256, width - 1)
  }

  function HighFirst(n: nat, width: nat): (s: seq<byte>)
    ensures |s| == width
  {
    if width == 0 then [] else HighFirst(n / 256, width - 1) + [n % 256]
  }

  function Encoded(n: nat, width: nat, bigEndian: bool): (s: seq<byte>)
    ensures |s| == width
  {
    if bigEndian then HighFirst(n, width) else LowFirst(n, width)
  }

  lemma {:induction false} NumberIsEncoded(s: seq<byte>, bigEndian: bool)
    ensures Number(s, bigEndian) < Power(|s|)
    ensures Encoded(Number(s, bigEndian), |s|, bigEndian) == s
    decreases |s|
  {
    if s != [] {
      var rest := if bigEndian then s[..|s| - 1] else s[1..];
      NumberIsEncoded(rest, bigEndian);
      var low, n := if bigEndian then s[|s| - 1] else s[0], Number(rest, bigEndian);
      assert Number(s, bigEndian) == 256 * n + low;
      assert (256 * n + low) % 256 == low && (256 * n + low) / 256 == n;
    }
  }

  lemma {:induction false} EncodedIsNumber(n: nat, width: nat, bigEndian: bool)
    requires n < Power(width)
    ensures Number(Encoded(n, width, bigEndian), bigEndian) == n
  {
    if width > 0 {
      var s := Encoded(n, width, bigEndian);
      var rest := Encoded(n / 256, width - 1, bigEndian);
      EncodedIsNumber(n / 256, width - 1, bigEndian);
      assert (if bigEndian then s[..|s| - 1] else s[1..]) == rest;
    }
  }

  // ------------------------------------------------------------ records

  /** A header in eight bytes: its kind, flags and the size of the record. */
  function EncodedHeader(h: Header, f: Format): (s: seq<byte>)
    ensures |s| == 8
  {
    Encoded(h.kind, 4, f.bigEndian) + Encoded(h.misc, 2, f.bigEndian) + Encoded(h.size, 2, f.bigEndian)
  }

  function EncodedRecord(r: Record, f: Format): seq<byte> {
    EncodedHeader(r.header, f) + r.content + r.tail
  }

  function EncodedStream(records: seq<Record>, f: Format): seq<byte> {
    if records == [] then [] else EncodedRecord(records[0], f) + EncodedStream(records[1..], f)
  }

  /** Records that fit their header: its size counts header and content. Tracing data with a
      second part, kind 66, say its length in their four bytes of content. */
  predicate Encodable(r: Record, f: Format) {
    && r.header.kind < 0x1_0000_0000 && r.header.misc < 0x1_0000
    && r.header.size == 8 + |r.content| < 0x1_0000
    && if f.tracing && r.header.kind == 66 && |r.content| == 4
       then |r.tail| < 0x1_0000_0000 && r.content == Encoded(|r.tail|, 4, f.bigEndian)
       else r.tail == []
  }

  lemma Powers()
    ensures Power(2) == 0x1_0000 && Power(4) == 0x1_0000_0000
  {
    assert Power(1) == 256 && Power(3) == 0x100_0000;
  }

  lemma HeaderIsRead(h: Header, f: Format, s: seq<byte>)
    requires h.kind < 0x1_0000_0000 && h.misc < 0x1_0000 && h.size < 0x1_0000
    ensures ReadHeader(EncodedHeader(h, f) + s, f) == h
  {
    Powers();
    var kind, misc := Encoded(h.kind, 4, f.bigEndian), Encoded(h.misc, 2, f.bigEndian);
    var size := Encoded(h.size, 2, f.bigEndian);
    EncodedIsNumber(h.kind, 4, f.bigEndian);
    EncodedIsNumber(h.misc, 2, f.bigEndian);
    EncodedIsNumber(h.size, 2, f.bigEndian);
    var all := EncodedHeader(h, f) + s;
    assert all[..4] == kind && all[4..6] == misc && all[6..8] == size;
  }

  lemma RecordIsFront(r: Record, f: Format, s: seq<byte>)
    requires Encodable(r, f)
    ensures FrontOf(EncodedRecord(r, f) + s, f) == Whole(8 + |r.content| + |r.tail|, r)
  {
    hide Encoded, ReadHeader, Number;
    var all := EncodedRecord(r, f) + s;
    assert all == EncodedHeader(r.header, f) + (r.content + r.tail + s);
    HeaderIsRead(r.header, f, r.content + r.tail + s);
    var n := 8 + |r.content| + |r.tail|;
    assert all[8..r.header.size] == r.content && all[r.header.size..n] == r.tail;
    if AnnouncesTail(r.header, f) {
      Powers();
      EncodedIsNumber(|r.tail|, 4, f.bigEndian);
    }
  }

  /** Whatever records are written, with sizes up to 2^16 - 1 and second parts up to 2^32 - 1:
      framing finds them again, and goes on behind them. */
  lemma {:induction false} FrameOfEncoded(records: seq<Record>, f: Format, rest: seq<byte>)
    requires forall i :: 0 <= i < |records| ==> Encodable(records[i], f)
    ensures Frame(EncodedStream(records, f) + rest, f) == Resumed(records, Frame(rest, f))
    decreases |records|
  {
    hide FrontOf, EncodedRecord, Encodable;
    if records == [] {
      assert [] + rest == rest;
      ResumedTwice([], [], Frame(rest, f));
    } else {
      var r, later := records[0], records[1..];
      var s := EncodedStream(later, f) + rest;
      var all := EncodedStream(records, f) + rest;
      assert all == EncodedRecord(r, f) + s;
      RecordIsFront(r, f, s);
      FrameOfEncoded(later, f, rest);
      RecordLength(r, f);
      assert all[|EncodedRecord(r, f)|..] == s;
      assert records == [r] + later;
      ResumedTwice([r], later, Frame(rest, f));
    }
  }

  lemma RecordLength(r: Record, f: Format)
    ensures |EncodedRecord(r, f)| == 8 + |r.content| + |r.tail|
  {
  }

  lemma FrontIsRecord(s: seq<byte>, f: Format)
    requires FrontOf(s, f).Whole?
    ensures var front := FrontOf(s, f);
      Encodable(front.record, f) && s[..front.size] == EncodedRecord(front.record, f)
  {
    hide Encoded, Number;
    var front := FrontOf(s, f);
    var r := front.record;
    Powers();
    NumberIsEncoded(s[..4], f.bigEndian);
    NumberIsEncoded(s[4..6], f.bigEndian);
    NumberIsEncoded(s[6..8], f.bigEndian);
    assert EncodedHeader(r.header, f) == s[..4] + s[4..6] + s[6..8] == s[..8];
    if AnnouncesTail(r.header, f) {
      NumberIsEncoded(r.content, f.bigEndian);
    }
    assert s[..front.size] == s[..8] + s[8..r.header.size] + s[r.header.size..front.size];
  }

  lemma StreamStep(r: Record, later: seq<Record>, f: Format, rest: seq<byte>)
    ensures EncodedStream([r] + later, f) + rest == EncodedRecord(r, f) + (EncodedStream(later, f) + rest)
  {
    assert ([r] + later)[1..] == later;
  }

  lemma FrameStep(s: seq<byte>, f: Format)
    requires FrontOf(s, f).Whole?
    ensures var front, a := FrontOf(s, f), Frame(s, f);
      var later := Frame(s[front.size..], f);
      a.records == [front.record] + later.records && a.rest == later.rest
  {
    hide FrontOf;
  }

  lemma FrameEnds(s: seq<byte>, f: Format)
    requires !FrontOf(s, f).Whole?
    ensures Frame(s, f).records == [] && Frame(s, f).rest == s
  {
    hide FrontOf;
  }

  /** Framing loses and changes no byte: the records it finds, written again, are the stream up
      to the rest. */
  lemma {:induction false} FramedIsEncoded(s: seq<byte>, f: Format)
    ensures var a := Frame(s, f);
      && (forall i :: 0 <= i < |a.records| ==> Encodable(a.records[i], f))
      && s == EncodedStream(a.records, f) + a.rest
    decreases |s|
  {
    hide EncodedRecord, Encodable, FrontOf, EncodedStream, Frame;
    if FrontOf(s, f).Whole? {
      var front := FrontOf(s, f);
      FrontIsRecord(s, f);
      FramedIsEncoded(s[front.size..], f);
      FrameStep(s, f);
      var later := Frame(s[front.size..], f);
      StreamStep(front.record, later.records, f, later.rest);
      assert s == s[..front.size] + s[front.size..];
    } else {
      FrameEnds(s, f);
      NothingEncoded(f);
      assert [] + s == s;
    }
  }

  lemma NothingEncoded(f: Format)
    ensures EncodedStream([], f) == []
  {
  }
}
