/** Records that are packed into the payloads of compressed records: they may straddle the
    end of a payload, so the unparsed rest of the buffer is carried over. */
module CompressedRecords {
  import opened Bytes
  import opened Framing
  import opened StreamReader
  import opened WordArithmetic

  /** Neither tracing data nor compressed records are nested inside a payload. */
  predicate Plain(record: Record) {
    record.header.kind != TRACING_DATA && record.header.kind != COMPRESSED
  }

  predicate AllPlain(records: seq<Record>) {
    forall i :: 0 <= i < |records| ==> Plain(records[i])
  }

  class PayloadReader {
    const bigEndian: bool
    /** The most bytes that one compressed record unpacks to. */
    const mmapLen: nat
    var decompressBuffer: array<byte>
    var remaining: nat
    var eventHeader: Header
    /** The records handed to the destination so far. */
    ghost var dispatched: seq<Record>
    /** The payloads unpacked so far. */
    ghost var payloads: seq<seq<byte>>

    ghost function Inner(): Format {
      Format(bigEndian, false)
    }

    /** The payloads behave like one stream: its records are dispatched, and what cannot be
        parsed yet lies at the front of the buffer. */
    ghost predicate Valid()
      reads this, decompressBuffer
    {
      var whole := Frame(Concat(payloads), Inner());
      && remaining <= decompressBuffer.Length
      && dispatched == whole.records
      && decompressBuffer[..remaining] == whole.rest
      && whole.tail != BadHeader
    }

    constructor (bigEndian: bool, mmapLen: nat)
      ensures Valid() && payloads == []
      ensures this.bigEndian == bigEndian && this.mmapLen == mmapLen && fresh(decompressBuffer)
    {
      this.bigEndian, this.mmapLen := bigEndian, mmapLen;
      decompressBuffer := new byte[0];
      remaining, eventHeader, dispatched, payloads := 0, NO_HEADER, [], [];
      new;
      ShortIsStarved([], Inner());
    }

    /** Gives the buffer another size; the bytes that fit are kept. */
    method Resize(size: nat)
      modifies `decompressBuffer
      ensures fresh(decompressBuffer) && decompressBuffer.Length == size
      ensures var kept := Min(size, old(decompressBuffer.Length));
        decompressBuffer[..kept] == old(decompressBuffer[..kept])
    {
      var kept := if size < decompressBuffer.Length then size else decompressBuffer.Length;
      var source := decompressBuffer;
      var target := new byte[size](_ => 0);
      var i := 0;
      while i < kept
        invariant 0 <= i <= kept
        invariant target[..i] == source[..i]
      {
        target[i] := source[i];
        i := i + 1;
      }
      decompressBuffer := target;
    }

    /** Writes bytes into the buffer. */
    method Write(at: nat, bytes: seq<byte>)
      requires at + |bytes| <= decompressBuffer.Length
      modifies decompressBuffer
      ensures decompressBuffer[..at + |bytes|] == old(decompressBuffer[..at]) + bytes
    {
      var i := 0;
      while i < |bytes|
        invariant 0 <= i <= |bytes|
        invariant decompressBuffer[..at] == old(decompressBuffer[..at])
        invariant decompressBuffer[at..at + i] == bytes[..i]
      {
        decompressBuffer[at + i] := bytes[i];
        i := i + 1;
      }
      assert decompressBuffer[..at + |bytes|] == decompressBuffer[..at] + decompressBuffer[at..at + |bytes|];
    }

    /** Moves the bytes from `pos` on to the front, one by one and in order. */
    method MoveToFront(pos: nat)
      requires pos <= decompressBuffer.Length
      modifies decompressBuffer
      ensures decompressBuffer[..decompressBuffer.Length - pos] == old(decompressBuffer[pos..])
    {
      var count := decompressBuffer.Length - pos;
      var i := 0;
      while i < count
        invariant 0 <= i <= count
        invariant decompressBuffer[..i] == old(decompressBuffer[pos..pos + i])
        invariant forall k :: pos + i <= k < decompressBuffer.Length ==> decompressBuffer[k] == old(decompressBuffer[k])
      {
        decompressBuffer[i] := decompressBuffer[pos + i];
        i := i + 1;
      }
      assert old(decompressBuffer[pos..pos + count]) == old(decompressBuffer[pos..]);
    }

    /** One record out of the buffer. */
    method ProcessEvents(pos: nat) returns (status: Status, next: nat)
      requires pos <= decompressBuffer.Length && eventHeader.size == 0
      requires var front := FrontOf(decompressBuffer[pos..], Inner()); front.Whole? ==> Plain(front.record)
      modifies `eventHeader, `dispatched
      ensures pos <= next <= decompressBuffer.Length
      ensures var front := FrontOf(decompressBuffer[pos..], Inner());
        if front.Whole? then
          && status == SignalFinished && next == pos + front.size && eventHeader.size == 0
          && dispatched == old(dispatched) + [front.record]
        else
          && status == (if front.tail == BadHeader then SignalError else Rerun)
          && dispatched == old(dispatched)
    {
      next := pos;
      ghost var s := decompressBuffer[pos..];
      if decompressBuffer.Length - next < HEADER_SIZE { return Rerun, next; }
      ReadHeaderOfFront(s, [], Inner());
      assert decompressBuffer[next..next + HEADER_SIZE] == s[..HEADER_SIZE];
      eventHeader := ReadHeader(decompressBuffer[next..next + HEADER_SIZE], Format(bigEndian, false));
      next := next + HEADER_SIZE;
      if eventHeader.size < HEADER_SIZE { return SignalError, next; }
      var contentSize := eventHeader.size - HEADER_SIZE;
      FrontWithHeader(s, eventHeader, Inner());
      if decompressBuffer.Length - next < contentSize { return Rerun, next; }
      ghost var content := decompressBuffer[next..next + contentSize];
      assert content == s[HEADER_SIZE..eventHeader.size];
      dispatched := dispatched + [Record(eventHeader, content, [])];
      next := next + contentSize;
      eventHeader := eventHeader.(size := 0);
      status := SignalFinished;
    }

    /** Dispatches the whole records of the buffer and says where the rest starts. */
    method ProcessBuffer() returns (status: Status, pos: nat)
      requires eventHeader.size == 0
      requires AllPlain(Frame(decompressBuffer[..], Inner()).records)
      modifies `eventHeader, `dispatched
      ensures var a := Frame(decompressBuffer[..], Inner());
        && dispatched == old(dispatched) + a.records
        && status == (if a.tail == BadHeader then SignalError else Rerun)
        && pos <= decompressBuffer.Length && decompressBuffer[pos..] == a.rest
    {
      hide FrontOf;
      ghost var a := Frame(decompressBuffer[..], Inner());
      ghost var start := dispatched;
      var next := 0;
      status, pos := SignalFinished, 0;
      assert decompressBuffer[0..] == decompressBuffer[..];
      while status == SignalFinished
        invariant pos <= next <= decompressBuffer.Length
        invariant status == SignalFinished ==>
          && eventHeader.size == 0
          && AllPlain(Frame(decompressBuffer[next..], Inner()).records)
          && Resumed(start, a) == Resumed(dispatched, Frame(decompressBuffer[next..], Inner()))
        invariant status != SignalFinished ==>
          && dispatched == start + a.records && decompressBuffer[pos..] == a.rest
          && status == (if a.tail == BadHeader then SignalError else Rerun)
        decreases status == SignalFinished, decompressBuffer.Length - next
      {
        pos := next;
        ghost var s := decompressBuffer[pos..];
        NextRecord(s, dispatched, Inner());
        status, next := ProcessEvents(pos);
        if status == SignalFinished {
          assert s[next - pos..] == decompressBuffer[next..];
        }
      }
    }

    /** One compressed record, unpacked to `payload`. Its own header is the current one. */
    method Uncompress(payload: seq<byte>) returns (status: Status)
      requires Valid() && |payload| <= mmapLen
      requires AllPlain(Frame(Concat(payloads + [payload]), Inner()).records)
      modifies this, decompressBuffer
      ensures payloads == old(payloads) + [payload]
      ensures fresh(decompressBuffer)
      ensures var whole := Frame(Concat(payloads), Inner());
        && dispatched == whole.records
        && status == (if whole.tail == BadHeader then SignalError else SignalFinished)
        && (status == SignalFinished ==> Valid() && eventHeader.size == 0)
    {
      hide Frame, FrontOf;
      ghost var held := decompressBuffer[..remaining];
      ghost var before := Frame(Concat(payloads), Inner());
      PayloadContinues(payloads, payload, Inner());
      Resize(mmapLen + remaining);
      assert decompressBuffer[..remaining] == held;
      Write(remaining, payload);
      Resize(|payload| + remaining);
      assert decompressBuffer[..] == held + payload;
      remaining := 0;
      eventHeader := eventHeader.(size := 0);
      payloads := payloads + [payload];
      var inner, pos := ProcessBuffer();
      if inner == SignalError { return SignalError; }
      remaining := decompressBuffer.Length - pos;
      MoveToFront(pos);
      eventHeader := eventHeader.(size := 0);
      status := SignalFinished;
    }
  }

  lemma AllPlainConcat(x: seq<Record>, y: seq<Record>)
    ensures AllPlain(x + y) ==> AllPlain(y) && (x != [] ==> Plain(x[0]))
  {
    if AllPlain(x + y) {
      forall i | 0 <= i < |y| ensures Plain(y[i]) {
        assert (x + y)[|x| + i] == y[i];
      }
      assert x != [] ==> (x + y)[0] == x[0];
    }
  }

  /** What the next attempt finds at the start of `s`. */
  lemma NextRecord(s: seq<byte>, done: seq<Record>, f: Format)
    ensures var a, front := Frame(s, f), FrontOf(s, f);
      if front.Whole? then
        && Resumed(done, a) == Resumed(done + [front.record], Frame(s[front.size..], f))
        && (AllPlain(a.records) ==> Plain(front.record) && AllPlain(Frame(s[front.size..], f).records))
      else Resumed(done, a) == Framed(done, s, front.tail)
  {
    hide FrontOf, AllPlain, Plain;
    var front := FrontOf(s, f);
    if front.Whole? {
      var later := Frame(s[front.size..], f).records;
      ResumedTwice(done, [front.record], Frame(s[front.size..], f));
      AllPlainConcat([front.record], later);
    } else {
      assert done + [] == done;
    }
  }

  /** The rest of the earlier payloads, followed by the next one. */
  lemma PayloadContinues(payloads: seq<seq<byte>>, payload: seq<byte>, f: Format)
    ensures var a := Frame(Concat(payloads), f);
      Frame(Concat(payloads + [payload]), f) == Resumed(a.records, Frame(a.rest + payload, f))
    ensures AllPlain(Frame(Concat(payloads + [payload]), f).records) ==>
      AllPlain(Frame(Frame(Concat(payloads), f).rest + payload, f).records)
  {
    hide Frame;
    var a, all := Frame(Concat(payloads), f), payloads + [payload];
    assert all[..|all| - 1] == payloads;
    FrameContinues(Concat(payloads), payload, f);
    AllPlainConcat(a.records, Frame(a.rest + payload, f).records);
  }
}
