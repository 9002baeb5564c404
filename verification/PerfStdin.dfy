/** The sliding buffer between standard input and the stream reader. */
module PerfStdins {
  import opened Bytes

  const MIN_BUFFER_SIZE := 0x400
  const MAX_BUFFER_SIZE := 0x4000_0000

  /** Standard input: hands out its bytes in order, in pieces of any size it likes. */
  class StandardInput {
    var rest: seq<byte>
    var atEnd: bool
    ghost var taken: seq<byte>
    /** How many bytes each read could take, and how many there were. */
    ghost var pieces: seq<(nat, nat)>

    constructor (bytes: seq<byte>)
      ensures rest == bytes && taken == [] && pieces == [] && !atEnd
    {
      rest, atEnd, taken, pieces := bytes, false, [], [];
    }

    method Read(most: nat) returns (chunk: seq<byte>)
      modifies this
      ensures |chunk| <= most
      ensures taken == old(taken) + chunk && old(rest) == chunk + rest
      ensures pieces == old(pieces) + [(most, |chunk|)]
    {
      var n :| 0 <= n <= most && n <= |rest|;
      chunk, rest := rest[..n], rest[n..];
      taken, pieces := taken + chunk, pieces + [(most, n)];
      atEnd := *;
    }
  }

  class PerfStdin {
    const stdin: StandardInput
    var buffer: array<byte>
    var bufferPos: nat
    var bufferUsed: nat

    ghost var delivered: seq<byte>

    ghost predicate InBounds()
      reads this
    {
      && bufferPos <= bufferUsed <= buffer.Length
      && MIN_BUFFER_SIZE <= buffer.Length <= MAX_BUFFER_SIZE
    }

    /** What was taken from standard input and not handed on yet. */
    ghost function Buffered(): seq<byte>
      requires InBounds()
      reads this, buffer
    {
      buffer[bufferPos..bufferUsed]
    }

    /** First in, first out: delivered and buffered bytes are the bytes taken, in order. */
    ghost predicate Valid()
      reads this, buffer, stdin
    {
      InBounds() && delivered + Buffered() == stdin.taken
    }

    /** Opens the device. */
    constructor (source: StandardInput)
      requires source.taken == []
      ensures Valid() && stdin == source && fresh(buffer) && delivered == []
      ensures buffer.Length == 1024 && Buffered() == []
    {
      stdin := source;
      buffer := new byte[MIN_BUFFER_SIZE];
      bufferPos, bufferUsed, delivered := 0, 0, [];
    }

    /** Copies up to `maxlen` bytes to the front of `data`. Returns their number, or -1 if
        there are none and standard input is at its end. */
    method ReadData(data: array<byte>, maxlen: int) returns (result: int)
      requires Valid() && maxlen <= data.Length && data != buffer
      modifies this, buffer, stdin, data
      ensures Valid() && (buffer == old(buffer) || fresh(buffer))
      ensures result == -1 || 0 <= result <= data.Length
      ensures maxlen <= 0 ==> result == 0
      ensures 0 < maxlen ==> result <= maxlen
      ensures var n := if result == -1 then 0 else result;
        delivered == old(delivered) + data[..n] && data[n..] == old(data[n..])
      ensures result < maxlen ==> Buffered() == [] && CameToNothing(old(stdin.pieces))
      ensures maxlen <= old(|Buffered()|) ==> stdin.pieces == old(stdin.pieces)
      ensures 0 < maxlen ==> (result == -1 <==> delivered == old(delivered) && stdin.atEnd)
    {
      if maxlen <= 0 {
        return 0;
      }
      var read := ReadUpTo(data, maxlen);
      assert read > 0 || Buffered() == [];
      result := if read == 0 && stdin.atEnd then -1 else read;
    }

    /** The last read took nothing, although there was room. */
    ghost predicate CameToNothing(before: seq<(nat, nat)>)
      reads stdin
    {
      |before| < |stdin.pieces| && stdin.pieces[|stdin.pieces| - 1].0 > 0 && stdin.pieces[|stdin.pieces| - 1].1 == 0
    }

    /** Copies what is buffered and refills, until there is enough or nothing arrives. */
    method ReadUpTo(data: array<byte>, maxlen: nat) returns (read: nat)
      requires Valid() && 0 < maxlen <= data.Length && data != buffer
      modifies this, buffer, stdin, data
      ensures Valid() && (buffer == old(buffer) || fresh(buffer)) && read <= maxlen
      ensures delivered == old(delivered) + data[..read] && data[read..] == old(data[read..])
      ensures read < maxlen ==> Buffered() == [] && CameToNothing(old(stdin.pieces))
      ensures maxlen <= old(|Buffered()|) ==> stdin.pieces == old(stdin.pieces)
    {
      read := 0;
      while true
        invariant read <= maxlen && InBounds() && data != buffer
        invariant buffer == old(buffer) || fresh(buffer)
        invariant delivered == old(delivered)
        invariant delivered + data[..read] + Buffered() == stdin.taken
        invariant data[read..] == old(data[read..])
        invariant old(stdin.pieces) <= stdin.pieces
        invariant maxlen <= old(|Buffered()|) ==>
          read == 0 && stdin.pieces == old(stdin.pieces) && Buffered() == old(Buffered())
        decreases maxlen - read, Buffered() == []
      {
        Regroup(delivered, data[..read], Buffered());
        read := CopyBuffered(data, read, maxlen);
        Regroup(delivered, data[..read], Buffered());
        if read >= maxlen {
          break;
        }
        ghost var chunk;
        var filled;
        label Copied:
        filled, chunk := FillBuffer(maxlen);
        assert data[..read] == old@Copied(data[..read]);
        Regroup(delivered + data[..read], old@Copied(Buffered()), chunk);
        if filled == 0 {
          break;
        }
      }
      delivered := delivered + data[..read];
    }

    /** Appends buffered bytes to what was read, up to the limit. */
    method CopyBuffered(data: array<byte>, at: nat, maxlen: nat) returns (read: nat)
      requires InBounds() && at <= maxlen <= data.Length && data != buffer
      modifies this`bufferPos, data
      ensures InBounds() && at <= read <= maxlen
      ensures data[..read] + Buffered() == old(data[..at] + Buffered())
      ensures data[read..] == old(data[read..])
      ensures read < maxlen ==> Buffered() == []
      ensures maxlen - at <= old(|Buffered()|) ==> read == maxlen
      ensures at < maxlen && old(Buffered()) != [] ==> at < read
    {
      var n := if bufferUsed - bufferPos < maxlen - at then bufferUsed - bufferPos else maxlen - at;
      CopyOut(data, at, n);
      read := at + n;
      assert data[..read] == data[..at] + data[at..read];
    }

    method CopyOut(data: array<byte>, at: nat, n: nat)
      requires InBounds() && bufferPos + n <= bufferUsed && at + n <= data.Length && data != buffer
      modifies this`bufferPos, data
      ensures InBounds() && bufferPos == old(bufferPos) + n
      ensures data[..at] == old(data[..at]) && data[at + n..] == old(data[at + n..])
      ensures data[at..at + n] + Buffered() == old(Buffered())
    {
      forall i | 0 <= i < n {
        data[at + i] := buffer[bufferPos + i];
      }
      bufferPos := bufferPos + n;
    }

    /** Moves the unread bytes to the front of a buffer of another size. */
    method ResizeBuffer(newSize: nat)
      requires InBounds() && MIN_BUFFER_SIZE <= newSize <= MAX_BUFFER_SIZE
      requires bufferUsed - bufferPos <= newSize
      modifies this`buffer, this`bufferPos, this`bufferUsed
      ensures InBounds() && fresh(buffer) && buffer.Length == newSize && bufferPos == 0
      ensures Buffered() == old(Buffered())
    {
      var newBuffer := new byte[newSize];
      forall i | 0 <= i < bufferUsed - bufferPos {
        newBuffer[i] := buffer[bufferPos + i];
      }
      buffer := newBuffer;
      bufferUsed := bufferUsed - bufferPos;
      bufferPos := 0;
    }

    /** How long the buffer gets: long enough for the target, up to the limit, and otherwise twice
        as long if it is full of unread bytes. */
    ghost function RoomFor(targetSize: int): int
      requires InBounds()
      reads this, buffer
    {
      var wanted := if targetSize < 1024 * 1024 * 1024 then targetSize else 1024 * 1024 * 1024;
      if buffer.Length < wanted then wanted
      else if |Buffered()| < buffer.Length then buffer.Length
      else if 2 * buffer.Length < 1024 * 1024 * 1024 then 2 * buffer.Length
      else 1024 * 1024 * 1024
    }

    /** Makes room and reads once. There is room unless a full backlog waits to be read. */
    method FillBuffer(targetSize: int) returns (read: nat, ghost chunk: seq<byte>)
      requires InBounds()
      modifies this`buffer, this`bufferPos, this`bufferUsed, buffer, stdin
      ensures InBounds() && (buffer == old(buffer) || fresh(buffer))
      ensures read == |chunk|
      ensures stdin.taken == old(stdin.taken) + chunk
      ensures Buffered() == old(Buffered()) + chunk
      ensures buffer.Length == old(RoomFor(targetSize))
      ensures exists most: nat :: stdin.pieces == old(stdin.pieces) + [(most, read)] &&
                                  (most > 0 || old(|Buffered()|) == MAX_BUFFER_SIZE)
    {
      MakeRoom(targetSize);
      read, chunk := Receive();
    }

    method MakeRoom(targetSize: int)
      requires InBounds()
      modifies this`buffer, this`bufferPos, this`bufferUsed
      ensures InBounds() && (buffer == old(buffer) || fresh(buffer))
      ensures Buffered() == old(Buffered())
      ensures bufferUsed < buffer.Length || |Buffered()| == MAX_BUFFER_SIZE
      ensures Buffered() == [] ==> bufferPos == 0
      ensures buffer.Length == old(RoomFor(targetSize))
    {
      if bufferUsed == bufferPos {
        bufferPos, bufferUsed := 0, 0;
      }
      var wanted := if targetSize < MAX_BUFFER_SIZE then targetSize else MAX_BUFFER_SIZE;
      if wanted > buffer.Length {
        ResizeBuffer(wanted);
      }
      if bufferUsed == buffer.Length {
        if bufferPos == 0 {
          ResizeBuffer(if bufferUsed <= MAX_BUFFER_SIZE / 2 then bufferUsed * 2 else MAX_BUFFER_SIZE);
        } else {
          ResizeBuffer(bufferUsed);
        }
      }
    }

    method Receive() returns (read: nat, ghost chunk: seq<byte>)
      requires InBounds()
      modifies this`bufferUsed, buffer, stdin
      ensures InBounds()
      ensures read == |chunk|
      ensures stdin.taken == old(stdin.taken) + chunk
      ensures Buffered() == old(Buffered()) + chunk
      ensures stdin.pieces == old(stdin.pieces) + [(buffer.Length - old(bufferUsed), read)] && buffer == old(buffer)
    {
      var got := stdin.Read(buffer.Length - bufferUsed);
      forall i | 0 <= i < |got| {
        buffer[bufferUsed + i] := got[i];
      }
      bufferUsed := bufferUsed + |got|;
      read, chunk := |got|, got;
    }
  }
}
