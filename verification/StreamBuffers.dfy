/**
 The ring buffer of stream_buffer.c, without blocking: every operation is proved to do to the bytes in
 the ring what StreamSpec says.
 */
module StreamBuffers {
  import opened StreamSpec

  /** The unread bytes, from the tail up to the head, around the end of the buffer. */
  function Ring(buffer: seq<Byte>, tail: nat, head: nat): (r: seq<Byte>)
    requires tail < |buffer| && head < |buffer|
    ensures |r| == if tail <= head then head - tail else |buffer| - tail + head
  {
    if tail <= head then buffer[tail..head] else buffer[tail..] + buffer[..head]
  }

  /** Free and unread cells, as worked out from the two indices in 32-bit arithmetic. */
  function Spaces(length: nat, tail: nat, head: nat): nat
    requires head < length && tail < length
  {
    var space := (length + tail - head - 1) % SIZE_MODULUS;
    if space >= length then space - length else space
  }

  function Bytes(length: nat, tail: nat, head: nat): nat
    requires head < length && tail < length
  {
    var count := (length + head - tail) % SIZE_MODULUS;
    if count >= length then count - length else count
  }

  /** The cell that lies k cells behind an index. */
  function Cell(index: nat, k: nat, length: nat): nat
    requires index < length && k <= length
  {
    if index + k >= length then index + k - length else index + k
  }

  lemma RingAt(buffer: seq<Byte>, tail: nat, head: nat)
    requires tail < |buffer| && head < |buffer|
    ensures forall k {:trigger Ring(buffer, tail, head)[k]} :: 0 <= k < |Ring(buffer, tail, head)| ==>
              Ring(buffer, tail, head)[k] == buffer[Cell(tail, k, |buffer|)]
    ensures Cell(tail, |Ring(buffer, tail, head)|, |buffer|) == head
  {
  }

  /** The data has been laid into the ring behind the index; every other cell is as it was. */
  ghost predicate LaidIn(was: seq<Byte>, now: seq<Byte>, index: nat, data: seq<Byte>)
    requires index < |was| && |data| <= |was|
  {
    && |now| == |was|
    && forall k {:trigger Cell(index, k, |was|)} :: 0 <= k < |was| ==>
         now[Cell(index, k, |was|)] == if k < |data| then data[k] else was[Cell(index, k, |was|)]
  }

  lemma RingLength(buffer: seq<Byte>, now: seq<Byte>, tail: nat, head: nat, count: nat)
    requires tail < |buffer| == |now| && head < |buffer| && |Ring(buffer, tail, head)| + count < |buffer|
    ensures |Ring(now, tail, Cell(head, count, |buffer|))| == |Ring(buffer, tail, head)| + count
  {
  }

  /** Laying data into free cells appends it to the unread bytes. */
  lemma RingAppend(was: seq<Byte>, now: seq<Byte>, tail: nat, head: nat, data: seq<Byte>)
    requires tail < |was| && head < |was| && |Ring(was, tail, head)| + |data| < |was|
    requires LaidIn(was, now, head, data)
    ensures Ring(now, tail, Cell(head, |data|, |was|)) == Ring(was, tail, head) + data
  {
    hide Ring;
    var r, L := Ring(was, tail, head), |was|;
    var r' := Ring(now, tail, Cell(head, |data|, L));
    RingAt(was, tail, head);
    RingAt(now, tail, Cell(head, |data|, L));
    RingLength(was, now, tail, head, |data|);
    forall k | 0 <= k < |r'| ensures r'[k] == (r + data)[k] {
      var k' := if k < |r| then L - |r| + k else k - |r|;
      assert Cell(head, k', L) == Cell(tail, k, L);
    }
  }

  /** Moving the tail on drops bytes from the front. */
  lemma RingDrop(buffer: seq<Byte>, tail: nat, head: nat, count: nat)
    requires tail < |buffer| && head < |buffer| && count <= |Ring(buffer, tail, head)|
    ensures Ring(buffer, Cell(tail, count, |buffer|), head) == Ring(buffer, tail, head)[count..]
  {
  }

  /** What the two copies of a read take together. */
  lemma RingTake(buffer: seq<Byte>, tail: nat, head: nat, count: nat, first: nat)
    requires tail < |buffer| && head < |buffer| && count <= |Ring(buffer, tail, head)|
    requires first == Min(|buffer| - tail, count)
    ensures buffer[tail..tail + first] + buffer[0..count - first] == Ring(buffer, tail, head)[..count]
  {
  }

  class StreamBuffer {
    const buffer: array<Byte>      // pucBuffer
    const length: nat              // xLength, one more than the capacity
    const isMessageBuffer: bool
    var tail: nat                  // xTail
    var head: nat                  // xHead

    ghost predicate Valid()
      reads this, buffer
    {
      && buffer.Length == length && 0 < length <= SIZE_MODULUS / 2
      && tail < length && head < length
    }

    ghost function Contents(): (c: seq<Byte>)
      requires Valid()
      reads this, buffer
      ensures |c| < length
    {
      Ring(buffer[..], tail, head)
    }

    /** prvInitialiseNewStreamBuffer, for a capacity one less than the length. */
    constructor (bufferSizeBytes: nat, isMessageBuffer: bool)
      requires 0 < bufferSizeBytes <= SIZE_MODULUS / 2
      ensures Valid() && Contents() == [] && length == bufferSizeBytes && this.isMessageBuffer == isMessageBuffer
      ensures fresh(buffer)
    {
      buffer := new Byte[bufferSizeBytes];
      length := bufferSizeBytes;
      this.isMessageBuffer := isMessageBuffer;
      tail, head := 0, 0;
    }

    /** xStreamBufferReset */
    method Reset()
      requires Valid()
      modifies this
      ensures Valid() && Contents() == []
    {
      tail, head := 0, 0;
    }

    /** xStreamBufferSpacesAvailable */
    function SpacesAvailable(): (space: nat)
      requires Valid()
      reads this, buffer
      ensures space + |Contents()| == length - 1
    {
      Spaces(length, tail, head)
    }

    /** prvBytesInBuffer */
    function BytesInBuffer(): (count: nat)
      requires Valid()
      reads this, buffer
      ensures count == |Contents()|
    {
      Bytes(length, tail, head)
    }

    /** memcpy into the buffer. */
    method CopyIn(at: nat, data: seq<Byte>)
      requires Valid() && at + |data| <= length
      modifies buffer
      ensures forall c {:trigger buffer[c]} :: 0 <= c < length ==>
                buffer[c] == if at <= c < at + |data| then data[c - at] else old(buffer[c])
    {
      for i := 0 to |data|
        invariant forall c {:trigger buffer[c]} :: 0 <= c < length ==>
                    buffer[c] == if at <= c < at + i then data[c - at] else old(buffer[c])
      {
        buffer[at + i] := data[i];
      }
    }

    /** memcpy out of the buffer. */
    method CopyOut(at: nat, count: nat) returns (data: seq<Byte>)
      requires Valid() && at + count <= length
      ensures data == buffer[at..at + count]
    {
      data := [];
      for i := 0 to count
        invariant data == buffer[at..at + i]
      {
        data := data + [buffer[at + i]];
      }
    }

    /** prvWriteBytesToBuffer */
    method WriteBytes(data: seq<Byte>) returns (written: nat)
      requires Valid() && |Contents()| + |data| < length
      modifies this`head, buffer
      ensures Valid() && Contents() == old(Contents()) + data && written == |data|
    {
      ghost var was := buffer[..];
      var nextHead := head;
      var firstLength := Min(length - nextHead, |data|);
      CopyIn(nextHead, data[..firstLength]);
      if |data| > firstLength {
        CopyIn(0, data[firstLength..]);
      }
      assert LaidIn(was, buffer[..], head, data);
      RingAppend(was, buffer[..], tail, head, data);
      nextHead := nextHead + |data|;
      if nextHead >= length {
        nextHead := nextHead - length;
      }
      head := nextHead;
      written := |data|;
    }

    /** prvReadBytesFromBuffer: the bytes read stand for what is copied into the caller's buffer. */
    method ReadBytes(maxCount: nat, bytesAvailable: nat) returns (data: seq<Byte>)
      requires Valid() && bytesAvailable <= |Contents()|
      modifies this`tail
      ensures Valid()
      ensures var n := Min(bytesAvailable, maxCount);
              data == old(Contents())[..n] && Contents() == old(Contents())[n..]
    {
      hide Ring;
      var count := Min(bytesAvailable, maxCount);
      data := [];
      if count > 0 {
        var nextTail := tail;
        var firstLength := Min(length - nextTail, count);
        data := CopyOut(nextTail, firstLength);
        assert data == buffer[..][tail..tail + firstLength];
        if count > firstLength {
          var second := CopyOut(0, count - firstLength);
          assert second == buffer[..][0..count - firstLength];
          data := data + second;
        }
        assert data == buffer[..][tail..tail + firstLength] + buffer[..][0..count - firstLength];
        RingTake(buffer[..], tail, head, count, firstLength);
        RingDrop(buffer[..], tail, head, count);
        nextTail := nextTail + count;
        if nextTail >= length {
          nextTail := nextTail - length;
        }
        tail := nextTail;
      }
    }

    /** prvWriteMessageToBuffer */
    method WriteMessage(data: Message, space: nat, requiredSpace: nat) returns (sent: nat)
      requires Valid() && space == SpacesAvailable()
      requires requiredSpace == if isMessageBuffer then |data| + LENGTH_BYTES else |data|
      modifies this`head, buffer
      ensures Valid()
      ensures Sent(Contents(), sent) == StreamSpec.Send(old(Contents()), length - 1, isMessageBuffer, data)
    {
      var toWrite: seq<Byte> := data;
      var shouldWrite := false;
      if space == 0 {
        shouldWrite := false;
      } else if !isMessageBuffer {
        shouldWrite := true;
        toWrite := data[..Min(|data|, space)];
      } else if space >= requiredSpace {
        shouldWrite := true;
        var prefix := WriteBytes(EncodeLength(|data|));
      }
      if shouldWrite {
        sent := WriteBytes(toWrite);
      } else {
        sent := 0;
      }
    }

    /** xStreamBufferSend with a block time of zero. */
    method Send(data: Message) returns (sent: nat)
      requires Valid() && (isMessageBuffer ==> |data| + LENGTH_BYTES < SIZE_MODULUS)
      modifies this`head, buffer
      ensures Valid()
      ensures Sent(Contents(), sent) == StreamSpec.Send(old(Contents()), length - 1, isMessageBuffer, data)
    {
      var requiredSpace := |data|;
      if isMessageBuffer {
        requiredSpace := requiredSpace + LENGTH_BYTES;
      }
      var space := SpacesAvailable();
      sent := WriteMessage(data, space, requiredSpace);
    }

    /** prvReadMessageFromBuffer */
    method ReadMessage(bufferLengthBytes: nat, bytesAvailable: nat, bytesToStoreMessageLength: nat)
      returns (data: seq<Byte>)
      requires Valid() && bytesAvailable == |Contents()| && bytesAvailable > bytesToStoreMessageLength
      requires bytesToStoreMessageLength == if isMessageBuffer then LENGTH_BYTES else 0
      modifies this`tail
      ensures Valid()
      ensures Received(Contents(), data) == StreamSpec.Receive(old(Contents()), isMessageBuffer, bufferLengthBytes)
    {
      ghost var c := Contents();
      var available := bytesAvailable;
      var nextMessageLength := bufferLengthBytes;
      if bytesToStoreMessageLength != 0 {
        var originalTail := tail;
        var prefix := ReadBytes(bytesToStoreMessageLength, available);
        nextMessageLength := DecodeLength(prefix);
        available := available - bytesToStoreMessageLength;
        if nextMessageLength > bufferLengthBytes {
          tail := originalTail;
          nextMessageLength := 0;
        }
      }
      data := ReadBytes(nextMessageLength, available);
      assert c[0..] == c && c[..0] == [];
    }

    /** xStreamBufferReceive with a block time of zero. */
    method Receive(bufferLengthBytes: nat) returns (data: seq<Byte>)
      requires Valid()
      modifies this`tail
      ensures Valid()
      ensures Received(Contents(), data) == StreamSpec.Receive(old(Contents()), isMessageBuffer, bufferLengthBytes)
    {
      var bytesToStoreMessageLength := if isMessageBuffer then LENGTH_BYTES else 0;
      var bytesAvailable := BytesInBuffer();
      data := [];
      if bytesAvailable > bytesToStoreMessageLength {
        data := ReadMessage(bufferLengthBytes, bytesAvailable, bytesToStoreMessageLength);
      }
    }

    /** xStreamBufferNextMessageLengthBytes: a query that leaves the buffer as it was. */
    method NextMessageLength() returns (result: nat)
      requires Valid()
      modifies this`tail
      ensures Valid() && tail == old(tail) && Contents() == old(Contents())
      ensures result == NextLength(Contents(), isMessageBuffer)
    {
      result := 0;
      if isMessageBuffer {
        var bytesAvailable := BytesInBuffer();
        if bytesAvailable > LENGTH_BYTES {
          var originalTail := tail;
          var prefix := ReadBytes(LENGTH_BYTES, bytesAvailable);
          result := DecodeLength(prefix);
          tail := originalTail;
        }
      }
    }

    /** xStreamBufferIsEmpty */
    function IsEmpty(): (empty: bool)
      requires Valid()
      reads this, buffer
      ensures empty <==> Contents() == []
    {
      head == tail
    }

    /** xStreamBufferIsFull: true exactly when no message, not even one of a single byte, would be taken. */
    function IsFull(): (full: bool)
      requires Valid()
      reads this, buffer
      ensures full <==> forall m: Message :: |m| == 1 ==>
                StreamSpec.Send(Contents(), length - 1, isMessageBuffer, m).reported == 0
    {
      var bytesToStoreMessageLength := if isMessageBuffer then LENGTH_BYTES else 0;
      assert |[0]| == 1;
      SpacesAvailable() <= bytesToStoreMessageLength
    }
  }
}
