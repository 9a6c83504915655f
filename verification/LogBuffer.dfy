/** The code of Logger.cpp, proved to do what LoggerModel says. */
module LogBuffer {
  import opened LoggerModel

  function NoLogs(): string { "--- No logs ---\r\n" }

  function Header(): string { "\r\n=== LOGS ===\r\n" }

  function Trailer(): string { "\r\n=== END ===\r\n\r\n" }

  class Logger {
    const buffer: array<char>    // m_buffer
    var writePos: nat            // m_writePos
    var readPos: nat             // m_readPos
    var bufferFull: bool         // m_bufferFull
    var output: string           // everything sent over the UART

    ghost predicate Valid()
      reads this, buffer
    {
      buffer.Length == LOG_BUFFER_SIZE && Inv(State())
    }

    ghost function State(): Log
      reads this, buffer
    {
      Log(buffer[..], writePos, readPos, bufferFull)
    }

    constructor ()
      ensures Valid() && fresh(buffer) && State() == Log(Zeros(), 0, 0, false) && output == []
    {
      buffer := new char[LOG_BUFFER_SIZE](_ => '\0');
      writePos, readPos, bufferFull, output := 0, 0, false, [];
      new;
      assert buffer[..] == Zeros();
    }

    /** memcpy into the buffer. */
    method CopyIn(at: nat, data: string)
      requires at + |data| <= buffer.Length
      modifies buffer
      ensures buffer[..] == Copied(old(buffer[..]), at, data)
    {
      for i := 0 to |data|
        invariant forall c :: 0 <= c < buffer.Length ==>
                    buffer[c] == if at <= c < at + i then data[c - at] else old(buffer[c])
      {
        buffer[at + i] := data[i];
      }
    }

    /** _write, for a length that callers have cut to the size of a message. */
    method Write(data: string)
      requires Valid() && |data| <= MAX_LOG_MSG
      modifies buffer, this`writePos, this`bufferFull
      ensures Valid() && State() == LoggerModel.Write(old(State()), data)
    {
      hide LoggerModel.Write, Copied;
      WriteCopies(State(), data);
      if |data| == 0 {
        return;
      }
      if writePos + |data| >= LOG_BUFFER_SIZE {
        var firstPart := LOG_BUFFER_SIZE - writePos;
        if firstPart > 0 {
          CopyIn(writePos, data[..firstPart]);
        }
        var secondPart := |data| - firstPart;
        CopyIn(0, data[firstPart..]);
        writePos := secondPart;
        bufferFull := true;
      } else {
        CopyIn(writePos, data);
        writePos := writePos + |data|;
      }
    }

    /** getUnreadCount */
    method GetUnreadCount() returns (count: nat)
      requires Shape(State())
      ensures count == UnreadCount(State())
      ensures count == if bufferFull then 4096 else (writePos - readPos) % 4096
      ensures Inv(State()) ==> (count == |Unread(State())| <==> !bufferFull || readPos == writePos)
    {
      if bufferFull {
        return LOG_BUFFER_SIZE;
      }
      if writePos >= readPos {
        return writePos - readPos;
      } else {
        return LOG_BUFFER_SIZE - readPos + writePos;
      }
    }

    /** clear, and init */
    method Clear()
      requires Valid()
      modifies buffer, this`writePos, this`readPos, this`bufferFull
      ensures Valid() && State() == Log(Zeros(), 0, 0, false)
    {
      writePos, readPos, bufferFull := 0, 0, false;
      for i := 0 to LOG_BUFFER_SIZE
        invariant writePos == 0 && readPos == 0 && !bufferFull
        invariant forall c :: 0 <= c < i ==> buffer[c] == '\0'
      {
        buffer[i] := '\0';
      }
      assert buffer[..] == Zeros();
    }

    /** print: what is sent ends in front of the first NUL. */
    method Print(text: array<char>)
      requires exists i :: 0 <= i < text.Length && text[i] == '\0'
      modifies this`output
      ensures output == old(output) + Printed(text[..])
    {
      ghost var end :| 0 <= end < text.Length && text[end] == '\0';
      var length := 0;
      while text[length] != '\0'
        invariant 0 <= length <= end && '\0' !in text[..length]
        decreases end - length
      {
        length := length + 1;
      }
      PrintedPrefix(text[..], length);
      output := output + text[..length];
    }

    /** All of `seen` has gone through the chunk array: sent behind `before`, but for what is still in it. */
    ghost predicate Passed(chunk: array<char>, length: nat, before: string, seen: string)
      reads this`output, chunk
    {
      before <= output && InChunk(chunk[..], length, output[|before|..], seen)
    }

    /** One turn of a loop of flush. */
    method PassOne(chunk: array<char>, length: nat, c: char, ghost before: string, ghost seen: string)
      returns (rest: nat)
      requires Passed(chunk, length, before, seen)
      modifies chunk, this`output
      ensures Passed(chunk, rest, before, seen + [c])
    {
      ghost var was := chunk[..];
      ChunkGrows(was, length, output[|before|..], seen, c);
      chunk[length] := c;
      rest := length + 1;
      if rest >= CHUNK {
        chunk[rest] := '\0';
        assert chunk[..] == was[length := c][CHUNK := '\0'];
        ghost var sent := output;
        Print(chunk);
        assert output[|before|..] == sent[|before|..] + Printed(chunk[..]);
        rest := 0;
      } else {
        assert chunk[..] == was[length := c];
      }
    }

    /** One of the loops of flush: passes the given cells through the chunk array. */
    method PassThrough(chunk: array<char>, length: nat, from: nat, to: nat, ghost before: string, ghost done: string)
      returns (rest: nat)
      requires chunk != buffer && from <= to <= buffer.Length && Passed(chunk, length, before, done)
      modifies chunk, this`output
      ensures Passed(chunk, rest, before, done + buffer[from..to])
    {
      hide Passed;
      rest := length;
      assert done + buffer[from..from] == done;
      for i := from to to
        invariant Passed(chunk, rest, before, done + buffer[from..i])
      {
        assert done + buffer[from..i + 1] == (done + buffer[from..i]) + [buffer[i]];
        rest := PassOne(chunk, rest, buffer[i], before, done + buffer[from..i]);
      }
    }

    /** The part of flush that passes the unread characters through the chunk array. */
    method PassUnread(chunk: array<char>, ghost before: string) returns (length: nat)
      requires Valid() && chunk != buffer && Passed(chunk, 0, before, "")
      modifies chunk, this`readPos, this`bufferFull, this`output
      ensures Valid() && State() == Flushed(old(State()))
      ensures Passed(chunk, length, before, old(Unread(State())))
    {
      hide Passed, Unread, Inv;
      FlushParts(State());
      length := 0;
      if !bufferFull {
        if readPos < writePos {
          length := PassThrough(chunk, length, readPos, writePos, before, "");
        }
        readPos := writePos;
      } else {
        length := PassThrough(chunk, length, readPos, LOG_BUFFER_SIZE, before, "");
        length := PassThrough(chunk, length, 0, writePos, before, "" + buffer[readPos..LOG_BUFFER_SIZE]);
        readPos := writePos;
        bufferFull := false;
      }
    }

    /** What is left in the chunk array is printed. */
    method PrintRest(chunk: array<char>, length: nat, ghost before: string, ghost seen: string)
      requires Passed(chunk, length, before, seen)
      modifies chunk, this`output
      ensures output == before + Payload(seen)
    {
      hide InChunk, Payload, Printed;
      ghost var sent := output[|before|..];
      AllSent(chunk[..], length, sent, seen);
      if length > 0 {
        chunk[length] := '\0';
        Print(chunk);
      }
    }

    /** The part of flush between the header and the trailer. */
    method PrintUnread()
      requires Valid()
      modifies this`readPos, this`bufferFull, this`output
      ensures Valid() && State() == Flushed(old(State()))
      ensures output == old(output) + Payload(old(Unread(State())))
    {
      hide InChunk, Payload, Unread, Inv, Flushed;
      FlushParts(State());
      ghost var unread := Unread(State());
      var chunk := new char[CHUNK + 1];
      ghost var before := output;
      StartChunk(chunk[..]);
      assert output[|before|..] == "";
      var length := PassUnread(chunk, before);
      PrintRest(chunk, length, before, unread);
    }

    /** flush */
    method Flush()
      requires Valid()
      modifies this`readPos, this`bufferFull, this`output
      ensures Valid() && State() == Flushed(old(State()))
      ensures output == old(output) + if old(UnreadCount(State())) == 0 then NoLogs()
                                      else Header() + Payload(old(Unread(State()))) + Trailer()
    {
      hide Payload, Unread, UnreadCount, Inv, Flushed, NoLogs, Header, Trailer;
      FlushParts(State());
      ghost var was, body := output, Payload(Unread(State()));
      var count := GetUnreadCount();
      if count == 0 {
        output := output + NoLogs();
        return;
      }
      output := output + Header();
      PrintUnread();
      output := output + Trailer();
      assert (was + Header()) + body + Trailer() == was + (Header() + body + Trailer());
    }
  }

  /** The buffer with the data copied over its cells from the given one on. */
  function Copied(buffer: string, at: nat, data: string): (r: string)
    requires at + |data| <= |buffer|
    ensures |r| == |buffer|
  {
    buffer[..at] + data + buffer[at + |data|..]
  }

  /** A write is one copy, or two if it reaches the end of the buffer. */
  lemma WriteCopies(s: Log, data: string)
    requires Shape(s) && |data| <= MAX_LOG_MSG
    ensures var w, first := LoggerModel.Write(s, data), LOG_BUFFER_SIZE - s.write;
            if data == [] then w == s
            else if s.write + |data| < LOG_BUFFER_SIZE then
              w == s.(buffer := Copied(s.buffer, s.write, data), write := s.write + |data|)
            else
              w == Log(Copied(Copied(s.buffer, s.write, data[..first]), 0, data[first..]), |data| - first, s.read, true)
  {
    if s.write + |data| >= LOG_BUFFER_SIZE {
      var first := LOG_BUFFER_SIZE - s.write;
      var once := Copied(s.buffer, s.write, data[..first]);
      assert once == s.buffer[..s.write] + data[..first];
      assert once[|data| - first..] == s.buffer[|data| - first..s.write] + data[..first];
    }
  }

  ghost predicate InChunk(chunk: string, length: nat, sent: string, seen: string) {
    && |chunk| == CHUNK + 1 && length < CHUNK && length <= |seen|
    && (|seen| - length) % CHUNK == 0
    && seen[|seen| - length..] == chunk[..length]
    && sent == Payload(seen[..|seen| - length])
  }

  lemma FlushParts(s: Log)
    requires Inv(s)
    ensures Inv(Flushed(s)) && Shape(s) && (UnreadCount(s) == 0 ==> Flushed(s) == s)
    ensures Unread(s) == if s.full then ("" + s.buffer[s.read..LOG_BUFFER_SIZE]) + s.buffer[0..s.write]
                         else if s.read < s.write then "" + s.buffer[s.read..s.write] else ""
  {
  }

  lemma StartChunk(chunk: string)
    requires |chunk| == CHUNK + 1
    ensures InChunk(chunk, 0, [], [])
  {
  }

  lemma {:induction false} PrintedPrefix(text: string, length: nat)
    requires length < |text| && '\0' !in text[..length] && text[length] == '\0'
    ensures Printed(text) == text[..length]
  {
    if length > 0 {
      assert text[0] in text[..length];
      assert text[..length] == [text[0]] + text[1..][..length - 1];
      PrintedPrefix(text[1..], length - 1);
    }
  }

  lemma {:induction false} PrintedStops(a: string, b: string)
    requires b != [] && b[0] == '\0'
    ensures Printed(a + b) == Printed(a)
  {
    if a == [] {
      assert a + b == b;
    } else {
      assert (a + b)[1..] == a[1..] + b;
      PrintedStops(a[1..], b);
    }
  }

  /** One more character: into the chunk, or out with a chunk that is now full. */
  lemma ChunkGrows(chunk: string, length: nat, sent: string, seen: string, c: char)
    requires InChunk(chunk, length, sent, seen)
    ensures length + 1 < CHUNK ==> InChunk(chunk[length := c], length + 1, sent, seen + [c])
    ensures length + 1 >= CHUNK ==>
              var out := chunk[length := c][CHUNK := '\0'];
              '\0' in out && InChunk(out, 0, sent + Printed(out), seen + [c])
  {
    hide Payload, Printed;
    var start := |seen| - length;
    var now := seen + [c];
    assert now[..start] == seen[..start];
    assert now[start..] == chunk[..length] + [c];
    if length + 1 >= CHUNK {
      var out := chunk[length := c][CHUNK := '\0'];
      assert out == now[start..] + ['\0'];
      PrintedStops(now[start..], ['\0']);
      PayloadMore(now[..start], now[start..]);
      assert now == now[..start] + now[start..];
      assert now[..|now|] == now;
      assert out[CHUNK] == '\0';
    }
  }

  /** What is still in the chunk is the rest. */
  lemma AllSent(chunk: string, length: nat, sent: string, seen: string)
    requires InChunk(chunk, length, sent, seen)
    ensures |chunk| == CHUNK + 1 && length < CHUNK && sent + Printed(chunk[length := '\0']) == Payload(seen)
    ensures length == 0 ==> sent == Payload(seen)
  {
    hide Payload, Printed;
    var start := |seen| - length;
    var last := chunk[length := '\0'];
    assert last == chunk[..length] + last[length..];
    PrintedStops(chunk[..length], last[length..]);
    PayloadMore(seen[..start], seen[start..]);
    assert seen == seen[..start] + seen[start..];
    assert length == 0 ==> seen[..start] == seen;
  }

  function Zeros(): string {
    seq(LOG_BUFFER_SIZE, _ => '\0')
  }
}
