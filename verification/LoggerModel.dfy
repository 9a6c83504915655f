/** The log buffer as a value: what writes leave in it, and what a flush then prints. */
module LoggerModel {
  const LOG_BUFFER_SIZE: nat := 4096
  const MAX_LOG_MSG: nat := 256
  const CHUNK: nat := 255          // what fits into the chunk array, next to the terminator

  datatype Log = Log(buffer: string, write: nat, read: nat, full: bool)

  predicate Shape(s: Log) {
    |s.buffer| == LOG_BUFFER_SIZE && s.write < LOG_BUFFER_SIZE && s.read < LOG_BUFFER_SIZE
  }

  /** Not full always implies that the read position is not behind the write position. */
  predicate Inv(s: Log) {
    Shape(s) && (!s.full ==> s.read <= s.write)
  }

  // ---------------------------------------------------------------- writing

  function Write(s: Log, data: string): (r: Log)
    requires Shape(s) && |data| <= MAX_LOG_MSG
    ensures Shape(r) && (Inv(s) ==> Inv(r))
  {
    if data == [] then s
    else if s.write + |data| >= LOG_BUFFER_SIZE then
      var first := LOG_BUFFER_SIZE - s.write;
      Log(data[first..] + s.buffer[|data| - first..s.write] + data[..first], |data| - first, s.read, true)
    else
      s.(buffer := s.buffer[..s.write] + data + s.buffer[s.write + |data|..], write := s.write + |data|)
  }

  predicate Short(writes: seq<string>) {
    forall i :: 0 <= i < |writes| ==> |writes[i]| <= MAX_LOG_MSG
  }

  function WriteAll(s: Log, writes: seq<string>): (r: Log)
    requires Shape(s) && Short(writes)
    ensures Shape(r) && (Inv(s) ==> Inv(r))
  {
    if writes == [] then s else Write(WriteAll(s, writes[..|writes| - 1]), writes[|writes| - 1])
  }

  function Flatten(writes: seq<string>): string {
    if writes == [] then [] else Flatten(writes[..|writes| - 1]) + writes[|writes| - 1]
  }

  // ---------------------------------------------------------------- reading

  function UnreadCount(s: Log): nat
    requires Shape(s)
  {
    if s.full then LOG_BUFFER_SIZE
    else if s.write >= s.read then s.write - s.read
    else LOG_BUFFER_SIZE - s.read + s.write
  }

  /** The characters that a flush goes through. */
  function Unread(s: Log): string
    requires Shape(s)
  {
    if s.full then s.buffer[s.read..] + s.buffer[..s.write]
    else if s.read < s.write then s.buffer[s.read..s.write]
    else []
  }

  /** What printing a chunk puts out: it ends at the first NUL. */
  function Printed(chunk: string): string {
    if chunk == [] || chunk[0] == '\0' then [] else [chunk[0]] + Printed(chunk[1..])
  }

  /** What a flush prints of the given characters, chunk by chunk. */
  function Payload(u: string): string {
    if |u| <= CHUNK then Printed(u) else Printed(u[..CHUNK]) + Payload(u[CHUNK..])
  }

  function Flushed(s: Log): Log {
    s.(read := s.write, full := false)
  }

  lemma CountExact(s: Log)
    requires Inv(s)
    ensures UnreadCount(s) == |Unread(s)| <==> !s.full || s.read == s.write
    ensures UnreadCount(s) == 0 <==> s.read == s.write && !s.full
  {
  }

  /** After a flush nothing is unread, and the characters are where they were: the next writes begin afresh. */
  lemma FlushEmpties(s: Log)
    requires Inv(s)
    ensures Inv(Flushed(s)) && Flushed(s).read == Flushed(s).write && !Flushed(s).full
    ensures Unread(Flushed(s)) == [] && UnreadCount(Flushed(s)) == 0 && Flushed(s).buffer == s.buffer
  {
  }

  // ---------------------------------------------------------------- what the buffer holds

  /** The cell of the n-th character after an empty buffer at the given position. */
  function Cell(start: nat, n: nat): (c: nat)
    ensures c < LOG_BUFFER_SIZE
  {
    (start + n) % LOG_BUFFER_SIZE
  }

  /** The buffer after these characters have been written into an empty one. */
  ghost predicate Holds(s: Log, start: nat, stream: string)
    requires Shape(s)
  {
    && s.read == start && s.write == Cell(start, |stream|)
    && s.full == (start + |stream| >= LOG_BUFFER_SIZE)
    && forall j {:trigger stream[j]} :: 0 <= j < |stream| && |stream| - LOG_BUFFER_SIZE <= j ==>
         s.buffer[Cell(start, j)] == stream[j]
  }

  lemma CellStep(start: nat, n: nat, k: nat)
    requires k <= MAX_LOG_MSG
    ensures var w := Cell(start, n);
            Cell(start, n + k) == if w + k >= LOG_BUFFER_SIZE then w + k - LOG_BUFFER_SIZE else w + k
    ensures (start + n + k >= LOG_BUFFER_SIZE)
            <==> (start + n >= LOG_BUFFER_SIZE || Cell(start, n) + k >= LOG_BUFFER_SIZE)
  {
  }

  lemma CellBack(start: nat, n: nat, k: nat)
    requires 0 < k <= LOG_BUFFER_SIZE && k <= n
    ensures var w := Cell(start, n);
            Cell(start, n - k) == if w >= k then w - k else w + LOG_BUFFER_SIZE - k
  {
  }

  /** Cells of the buffer after a write: those of the new characters, and the others. */
  lemma WriteCells(s: Log, data: string)
    requires Shape(s) && |data| <= MAX_LOG_MSG
    ensures forall k {:trigger data[k]} :: 0 <= k < |data| ==>
              var c := if s.write + k >= LOG_BUFFER_SIZE then s.write + k - LOG_BUFFER_SIZE else s.write + k;
              Write(s, data).buffer[c] == data[k]
    ensures forall c :: 0 <= c < LOG_BUFFER_SIZE
                        && !(s.write <= c < s.write + |data|) && !(c < s.write + |data| - LOG_BUFFER_SIZE)
                        ==> Write(s, data).buffer[c] == s.buffer[c]
  {
  }

  lemma WriteHolds(s: Log, start: nat, stream: string, data: string)
    requires Shape(s) && Holds(s, start, stream) && |data| <= MAX_LOG_MSG
    ensures Holds(Write(s, data), start, stream + data)
  {
    hide Cell, Write;
    var r, n, all := Write(s, data), |stream|, stream + data;
    CellStep(start, n, |data|);
    WriteCells(s, data);
    WriteEnds(s, data);
    forall j {:trigger all[j]} | 0 <= j < |all| && |all| - LOG_BUFFER_SIZE <= j
      ensures r.buffer[Cell(start, j)] == all[j]
    {
      if j >= n {
        CellStep(start, n, j - n);
        assert all[j] == data[j - n];
      } else {
        CellBack(start, n, n - j);
        assert all[j] == stream[j];
        assert r.buffer[Cell(start, j)] == s.buffer[Cell(start, j)];
      }
    }
  }

  lemma WriteEnds(s: Log, data: string)
    requires Shape(s) && |data| <= MAX_LOG_MSG
    ensures var r := Write(s, data);
            && r.read == s.read && r.full == (s.full || s.write + |data| >= LOG_BUFFER_SIZE)
            && r.write == if s.write + |data| >= LOG_BUFFER_SIZE then s.write + |data| - LOG_BUFFER_SIZE
                          else s.write + |data|
  {
  }

  lemma {:induction false} WriteAllHolds(s: Log, writes: seq<string>)
    requires Shape(s) && s.read == s.write && !s.full && Short(writes)
    ensures Holds(WriteAll(s, writes), s.read, Flatten(writes))
  {
    hide Holds, Write;
    if writes == [] {
      EmptyHolds(s);
    } else {
      var init, last := writes[..|writes| - 1], writes[|writes| - 1];
      WriteAllHolds(s, init);
      WriteHolds(WriteAll(s, init), s.read, Flatten(init), last);
    }
  }

  lemma EmptyHolds(s: Log)
    requires Shape(s) && s.read == s.write && !s.full
    ensures Holds(s, s.read, [])
  {
  }

  /** The character last written to the cell of the i-th, when n have been written. */
  function LastAt(i: nat, n: nat): (j: nat)
    requires i < n
    ensures j < n && n <= j + LOG_BUFFER_SIZE
  {
    i + LOG_BUFFER_SIZE * ((n - 1 - i) / LOG_BUFFER_SIZE)
  }

  lemma SameCell(start: nat, i: nat, n: nat)
    requires i < n
    ensures Cell(start, LastAt(i, n)) == Cell(start, i)
  {
  }

  lemma HeldUnread(s: Log, start: nat, stream: string)
    requires Shape(s) && Holds(s, start, stream)
    ensures var n := |stream|;
            |Unread(s)| == if start + n < LOG_BUFFER_SIZE then n
                           else LOG_BUFFER_SIZE - start + (start + n) % LOG_BUFFER_SIZE
    ensures |Unread(s)| <= |stream|
    ensures forall i {:trigger Unread(s)[i]} :: 0 <= i < |Unread(s)| ==> Unread(s)[i] == stream[LastAt(i, |stream|)]
  {
    var n := |stream|;
    forall i {:trigger Unread(s)[i]} | 0 <= i < |Unread(s)| ensures Unread(s)[i] == stream[LastAt(i, n)] {
      SameCell(start, i, n);
      assert Unread(s)[i] == s.buffer[Cell(start, i)];
    }
  }

  /**
   What a flush goes through, for every run of writes since the buffer was last empty, however long: at
   each place, of the characters that went to that cell, the last one.
   */
  lemma FlushSees(s: Log, writes: seq<string>)
    requires Shape(s) && s.read == s.write && !s.full && Short(writes)
    ensures var all, u := Flatten(writes), Unread(WriteAll(s, writes));
            && |u| <= |all|
            && |u| == (if s.read + |all| < LOG_BUFFER_SIZE then |all|
                       else LOG_BUFFER_SIZE - s.read + (s.read + |all|) % LOG_BUFFER_SIZE)
            && forall i {:trigger u[i]} :: 0 <= i < |u| ==> u[i] == all[LastAt(i, |all|)]
  {
    hide Holds, Unread;
    WriteAllHolds(s, writes);
    HeldUnread(WriteAll(s, writes), s.read, Flatten(writes));
  }

  /** Nothing is lost or reordered while no more is written than the buffer holds. */
  lemma NothingLost(s: Log, writes: seq<string>)
    requires Shape(s) && s.read == s.write && !s.full && Short(writes)
    requires |Flatten(writes)| <= 4096
    ensures Unread(WriteAll(s, writes)) == Flatten(writes)
  {
    hide Unread, WriteAll, Flatten;
    FlushSees(s, writes);
    var all := Flatten(writes);
    forall i | 0 <= i < |all| ensures LastAt(i, |all|) == i {
    }
  }

  /**
   After a run of writes of n characters in all from an empty buffer, the count is right if and only if the
   buffer has not been marked full, or just as many characters were written as it holds.
   */
  lemma CountAfter(s: Log, writes: seq<string>)
    requires Shape(s) && s.read == s.write && !s.full && Short(writes)
    ensures var n := |Flatten(writes)|;
            UnreadCount(WriteAll(s, writes)) == n <==> s.read + n < 4096 || n == 4096
  {
    hide Write, WriteAll, Flatten;
    WriteAllHolds(s, writes);
  }

  /** It can be wrong: one character is written and flushed, then enough to reach the end of the buffer. */
  lemma CountWrong(s: Log)
    requires Shape(s) && s.read == s.write == 0 && !s.full
    ensures var flushed, writes := Flushed(Write(s, "x")), seq(LOG_BUFFER_SIZE - 1, _ => "x");
            && Short(writes) && |Flatten(writes)| == LOG_BUFFER_SIZE - 1
            && |Unread(WriteAll(flushed, writes))| == LOG_BUFFER_SIZE - 1
            && UnreadCount(WriteAll(flushed, writes)) == LOG_BUFFER_SIZE
  {
    hide WriteAll, Flatten;
    var flushed, writes := Flushed(Write(s, "x")), seq(LOG_BUFFER_SIZE - 1, _ => "x");
    var stream: string := seq(LOG_BUFFER_SIZE - 1, _ => 'x');
    FlattenOnes(stream);
    assert writes == seq(|stream|, i requires 0 <= i < |stream| => [stream[i]]);
    WriteAllHolds(flushed, writes);
    HeldUnread(WriteAll(flushed, writes), flushed.read, stream);
  }

  // ---------------------------------------------------------------- when it is all printed

  lemma {:induction false} PrintedAll(chunk: string)
    ensures Printed(chunk) == chunk <==> '\0' !in chunk
    ensures |Printed(chunk)| <= |chunk| && (|Printed(chunk)| == |chunk| ==> '\0' !in chunk)
  {
    if chunk != [] {
      assert chunk == [chunk[0]] + chunk[1..];
      PrintedAll(chunk[1..]);
    }
  }

  /** Every character is printed, in order, exactly if none of them is NUL. */
  lemma {:induction false} PayloadAll(u: string)
    ensures Payload(u) == u <==> '\0' !in u
    ensures |Payload(u)| <= |u| && (|Payload(u)| == |u| ==> '\0' !in u)
  {
    if |u| <= CHUNK {
      PrintedAll(u);
    } else {
      PrintedAll(u[..CHUNK]);
      PayloadAll(u[CHUNK..]);
      assert u == u[..CHUNK] + u[CHUNK..];
      assert '\0' in u <==> '\0' in u[..CHUNK] || '\0' in u[CHUNK..];
    }
  }

  /** Characters are printed in chunks of 255, so that a NUL costs the rest of its chunk, and no more than that. */
  lemma {:induction false} PayloadMore(u: string, t: string)
    requires |u| % 255 == 0 && |t| <= 255
    ensures Payload(u + t) == Payload(u) + Printed(t)
  {
    if u == [] {
      assert u + t == t;
      assert Payload(u) == [];
    } else if |u| == CHUNK {
      if t == [] {
        assert u + t == u;
      } else {
        assert (u + t)[..CHUNK] == u && (u + t)[CHUNK..] == t;
      }
    } else {
      PayloadMore(u[CHUNK..], t);
      assert (u + t)[..CHUNK] == u[..CHUNK] && (u + t)[CHUNK..] == u[CHUNK..] + t;
    }
  }

  lemma {:induction false} FlattenOnes(stream: string)
    ensures Flatten(seq(|stream|, i requires 0 <= i < |stream| => [stream[i]])) == stream
  {
    if stream != [] {
      var n := |stream| - 1;
      FlattenOnes(stream[..n]);
      assert seq(|stream|, i requires 0 <= i < |stream| => [stream[i]])[..n]
             == seq(n, i requires 0 <= i < n => [stream[..n][i]]);
      assert stream == stream[..n] + [stream[n]];
    }
  }

  /**
   First in, first out, exactly up to the size of the buffer: from an empty buffer, a flush prints just what
   was written, for every run of writes of n NUL-free characters in all, if and only if n is at most 4096.
   */
  lemma FirstInFirstOut(s: Log, n: nat)
    requires Shape(s) && s.read == s.write && !s.full
    ensures (forall writes :: Short(writes) && |Flatten(writes)| == n && '\0' !in Flatten(writes) ==>
               Payload(Unread(WriteAll(s, writes))) == Flatten(writes))
            <==> n <= 4096
  {
    hide Unread, WriteAll, Flatten, Payload;
    if n <= LOG_BUFFER_SIZE {
      forall writes | Short(writes) && |Flatten(writes)| == n && '\0' !in Flatten(writes)
        ensures Payload(Unread(WriteAll(s, writes))) == Flatten(writes)
      {
        NothingLost(s, writes);
        PayloadAll(Flatten(writes));
      }
    } else {
      var stream := ['x'] + seq(n - 1, _ => 'y');
      var writes := seq(n, i requires 0 <= i < n => [stream[i]]);
      FlattenOnes(stream);
      assert writes == seq(|stream|, i requires 0 <= i < |stream| => [stream[i]]);
      FlushSees(s, writes);
      var u := Unread(WriteAll(s, writes));
      PayloadAll(u);
      assert LastAt(0, n) >= LOG_BUFFER_SIZE;
      assert |u| == n ==> u[0] == 'y';
    }
  }
}
