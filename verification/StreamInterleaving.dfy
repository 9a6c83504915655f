/**
 One writer and one reader on a stream buffer, interleaved byte by byte. Each side works out its count
 from one reading of the other's index, copies, and publishes its own index last.
 */
module StreamInterleaving {
  import opened StreamSpec
  import opened StreamBuffers

  /** Copying: the data of the call, the count worked out, and how many bytes are copied so far. */
  datatype Writer = WriterIdle | Writing(data: seq<Byte>, count: nat, copied: nat)

  /** Copying: the count worked out, and the bytes copied so far. */
  datatype Reader = ReaderIdle | Reading(count: nat, copied: seq<Byte>)

  /** The shared buffer and indices, both sides, and what has been sent and received by finished calls. */
  datatype State = State(buffer: seq<Byte>, head: nat, tail: nat, writer: Writer, reader: Reader,
                         sent: seq<Byte>, received: seq<Byte>)

  datatype Action =
    | WriterStarts(data: seq<Byte>) | WriterCopies | WriterPublishes
    | ReaderStarts(maxCount: nat) | ReaderCopies | ReaderPublishes

  ghost predicate Indexed(s: State) {
    s.head < |s.buffer| && s.tail < |s.buffer|
  }

  ghost predicate Enabled(s: State, a: Action) {
    && Indexed(s)
    && match a
       case WriterStarts(_) => s.writer.WriterIdle?
       case WriterCopies =>
         s.writer.Writing? && s.writer.copied < s.writer.count <= |s.buffer| && s.writer.count <= |s.writer.data|
       case WriterPublishes =>
         s.writer.Writing? && s.writer.copied == s.writer.count <= |s.buffer| && s.writer.count <= |s.writer.data|
       case ReaderStarts(_) => s.reader.ReaderIdle?
       case ReaderCopies => s.reader.Reading? && |s.reader.copied| < s.reader.count <= |s.buffer|
       case ReaderPublishes => s.reader.Reading? && |s.reader.copied| == s.reader.count <= |s.buffer|
  }

  ghost function Step(s: State, a: Action): State
    requires Enabled(s, a)
  {
    var length := |s.buffer|;
    match a
    case WriterStarts(data) =>
      var count := Min(|data|, Spaces(length, s.tail, s.head));
      if count == 0 then s else s.(writer := Writing(data, count, 0))
    case WriterCopies =>
      s.(buffer := s.buffer[Cell(s.head, s.writer.copied, length) := s.writer.data[s.writer.copied]],
         writer := s.writer.(copied := s.writer.copied + 1))
    case WriterPublishes =>
      s.(head := Cell(s.head, s.writer.count, length), writer := WriterIdle,
         sent := s.sent + s.writer.data[..s.writer.count])
    case ReaderStarts(maxCount) =>
      var count := Min(maxCount, Bytes(length, s.tail, s.head));
      if count == 0 then s else s.(reader := Reading(count, []))
    case ReaderCopies =>
      s.(reader := s.reader.(copied := s.reader.copied + [s.buffer[Cell(s.tail, |s.reader.copied|, length)]]))
    case ReaderPublishes =>
      s.(tail := Cell(s.tail, s.reader.count, length), reader := ReaderIdle,
         received := s.received + s.reader.copied)
  }

  // ---------------------------------------------------------------- the invariant

  /** The bytes between tail and head are the ones sent and not yet received, in order. */
  ghost predicate Unread(s: State) {
    && Indexed(s) && |s.buffer| <= SIZE_MODULUS / 2
    && |s.received| <= |s.sent| && s.received == s.sent[..|s.received|]
    && var n := |s.sent| - |s.received|;
       && n < |s.buffer| && s.head == Cell(s.tail, n, |s.buffer|)
       && forall k {:trigger Cell(s.tail, k, |s.buffer|)} :: 0 <= k < n ==>
            s.buffer[Cell(s.tail, k, |s.buffer|)] == s.sent[|s.received| + k]
  }

  /** The writer's count still fits, and what it has copied lies behind the head. */
  ghost predicate WriterInv(s: State)
    requires Unread(s)
  {
    s.writer.Writing? ==>
      && s.writer.copied <= s.writer.count <= |s.writer.data|
      && |s.sent| - |s.received| + s.writer.count < |s.buffer|
      && forall j {:trigger Cell(s.head, j, |s.buffer|)} :: 0 <= j < s.writer.copied ==>
           s.buffer[Cell(s.head, j, |s.buffer|)] == s.writer.data[j]
  }

  /** The reader's count is still there, and what it has copied is what comes next. */
  ghost predicate ReaderInv(s: State)
    requires Unread(s)
  {
    s.reader.Reading? ==>
      && |s.reader.copied| <= s.reader.count <= |s.sent| - |s.received|
      && s.reader.copied == s.sent[|s.received|..|s.received| + |s.reader.copied|]
  }

  ghost predicate Inv(s: State) {
    Unread(s) && WriterInv(s) && ReaderInv(s)
  }

  ghost predicate Initial(s: State) {
    && 0 < |s.buffer| <= SIZE_MODULUS / 2 && s.head == s.tail == 0 && s.writer == WriterIdle && s.reader == ReaderIdle
    && s.sent == s.received == []
  }

  lemma CellsCompose(tail: nat, n: nat, j: nat, length: nat)
    requires tail < length && n < length && j <= length - n
    ensures Cell(tail, n, length) < length && Cell(Cell(tail, n, length), j, length) == Cell(tail, n + j, length)
  {
  }

  lemma CellsDiffer(tail: nat, j: nat, k: nat, length: nat)
    requires tail < length && j < length && k < length && j != k
    ensures Cell(tail, j, length) != Cell(tail, k, length)
  {
  }

  lemma CellsBelow(index: nat, length: nat)
    requires index < length
    ensures forall k {:trigger Cell(index, k, length)} :: 0 <= k <= length ==> Cell(index, k, length) < length
  {
  }

  lemma CountsExact(s: State)
    requires Unread(s)
    ensures Bytes(|s.buffer|, s.tail, s.head) == |s.sent| - |s.received|
    ensures Spaces(|s.buffer|, s.tail, s.head) + Bytes(|s.buffer|, s.tail, s.head) == |s.buffer| - 1
  {
  }

  lemma CopyKeepsInv(s: State)
    requires Inv(s) && Enabled(s, WriterCopies)
    ensures Inv(Step(s, WriterCopies))
  {
    hide Cell;
    var length, n, c := |s.buffer|, |s.sent| - |s.received|, s.writer.copied;
    CellsCompose(s.tail, n, c, length);
    CellsBelow(s.head, length);
    CellsBelow(s.tail, length);
    forall k | 0 <= k < n ensures Cell(s.tail, k, length) != Cell(s.head, c, length) {
      CellsDiffer(s.tail, k, n + c, length);
    }
    forall j | 0 <= j < c ensures Cell(s.head, j, length) != Cell(s.head, c, length) {
      CellsDiffer(s.head, j, c, length);
    }
  }

  lemma WriterPublishKeepsInv(s: State)
    requires Inv(s) && Enabled(s, WriterPublishes)
    ensures Inv(Step(s, WriterPublishes))
  {
    var length, n, count := |s.buffer|, |s.sent| - |s.received|, s.writer.count;
    var s' := Step(s, WriterPublishes);
    CellsCompose(s.tail, n, count, length);
    forall k {:trigger Cell(s.tail, k, length)} | 0 <= k < n + count
      ensures s.buffer[Cell(s.tail, k, length)] == s'.sent[|s.received| + k]
    {
      if k >= n { CellsCompose(s.tail, n, k - n, length); }
    }
  }

  lemma ReaderCopyKeepsInv(s: State)
    requires Inv(s) && Enabled(s, ReaderCopies)
    ensures Inv(Step(s, ReaderCopies))
  {
    var k := |s.reader.copied|;
    assert s.buffer[Cell(s.tail, k, |s.buffer|)] == s.sent[|s.received| + k];
  }

  lemma ReaderPublishKeepsInv(s: State)
    requires Inv(s) && Enabled(s, ReaderPublishes)
    ensures Inv(Step(s, ReaderPublishes))
  {
    var length, n, count := |s.buffer|, |s.sent| - |s.received|, s.reader.count;
    var s' := Step(s, ReaderPublishes);
    CellsCompose(s.tail, count, n - count, length);
    assert s'.received == s.sent[..|s.received| + count];
    forall k {:trigger Cell(s'.tail, k, length)} | 0 <= k < n - count
      ensures s.buffer[Cell(s'.tail, k, length)] == s.sent[|s'.received| + k]
    {
      CellsCompose(s.tail, count, k, length);
    }
  }

  /** Every step of either side, on whatever reading of the other's index, keeps the invariant. */
  lemma StepKeepsInv(s: State, a: Action)
    requires Inv(s) && Enabled(s, a)
    ensures Inv(Step(s, a))
  {
    CountsExact(s);
    match a
    case WriterStarts(_) =>
    case WriterCopies => CopyKeepsInv(s);
    case WriterPublishes => WriterPublishKeepsInv(s);
    case ReaderStarts(_) =>
    case ReaderCopies => ReaderCopyKeepsInv(s);
    case ReaderPublishes => ReaderPublishKeepsInv(s);
  }

  /**
   What a call takes upon itself: a write all of its data, or what fills the buffer as far as it can see; a read as
   many bytes as it is asked for, or all that are there; and each does nothing only if there is nothing to do.
   */
  lemma CallsTakeAll(s: State, data: seq<Byte>, maxCount: nat)
    requires Inv(s)
    ensures s.writer.WriterIdle? ==>
              var t, unread := Step(s, WriterStarts(data)), |s.sent| - |s.received|;
              if data == [] || unread == |s.buffer| - 1 then t == s
              else
                && t.writer.Writing? && t == s.(writer := Writing(data, t.writer.count, 0)) && t.writer.count <= |data|
                && (t.writer.count == |data| || unread + t.writer.count == |s.buffer| - 1)
    ensures s.reader.ReaderIdle? ==>
              var t, unread := Step(s, ReaderStarts(maxCount)), |s.sent| - |s.received|;
              if maxCount == 0 || unread == 0 then t == s
              else
                && t.reader.Reading? && t == s.(reader := Reading(t.reader.count, [])) && t.reader.count <= maxCount
                && (t.reader.count == maxCount || t.reader.count == unread)
  {
    CountsExact(s);
  }

  // ---------------------------------------------------------------- whole runs

  ghost predicate IsRun(states: seq<State>, actions: seq<Action>) {
    && |states| == |actions| + 1 && Initial(states[0])
    && forall i {:trigger actions[i]} :: 0 <= i < |actions| ==>
         Enabled(states[i], actions[i]) && states[i + 1] == Step(states[i], actions[i])
  }

  lemma {:induction false} RunKeepsInv(states: seq<State>, actions: seq<Action>, n: nat)
    requires IsRun(states, actions) && n <= |actions|
    ensures Inv(states[n])
  {
    hide Step, Enabled;
    if n > 0 {
      RunKeepsInv(states, actions, n - 1);
      assert Enabled(states[n - 1], actions[n - 1]) && states[n] == Step(states[n - 1], actions[n - 1]);
      StepKeepsInv(states[n - 1], actions[n - 1]);
    }
  }

  /**
   Safety of the lock-free stream, under every interleaving: what has been received is a prefix of what
   has been sent; bytes and spaces always make up the capacity; and the cell that the writer is about to
   fill is never the one that the reader is about to read, nor any unread cell.
   */
  lemma SingleWriterSingleReader(states: seq<State>, actions: seq<Action>, n: nat)
    requires IsRun(states, actions) && n <= |actions|
    ensures var s := states[n];
            && s.received <= s.sent && Indexed(s)
            && Bytes(|s.buffer|, s.tail, s.head) + Spaces(|s.buffer|, s.tail, s.head) == |s.buffer| - 1
            && Bytes(|s.buffer|, s.tail, s.head) == |s.sent| - |s.received|
            && (s.writer.Writing? && s.writer.copied < s.writer.count ==>
                  s.writer.copied < |s.buffer|
                  && forall k :: 0 <= k < |s.sent| - |s.received| ==>
                       Cell(s.tail, k, |s.buffer|) != Cell(s.head, s.writer.copied, |s.buffer|))
            && (s.reader.Reading? ==>
                  |s.reader.copied| <= s.reader.count <= |s.sent| - |s.received|
                  && s.received + s.reader.copied <= s.sent)
  {
    RunKeepsInv(states, actions, n);
    var s := states[n];
    CountsExact(s);
    if s.writer.Writing? && s.writer.copied < s.writer.count {
      var m := |s.sent| - |s.received|;
      CellsCompose(s.tail, m, s.writer.copied, |s.buffer|);
      forall k | 0 <= k < m ensures Cell(s.tail, k, |s.buffer|) != Cell(s.head, s.writer.copied, |s.buffer|) {
        CellsDiffer(s.tail, k, m + s.writer.copied, |s.buffer|);
      }
    }
  }
}
