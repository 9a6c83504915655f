/**
 Stream and message buffers as byte queues: what sending and receiving promise, over whole runs.
 Module StreamBuffers proves that the ring buffer code does this.
 */
module StreamSpec {

  const SIZE_MODULUS: nat := 0x1_0000_0000
  const LENGTH_BYTES: nat := 4   // the bytes that hold the length of a message

  type Byte = b: int | 0 <= b < 256

  function Min(a: nat, b: nat): nat {
    if a < b then a else b
  }

  // ---------------------------------------------------------------- the length prefix

  /** A message length as it lies in memory: 32 bits, least significant byte first. */
  function EncodeLength(n: nat): (e: seq<Byte>)
    requires n < SIZE_MODULUS
    ensures |e| == LENGTH_BYTES
  {
    [n % 256, n / 256 % 256, n / 65536 % 256, n / 16777216]
  }

  function DecodeLength(e: seq<Byte>): (n: nat)
    requires |e| == LENGTH_BYTES
    ensures n < SIZE_MODULUS
  {
    e[0] as int + 256 * (e[1] as int) + 65536 * (e[2] as int) + 16777216 * (e[3] as int)
  }

  lemma LengthRoundTrip(n: nat)
    requires n < SIZE_MODULUS
    ensures DecodeLength(EncodeLength(n)) == n
  {
    assert n == n / 256 * 256 + n % 256;
    assert n / 256 == n / 65536 * 256 + n / 256 % 256;
    assert n / 65536 == n / 16777216 * 256 + n / 65536 % 256;
  }

  function Frame(m: seq<Byte>): seq<Byte>
    requires |m| < SIZE_MODULUS
  {
    EncodeLength(|m|) + m
  }

  type Message = m: seq<Byte> | |m| < SIZE_MODULUS

  function Frames(ms: seq<Message>): seq<Byte> {
    if ms == [] then [] else Frame(ms[0]) + Frames(ms[1..])
  }

  lemma {:induction false} FramesAppend(ms: seq<Message>, m: Message)
    ensures Frames(ms + [m]) == Frames(ms) + Frame(m)
  {
    if ms == [] {
      assert ms + [m] == [m];
      assert Frames([m]) == Frame(m) + Frames([]);
    } else {
      assert (ms + [m])[1..] == ms[1..] + [m];
      FramesAppend(ms[1..], m);
    }
  }

  // ---------------------------------------------------------------- one call

  /** Contents after a send, and the number of bytes it reports as sent. */
  datatype Sent = Sent(contents: seq<Byte>, reported: nat)

  /** Contents after a receive, and the bytes received. */
  datatype Received = Received(contents: seq<Byte>, bytes: seq<Byte>)

  /** xStreamBufferSend without blocking. */
  function Send(contents: seq<Byte>, capacity: nat, isMessageBuffer: bool, data: Message): Sent
    requires |contents| <= capacity
  {
    var space := capacity - |contents|;
    if space == 0 then Sent(contents, 0)
    else if !isMessageBuffer then
      var n := Min(|data|, space);
      Sent(contents + data[..n], n)
    else if |data| + LENGTH_BYTES <= space then Sent(contents + Frame(data), |data|)
    else Sent(contents, 0)
  }

  /** xStreamBufferReceive without blocking, into a buffer of the given size. */
  function Receive(contents: seq<Byte>, isMessageBuffer: bool, bufferLength: nat): Received {
    if !isMessageBuffer then
      var n := Min(bufferLength, |contents|);
      Received(contents[n..], contents[..n])
    else if |contents| <= LENGTH_BYTES then Received(contents, [])
    else
      var length := DecodeLength(contents[..LENGTH_BYTES]);
      var rest := contents[LENGTH_BYTES..];
      if bufferLength < length then Received(contents, [])
      else
        var n := Min(length, |rest|);
        Received(rest[n..], rest[..n])
  }

  /** xStreamBufferNextMessageLengthBytes */
  function NextLength(contents: seq<Byte>, isMessageBuffer: bool): nat {
    if isMessageBuffer && |contents| > LENGTH_BYTES then DecodeLength(contents[..LENGTH_BYTES]) else 0
  }

  /** A send to a stream takes the front of the data, and all of it unless that leaves the buffer full. */
  lemma SendTakes(contents: seq<Byte>, capacity: nat, data: Message)
    requires |contents| <= capacity
    ensures var s := Send(contents, capacity, false, data);
            && s.reported <= |data| && s.contents == contents + data[..s.reported]
            && (s.reported == |data| || |s.contents| == capacity)
            && |s.contents| <= capacity
  {
  }

  /** A receive from a stream takes the front of the contents, and as much as is asked for unless nothing is left. */
  lemma ReceiveTakes(contents: seq<Byte>, bufferLength: nat)
    ensures var r := Receive(contents, false, bufferLength);
            && r.bytes + r.contents == contents && |r.bytes| <= bufferLength
            && (|r.bytes| == bufferLength || r.contents == [])
    ensures NextLength(contents, false) == 0
  {
    var n := Min(bufferLength, |contents|);
    assert contents[..n] + contents[n..] == contents;
  }

  // ---------------------------------------------------------------- messages

  /** Whether the buffer takes the message: all of it, prefix included, or nothing. */
  predicate Fits(ms: seq<Message>, capacity: nat, m: Message) {
    |Frames(ms)| + LENGTH_BYTES + |m| <= capacity
  }

  /** A send to a message buffer is all or nothing. */
  lemma SendMessage(ms: seq<Message>, capacity: nat, m: Message)
    requires |Frames(ms)| <= capacity
    ensures Send(Frames(ms), capacity, true, m) ==
            if Fits(ms, capacity, m) then Sent(Frames(ms + [m]), |m|) else Sent(Frames(ms), 0)
  {
    FramesAppend(ms, m);
  }

  /** The reported count tells whether the message was taken; except that an empty one is taken in silence. */
  lemma SendReports(ms: seq<Message>, capacity: nat, m: Message)
    requires |Frames(ms)| <= capacity
    ensures var s := Send(Frames(ms), capacity, true, m);
            (s.reported > 0 <==> s.contents != Frames(ms)) <==> |m| > 0 || !Fits(ms, capacity, m)
  {
    SendMessage(ms, capacity, m);
    FramesAppend(ms, m);
  }

  /** Whether a receive finds a message: a lone empty message is not seen. */
  predicate Visible(ms: seq<Message>) {
    ms != [] && ms != [[]]
  }

  lemma FramesShort(ms: seq<Message>)
    ensures ms != [] ==> LENGTH_BYTES + |ms[0]| <= |Frames(ms)|
    ensures |Frames(ms)| == 0 <==> ms == []
  {
  }

  lemma FramesUnfold(ms: seq<Message>)
    requires ms != []
    ensures Frames(ms) == (EncodeLength(|ms[0]|) + ms[0]) + Frames(ms[1..])
  {
  }

  lemma PrefixSplit<T>(e: seq<T>, m: seq<T>, t: seq<T>)
    ensures ((e + m) + t)[..|e|] == e && ((e + m) + t)[|e|..] == m + t && |(e + m) + t| == |e| + |m| + |t|
  {
  }

  lemma OnlyEmptyMessage(ms: seq<Message>)
    requires ms != []
    ensures ms == [[]] <==> |ms[0]| == 0 && ms[1..] == []
  {
    assert ms == [ms[0]] + ms[1..];
  }

  lemma FramesHead(ms: seq<Message>)
    requires ms != []
    ensures |Frames(ms)| >= LENGTH_BYTES && Frames(ms)[..LENGTH_BYTES] == EncodeLength(|ms[0]|)
    ensures Frames(ms)[LENGTH_BYTES..] == ms[0] + Frames(ms[1..])
    ensures |Frames(ms)| > LENGTH_BYTES <==> Visible(ms)
  {
    hide Frames, EncodeLength;
    FramesShort(ms[1..]);
    FramesUnfold(ms);
    PrefixSplit(EncodeLength(|ms[0]|), ms[0], Frames(ms[1..]));
    OnlyEmptyMessage(ms);
  }

  /** A receive takes the first message, byte for byte, if there is room for it; otherwise nothing changes. */
  lemma ReceiveMessage(ms: seq<Message>, bufferLength: nat)
    ensures Receive(Frames(ms), true, bufferLength) ==
            if Visible(ms) && |ms[0]| <= bufferLength then Received(Frames(ms[1..]), ms[0])
            else Received(Frames(ms), [])
    ensures NextLength(Frames(ms), true) == if Visible(ms) then |ms[0]| else 0
  {
    if ms != [] {
      FramesHead(ms);
      LengthRoundTrip(|ms[0]|);
      var rest := Frames(ms)[LENGTH_BYTES..];
      assert rest[..|ms[0]|] == ms[0] && rest[|ms[0]|..] == Frames(ms[1..]);
    }
  }

  // ---------------------------------------------------------------- whole runs

  datatype Call = SendCall(data: Message) | ReceiveCall(bufferLength: nat)

  /** A run: the contents, and in order all that was taken and all that was handed out. */
  datatype Run = Run(contents: seq<Byte>, taken: seq<Message>, handed: seq<Message>)

  /** One call on a message buffer. What counts as taken or handed out is whether the contents changed. */
  function StepMessages(r: Run, capacity: nat, call: Call): Run {
    if |r.contents| > capacity then r
    else
      match call
      case SendCall(data) =>
        var s := Send(r.contents, capacity, true, data);
        Run(s.contents, if s.contents == r.contents then r.taken else r.taken + [data], r.handed)
      case ReceiveCall(n) =>
        var x := Receive(r.contents, true, n);
        Run(x.contents, r.taken,
            if x.contents == r.contents || |x.bytes| >= SIZE_MODULUS then r.handed else r.handed + [x.bytes])
  }

  ghost predicate IsMessageRun(states: seq<Run>, calls: seq<Call>, capacity: nat) {
    && |states| == |calls| + 1 && states[0] == Run([], [], [])
    && forall i {:trigger calls[i]} :: 0 <= i < |calls| ==>
         states[i + 1] == StepMessages(states[i], capacity, calls[i])
  }

  /**
   Framing round trip, for every run: the messages handed out are the ones taken, in order and byte for
   byte, and the buffer holds the frames of exactly the messages still to come, within its capacity.
   */
  lemma {:induction false} MessagesInOrder(states: seq<Run>, calls: seq<Call>, capacity: nat, n: nat)
    requires IsMessageRun(states, calls, capacity) && n <= |calls|
    ensures |states[n].handed| <= |states[n].taken|
    ensures states[n].handed == states[n].taken[..|states[n].handed|]
    ensures states[n].contents == Frames(states[n].taken[|states[n].handed|..])
    ensures |states[n].contents| <= capacity
  {
    if n > 0 {
      MessagesInOrder(states, calls, capacity, n - 1);
      assert states[n] == StepMessages(states[n - 1], capacity, calls[n - 1]);
      MessageStepInOrder(states[n - 1], capacity, calls[n - 1]);
    }
  }

  ghost predicate InOrder(r: Run) {
    && |r.handed| <= |r.taken| && r.handed == r.taken[..|r.handed|]
    && r.contents == Frames(r.taken[|r.handed|..])
  }

  lemma MessageStepInOrder(r: Run, capacity: nat, call: Call)
    requires InOrder(r) && |r.contents| <= capacity
    ensures InOrder(StepMessages(r, capacity, call)) && |StepMessages(r, capacity, call).contents| <= capacity
  {
    var k := |r.handed|;
    var ms := r.taken[k..];
    match call
    case SendCall(data) =>
      SendMessage(ms, capacity, data);
      FramesAppend(ms, data);
      assert (r.taken + [data])[k..] == ms + [data];
      assert (r.taken + [data])[..k] == r.taken[..k];
    case ReceiveCall(n) =>
      ReceiveMessage(ms, n);
      if ms != [] {
        FramesHead(ms);
        assert r.taken[..k + 1] == r.handed + [ms[0]];
        assert r.taken[k + 1..] == ms[1..];
      }
  }

  /** The same for a stream buffer, where calls take and hand out as many bytes as they can. */
  datatype ByteRun = ByteRun(contents: seq<Byte>, taken: seq<Byte>, handed: seq<Byte>)

  function StepBytes(r: ByteRun, capacity: nat, call: Call): ByteRun {
    if |r.contents| > capacity then r
    else
      match call
      case SendCall(data) =>
        var s := Send(r.contents, capacity, false, data);
        ByteRun(s.contents, r.taken + data[..Min(s.reported, |data|)], r.handed)
      case ReceiveCall(n) =>
        var x := Receive(r.contents, false, n);
        ByteRun(x.contents, r.taken, r.handed + x.bytes)
  }

  /** No byte of a stream is lost, doubled or reordered by a call: received plus buffered is sent. */
  lemma BytesInOrder(r: ByteRun, capacity: nat, call: Call)
    requires |r.contents| <= capacity && r.taken == r.handed + r.contents
    ensures var r' := StepBytes(r, capacity, call);
            r'.taken == r'.handed + r'.contents && |r'.contents| <= capacity
  {
  }

  ghost predicate IsByteRun(states: seq<ByteRun>, calls: seq<Call>, capacity: nat) {
    && |states| == |calls| + 1 && states[0] == ByteRun([], [], [])
    && forall i {:trigger calls[i]} :: 0 <= i < |calls| ==>
         states[i + 1] == StepBytes(states[i], capacity, calls[i])
  }

  lemma {:induction false} StreamInOrder(states: seq<ByteRun>, calls: seq<Call>, capacity: nat, n: nat)
    requires IsByteRun(states, calls, capacity) && n <= |calls|
    ensures states[n].taken == states[n].handed + states[n].contents && |states[n].contents| <= capacity
  {
    if n > 0 {
      StreamInOrder(states, calls, capacity, n - 1);
      assert states[n] == StepBytes(states[n - 1], capacity, calls[n - 1]);
      BytesInOrder(states[n - 1], capacity, calls[n - 1]);
    }
  }
}
