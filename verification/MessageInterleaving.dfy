/**
 A message buffer with one sender and one receiver at work at the same time, byte by byte. A message is
 written in two goes, its length and its body, against one reading of the space. A receiver that finds the
 next message too long for it, or only asks for its length, moves the tail over the length and back again.
 */
module MessageInterleaving {
  import opened StreamSpec
  import opened StreamBuffers
  import Stream = StreamInterleaving

  /** Where a call of xStreamBufferSend for a message is. */
  datatype Sender =
    | Idle
    | Announced(message: Message)      // has found enough space
    | SendingPrefix(message: Message)
    | Between(message: Message)        // has published the length
    | SendingBody(message: Message)

  /** Where a receive, or a query for the next length, is. */
  datatype Receiver =
    | Ready
    | ReadingPrefix(available: nat, bufferLength: nat, query: bool)
    | HasPrefix(available: nat, bufferLength: nat, query: bool, length: nat, originalTail: nat)
    | ReadingBody(length: nat)

  /** The bytes and indices, both sides, and the messages sent and handed out by finished calls. */
  datatype State = State(stream: Stream.State, sender: Sender, receiver: Receiver,
                         sent: seq<Message>, handed: seq<Message>)

  datatype Action =
    | SendBegins(message: Message) | PrefixBegins | BodyBegins | WriterCopies | WriterPublishes
    | ReceiveBegins(bufferLength: nat, query: bool) | ReaderCopies | ReaderPublishes | ReceiverDecides

  /** The receiver has moved the tail over a length and is going to move it back. */
  predicate GoingBack(r: Receiver) {
    r.HasPrefix? && (r.query || r.length > r.bufferLength)
  }

  ghost predicate Enabled(s: State, a: Action) {
    && Stream.Indexed(s.stream)
    && match a
       case SendBegins(m) => s.sender.Idle? && m != []
       case PrefixBegins => s.sender.Announced?
       case BodyBegins => s.sender.Between?
       case WriterCopies => Stream.Enabled(s.stream, Stream.WriterCopies)
       case WriterPublishes =>
         Stream.Enabled(s.stream, Stream.WriterPublishes) && (s.sender.SendingPrefix? || s.sender.SendingBody?)
       case ReceiveBegins(_, _) => s.receiver.Ready?
       case ReaderCopies => Stream.Enabled(s.stream, Stream.ReaderCopies)
       case ReaderPublishes =>
         && Stream.Enabled(s.stream, Stream.ReaderPublishes)
         && ((s.receiver.ReadingPrefix? && s.stream.reader.count == LENGTH_BYTES)
             || (s.receiver.ReadingBody? && s.stream.reader.count < SIZE_MODULUS))
       case ReceiverDecides =>
         s.receiver.HasPrefix? && LENGTH_BYTES < s.receiver.available && LENGTH_BYTES <= |s.stream.received|
  }

  ghost function Step(s: State, a: Action): State
    requires Enabled(s, a)
  {
    var x := s.stream;
    match a
    case SendBegins(m) =>
      if FindsRoom(s, m) then s.(sender := Announced(m)) else s
    case PrefixBegins =>
      var m := s.sender.message;
      s.(sender := SendingPrefix(m), stream := x.(writer := Stream.Writing(EncodeLength(|m|), LENGTH_BYTES, 0)))
    case BodyBegins =>
      var m := s.sender.message;
      s.(sender := SendingBody(m), stream := x.(writer := Stream.Writing(m, |m|, 0)))
    case WriterCopies => s.(stream := Stream.Step(x, Stream.WriterCopies))
    case WriterPublishes =>
      var now := s.(stream := Stream.Step(x, Stream.WriterPublishes));
      if s.sender.SendingPrefix? then now.(sender := Between(s.sender.message))
      else now.(sender := Idle, sent := s.sent + [s.sender.message])
    case ReceiveBegins(n, query) =>
      var available := Bytes(|x.buffer|, x.tail, x.head);
      if available > LENGTH_BYTES
      then s.(receiver := ReadingPrefix(available, n, query), stream := x.(reader := Stream.Reading(LENGTH_BYTES, [])))
      else s
    case ReaderCopies => s.(stream := Stream.Step(x, Stream.ReaderCopies))
    case ReaderPublishes =>
      var now, r := s.(stream := Stream.Step(x, Stream.ReaderPublishes)), s.receiver;
      if r.ReadingPrefix?
      then now.(receiver := HasPrefix(r.available, r.bufferLength, r.query, DecodeLength(x.reader.copied), x.tail))
      else now.(receiver := Ready, handed := s.handed + [x.reader.copied])
    case ReceiverDecides =>
      var r := s.receiver;
      if GoingBack(r)
      then s.(receiver := Ready,
              stream := x.(tail := r.originalTail, received := x.received[..|x.received| - LENGTH_BYTES]))
      else s.(receiver := ReadingBody(r.length),
              stream := x.(reader := Stream.Reading(Min(r.length, r.available - LENGTH_BYTES), [])))
  }

  // ---------------------------------------------------------------- the invariant

  /** The stream as if a receiver that is going to move the tail back had never moved it. */
  ghost function View(s: State): Stream.State {
    if GoingBack(s.receiver) && LENGTH_BYTES <= |s.stream.received|
    then s.stream.(tail := s.receiver.originalTail,
                   received := s.stream.received[..|s.stream.received| - LENGTH_BYTES])
    else s.stream
  }

  /** What has been published of the message that is being sent. */
  ghost function Begun(s: Sender): seq<Byte> {
    if s.Between? || s.SendingBody? then EncodeLength(|s.message|) else []
  }

  ghost predicate SenderInv(s: State) {
    var x := View(s);
    var unread := |x.sent| - |x.received|;
    && x.sent == Frames(s.sent) + Begun(s.sender)
    && (forall i :: 0 <= i < |s.sent| ==> s.sent[i] != [])
    && (!s.sender.Idle? ==> s.sender.message != [])
    && match s.sender
       case Idle => x.writer.WriterIdle?
       case Announced(m) => x.writer.WriterIdle? && unread + |m| + LENGTH_BYTES < |x.buffer|
       case SendingPrefix(m) =>
         x.writer.Writing? && x.writer.data == EncodeLength(|m|) && x.writer.count == LENGTH_BYTES
         && unread + |m| + LENGTH_BYTES < |x.buffer|
       case Between(m) => x.writer.WriterIdle? && unread + |m| < |x.buffer|
       case SendingBody(m) => x.writer.Writing? && x.writer.data == m && x.writer.count == |m|
  }

  /** What has been taken of the message that is being received. */
  ghost function Opened(r: Receiver): seq<Byte> {
    if (r.ReadingBody? || (r.HasPrefix? && !GoingBack(r))) && r.length < SIZE_MODULUS then EncodeLength(r.length)
    else []
  }

  /** The next message is there, whole, and has the given length. */
  ghost predicate NextHasLength(s: State, length: nat) {
    |s.handed| < |s.sent| && |s.sent[|s.handed|]| == length
  }

  ghost predicate ReceiverInv(s: State) {
    var x := View(s);
    && s.handed <= s.sent
    && x.received == Frames(s.handed) + Opened(s.receiver)
    && match s.receiver
       case Ready => x.reader.ReaderIdle?
       case ReadingPrefix(available, _, _) =>
         && x.reader.Reading? && x.reader.count == LENGTH_BYTES
         && |s.handed| < |s.sent| && LENGTH_BYTES + |s.sent[|s.handed|]| <= available
       case HasPrefix(available, _, _, length, _) =>
         && x.reader.ReaderIdle? && LENGTH_BYTES <= |s.stream.received|
         && NextHasLength(s, length) && LENGTH_BYTES + length <= available
       case ReadingBody(length) => x.reader.Reading? && x.reader.count == length && NextHasLength(s, length)
  }

  ghost predicate Inv(s: State) {
    Stream.Inv(View(s)) && SenderInv(s) && ReceiverInv(s)
  }

  /** The reading of the space by a send lets it go on. */
  ghost predicate FindsRoom(s: State, m: Message)
    requires Stream.Indexed(s.stream)
  {
    |m| + LENGTH_BYTES <= Spaces(|s.stream.buffer|, s.stream.tail, s.stream.head)
  }

  /** The message with its length fits behind what is really unread, the length that is to be given back included. */
  ghost predicate HasRoom(s: State, m: Message) {
    |View(s).sent| - |View(s).received| + |m| + LENGTH_BYTES < |s.stream.buffer|
  }

  /** A send that finds room has it. */
  ghost predicate Safe(s: State, a: Action) {
    a.SendBegins? && Stream.Indexed(s.stream) && FindsRoom(s, a.message) ==> HasRoom(s, a.message)
  }

  // ---------------------------------------------------------------- frames

  lemma {:induction false} FramesSplit(a: seq<Message>, b: seq<Message>)
    ensures Frames(a + b) == Frames(a) + Frames(b)
  {
    if a == [] {
      assert a + b == b;
    } else {
      assert (a + b)[1..] == a[1..] + b;
      FramesSplit(a[1..], b);
    }
  }

  /** Where the next message lies in the bytes sent. */
  lemma NextFrame(bytes: seq<Byte>, sent: seq<Message>, handed: seq<Message>, part: seq<Byte>)
    requires bytes == Frames(sent) + part && handed <= sent && |handed| < |sent|
    ensures var r, m := |Frames(handed)|, sent[|handed|];
            && r + LENGTH_BYTES + |m| <= |bytes|
            && bytes[r..r + LENGTH_BYTES] == EncodeLength(|m|)
            && bytes[r + LENGTH_BYTES..r + LENGTH_BYTES + |m|] == m
  {
    hide Frames, EncodeLength;
    var m, rest := sent[|handed|], sent[|handed| + 1..];
    assert sent == handed + ([m] + rest);
    FramesSplit(handed, [m] + rest);
    FramesUnfold([m] + rest);
    assert ([m] + rest)[1..] == rest;
    var e := EncodeLength(|m|);
    assert bytes == Frames(handed) + (e + m) + (Frames(rest) + part);
  }

  /** If more than a length is there, a whole message is. */
  lemma WholeMessage(s: State)
    requires Inv(s) && s.receiver.Ready?
    requires |s.stream.sent| - |s.stream.received| > LENGTH_BYTES
    ensures |s.handed| < |s.sent|
    ensures LENGTH_BYTES + |s.sent[|s.handed|]| <= |s.stream.sent| - |s.stream.received|
  {
    hide Frames, EncodeLength, Stream.Inv;
    assert |s.handed| == |s.sent| ==> s.handed == s.sent;
    if |s.handed| < |s.sent| {
      NextFrame(s.stream.sent, s.sent, s.handed, Begun(s.sender));
    }
  }

  // ---------------------------------------------------------------- the steps keep the invariant

  /** A step of the writer looks the same in the view. */
  lemma WriterStep(s: State, a: Stream.Action)
    requires Inv(s) && (a.WriterCopies? || a.WriterPublishes?) && Stream.Enabled(s.stream, a)
    ensures Stream.Enabled(View(s), a)
    ensures View(s.(stream := Stream.Step(s.stream, a))) == Stream.Step(View(s), a)
    ensures Stream.Inv(Stream.Step(View(s), a))
  {
    hide SenderInv, ReceiverInv;
    Stream.StepKeepsInv(View(s), a);
  }

  /** The sender begins to write; nothing is published yet. */
  lemma WriteBegins(x: Stream.State, data: seq<Byte>)
    requires Stream.Inv(x) && x.writer.WriterIdle? && |x.sent| - |x.received| + |data| < |x.buffer|
    ensures Stream.Inv(x.(writer := Stream.Writing(data, |data|, 0)))
  {
  }

  lemma ReadBegins(x: Stream.State, count: nat)
    requires Stream.Inv(x) && x.reader.ReaderIdle? && count <= |x.sent| - |x.received|
    ensures Stream.Inv(x.(reader := Stream.Reading(count, [])))
  {
  }

  lemma SendBeginsKeeps(s: State, m: Message)
    requires Inv(s) && Enabled(s, SendBegins(m)) && Safe(s, SendBegins(m))
    ensures Inv(Step(s, SendBegins(m)))
  {
    hide Frames, EncodeLength, ReceiverInv;
    ReceiverInvSame(s, Step(s, SendBegins(m)));
  }

  /** Only while the receiver is going to move the tail back can a send find room that it has not. */
  lemma UnsafeGoingBack(s: State, a: Action)
    requires Inv(s)
    ensures !Safe(s, a) ==> a.SendBegins? && GoingBack(s.receiver)
  {
    hide Frames, EncodeLength, SenderInv, ReceiverInv;
    if !GoingBack(s.receiver) {
      ViewOf(s);
      Stream.CountsExact(s.stream);
    }
  }

  lemma ViewOf(s: State)
    requires Inv(s) && !GoingBack(s.receiver)
    ensures View(s) == s.stream && Stream.Unread(s.stream)
  {
  }

  /** What the sender does does not concern the receiver. */
  lemma ReceiverInvSame(s: State, t: State)
    requires ReceiverInv(s) && t.receiver == s.receiver && t.handed == s.handed && s.sent <= t.sent
    requires View(t).received == View(s).received && View(t).reader == View(s).reader
    requires t.stream.received == s.stream.received
    ensures ReceiverInv(t)
  {
    hide Frames, EncodeLength;
  }

  lemma PrefixBeginsKeeps(s: State)
    requires Inv(s) && Enabled(s, PrefixBegins)
    ensures Inv(Step(s, PrefixBegins))
  {
    hide Frames, EncodeLength, ReceiverInv;
    WriteBegins(View(s), EncodeLength(|s.sender.message|));
    ReceiverInvSame(s, Step(s, PrefixBegins));
  }

  lemma BodyBeginsKeeps(s: State)
    requires Inv(s) && Enabled(s, BodyBegins)
    ensures Inv(Step(s, BodyBegins))
  {
    hide Frames, EncodeLength, ReceiverInv;
    WriteBegins(View(s), s.sender.message);
    ReceiverInvSame(s, Step(s, BodyBegins));
  }

  lemma WriterCopiesKeeps(s: State)
    requires Inv(s) && Enabled(s, WriterCopies)
    ensures Inv(Step(s, WriterCopies))
  {
    hide Frames, EncodeLength, ReceiverInv, Stream.Inv;
    WriterStep(s, Stream.WriterCopies);
    ReceiverInvSame(s, Step(s, WriterCopies));
  }

  lemma WriterPublishesKeeps(s: State)
    requires Inv(s) && Enabled(s, WriterPublishes)
    ensures Inv(Step(s, WriterPublishes))
  {
    hide Frames, EncodeLength, ReceiverInv, Stream.Inv;
    WriterStep(s, Stream.WriterPublishes);
    var m := s.sender.message;
    var t := Step(s, WriterPublishes);
    PublishedData(s);
    FramesAppend(s.sent, m);
    SameView(s.(stream := t.stream), t);
    ReceiverInvSame(s, t);
  }

  lemma SameView(s: State, t: State)
    requires t.stream == s.stream && t.receiver == s.receiver
    ensures View(t) == View(s)
  {
  }

  lemma PublishedData(s: State)
    requires Inv(s) && (s.sender.SendingPrefix? || s.sender.SendingBody?)
    requires s.stream.writer.Writing? && s.stream.writer.count <= |s.stream.writer.data|
    ensures s.stream.writer.data[..s.stream.writer.count]
            == if s.sender.SendingPrefix? then EncodeLength(|s.sender.message|) else s.sender.message
    ensures Frames(s.sent) + EncodeLength(|s.sender.message|) + s.sender.message
            == Frames(s.sent) + Frame(s.sender.message)
  {
    hide Frames, EncodeLength, ReceiverInv, Stream.Inv;
  }

  /** What the receiver does does not concern the sender, as long as the unread bytes get no more. */
  lemma SenderInvSame(s: State, t: State)
    requires SenderInv(s) && t.sender == s.sender && t.sent == s.sent
    requires View(t).sent == View(s).sent && View(t).writer == View(s).writer
    requires |View(t).buffer| == |View(s).buffer| && |View(s).received| <= |View(t).received|
    ensures SenderInv(t)
  {
    hide Frames, EncodeLength;
  }

  lemma ReceiveBeginsKeeps(s: State, n: nat, query: bool)
    requires Inv(s) && Enabled(s, ReceiveBegins(n, query))
    ensures Inv(Step(s, ReceiveBegins(n, query)))
  {
    hide Frames, EncodeLength, SenderInv;
    ViewOf(s);
    Stream.CountsExact(s.stream);
    var t := Step(s, ReceiveBegins(n, query));
    if Bytes(|s.stream.buffer|, s.stream.tail, s.stream.head) > LENGTH_BYTES {
      WholeMessage(s);
      ReadBegins(s.stream, LENGTH_BYTES);
      SenderInvSame(s, t);
    }
  }

  lemma ReaderCopiesKeeps(s: State)
    requires Inv(s) && Enabled(s, ReaderCopies)
    ensures Inv(Step(s, ReaderCopies))
  {
    hide Frames, EncodeLength, SenderInv, Stream.Inv;
    NotGoingBack(s);
    ViewOf(s);
    Stream.StepKeepsInv(s.stream, Stream.ReaderCopies);
    SenderInvSame(s, Step(s, ReaderCopies));
  }

  lemma NotGoingBack(s: State)
    requires Inv(s) && s.stream.reader.Reading?
    ensures !GoingBack(s.receiver)
  {
    hide Frames, EncodeLength, SenderInv, Stream.Inv;
  }

  /** What the reader has copied once it is about to publish. */
  lemma CopiedIsNext(s: State)
    requires Inv(s) && Stream.Enabled(s.stream, Stream.ReaderPublishes) && !GoingBack(s.receiver)
    ensures var x := s.stream;
            x.reader.count <= |x.sent| - |x.received|
            && x.reader.copied == x.sent[|x.received|..|x.received| + x.reader.count]
  {
    hide Frames, EncodeLength, SenderInv, ReceiverInv;
  }

  lemma PrefixReadKeeps(s: State)
    requires Inv(s) && Enabled(s, ReaderPublishes) && s.receiver.ReadingPrefix?
    ensures Inv(Step(s, ReaderPublishes))
  {
    hide Frames, EncodeLength, DecodeLength, SenderInv, Stream.Inv;
    NotGoingBack(s);
    ViewOf(s);
    CopiedIsNext(s);
    Stream.StepKeepsInv(s.stream, Stream.ReaderPublishes);
    ReadingDropped(s.stream);
    PrefixLength(s);
    var t := Step(s, ReaderPublishes);
    TakenBack(s.stream.received, s.stream.reader.copied);
    SenderInvSame(s, t);
  }

  lemma TakenBack(received: seq<Byte>, copied: seq<Byte>)
    requires |copied| == LENGTH_BYTES
    ensures (received + copied)[..|received + copied| - LENGTH_BYTES] == received
  {
  }

  /** A read given up leaves the stream as it was. */
  lemma ReadingDropped(x: Stream.State)
    requires Stream.Inv(x)
    ensures Stream.Inv(x.(reader := Stream.ReaderIdle))
  {
  }

  /** The prefix read is the length of the next message. */
  lemma PrefixLength(s: State)
    requires Inv(s) && s.receiver.ReadingPrefix? && !GoingBack(s.receiver)
    requires Stream.Enabled(s.stream, Stream.ReaderPublishes) && s.stream.reader.count == LENGTH_BYTES
    ensures |s.handed| < |s.sent| && s.stream.reader.copied == EncodeLength(|s.sent[|s.handed|]|)
    ensures DecodeLength(s.stream.reader.copied) == |s.sent[|s.handed|]|
  {
    hide Frames, EncodeLength, DecodeLength, Stream.Inv;
    ViewOf(s);
    CopiedIsNext(s);
    NextFrame(s.stream.sent, s.sent, s.handed, Begun(s.sender));
    LengthRoundTrip(|s.sent[|s.handed|]|);
  }

  lemma BodyReadKeeps(s: State)
    requires Inv(s) && Enabled(s, ReaderPublishes) && s.receiver.ReadingBody?
    ensures Inv(Step(s, ReaderPublishes))
  {
    hide Frames, EncodeLength, SenderInv, Stream.Inv;
    NotGoingBack(s);
    ViewOf(s);
    CopiedIsNext(s);
    Stream.StepKeepsInv(s.stream, Stream.ReaderPublishes);
    BodyIsMessage(s);
    var t, m := Step(s, ReaderPublishes), s.sent[|s.handed|];
    FramesAppend(s.handed, m);
    FramedBody(s.handed, m);
    assert s.handed + [m] <= s.sent;
    SenderInvSame(s, t);
  }

  lemma FramedBody(handed: seq<Message>, m: Message)
    ensures (Frames(handed) + EncodeLength(|m|)) + m == Frames(handed) + Frame(m)
  {
    hide Frames, EncodeLength;
  }

  /** The body read is the next message, byte for byte. */
  lemma BodyIsMessage(s: State)
    requires Inv(s) && s.receiver.ReadingBody? && Stream.Enabled(s.stream, Stream.ReaderPublishes)
    ensures |s.handed| < |s.sent| && s.stream.reader.copied == s.sent[|s.handed|]
    ensures s.stream.received == Frames(s.handed) + EncodeLength(|s.sent[|s.handed|]|)
  {
    hide Frames, EncodeLength, Stream.Inv;
    ViewOf(s);
    CopiedIsNext(s);
    NextFrame(s.stream.sent, s.sent, s.handed, Begun(s.sender));
  }

  lemma DecidesKeeps(s: State)
    requires Inv(s) && Enabled(s, ReceiverDecides)
    ensures Inv(Step(s, ReceiverDecides))
  {
    var t := Step(s, ReceiverDecides);
    if GoingBack(s.receiver) {
      hide Frames, EncodeLength, Stream.Inv;
      assert View(t) == View(s);
    } else {
      ViewOf(s);
      BodyThere(s);
      ReadBegins(s.stream, s.receiver.length);
      hide Frames, EncodeLength, Stream.Inv, SenderInv;
      SenderInvSame(s, t);
    }
  }

  lemma BodyThere(s: State)
    requires Inv(s) && s.receiver.HasPrefix? && !GoingBack(s.receiver)
    ensures s.receiver.length <= |s.stream.sent| - |s.stream.received|
    ensures s.receiver.length < SIZE_MODULUS
    ensures Min(s.receiver.length, s.receiver.available - LENGTH_BYTES) == s.receiver.length
  {
    hide Frames, EncodeLength, Stream.Inv;
    ViewOf(s);
    NextFrame(s.stream.sent, s.sent, s.handed, Begun(s.sender));
  }

  lemma StepKeepsInv(s: State, a: Action)
    requires Inv(s) && Enabled(s, a) && Safe(s, a)
    ensures Inv(Step(s, a))
  {
    hide Inv, Step, Frames, EncodeLength;
    match a
    case SendBegins(m) => SendBeginsKeeps(s, m);
    case PrefixBegins => PrefixBeginsKeeps(s);
    case BodyBegins => BodyBeginsKeeps(s);
    case WriterCopies => WriterCopiesKeeps(s);
    case WriterPublishes => WriterPublishesKeeps(s);
    case ReceiveBegins(n, query) => ReceiveBeginsKeeps(s, n, query);
    case ReaderCopies => ReaderCopiesKeeps(s);
    case ReaderPublishes => if s.receiver.ReadingPrefix? { PrefixReadKeeps(s); } else { BodyReadKeeps(s); }
    case ReceiverDecides => DecidesKeeps(s);
  }

  // ---------------------------------------------------------------- whole runs

  ghost predicate Initial(s: State) {
    Stream.Initial(s.stream) && s.sender == Idle && s.receiver == Ready && s.sent == s.handed == []
  }

  ghost predicate IsPath(states: seq<State>, actions: seq<Action>) {
    && |states| == |actions| + 1
    && forall i {:trigger actions[i]} :: 0 <= i < |actions| ==>
         Enabled(states[i], actions[i]) && states[i + 1] == Step(states[i], actions[i])
  }

  ghost predicate IsRun(states: seq<State>, actions: seq<Action>) {
    IsPath(states, actions) && Initial(states[0])
  }

  /**
   Framing under every interleaving: as long as each send that finds room has it, the messages handed out are the
   first of those sent, in order and byte for byte, and every unread byte lies in its cell.
   */
  lemma {:induction false} MessagesInOrder(states: seq<State>, actions: seq<Action>, n: nat)
    requires IsRun(states, actions) && n <= |actions|
    requires forall i {:trigger actions[i]} :: 0 <= i < n ==> Safe(states[i], actions[i])
    ensures states[n].handed <= states[n].sent && Intact(states[n]) && Inv(states[n])
  {
    hide Step, Enabled, Stream.Inv, SenderInv, Frames, EncodeLength, Safe, Intact;
    if n == 0 {
      StartInv(states[0]);
    } else {
      MessagesInOrder(states, actions, n - 1);
      assert Enabled(states[n - 1], actions[n - 1]) && states[n] == Step(states[n - 1], actions[n - 1]);
      StepKeepsInv(states[n - 1], actions[n - 1]);
    }
    InvIntact(states[n]);
  }

  lemma StartInv(s: State)
    requires Initial(s)
    ensures Inv(s)
  {
  }

  /** Every byte sent and not received lies in its cell behind the tail, where it was before any move to take back. */
  ghost predicate Intact(s: State) {
    Stream.Unread(View(s))
  }

  lemma InvIntact(s: State)
    requires Inv(s)
    ensures Intact(s)
  {
    hide SenderInv, ReceiverInv, View;
  }

  /**
   When a call goes on: a send, with the receiver not about to go back, if and only if its message and length fit
   behind what is unread; a receive, or a query, if and only if a whole message is there.
   */
  lemma BeginsExact(s: State, m: Message, n: nat, query: bool)
    requires Inv(s)
    ensures Enabled(s, SendBegins(m)) && !GoingBack(s.receiver) ==>
              (Step(s, SendBegins(m)).sender == Announced(m)
               <==> |s.stream.sent| - |s.stream.received| + |m| + 4 < |s.stream.buffer|)
    ensures Enabled(s, ReceiveBegins(n, query)) ==>
              (Step(s, ReceiveBegins(n, query)).receiver.ReadingPrefix? <==> |s.handed| < |s.sent|)
  {
    hide Frames, EncodeLength;
    if !GoingBack(s.receiver) {
      ViewOf(s);
      Stream.CountsExact(s.stream);
    }
    if s.receiver.Ready? {
      if |s.handed| < |s.sent| {
        NextFrame(s.stream.sent, s.sent, s.handed, Begun(s.sender));
        assert s.sent[|s.handed|] != [];
      } else {
        assert s.handed == s.sent;
      }
    }
  }

  // ---------------------------------------------------------------- a condition for callers

  /** A query, or a receive into a buffer that is shorter than the limit, is looking at a length. */
  predicate Looking(r: Receiver, limit: nat) {
    (r.ReadingPrefix? || r.HasPrefix?) && (r.query || r.bufferLength < limit)
  }

  /** No message is longer than the limit, and no send begins while such a receive or a query is in progress. */
  ghost predicate Careful(states: seq<State>, actions: seq<Action>, n: nat, limit: nat) {
    forall i {:trigger actions[i]} :: 0 <= i < n <= |actions| < |states| && actions[i].SendBegins? ==>
      |actions[i].message| <= limit && !Looking(states[i].receiver, limit)
  }

  ghost predicate AllWithin(s: State, limit: nat) {
    && (forall i :: 0 <= i < |s.sent| ==> |s.sent[i]| <= limit)
    && (!s.sender.Idle? ==> |s.sender.message| <= limit)
  }

  lemma StepWithin(s: State, a: Action, limit: nat)
    requires Enabled(s, a) && AllWithin(s, limit) && (a.SendBegins? ==> |a.message| <= limit)
    ensures AllWithin(Step(s, a), limit)
  {
    hide EncodeLength, DecodeLength, Stream.Step, View;
  }

  lemma CarefulSafe(s: State, a: Action, limit: nat)
    requires Inv(s) && AllWithin(s, limit) && (a.SendBegins? ==> !Looking(s.receiver, limit))
    ensures Safe(s, a)
  {
    hide Safe, SenderInv, Stream.Inv, Frames, EncodeLength;
    UnsafeGoingBack(s, a);
  }

  /** With callers that keep to that, messages come out in order, whatever the interleaving. */
  lemma {:induction false} CarefulInOrder(states: seq<State>, actions: seq<Action>, n: nat, limit: nat)
    requires IsRun(states, actions) && n <= |actions| && Careful(states, actions, n, limit)
    ensures states[n].handed <= states[n].sent && Intact(states[n]) && Inv(states[n]) && AllWithin(states[n], limit)
  {
    hide Step, Enabled, Stream.Inv, SenderInv, Frames, EncodeLength, Safe, Intact;
    if n == 0 {
      StartInv(states[0]);
    } else {
      var s, a := states[n - 1], actions[n - 1];
      CarefulInOrder(states, actions, n - 1, limit);
      assert Enabled(s, a) && states[n] == Step(s, a);
      CarefulSafe(s, a, limit);
      StepKeepsInv(s, a);
      StepWithin(s, a, limit);
    }
    InvIntact(states[n]);
  }

  // ---------------------------------------------------------------- exactly the sends that do harm

  predicate NoSend(actions: seq<Action>) {
    forall i :: 0 <= i < |actions| ==> !actions[i].SendBegins?
  }

  /** Both sides get from one state to the other with no further send beginning. */
  ghost predicate Leads(s: State, t: State) {
    exists states, actions :: IsPath(states, actions) && states[0] == s && states[|actions|] == t && NoSend(actions)
  }

  lemma LeadsSelf(s: State)
    ensures Leads(s, s)
  {
    var none: seq<Action> := [];
    assert IsPath([s], none) && [s][|none|] == s;
  }

  lemma LeadsNext(s: State, t: State, a: Action)
    requires Leads(s, t) && Enabled(t, a) && !a.SendBegins?
    ensures Leads(s, Step(t, a))
  {
    hide Enabled, Step;
    var states, actions :| IsPath(states, actions) && states[0] == s && states[|actions|] == t && NoSend(actions);
    var states', actions' := states + [Step(t, a)], actions + [a];
    assert IsPath(states', actions') by {
      forall i {:trigger actions'[i]} | 0 <= i < |actions'|
        ensures Enabled(states'[i], actions'[i]) && states'[i + 1] == Step(states'[i], actions'[i])
      {
        if i < |actions| { assert actions'[i] == actions[i]; }
      }
    }
    assert states'[0] == s && states'[|actions'|] == Step(t, a);
  }

  lemma {:induction false} PathKeepsInv(states: seq<State>, actions: seq<Action>, n: nat)
    requires IsPath(states, actions) && Inv(states[0]) && NoSend(actions) && n <= |actions|
    ensures Inv(states[n])
  {
    hide Step, Enabled, Inv;
    if n > 0 {
      PathKeepsInv(states, actions, n - 1);
      assert Enabled(states[n - 1], actions[n - 1]) && states[n] == Step(states[n - 1], actions[n - 1]);
      StepKeepsInv(states[n - 1], actions[n - 1]);
    }
  }

  /** The writer copies what it has left to copy. */
  lemma {:induction false} CopiesAll(s: State, t: State) returns (t': State)
    requires Leads(s, t) && Stream.Indexed(t.stream) && t.stream.writer.Writing?
    requires t.stream.writer.copied <= t.stream.writer.count <= |t.stream.buffer|
    requires t.stream.writer.count <= |t.stream.writer.data|
    ensures Leads(s, t') && |t'.stream.buffer| == |t.stream.buffer|
    ensures t' == t.(stream := t.stream.(buffer := t'.stream.buffer,
                                         writer := t.stream.writer.(copied := t.stream.writer.count)))
    decreases t.stream.writer.count - t.stream.writer.copied
  {
    hide Leads;
    t' := t;
    if t.stream.writer.copied < t.stream.writer.count {
      LeadsNext(s, t, WriterCopies);
      t' := CopiesAll(s, Step(t, WriterCopies));
    }
  }

  /** A send that has found room goes on to its end, with the receiver at rest. */
  lemma SendsAll(s: State, t: State) returns (t': State)
    requires Leads(s, t) && Stream.Indexed(t.stream) && t.sender.Announced? && t.stream.writer.WriterIdle?
    requires |t.sender.message| <= |t.stream.buffer| && LENGTH_BYTES <= |t.stream.buffer|
    ensures Leads(s, t') && t'.sender.Idle? && t'.sent == t.sent + [t.sender.message]
    ensures t'.receiver == t.receiver && t'.handed == t.handed && |t'.stream.buffer| == |t.stream.buffer|
    ensures t'.stream.received == t.stream.received
    ensures |t'.stream.sent| == |t.stream.sent| + LENGTH_BYTES + |t.sender.message|
  {
    hide Leads, EncodeLength;
    LeadsNext(s, t, PrefixBegins);
    t' := CopiesAll(s, Step(t, PrefixBegins));
    LeadsNext(s, t', WriterPublishes);
    t' := Step(t', WriterPublishes);
    LeadsNext(s, t', BodyBegins);
    t' := CopiesAll(s, Step(t', BodyBegins));
    LeadsNext(s, t', WriterPublishes);
    t' := Step(t', WriterPublishes);
  }

  /** The receiver goes back and the send goes on: more bytes are unread than the buffer can hold. */
  lemma UnsafeOverruns(s: State, m: Message) returns (t: State)
    requires Inv(s) && Enabled(s, SendBegins(m)) && !Safe(s, SendBegins(m))
    ensures Leads(Step(s, SendBegins(m)), t) && !Intact(t)
    ensures |t.stream.sent| - |t.stream.received| >= |t.stream.buffer|
    ensures t.sender.Idle? && t.receiver.Ready? && t.sent == s.sent + [m] && t.handed == s.handed
  {
    hide Leads, Inv, Enabled, Step, Safe, View;
    UnsafeGoingBack(s, SendBegins(m));
    UnsafeBegins(s, m);
    var s1 := Step(s, SendBegins(m));
    LeadsSelf(s1);
    LeadsNext(s1, s1, ReceiverDecides);
    t := SendsAll(s1, Step(s1, ReceiverDecides));
    AtRest(t);
  }

  /** Having found room that it has not, and with the receiver back where it was. */
  lemma UnsafeBegins(s: State, m: Message)
    requires Inv(s) && Enabled(s, SendBegins(m)) && !Safe(s, SendBegins(m)) && GoingBack(s.receiver)
    ensures var s1 := Step(s, SendBegins(m));
            && Enabled(s1, ReceiverDecides)
            && Step(s1, ReceiverDecides) == State(View(s), Announced(m), Ready, s.sent, s.handed)
            && |m| + LENGTH_BYTES < |s.stream.buffer| == |View(s).buffer| && !HasRoom(s, m)
            && Stream.Indexed(View(s)) && View(s).writer.WriterIdle?
  {
    hide Frames, EncodeLength, View, Stream.Inv, ReceiverInv, Spaces, Stream.Step;
    BackEnabled(s);
    BackWhereItWas(s);
    SpacesBelow(|s.stream.buffer|, s.stream.tail, s.stream.head);
  }

  /** What the view is while the receiver is going to move the tail back. */
  lemma BackWhereItWas(s: State)
    requires Inv(s) && GoingBack(s.receiver)
    ensures LENGTH_BYTES <= |s.stream.received| && |View(s).buffer| == |s.stream.buffer| <= SIZE_MODULUS / 2
    ensures View(s) == s.stream.(tail := s.receiver.originalTail,
                                 received := s.stream.received[..|s.stream.received| - LENGTH_BYTES])
    ensures Stream.Indexed(View(s)) && View(s).writer == s.stream.writer
  {
    hide Frames, EncodeLength, SenderInv;
  }

  lemma SpacesBelow(length: nat, tail: nat, head: nat)
    requires head < length && tail < length <= SIZE_MODULUS / 2
    ensures Spaces(length, tail, head) < length
  {
  }

  lemma AtRest(t: State)
    requires t.receiver.Ready?
    ensures View(t) == t.stream
  {
  }

  lemma BackEnabled(s: State)
    requires Inv(s) && GoingBack(s.receiver) && Stream.Indexed(s.stream)
    ensures Enabled(s, ReceiverDecides)
  {
    hide Frames, EncodeLength;
    assert s.sent[|s.handed|] != [];
  }

  /**
   Exactly the sends that do harm. From a state in which all is well: after this one send the bytes can be damaged,
   with no other send beginning, if and only if it has found room that it has not.
   */
  lemma HarmExact(s: State, m: Message)
    requires Inv(s) && Enabled(s, SendBegins(m))
    ensures (exists t :: Leads(Step(s, SendBegins(m)), t) && !Intact(t)) <==> !Safe(s, SendBegins(m))
  {
    hide Inv, Step, Enabled, Safe, Intact;
    if Safe(s, SendBegins(m)) {
      StepKeepsInv(s, SendBegins(m));
      forall t | Leads(Step(s, SendBegins(m)), t) ensures Intact(t) {
        var states, actions :|
          IsPath(states, actions) && states[0] == Step(s, SendBegins(m)) && states[|actions|] == t && NoSend(actions);
        PathKeepsInv(states, actions, |actions|);
        InvIntact(t);
      }
    } else {
      var t := UnsafeOverruns(s, m);
    }
  }

  // ---------------------------------------------------------------- a run that is not safe

  ghost predicate Reachable(s: State) {
    exists states, actions :: IsRun(states, actions) && states[|actions|] == s
  }

  lemma StartReachable(s: State)
    requires Initial(s)
    ensures Reachable(s)
  {
    var none: seq<Action> := [];
    assert IsRun([s], none) && [s][|none|] == s;
  }

  lemma Extend(s: State, a: Action, t: State)
    requires Reachable(s) && Enabled(s, a) && t == Step(s, a)
    ensures Reachable(t)
  {
    hide Enabled, Step, Initial;
    var states, actions :| IsRun(states, actions) && states[|actions|] == s;
    assert IsRun(states + [t], actions + [a]) by {
      forall i {:trigger (actions + [a])[i]} | 0 <= i < |actions + [a]|
        ensures Enabled((states + [t])[i], (actions + [a])[i])
                && (states + [t])[i + 1] == Step((states + [t])[i], (actions + [a])[i])
      {
        if i < |actions| { assert (actions + [a])[i] == actions[i]; }
      }
    }
    assert (states + [t])[|actions + [a]|] == t;
  }

  // A buffer of seven cells; both messages are the one byte 9.

  const NINE: Message := [9]
  const EMPTY: seq<Byte> := [0, 0, 0, 0, 0, 0, 0]
  const PREFIX: seq<Byte> := [1, 0, 0, 0]
  const FULL: seq<Byte> := [1, 0, 0, 0, 9, 0, 0]

  lemma PrefixOfNine()
    ensures EncodeLength(|NINE|) == PREFIX && DecodeLength(PREFIX) == 1
  {
  }

  function At(buffer: seq<Byte>, head: nat, tail: nat, writer: Stream.Writer, reader: Stream.Reader,
              sent: seq<Byte>, received: seq<Byte>): Stream.State
  {
    Stream.State(buffer, head, tail, writer, reader, sent, received)
  }

  /** The writer's next byte. */
  lemma CopyNext(s: State, cell: nat, t: State)
    requires Reachable(s) && Stream.Enabled(s.stream, Stream.WriterCopies)
    requires cell == Cell(s.stream.head, s.stream.writer.copied, |s.stream.buffer|)
    requires t == s.(stream := s.stream.(
                       buffer := s.stream.buffer[cell := s.stream.writer.data[s.stream.writer.copied]],
                       writer := s.stream.writer.(copied := s.stream.writer.copied + 1)))
    ensures Reachable(t)
  {
    hide Reachable;
    Extend(s, WriterCopies, t);
  }

  function FirstPrefix(buffer: seq<Byte>, copied: nat): State {
    State(At(buffer, 0, 0, Stream.Writing(PREFIX, 4, copied), Stream.ReaderIdle, [], []),
          SendingPrefix(NINE), Ready, [], [])
  }

  lemma SendFirstPrefix()
    ensures Reachable(FirstPrefix([1, 0, 0, 0, 0, 0, 0], 4))
  {
    hide Reachable, EncodeLength;
    PrefixOfNine();
    var idle := At(EMPTY, 0, 0, Stream.WriterIdle, Stream.ReaderIdle, [], []);
    var s0, s1 := State(idle, Idle, Ready, [], []), State(idle, Announced(NINE), Ready, [], []);
    StartReachable(s0);
    Extend(s0, SendBegins(NINE), s1);
    Extend(s1, PrefixBegins, FirstPrefix(EMPTY, 0));
    var b: seq<Byte> := [1, 0, 0, 0, 0, 0, 0];
    assert EMPTY[0 := 1] == b && b[1 := 0] == b && b[2 := 0] == b && b[3 := 0] == b;
    CopyNext(FirstPrefix(EMPTY, 0), 0, FirstPrefix(b, 1));
    CopyNext(FirstPrefix(b, 1), 1, FirstPrefix(b, 2));
    CopyNext(FirstPrefix(b, 2), 2, FirstPrefix(b, 3));
    CopyNext(FirstPrefix(b, 3), 3, FirstPrefix(b, 4));
  }

  /** The first message has been sent, and nobody is at work. */
  function FirstSent(): State {
    State(At(FULL, 5, 0, Stream.WriterIdle, Stream.ReaderIdle, PREFIX + NINE, []), Idle, Ready, [NINE], [])
  }

  lemma SendFirst()
    ensures Reachable(FirstSent())
  {
    hide Reachable, EncodeLength;
    SendFirstPrefix();
    var b: seq<Byte> := [1, 0, 0, 0, 0, 0, 0];
    assert b[4 := 9] == FULL && PREFIX[..4] == PREFIX && NINE[..1] == NINE;
    var s1 := State(At(b, 4, 0, Stream.WriterIdle, Stream.ReaderIdle, PREFIX, []), Between(NINE), Ready, [], []);
    assert [] + PREFIX == PREFIX;
    Extend(FirstPrefix(b, 4), WriterPublishes, s1);
    var s2 := s1.(sender := SendingBody(NINE), stream := s1.stream.(writer := Stream.Writing(NINE, 1, 0)));
    Extend(s1, BodyBegins, s2);
    var s3 := s2.(stream := s2.stream.(buffer := FULL, writer := Stream.Writing(NINE, 1, 1)));
    CopyNext(s2, 4, s3);
    assert [] + [NINE] == [NINE];
    Extend(s3, WriterPublishes, FirstSent());
  }

  /** The receiver, whose buffer is too small, is reading the length. */
  function Peeking(copied: seq<Byte>): State {
    State(At(FULL, 5, 0, Stream.WriterIdle, Stream.Reading(4, copied), PREFIX + NINE, []),
          Idle, ReadingPrefix(5, 0, false), [NINE], [])
  }

  lemma PeekNext(copied: seq<Byte>)
    requires Reachable(Peeking(copied)) && |copied| < 4
    ensures Reachable(Peeking(copied + [FULL[|copied|]]))
  {
    hide Reachable;
    Extend(Peeking(copied), ReaderCopies, Peeking(copied + [FULL[|copied|]]));
  }

  /** The tail is over the length, about to go back; the second send may take its reading, which finds room. */
  function PeekedWith(sender: Sender): State {
    State(At(FULL, 5, 4, Stream.WriterIdle, Stream.ReaderIdle, PREFIX + NINE, PREFIX),
          sender, HasPrefix(5, 0, false, 1, 0), [NINE], [])
  }

  lemma Peek()
    ensures Reachable(PeekedWith(Idle))
  {
    hide Reachable, EncodeLength;
    PrefixOfNine();
    SendFirst();
    Extend(FirstSent(), ReceiveBegins(0, false), Peeking([]));
    PeekNext([]);
    assert [] + [FULL[0]] == [1];
    PeekNext([1]);
    assert [1] + [FULL[1]] == [1, 0];
    PeekNext([1, 0]);
    assert [1, 0] + [FULL[2]] == [1, 0, 0];
    PeekNext([1, 0, 0]);
    assert [1, 0, 0] + [FULL[3]] == PREFIX;
    assert [] + PREFIX == PREFIX;
    Extend(Peeking(PREFIX), ReaderPublishes, PeekedWith(Idle));
  }

  /** The receiver has gone back, and the sender writes the length of a message for which there is no room. */
  function SecondPrefix(buffer: seq<Byte>, copied: nat): State {
    State(At(buffer, 5, 0, Stream.Writing(PREFIX, 4, copied), Stream.ReaderIdle, PREFIX + NINE, []),
          SendingPrefix(NINE), Ready, [NINE], [])
  }

  /**
   The condition is needed: with a send that takes its reading of the space while the tail is about to go back,
   the byte that the tail is on, unread, is overwritten.
   */
  lemma UnsafeSendCorrupts()
    ensures Reachable(PeekedWith(Idle)) && Enabled(PeekedWith(Idle), SendBegins(NINE))
    ensures !Safe(PeekedWith(Idle), SendBegins(NINE))
            && Step(PeekedWith(Idle), SendBegins(NINE)) == PeekedWith(Announced(NINE))
    ensures exists s :: Reachable(s) && s.sent == [NINE] && s.handed == [] && !Intact(s)
  {
    hide Reachable, EncodeLength;
    PrefixOfNine();
    Peek();
    Extend(PeekedWith(Idle), SendBegins(NINE), PeekedWith(Announced(NINE)));
    var s1 := State(At(FULL, 5, 0, Stream.WriterIdle, Stream.ReaderIdle, PREFIX + NINE, []),
                    Announced(NINE), Ready, [NINE], []);
    assert PREFIX[..0] == [];
    Extend(PeekedWith(Announced(NINE)), ReceiverDecides, s1);
    Extend(s1, PrefixBegins, SecondPrefix(FULL, 0));
    var b1: seq<Byte>, b2: seq<Byte> := [1, 0, 0, 0, 9, 1, 0], [0, 0, 0, 0, 9, 1, 0];
    assert FULL[5 := 1] == b1 && b1[6 := 0] == b1 && b1[0 := 0] == b2;
    CopyNext(SecondPrefix(FULL, 0), 5, SecondPrefix(b1, 1));
    CopyNext(SecondPrefix(b1, 1), 6, SecondPrefix(b1, 2));
    CopyNext(SecondPrefix(b1, 2), 0, SecondPrefix(b2, 3));
    assert Cell(0, 0, 7) == 0;
    assert !Intact(SecondPrefix(b2, 3));
  }
}
