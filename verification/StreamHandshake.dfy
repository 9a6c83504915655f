/**
 Blocking on a stream buffer: how the two sides register, wait for a notification, and notify each other.
 Critical sections, and sections with the scheduler suspended, are single steps. The copying itself is
 the subject of StreamInterleaving; here a call moves some number of bytes in one step.
 */
module StreamHandshake {

  /** Where a call of xStreamBufferReceive is. */
  datatype Receiver =
    | Idle
    | Waiting          // in xTaskNotifyWait
    | Woken            // returned from it, still registered unless notified
    | Taking           // about to read what is there
    | Completing       // has published the tail, about to run sbRECEIVE_COMPLETED

  /** Where a call of xStreamBufferSend for a number of bytes is. */
  datatype Sender =
    | Resting
    | Checking(required: nat)    // at the critical section that checks the space
    | Blocked(required: nat)     // in xTaskNotifyWait
    | Unblocked(required: nat)   // returned from it
    | Putting(required: nat)     // about to write what fits
    | PuttingBody(required: nat) // a message: has published its length, about to write its body
    | Published                  // has published the head, about to compare with the trigger level
    | Notifying                  // about to run sbSEND_COMPLETED

  /**
   prefix: the bytes that hold the length of a message, 0 in a stream buffer; bytes: unread bytes, of complete
   messages in a message buffer; receiverRegistered: xTaskWaitingToReceive is not NULL; receiverNotified: a
   notification is pending for the receiver; likewise for the sender.
   */
  datatype State = State(capacity: nat, trigger: nat, prefix: nat, bytes: nat,
                         receiver: Receiver, receiverRegistered: bool, receiverNotified: bool,
                         sender: Sender, senderRegistered: bool, senderNotified: bool)

  datatype Action =
    | ReceiveBlocking | ReceiveNow | ReceiverWakes | ReceiverUnregisters | Take(count: nat) | ReceiveCompletes
    | SendBlocking(required: nat) | SendNow(required: nat) | CheckSpace | SenderWakes
    | SenderUnregisters(timedOut: bool) | Put(count: nat) | PutPrefix | PutBody | CompareTrigger | SendCompletes

  /** prvBytesInBuffer: the length of a message whose body is still to come is there too. */
  function InBuffer(s: State): nat {
    s.bytes + if s.sender.PuttingBody? then s.prefix else 0
  }

  /** What there is of a message buffer: nothing, or messages that are not empty. */
  predicate Whole(s: State, count: nat) {
    s.prefix == 0 || count == 0 || s.prefix < count
  }

  ghost predicate Enabled(s: State, a: Action) {
    match a
    case ReceiveBlocking => s.receiver == Idle
    case ReceiveNow => s.receiver == Idle
    case ReceiverWakes => s.receiver == Waiting          // on a notification, or on a timeout
    case ReceiverUnregisters => s.receiver == Woken
    case Take(count) => s.receiver == Taking && count <= s.bytes && Whole(s, count) && Whole(s, s.bytes - count)
    case ReceiveCompletes => s.receiver == Completing
    case SendBlocking(required) => s.sender == Resting && (s.prefix > 0 ==> s.prefix < required)
    case SendNow(required) => s.sender == Resting && (s.prefix > 0 ==> s.prefix < required)
    case CheckSpace => s.sender.Checking?
    case SenderWakes => s.sender.Blocked?
    case SenderUnregisters(_) => s.sender.Unblocked?
    case Put(count) =>
      s.sender.Putting? && count <= s.sender.required && s.bytes + count <= s.capacity
      && (s.prefix > 0 ==> count == 0)
    case PutPrefix => s.sender.Putting? && s.prefix > 0 && s.bytes + s.sender.required <= s.capacity
    case PutBody => s.sender.PuttingBody?
    case CompareTrigger => s.sender == Published
    case SendCompletes => s.sender == Notifying
  }

  ghost function Step(s: State, a: Action): State
    requires Enabled(s, a)
  {
    match a
    case ReceiveBlocking =>
      if InBuffer(s) <= s.prefix
      then s.(receiver := Waiting, receiverRegistered := true, receiverNotified := false)
      else s.(receiver := Taking)
    case ReceiveNow => s.(receiver := Taking)
    case ReceiverWakes => s.(receiver := Woken, receiverNotified := false)
    case ReceiverUnregisters => s.(receiver := Taking, receiverRegistered := false)
    case Take(count) =>
      if count == 0 then s.(receiver := Idle) else s.(receiver := Completing, bytes := s.bytes - count)
    case ReceiveCompletes =>
      if s.senderRegistered
      then s.(receiver := Idle, senderNotified := true, senderRegistered := false)
      else s.(receiver := Idle)
    case SendBlocking(required) => s.(sender := Checking(required))
    case SendNow(required) => s.(sender := Putting(required))
    case CheckSpace =>
      if s.capacity - InBuffer(s) < s.sender.required
      then s.(sender := Blocked(s.sender.required), senderRegistered := true, senderNotified := false)
      else s.(sender := Putting(s.sender.required))
    case SenderWakes => s.(sender := Unblocked(s.sender.required), senderNotified := false)
    case SenderUnregisters(timedOut) =>
      s.(senderRegistered := false,
         sender := if timedOut then Putting(s.sender.required) else Checking(s.sender.required))
    case Put(count) =>
      if count == 0 then s.(sender := Resting) else s.(sender := Published, bytes := s.bytes + count)
    case PutPrefix => s.(sender := PuttingBody(s.sender.required))
    case PutBody => s.(sender := Published, bytes := s.bytes + s.sender.required)
    case CompareTrigger => s.(sender := if InBuffer(s) >= s.trigger then Notifying else Resting)
    case SendCompletes =>
      if s.receiverRegistered
      then s.(sender := Resting, receiverNotified := true, receiverRegistered := false)
      else s.(sender := Resting)
  }

  ghost predicate Initial(s: State) {
    && 0 < s.trigger && s.bytes == 0 && s.receiver == Idle && s.sender == Resting
    && !s.receiverRegistered && !s.senderRegistered && !s.receiverNotified && !s.senderNotified
  }

  // ---------------------------------------------------------------- no lost wake-up

  /**
   A registered receiver is waiting, and fewer bytes than the trigger level are there, or the sender has
   yet to run its completion macro. A waiting receiver has a notification pending exactly if it is not registered.
   */
  ghost predicate ReceiverServed(s: State) {
    && (s.receiverRegistered ==>
          (s.receiver == Waiting || s.receiver == Woken)
          && (s.bytes < s.trigger || s.sender == Published || s.sender == Notifying))
    && (s.receiver == Waiting ==> (s.receiverNotified <==> !s.receiverRegistered))
  }

  /**
   A registered sender is blocked, and still has too little space, or the receiver has yet to run its
   completion macro. A blocked sender has a notification pending exactly if it is not registered.
   */
  ghost predicate SenderServed(s: State) {
    && (s.senderRegistered ==>
          (s.sender.Blocked? || s.sender.Unblocked?)
          && (s.capacity - s.bytes < s.sender.required || s.receiver == Completing))
    && (s.sender.Blocked? ==> (s.senderNotified <==> !s.senderRegistered))
  }

  /** A message buffer takes messages that are not empty; one that has been begun fits. */
  ghost predicate MessageFits(s: State) {
    && (!s.sender.Resting? && !s.sender.Published? && !s.sender.Notifying? && s.prefix > 0 ==>
          s.prefix < s.sender.required)
    && (s.sender.PuttingBody? ==> s.prefix > 0 && s.bytes + s.sender.required <= s.capacity)
  }

  ghost predicate Inv(s: State) {
    && 0 < s.trigger && s.bytes <= s.capacity && Whole(s, s.bytes) && MessageFits(s)
    && ReceiverServed(s) && SenderServed(s)
  }

  lemma StepKeepsInv(s: State, a: Action)
    requires Inv(s) && Enabled(s, a)
    ensures Inv(Step(s, a))
    ensures Step(s, a).capacity == s.capacity && Step(s, a).trigger == s.trigger && Step(s, a).prefix == s.prefix
  {
    hide ReceiverServed, SenderServed, MessageFits, Whole, InBuffer;
    StepServesReceiver(s, a);
    StepServesSender(s, a);
    StepFits(s, a);
    StepWhole(s, a);
  }

  lemma StepServesReceiver(s: State, a: Action)
    requires Inv(s) && Enabled(s, a)
    ensures ReceiverServed(Step(s, a))
  {
    hide SenderServed;
  }

  lemma StepServesSender(s: State, a: Action)
    requires Inv(s) && Enabled(s, a)
    ensures SenderServed(Step(s, a))
  {
    hide ReceiverServed;
  }

  lemma StepFits(s: State, a: Action)
    requires Inv(s) && Enabled(s, a)
    ensures MessageFits(Step(s, a))
  {
    hide ReceiverServed, SenderServed, Whole, InBuffer;
  }

  lemma StepWhole(s: State, a: Action)
    requires Inv(s) && Enabled(s, a)
    ensures Step(s, a).bytes <= s.capacity && Whole(Step(s, a), Step(s, a).bytes)
  {
    hide ReceiverServed, SenderServed, InBuffer;
    match a
    case Take(_) =>
    case Put(_) =>
    case PutBody =>
    case _ => BytesSame(s, a);
  }

  lemma BytesSame(s: State, a: Action)
    requires Enabled(s, a) && !a.Take? && !a.Put? && !a.PutBody?
    ensures Step(s, a).bytes == s.bytes && Step(s, a).prefix == s.prefix
  {
    hide InBuffer, Whole;
  }

  // ---------------------------------------------------------------- whole runs

  ghost predicate IsRun(states: seq<State>, actions: seq<Action>) {
    && |states| == |actions| + 1 && Initial(states[0])
    && forall i {:trigger actions[i]} :: 0 <= i < |actions| ==>
         Enabled(states[i], actions[i]) && states[i + 1] == Step(states[i], actions[i])
  }

  ghost predicate Reachable(s: State) {
    exists states, actions :: IsRun(states, actions) && states[|actions|] == s
  }

  lemma {:induction false} RunKeepsInv(states: seq<State>, actions: seq<Action>, n: nat)
    requires IsRun(states, actions) && n <= |actions|
    ensures Inv(states[n])
  {
    hide Step, Enabled;
    if n > 0 {
      RunKeepsInv(states, actions, n - 1);
      assert Enabled(states[n - 1], actions[n - 1]) && states[n] == Step(states[n - 1], actions[n - 1]);
      StepKeepsInv(states[n - 1], actions[n - 1]);
    }
  }

  /**
   No lost wake-up, in every reachable state of a stream or message buffer: a receiver that sleeps with nothing
   to wake it has fewer bytes, or bytes of complete messages, than the trigger level in front of it, unless the
   sender is on its way to notify it; and a sender that sleeps with nothing to wake it has too little space,
   unless the receiver is on its way. A sleeper that has been notified is registered no more, and only such a one.
   */
  lemma NoLostWakeUp(s: State)
    requires Reachable(s)
    ensures s.receiver == Waiting ==> (s.receiverNotified <==> !s.receiverRegistered)
    ensures s.sender.Blocked? ==> (s.senderNotified <==> !s.senderRegistered)
    ensures s.receiver == Waiting && !s.receiverNotified ==>
              s.receiverRegistered && (s.bytes < s.trigger || s.sender == Published || s.sender == Notifying)
    ensures s.sender.Blocked? && !s.senderNotified ==>
              s.senderRegistered && (s.capacity - s.bytes < s.sender.required || s.receiver == Completing)
  {
    var states, actions :| IsRun(states, actions) && states[|actions|] == s;
    RunKeepsInv(states, actions, |actions|);
  }

  /**
   Who goes to sleep, and who is called: a receiver that may block does so if and only if nothing is there that it
   could take; a sender if and only if what it sends does not fit behind what is there; and a sender that is done
   goes on to notify the receiver if and only if the trigger level has been reached. Whoever wakes has used the
   notification up, and goes on with the call: a receiver takes, a sender looks at the space again or, late, puts.
   */
  lemma BlocksExactly(s: State)
    requires Inv(s)
    ensures Enabled(s, ReceiveBlocking) ==>
              Step(s, ReceiveBlocking).receiver == if s.bytes == 0 then Waiting else Taking
    ensures Enabled(s, CheckSpace) ==>
              Step(s, CheckSpace).sender == if s.bytes + s.sender.required > s.capacity then Blocked(s.sender.required)
                                            else Putting(s.sender.required)
    ensures Enabled(s, CompareTrigger) ==>
              Step(s, CompareTrigger).sender == if s.bytes >= s.trigger then Notifying else Resting
    ensures Enabled(s, ReceiverWakes) ==>
              var t := Step(s, ReceiverWakes);
              !t.receiverNotified && Enabled(t, ReceiverUnregisters) && Step(t, ReceiverUnregisters).receiver == Taking
    ensures Enabled(s, SenderWakes) ==>
              var t := Step(s, SenderWakes);
              && !t.senderNotified && Enabled(t, SenderUnregisters(false)) && Enabled(t, SenderUnregisters(true))
              && Step(t, SenderUnregisters(false)).sender == Checking(s.sender.required)
              && Step(t, SenderUnregisters(true)).sender == Putting(s.sender.required)
  {
  }

  // ---------------------------------------------------------------- both sides asleep

  /** Both sides sleep, and only a timeout can wake either of them. */
  predicate BothAsleep(s: State) {
    s.receiver == Waiting && !s.receiverNotified && s.sender.Blocked? && !s.senderNotified
  }

  /** The most that there can be without reaching the trigger level. */
  function Most(trigger: nat, prefix: nat): nat
    requires 0 < trigger
  {
    if prefix == 0 || trigger > prefix + 1 then trigger - 1 else 0
  }

  /** A state in which both sides sleep over a send of the given size. */
  function Asleep(capacity: nat, trigger: nat, prefix: nat, required: nat): State
    requires 0 < trigger
  {
    State(capacity, trigger, prefix, Most(trigger, prefix), Waiting, true, false, Blocked(required), true, false)
  }

  lemma Extend(s: State, a: Action)
    requires Reachable(s) && Enabled(s, a)
    ensures Reachable(Step(s, a))
  {
    var states, actions :| IsRun(states, actions) && states[|actions|] == s;
    assert IsRun(states + [Step(s, a)], actions + [a]) by {
      forall i {:trigger (actions + [a])[i]} | 0 <= i < |actions + [a]|
        ensures Enabled((states + [Step(s, a)])[i], (actions + [a])[i])
                && (states + [Step(s, a)])[i + 1] == Step((states + [Step(s, a)])[i], (actions + [a])[i])
      {
        if i < |actions| { assert (actions + [a])[i] == actions[i]; }
      }
    }
    assert (states + [Step(s, a)])[|actions + [a]|] == Step(s, a);
  }

  lemma StartReachable(s: State)
    requires Initial(s)
    ensures Reachable(s)
  {
    var none: seq<Action> := [];
    assert IsRun([s], none) && [s][|none|] == s;
  }

  /** The receiver goes to sleep; a send stays below the trigger level; the next send does not fit. */
  lemma FallAsleep(capacity: nat, trigger: nat, prefix: nat, required: nat)
    requires 0 < trigger <= capacity + 1 && (prefix > 0 ==> prefix < required)
    requires required + Most(trigger, prefix) > capacity
    ensures Reachable(Asleep(capacity, trigger, prefix, required))
  {
    hide Reachable;
    var most := Most(trigger, prefix);
    var s0 := State(capacity, trigger, prefix, 0, Idle, false, false, Resting, false, false);
    StartReachable(s0);
    Extend(s0, ReceiveBlocking);
    var s := Step(s0, ReceiveBlocking);
    if most > 0 {
      Extend(s, SendNow(most));
      s := Step(s, SendNow(most));
      if prefix == 0 {
        Extend(s, Put(most));
        s := Step(s, Put(most));
      } else {
        Extend(s, PutPrefix);
        s := Step(s, PutPrefix);
        Extend(s, PutBody);
        s := Step(s, PutBody);
      }
      Extend(s, CompareTrigger);
      s := Step(s, CompareTrigger);
    }
    Extend(s, SendBlocking(required));
    Extend(Step(s, SendBlocking(required)), CheckSpace);
  }

  /** Both sides asleep, in a buffer of these measures, over a send of this size. */
  ghost predicate AsleepOver(s: State, capacity: nat, trigger: nat, prefix: nat, required: nat) {
    && Reachable(s) && BothAsleep(s)
    && s.capacity == capacity && s.trigger == trigger && s.prefix == prefix && s.sender.required == required
  }

  /**
   When both sides can be asleep together: for a send that needs the given space this can happen if and only
   if it does not fit behind the most that there can be without reaching the trigger level. In a stream buffer
   that is one byte less than the trigger level; in a message buffer that, or nothing if no message fits below.
   */
  lemma MutualSleep(capacity: nat, trigger: nat, prefix: nat, required: nat)
    requires 0 < trigger <= capacity + 1 && (prefix > 0 ==> prefix < required)
    ensures (exists s :: AsleepOver(s, capacity, trigger, prefix, required))
            <==> required + Most(trigger, prefix) > capacity
  {
    if required + Most(trigger, prefix) > capacity {
      FallAsleep(capacity, trigger, prefix, required);
      assert AsleepOver(Asleep(capacity, trigger, prefix, required), capacity, trigger, prefix, required);
    }
    forall s | AsleepOver(s, capacity, trigger, prefix, required)
      ensures required + Most(trigger, prefix) > capacity
    {
      NoLostWakeUp(s);
      var states, actions :| IsRun(states, actions) && states[|actions|] == s;
      RunKeepsInv(states, actions, |actions|);
    }
  }
}
