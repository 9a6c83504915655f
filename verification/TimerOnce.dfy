/**
 One-shot timers. A timer that does not reload itself calls back exactly once for the start command that it was
 given: over every run, on the normal path, at a rollover, and when the start comes too late.
 */
module TimerOnce {
  import opened ListSpec
  import opened TwoLists
  import opened TimerModel
  import opened TimerRuns
  import opened TimerCommands
  import opened TimerSteps

  predicate OneShot(s: Service, t: nat, period: nat) {
    t in s.timers && !s.timers[t].autoReload && s.timers[t].period == period
  }

  /**
   Timer t was given one command, to start as of `start`. It has called back, for that time and a period, and is
   neither listed nor queued; or it has not, and is listed for then, or its start is still queued.
   */
  ghost predicate Once(s: Service, t: nat, start: nat, period: nat, before: seq<nat>) {
    && OneShot(s, t, period)
    && if HasOwner(s.pending, t)
       then Listed(s.pending, t, start + period) && !Queued(s.queue, t) && Fired(s.log, t) == before
       else if Queued(s.queue, t)
       then StartQueuedOnce(s.queue, t, start) && Fired(s.log, t) == before
       else Fired(s.log, t) == before + [start + period]
  }

  /** Sending the start command of an idle one-shot timer is the beginning. */
  lemma OnceBegins(s: Service, t: nat, start: nat)
    requires Inv(s) && t in s.timers && !s.timers[t].autoReload && |s.queue| < QUEUE_LENGTH
    requires !HasOwner(s.pending, t) && !Queued(s.queue, t)
    ensures Once(Step(s, Post(Message(COMMAND_START, t, start))), t, start, s.timers[t].period, Fired(s.log, t))
  {
    hide Fired, HasOwner;
    var m := Message(COMMAND_START, t, start);
    var q := s.queue + [m];
    assert IsStart(q[|s.queue|].id) && q[|s.queue|].timer == t && q[|s.queue|].value == start;
    assert forall j :: 0 <= j < |s.queue| ==> q[j] == s.queue[j];
    assert StartQueuedOnce(q, t, start);
  }

  lemma OnceSame(s: Service, s': Service, t: nat, start: nat, period: nat, before: seq<nat>)
    requires Once(s, t, start, period, before) && SameFor(s, s', t)
    ensures Once(s', t, start, period, before)
  {
    hide Fired, HasOwner, Listed, Queued, StartQueuedOnce;
  }

  /** At the head of the list, the timer is there for the expiry that its start asked for. */
  lemma OnceAtHead(s: Service, t: nat, start: nat, period: nat, before: seq<nat>)
    requires Once(s, t, start, period, before) && DistinctOwners(s.pending)
    requires s.pending != [] && s.pending[0].owner == t
    ensures s.pending[0] == Entry(t, start + period) && Fired(s.log, t) == before
    ensures !HasOwner(s.pending[1..], t) && !Queued(s.queue, t)
  {
    hide Fired, Queued;
    HeadOwner(s.pending);
    assert Listed(s.pending, t, start + period);
    var i :| 0 <= i < |s.pending| && s.pending[i] == Entry(t, start + period);
    if i != 0 { assert s.pending[0].owner != s.pending[i].owner; }
  }

  lemma OnceDrainOne(s: Service, boundary: nat, at: nat, t: nat, start: nat, period: nat, before: seq<nat>)
    requires s.pending != [] && DistinctOwners(s.pending) && Once(s, t, start, period, before)
    ensures Once(DrainOne(s, boundary, at), t, start, period, before)
  {
    hide Fired, HasOwner, Queued, Listed, StartQueuedOnce, SameFor, DistinctOwners, Insert, Reload;
    var e := s.pending[0];
    if e.owner != t {
      DrainOneOther(s, boundary, at, t);
      OnceSame(s, DrainOne(s, boundary, at), t, start, period, before);
    } else {
      OnceAtHead(s, t, start, period, before);
      FiredAppend(s.log, Fire(t, e.value, at), t);
    }
  }

  lemma {:induction false} OnceDrain(s: Service, at: nat, t: nat, start: nat, period: nat, before: seq<nat>)
    requires Inv(s) && (Epoch(s.now) + 1) * TICK_MODULUS <= at && Once(s, t, start, period, before)
    ensures PositivePeriods(s.timers)
    ensures Once(Drain(s, (Epoch(s.now) + 1) * TICK_MODULUS, at), t, start, period, before)
    decreases Slack(s.pending, (Epoch(s.now) + 1) * TICK_MODULUS)
  {
    hide Once, Epoch, Inv, DrainOne, DistinctOwners;
    var boundary := (Epoch(s.now) + 1) * TICK_MODULUS;
    InvPositive(s);
    if s.pending != [] && s.pending[0].value < boundary {
      DrainOneUsesSlack(s, boundary, at);
      DrainOneKeepsInv(s, at);
      DrainOneNow(s, boundary, at);
      InvDistinct(s);
      OnceDrainOne(s, boundary, at, t, start, period, before);
      OnceDrain(DrainOne(s, boundary, at), at, t, start, period, before);
    }
  }

  lemma OnceSample(s: Service, now: nat, t: nat, start: nat, period: nat, before: seq<nat>)
    requires Inv(s) && TimeOk(s, now) && Once(s, t, start, period, before)
    ensures PositivePeriods(s.timers) && Once(Sample(s, now), t, start, period, before)
  {
    hide Epoch, Inv, Once, Drain;
    InvPositive(s);
    var boundary := (Epoch(s.now) + 1) * TICK_MODULUS;
    if Epoch(now) == Epoch(s.now) {
      SameAt(s, now, t);
      OnceSame(s, Sample(s, now), t, start, period, before);
    } else {
      LaterEpochs(s.now, now);
      OnceDrain(s, now, t, start, period, before);
      SameAt(Drain(s, boundary, now), now, t);
      OnceSame(Drain(s, boundary, now), Sample(s, now), t, start, period, before);
    }
  }

  lemma OnceExpire(s: Service, t: nat, start: nat, period: nat, before: seq<nat>)
    requires Inv(s) && s.pending != [] && Once(s, t, start, period, before)
    ensures s.pending[0].owner in s.timers && Once(Expire(s), t, start, period, before)
  {
    hide Fired, HasOwner, Queued, Listed, StartQueuedOnce, SameFor, DistinctOwners, Insert, Reload, Sorted,
      WithinEpochs;
    var e := s.pending[0];
    if e.owner != t {
      ExpireOther(s, t);
      OnceSame(s, Expire(s), t, start, period, before);
    } else {
      OnceAtHead(s, t, start, period, before);
      FiredAppend(s.log, Fire(t, e.value, s.now), t);
    }
  }

  lemma OnceTurn(s: Service, now: nat, t: nat, start: nat, period: nat, before: seq<nat>)
    requires Inv(s) && TimeOk(s, now) && Once(s, t, start, period, before)
    ensures PositivePeriods(s.timers) && Once(Turn(s, now), t, start, period, before)
  {
    hide Epoch, Inv, Once, Drain, Expire;
    OnceSample(s, now, t, start, period, before);
    SampleKeepsInv(s, now);
    var s1 := Sample(s, now);
    if Epoch(now) == Epoch(s.now) && s.pending != [] {
      OnceExpire(s1, t, start, period, before);
    }
  }

  /** The start command, at the head of the queue. */
  lemma OnceStartAtHead(s: Service, t: nat, start: nat, period: nat, before: seq<nat>)
    requires s.queue != [] && s.queue[0].timer == t && Once(s, t, start, period, before)
    ensures IsStart(s.queue[0].id) && s.queue[0].value == start && Fired(s.log, t) == before
    ensures !HasOwner(s.pending, t) && !Queued(s.queue[1..], t)
  {
    hide Fired;
    assert Queued(s.queue, t);
    assert StartQueuedOnce(s.queue, t, start);
    assert forall i :: 0 <= i < |s.queue[1..]| ==> s.queue[1..][i] == s.queue[i + 1];
  }

  /** The start is carried out: the timer is listed, or, if its expiry is past, it calls back at once. */
  lemma OnceApply(s: Service, m: Message, t: nat, start: nat, period: nat, before: seq<nat>)
    requires OneShot(s, t, period) && !HasOwner(s.pending, t) && !Queued(s.queue, t) && Fired(s.log, t) == before
    requires IsStart(m.id) && m.timer == t && m.value == start
    ensures Once(Apply(s, m), t, start, period, before)
  {
    hide Fired, HasOwner, Queued, Insert, StartQueuedOnce;
    FiredAppend(s.log, Fire(t, start + period, s.now), t);
    InsertMembers(s.pending, Entry(t, start + period));
    var listed := Insert(s.pending, Entry(t, start + period));
    assert Listed(listed, t, start + period);
    OwnerListed(listed, t);
  }

  lemma OnceCommand(s: Service, now: nat, t: nat, start: nat, period: nat, before: seq<nat>)
    requires Inv(s) && Guard(s, HandleCommand(now)) && Once(s, t, start, period, before)
    ensures PositivePeriods(s.timers) && Once(Command(s, now), t, start, period, before)
  {
    hide Epoch, Inv, Sample, Apply, Once, SameFor, Without, HasOwner, Queued, Fired;
    var s1, m := Taken(s), s.queue[0];
    InvPositive(s);
    TakenKeepsInv(s, now);
    InvPositive(s1);
    if m.timer == t {
      OnceStartAtHead(s, t, start, period, before);
      IdleUntil(s1, now, t);
      IsOneShot(s, t, start, period, before);
      OnceApply(Sample(s1, now), m, t, start, period, before);
    } else {
      TakeOther(s, t);
      OnceSame(s, s1, t, start, period, before);
      OnceSample(s1, now, t, start, period, before);
      ApplyOther(Sample(s1, now), m, t);
      OnceSame(Sample(s1, now), Apply(Sample(s1, now), m), t, start, period, before);
    }
  }

  lemma IsOneShot(s: Service, t: nat, start: nat, period: nat, before: seq<nat>)
    requires Once(s, t, start, period, before)
    ensures OneShot(s, t, period)
  {
  }

  lemma IdleUntil(s: Service, now: nat, t: nat)
    requires Inv(s) && !HasOwner(s.pending, t)
    ensures PositivePeriods(s.timers) && !HasOwner(Sample(s, now).pending, t)
    ensures Queued(Sample(s, now).queue, t) <==> Queued(s.queue, t)
    ensures Fired(Sample(s, now).log, t) == Fired(s.log, t)
  {
    hide Epoch, Inv, Drain, HasOwner, Queued, Fired, Listed, StartQueuedOnce;
    InvPositive(s);
    DrainIdle(s, (Epoch(s.now) + 1) * TICK_MODULUS, now, t);
  }

  /** A start, reset or change of period that is carried out for a one-shot timer makes it call back once more. */
  lemma CommandBeginsOnce(s: Service, now: nat)
    requires Inv(s) && Guard(s, HandleCommand(now)) && !IsAuto(s.timers, s.queue[0].timer)
    requires !Queued(s.queue[1..], s.queue[0].timer)
    ensures var m, s' := s.queue[0], Step(s, HandleCommand(now));
            && (IsStart(m.id) ==> Once(s', m.timer, m.value, s.timers[m.timer].period, Fired(s.log, m.timer)))
            && (IsChangePeriod(m.id) ==> Once(s', m.timer, now, m.value, Fired(s.log, m.timer)))
  {
    hide Epoch, Inv, Sample, Taken, HasOwner, Queued, Fired, Apply;
    ReadForCommand(s, now);
    InvPositive(Taken(s));
    var m, s2 := s.queue[0], Sample(Taken(s), now);
    if IsStart(m.id) {
      OnceApply(s2, m, m.timer, m.value, s.timers[m.timer].period, Fired(s.log, m.timer));
    } else if IsChangePeriod(m.id) {
      ChangeOnce(s2, m);
    }
  }

  lemma ChangeOnce(s: Service, m: Message)
    requires m.timer in s.timers && !s.timers[m.timer].autoReload && IsChangePeriod(m.id)
    requires !HasOwner(s.pending, m.timer) && !Queued(s.queue, m.timer)
    ensures Once(Apply(s, m), m.timer, s.now, m.value, Fired(s.log, m.timer))
  {
    hide Fired, HasOwner, Queued, Insert;
    InsertMembers(s.pending, Entry(m.timer, s.now + m.value));
    var listed := Insert(s.pending, Entry(m.timer, s.now + m.value));
    assert Listed(listed, m.timer, s.now + m.value);
    OwnerListed(listed, m.timer);
  }

  /**
   Exactly once, for a one-shot timer, over every run without further commands for it: it has called back for its
   start and a period, once, and is neither listed nor queued; or it has not called back, and is listed for that
   time, or its start command is queued.
   */
  lemma {:induction false} OneShotOnce(states: seq<Service>, actions: seq<Action>, n: nat,
                                       t: nat, start: nat, period: nat, before: seq<nat>)
    requires IsRun(states, actions) && Inv(states[0]) && n <= |actions|
    requires Once(states[0], t, start, period, before)
    requires forall i :: 0 <= i < |actions| && actions[i].Post? ==> actions[i].m.timer != t
    ensures Once(states[n], t, start, period, before)
  {
    hide Step, Inv, Guard, Once;
    if n > 0 {
      OneShotOnce(states, actions, n - 1, t, start, period, before);
      RunKeepsInv(states, actions, n - 1);
      assert Guard(states[n - 1], actions[n - 1]) && states[n] == Step(states[n - 1], actions[n - 1]);
      OnceStep(states[n - 1], actions[n - 1], t, start, period, before);
    }
  }

  lemma OnceStep(s: Service, a: Action, t: nat, start: nat, period: nat, before: seq<nat>)
    requires Inv(s) && Guard(s, a) && Once(s, t, start, period, before)
    requires a.Post? ==> a.m.timer != t
    ensures Once(Step(s, a), t, start, period, before)
  {
    hide Inv, Once, Turn, Command, SameFor;
    match a
    case DaemonTurn(now) => OnceTurn(s, now, t, start, period, before);
    case HandleCommand(now) => OnceCommand(s, now, t, start, period, before);
    case Post(m) =>
      PostOther(s, m, t);
      OnceSame(s, Step(s, a), t, start, period, before);
  }

  // ---------------------------------------------------------------- at every moment

  /** The same with what the daemon has in hand: the timer counts as listed, its start command as queued. */
  ghost predicate OnceInHand(d: Daemon, t: nat, start: nat, period: nat, before: seq<nat>) {
    var s := Back(d);
    if InHand(d, t) then
      && OneShot(s, t, period) && IsStart(d.command.value.id) && d.command.value.value == start
      && !HasOwner(s.pending, t) && !Queued(s.queue, t) && Fired(s.log, t) == before
    else Once(s, t, start, period, before)
  }

  lemma OnceReceives(d: Daemon, t: nat, start: nat, period: nat, before: seq<nat>)
    requires Possible(d, Receives) && d.service.queue[0].timer == t && OnceInHand(d, t, start, period, before)
    ensures OnceInHand(Then(d, Receives), t, start, period, before)
  {
    hide Fired, Without;
    OnceStartAtHead(d.service, t, start, period, before);
    WithoutAbsent(d.service.pending, t);
  }

  lemma OnceServes(d: Daemon, t: nat, start: nat, period: nat, before: seq<nat>)
    requires Sound(d) && Possible(d, Serves) && d.expired.value.owner == t && OnceInHand(d, t, start, period, before)
    ensures OnceInHand(Then(d, Serves), t, start, period, before)
  {
    hide Epoch, Inv, DrainOne, Expire, Once, HasOwner, DistinctOwners;
    HeadOwner(Back(d).pending);
    InvDistinct(Back(d));
    assert !InHand(d, t);
    if d.rollover.Some? {
      OnceDrainOne(Back(d), Boundary(d), d.rollover.value, t, start, period, before);
    } else {
      OnceExpire(Back(d), t, start, period, before);
    }
  }

  lemma OnceInHandSame(d: Daemon, d': Daemon, t: nat, start: nat, period: nat, before: seq<nat>)
    requires OnceInHand(d, t, start, period, before) && SameFor(Back(d), Back(d'), t)
    requires InHand(d', t) <==> InHand(d, t)
    requires d'.command == d.command || !InHand(d, t)
    ensures OnceInHand(d', t, start, period, before)
  {
    hide Fired, HasOwner, Listed, Queued, StartQueuedOnce;
  }

  lemma OncePiece(d: Daemon, p: Piece, t: nat, start: nat, period: nat, before: seq<nat>)
    requires Sound(d) && Possible(d, p) && OnceInHand(d, t, start, period, before)
    requires p.Arrives? ==> p.m.timer != t
    ensures OnceInHand(Then(d, p), t, start, period, before)
  {
    hide Sound, Possible, Then, Once, SameFor, HasOwner, Queued, Fired, Epoch, Apply;
    if !Concerns(d, p, t) {
      PieceOther(d, p, t);
      OtherCommand(d, p, t);
      OnceInHandSame(d, Then(d, p), t, start, period, before);
    } else {
      match p
      case Receives =>
        QueueThere(d);
        OnceReceives(d, t, start, period, before);
      case Serves => OnceServes(d, t, start, period, before);
      case CarriesOut => OnceCarriesOut(d, t, start, period, before);
    }
  }

  lemma OnceCarriesOut(d: Daemon, t: nat, start: nat, period: nat, before: seq<nat>)
    requires Possible(d, CarriesOut) && InHand(d, t) && OnceInHand(d, t, start, period, before)
    ensures OnceInHand(Then(d, CarriesOut), t, start, period, before)
  {
    hide Once, Apply, HasOwner, Queued, Fired;
    OnceApply(d.service, d.command.value, t, start, period, before);
  }

  /** Exactly once, at every moment, with commands for other timers arriving at any moment. */
  lemma {:induction false} OneShotThroughout(ds: seq<Daemon>, ps: seq<Piece>, n: nat,
                                             t: nat, start: nat, period: nat, before: seq<nat>)
    requires IsHistory(ds, ps) && Sound(ds[0]) && n <= |ps|
    requires OnceInHand(ds[0], t, start, period, before)
    requires forall i :: 0 <= i < |ps| && ps[i].Arrives? ==> ps[i].m.timer != t
    ensures OnceInHand(ds[n], t, start, period, before)
  {
    hide Possible, Then, Sound, OnceInHand;
    if n > 0 {
      OneShotThroughout(ds, ps, n - 1, t, start, period, before);
      HistoryKeepsSound(ds, ps, n - 1);
      assert Possible(ds[n - 1], ps[n - 1]) && ds[n] == Then(ds[n - 1], ps[n - 1]);
      OncePiece(ds[n - 1], ps[n - 1], t, start, period, before);
    }
  }
}
