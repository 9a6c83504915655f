/**
 The ACTIVE bit of a timer. A listed timer is always active; the converse fails on some paths of the daemon,
 and this module says exactly when: for every step, and for every run.
 */
module TimerActive {
  import opened ListSpec
  import opened TwoLists
  import opened TimerModel
  import opened TimerRuns

  /** The bit of the timer is set exactly while the timer is listed. */
  ghost predicate Right(s: Service, t: nat) {
    t in s.timers ==> (s.timers[t].active <==> HasOwner(s.pending, t))
  }

  predicate Known(id: nat) {
    IsStart(id) || IsStop(id) || IsChangePeriod(id) || id == COMMAND_DELETE
  }

  ghost predicate ListedBelow(pending: seq<Entry>, t: nat, boundary: nat) {
    exists e :: e in pending && e.owner == t && e.value < boundary
  }

  /** Reading the time deals with an expiry of the timer from before a rollover. */
  ghost predicate RollsOver(s: Service, now: nat, t: nat) {
    Epoch(now) != Epoch(s.now) && ListedBelow(s.pending, t, (Epoch(s.now) + 1) * TICK_MODULUS)
  }

  /**
   The steps that leave the bit set with the timer on no list: a rollover after its expiry; an expiry so late
   that the next one is past too; a start command that comes after the expiry it asks for; and a command that
   the daemon does not know, for a listed timer.
   */
  ghost predicate Breaks(s: Service, a: Action, t: nat)
    requires Inv(s) && Guard(s, a)
  {
    match a
    case DaemonTurn(now) =>
      RollsOver(s, now, t)
      || (Epoch(now) == Epoch(s.now) && s.pending != [] && s.pending[0].owner == t && IsAuto(s.timers, t)
          && s.pending[0].value + s.timers[t].period <= now)
    case HandleCommand(now) =>
      var m := s.queue[0];
      if m.timer != t then RollsOver(s, now, t)
      else if IsStart(m.id) then m.value + s.timers[t].period <= now
      else !Known(m.id) && HasOwner(s.pending, t)
    case Post(_) => false
  }

  /** A command for the timer that the daemon knows sets or clears the bit itself. */
  ghost predicate Settles(s: Service, a: Action, t: nat)
    requires Inv(s) && Guard(s, a)
  {
    a.HandleCommand? && s.queue[0].timer == t && Known(s.queue[0].id)
  }

  // ---------------------------------------------------------------- one step

  lemma RightSame(s: Service, s': Service, t: nat)
    requires SameFor(s, s', t)
    ensures Right(s', t) <==> Right(s, t)
  {
    hide Fired, Listed, Queued, StartQueuedOnce, HasOwner;
  }

  lemma OwnerMember(s: seq<Entry>, t: nat)
    ensures HasOwner(s, t) <==> exists e :: e in s && e.owner == t
  {
    if HasOwner(s, t) {
      var i :| 0 <= i < |s| && s[i].owner == t;
      assert s[i] in s;
    }
  }

  lemma OnlyEntry(s: Service, e: Entry, f: Entry)
    requires Inv(s) && e in s.pending && f in s.pending && e.owner == f.owner
    ensures e == f && e.owner in s.timers && s.timers[e.owner].active
  {
  }

  /** Reading the time keeps the bit right unless it deals with an expiry of the timer at a rollover. */
  lemma SampleRight(s: Service, now: nat, t: nat)
    requires Inv(s) && TimeOk(s, now)
    ensures PositivePeriods(s.timers)
    ensures Right(Sample(s, now), t) <==> Right(s, t) && !RollsOver(s, now, t)
    ensures RollsOver(s, now, t) ==> HasOwner(s.pending, t)
  {
    hide Epoch, Inv, Sample, HasOwner;
    InvPositive(s);
    SampleKeepsTimers(s, now);
    OwnerMember(s.pending, t);
    OwnerMember(Sample(s, now).pending, t);
    if s.pending == [] || Epoch(now) == Epoch(s.now) {
      SampleStays(s, now);
    } else {
      forall e ensures e in Sample(s, now).pending
                       <==> e in s.pending && (Epoch(s.now) + 1) * TICK_MODULUS <= e.value {
        SampleMembers(s, now, e);
      }
      if e :| e in s.pending && e.owner == t {
        forall f | f in s.pending && f.owner == t ensures f == e {
          OnlyEntry(s, e, f);
        }
        OnlyEntry(s, e, e);
      }
    }
  }

  lemma SampleStays(s: Service, now: nat)
    requires PositivePeriods(s.timers) && (s.pending == [] || Epoch(now) == Epoch(s.now))
    ensures Sample(s, now) == s.(now := now)
  {
    hide Epoch;
  }

  /** An expiry on the normal path clears the bit of a one-shot, and breaks that of a timer too late. */
  lemma ExpireRight(s: Service, t: nat)
    requires Inv(s) && s.pending != [] && s.pending[0].owner == t && s.pending[0].value <= s.now
    ensures t in s.timers && Right(s, t)
    ensures Right(Expire(s), t)
            <==> !(s.timers[t].autoReload && s.pending[0].value + s.timers[t].period <= s.now)
  {
    hide Epoch, Insert, Sorted, WithinEpochs, NeverEarly;
    PopKeepsInv(s);
    HeadOwner(s.pending);
    InsertMembers(s.pending[1..], Entry(t, s.pending[0].value + s.timers[t].period));
    OwnerMember(Insert(s.pending[1..], Entry(t, s.pending[0].value + s.timers[t].period)), t);
  }

  lemma TurnRight(s: Service, now: nat, t: nat)
    requires Inv(s) && TimeOk(s, now)
    ensures Right(Step(s, DaemonTurn(now)), t) <==> Right(s, t) && !Breaks(s, DaemonTurn(now), t)
  {
    hide Epoch, Inv, Drain, Expire, SameFor, Right, RollsOver, HasOwner;
    InvPositive(s);
    SampleRight(s, now, t);
    SampleKeepsInv(s, now);
    SampleKeepsTimers(s, now);
    var s1 := Sample(s, now);
    if Epoch(now) == Epoch(s.now) {
      SampleStays(s, now);
      SameEpochRolls(s, now, t);
      if s.pending != [] {
        HeadExists(s);
        if s.pending[0].owner != t {
          ExpireOther(s1, t);
          RightSame(s1, Expire(s1), t);
        } else if s.pending[0].value <= now {
          ExpireRight(s1, t);
        } else {
          PeriodAhead(s);
        }
      }
    }
  }

  lemma SameEpochRolls(s: Service, now: nat, t: nat)
    requires Epoch(now) == Epoch(s.now)
    ensures !RollsOver(s, now, t)
  {
  }

  lemma HeadExists(s: Service)
    requires Inv(s) && s.pending != []
    ensures s.pending[0].owner in s.timers
  {
  }

  lemma PeriodAhead(s: Service)
    requires Inv(s) && s.pending != []
    ensures s.pending[0].owner in s.timers && 0 < s.timers[s.pending[0].owner].period
  {
  }

  /** A command for another timer is like reading the time. */
  lemma OtherCommandRight(s: Service, now: nat, t: nat)
    requires Inv(s) && Guard(s, HandleCommand(now)) && s.queue[0].timer != t
    ensures Right(Command(s, now), t) <==> Right(s, t) && !RollsOver(s, now, t)
  {
    hide Epoch, Inv, Sample, Apply, SameFor, Right, HasOwner;
    var s1 := Taken(s);
    TakenKeepsInv(s, now);
    InvPositive(s1);
    TakeOther(s, t);
    RightSame(s, s1, t);
    SampleRight(s1, now, t);
    TakenRolls(s, now, t);
    var s2 := Sample(s1, now);
    ApplyOther(s2, s.queue[0], t);
    RightSame(s2, Apply(s2, s.queue[0]), t);
  }

  lemma TakenRolls(s: Service, now: nat, t: nat)
    requires s.queue != [] && s.queue[0].timer != t
    ensures RollsOver(Taken(s), now, t) <==> RollsOver(s, now, t)
  {
    hide Epoch, Without;
    WithoutOtherMembers(s.pending, s.queue[0].timer, t);
  }

  /** What a command does to the bit of its own timer, which has been taken off the list before. */
  lemma ApplyRight(s: Service, m: Message)
    requires m.timer in s.timers && !HasOwner(s.pending, m.timer)
    ensures Right(Apply(s, m), m.timer)
            <==> if IsStart(m.id) then s.now < m.value + s.timers[m.timer].period
                 else Known(m.id) || !s.timers[m.timer].active
  {
    hide Insert;
    var t := m.timer;
    InsertMembers(s.pending, Entry(t, m.value + s.timers[t].period));
    OwnerMember(Insert(s.pending, Entry(t, m.value + s.timers[t].period)), t);
    InsertMembers(s.pending, Entry(t, s.now + m.value));
    OwnerMember(Insert(s.pending, Entry(t, s.now + m.value)), t);
  }

  lemma OwnCommandRight(s: Service, now: nat, t: nat)
    requires Inv(s) && Guard(s, HandleCommand(now)) && s.queue[0].timer == t
    ensures Right(Command(s, now), t)
            <==> !Breaks(s, HandleCommand(now), t) && (Right(s, t) || Settles(s, HandleCommand(now), t))
  {
    hide Epoch, Inv, Sample, Apply, HasOwner;
    TakenKeepsInv(s, now);
    InvPositive(Taken(s));
    ApplyRight(Sample(Taken(s), now), s.queue[0]);
    ListedActive(s, t);
  }

  lemma ListedActive(s: Service, t: nat)
    requires Inv(s)
    ensures HasOwner(s.pending, t) ==> t in s.timers && s.timers[t].active
  {
  }

  /** When the bit is right after a step: exactly if the step does not break it, and it was, or is settled. */
  lemma StepRight(s: Service, a: Action, t: nat)
    requires Inv(s) && Guard(s, a)
    ensures Right(Step(s, a), t) <==> !Breaks(s, a, t) && (Right(s, t) || Settles(s, a, t))
  {
    hide Inv, Epoch, Right, RollsOver, Turn, Command;
    match a
    case DaemonTurn(now) => TurnRight(s, now, t);
    case HandleCommand(now) =>
      if s.queue[0].timer == t {
        OwnCommandRight(s, now, t);
      } else {
        OtherCommandRight(s, now, t);
      }
    case Post(m) => PostRight(s, m, t);
  }

  lemma PostRight(s: Service, m: Message, t: nat)
    ensures Right(if |s.queue| < QUEUE_LENGTH then s.(queue := s.queue + [m]) else s, t) <==> Right(s, t)
  {
  }

  // ---------------------------------------------------------------- whole runs

  ghost predicate BreaksAt(states: seq<Service>, actions: seq<Action>, i: nat, t: nat) {
    i < |states| && i < |actions| && Inv(states[i]) && Guard(states[i], actions[i])
    && Breaks(states[i], actions[i], t)
  }

  /** Step i is a command for the timer that leaves its bit right whatever it was. */
  ghost predicate MendsAt(states: seq<Service>, actions: seq<Action>, i: nat, t: nat) {
    i < |states| && i < |actions| && Inv(states[i]) && Guard(states[i], actions[i])
    && Settles(states[i], actions[i], t) && !Breaks(states[i], actions[i], t)
  }

  ghost predicate Mended(states: seq<Service>, actions: seq<Action>, i: nat, n: nat, t: nat) {
    exists j :: i < j < n && MendsAt(states, actions, j, t)
  }

  /** Each of the first n steps that has broken the bit has been followed by one that mends it. */
  ghost predicate AllMended(states: seq<Service>, actions: seq<Action>, n: nat, t: nat) {
    forall i :: 0 <= i < n && BreaksAt(states, actions, i, t) ==> Mended(states, actions, i, n, t)
  }

  /**
   In every run that begins with the bit right it is right after n steps if and only if each step that has
   broken it has been followed by a command for the timer that mends it.
   */
  lemma {:induction false} RunRight(states: seq<Service>, actions: seq<Action>, n: nat, t: nat)
    requires IsRun(states, actions) && Inv(states[0]) && Right(states[0], t) && n <= |actions|
    ensures Right(states[n], t) <==> AllMended(states, actions, n, t)
  {
    hide Inv, Guard, Step, Right, Breaks, Settles;
    if n > 0 {
      var p := n - 1;
      RunRight(states, actions, p, t);
      RunKeepsInv(states, actions, p);
      assert Guard(states[p], actions[p]) && states[n] == Step(states[p], actions[p]);
      StepRight(states[p], actions[p], t);
      OneMoreStep(states, actions, p, t);
    }
  }

  lemma OneMoreStep(states: seq<Service>, actions: seq<Action>, p: nat, t: nat)
    ensures AllMended(states, actions, p + 1, t)
            <==> !BreaksAt(states, actions, p, t)
                 && (AllMended(states, actions, p, t) || MendsAt(states, actions, p, t))
  {
    hide BreaksAt, MendsAt;
    var n := p + 1;
    assert !Mended(states, actions, p, n, t);
    forall i | 0 <= i < p
      ensures Mended(states, actions, i, n, t) <==> Mended(states, actions, i, p, t) || MendsAt(states, actions, p, t)
    {
      if Mended(states, actions, i, p, t) {
        var j :| i < j < p && MendsAt(states, actions, j, t);
        assert i < j < n;
      }
    }
  }

  // ---------------------------------------------------------------- inputs at which it fails

  /** A one-shot timer that expires on the last tick before a rollover, read after it. */
  lemma RolloverKeepsBit()
    ensures var s := Service(TICK_MODULUS - 2, [Entry(0, TICK_MODULUS - 1)], [],
                             map[0 := Timer(1, false, true, false)], [], multiset{});
            var a := DaemonTurn(TICK_MODULUS);
            && Inv(s) && Guard(s, a) && Right(s, 0) && Breaks(s, a, 0)
            && 0 in Step(s, a).timers && Step(s, a).timers[0].active
            && !HasOwner(Step(s, a).pending, 0) && Step(s, a).queue == []
  {
    var s := Service(TICK_MODULUS - 2, [Entry(0, TICK_MODULUS - 1)], [],
                     map[0 := Timer(1, false, true, false)], [], multiset{});
    assert s.pending[0].owner == 0 && s.pending[0] in s.pending;
    hide HasOwner, Sorted, DistinctOwners;
    DrainUnfold(s, TICK_MODULUS, TICK_MODULUS);
  }

  lemma DrainUnfold(s: Service, boundary: nat, at: nat)
    requires PositivePeriods(s.timers) && |s.pending| == 1 && s.pending[0].value < boundary
    requires !IsAuto(s.timers, s.pending[0].owner)
    ensures Drain(s, boundary, at)
            == s.(pending := [], log := s.log + [Fire(s.pending[0].owner, s.pending[0].value, at)])
  {
  }

  /** A one-shot timer whose start command is carried out when it should have expired already. */
  lemma LateStartKeepsBit()
    ensures var s := Service(5, [], [Message(COMMAND_START, 0, 1)],
                             map[0 := Timer(2, false, false, false)], [], multiset{});
            var a := HandleCommand(5);
            && Inv(s) && Guard(s, a) && Right(s, 0) && Breaks(s, a, 0)
            && 0 in Step(s, a).timers && Step(s, a).timers[0].active
            && !HasOwner(Step(s, a).pending, 0) && Step(s, a).queue == []
  {
    var timers := map[0 := Timer(2, false, false, false)];
    var s := Service(5, [], [Message(COMMAND_START, 0, 1)], timers, [], multiset{});
    hide Drain;
    assert Without([], 0) == [];
    assert Taken(s) == s.(queue := []);
    SampleStays(Taken(s), 5);
    TakenKeepsInv(s, 5);
  }
}
