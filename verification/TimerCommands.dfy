/**
 What the daemon does for a timer: which callbacks a turn makes, and what each kind of command does to the timer
 that it is for. A timer of whatever kind that nobody restarts is left alone from then on.
 */
module TimerCommands {
  import opened ListSpec
  import opened TwoLists
  import opened TimerModel
  import opened TimerRuns

  // ---------------------------------------------------------------- the callbacks of a turn

  /** Some callback recorded from the given place on is the one for this expiry, made at this time. */
  ghost predicate CalledFrom(log: seq<Fire>, from: nat, e: Entry, at: nat) {
    exists i :: from <= i < |log| && log[i] == Fire(e.owner, e.value, at)
  }

  /** The log has grown by callbacks made at this time for expiries in front of the boundary. */
  ghost predicate GrownBy(was: seq<Fire>, log: seq<Fire>, boundary: nat, at: nat) {
    was <= log && forall i :: |was| <= i < |log| ==> log[i].at == at && log[i].due < boundary
  }

  lemma DrainOneLog(s: Service, boundary: nat, at: nat)
    requires s.pending != []
    ensures DrainOne(s, boundary, at).log == s.log + [Fire(s.pending[0].owner, s.pending[0].value, at)]
  {
  }

  lemma StillCalled(was: seq<Fire>, log: seq<Fire>, from: nat, e: Entry, at: nat)
    requires was <= log && CalledFrom(was, from, e, at)
    ensures CalledFrom(log, from, e, at)
  {
    var i :| from <= i < |was| && was[i] == Fire(e.owner, e.value, at);
    assert log[i] == was[i];
  }

  lemma CalledEarlier(log: seq<Fire>, from: nat, from': nat, e: Entry, at: nat)
    requires from <= from' && CalledFrom(log, from', e, at)
    ensures CalledFrom(log, from, e, at)
  {
  }

  /** Draining calls back for every expiry that was listed in front of the boundary. */
  lemma {:induction false} DrainCalls(s: Service, boundary: nat, at: nat)
    requires PositivePeriods(s.timers) && Sorted(s.pending)
    ensures var log := Drain(s, boundary, at).log;
            && GrownBy(s.log, log, boundary, at)
            && forall e :: e in s.pending && e.value < boundary ==> CalledFrom(log, |s.log|, e, at)
    decreases Slack(s.pending, boundary)
  {
    hide DrainOne, CalledFrom, Insert, Sorted;
    if s.pending != [] && s.pending[0].value < boundary {
      var head, s1 := s.pending[0], DrainOne(s, boundary, at);
      DrainOneUsesSlack(s, boundary, at);
      DrainOneLog(s, boundary, at);
      DrainOneSorted(s, boundary, at);
      DrainCalls(s1, boundary, at);
      var log := Drain(s, boundary, at).log;
      JustCalled(s.log, head, at);
      forall e | e in s.pending && e.value < boundary ensures CalledFrom(log, |s.log|, e, at) {
        if e == head {
          StillCalled(s1.log, log, |s.log|, e, at);
        } else {
          DrainOneKeepsListed(s, boundary, at, e);
          CalledEarlier(log, |s.log|, |s1.log|, e, at);
        }
      }
    } else {
      NoneListedBelow(s.pending, boundary);
    }
  }

  lemma JustCalled(log: seq<Fire>, e: Entry, at: nat)
    ensures CalledFrom(log + [Fire(e.owner, e.value, at)], |log|, e, at)
  {
    assert (log + [Fire(e.owner, e.value, at)])[|log|] == Fire(e.owner, e.value, at);
  }

  lemma NoneListedBelow(s: seq<Entry>, boundary: nat)
    requires Sorted(s) && (s == [] || boundary <= s[0].value)
    ensures forall e :: e in s ==> boundary <= e.value
  {
  }

  lemma DrainOneSorted(s: Service, boundary: nat, at: nat)
    requires s.pending != [] && Sorted(s.pending)
    ensures Sorted(DrainOne(s, boundary, at).pending)
  {
    hide Insert;
    var e := s.pending[0];
    if IsAuto(s.timers, e.owner) {
      InsertKeepsSorted(s.pending[1..], Entry(e.owner, e.value + s.timers[e.owner].period));
    }
  }

  lemma DrainOneKeepsListed(s: Service, boundary: nat, at: nat, e: Entry)
    requires s.pending != [] && e in s.pending && e != s.pending[0]
    ensures e in DrainOne(s, boundary, at).pending
  {
    hide Insert;
    var head := s.pending[0];
    assert s.pending == [head] + s.pending[1..];
    if IsAuto(s.timers, head.owner) {
      InsertMembers(s.pending[1..], Entry(head.owner, head.value + s.timers[head.owner].period));
    }
  }

  /**
   The callbacks of a turn, for timers of either kind: in the same epoch, that of the first timer if it has expired,
   and no other; at a rollover, those of all the timers listed to expire before it, and only such expiries.
   */
  lemma TurnCalls(s: Service, now: nat)
    requires Inv(s) && TimeOk(s, now)
    ensures var log, boundary := Step(s, DaemonTurn(now)).log, (Epoch(s.now) + 1) * TICK_MODULUS;
            if Epoch(now) == Epoch(s.now) then
              log == s.log + if s.pending == [] || now < s.pending[0].value then []
                             else [Fire(s.pending[0].owner, s.pending[0].value, now)]
            else
              && GrownBy(s.log, log, boundary, now)
              && forall e :: e in s.pending && e.value < boundary ==> CalledFrom(log, |s.log|, e, now)
  {
    hide Epoch, Drain, Insert, CalledFrom, DistinctOwners, WithinEpochs, NeverEarly;
    InvPositive(s);
    if Epoch(now) != Epoch(s.now) {
      DrainCalls(s, (Epoch(s.now) + 1) * TICK_MODULUS, now);
    }
  }

  // ---------------------------------------------------------------- commands

  /** Reading the time, with the command and its timer taken away, leaves that timer alone. */
  lemma ReadForCommand(s: Service, now: nat)
    requires Inv(s) && Guard(s, HandleCommand(now))
    ensures var t, s2 := s.queue[0].timer, Sample(Taken(s), now);
            && Inv(Taken(s)) && Inv(s2) && s2.timers == s.timers && s2.now == now && !HasOwner(s2.pending, t)
            && s2.lost[t] == s.lost[t]
            && Fired(s2.log, t) == Fired(s.log, t) && (Queued(s2.queue, t) <==> Queued(s.queue[1..], t))
            && Step(s, HandleCommand(now)) == Apply(s2, s.queue[0])
  {
    hide Epoch, Inv, Drain, Apply, Without, Fired, HasOwner, Listed, StartQueuedOnce, Queued;
    var s1, t := Taken(s), s.queue[0].timer;
    TakenKeepsInv(s, now);
    InvPositive(s1);
    DrainIdle(s1, (Epoch(s1.now) + 1) * TICK_MODULUS, now, t);
    SameForNow(s1, Sample(s1, now), now, t);
  }

  /** Timer t is listed for this expiry, and for no other. */
  ghost predicate ListedFor(s: Service, t: nat, due: nat) {
    forall e :: e in s.pending && e.owner == t <==> e == Entry(t, due)
  }

  lemma ListedAlone(s: seq<Entry>, t: nat, due: nat)
    requires !HasOwner(s, t)
    ensures forall e :: e in Insert(s, Entry(t, due)) && e.owner == t <==> e == Entry(t, due)
  {
    hide Insert;
    InsertMembers(s, Entry(t, due));
    forall e | e in s ensures e.owner != t {
      var i :| 0 <= i < |s| && s[i] == e;
    }
  }

  /**
   What a command does to its timer, by the number in the message. A start or reset lists it for a period after the
   time in the command, or, if that is past, calls back at once. A change of period lists it for the new period from
   now. A stop takes it off the list; so does a delete, after which a timer that was allocated is no more. Nothing
   but a start that is too late calls back.
   */
  lemma CommandEffect(s: Service, now: nat)
    requires Inv(s) && Guard(s, HandleCommand(now))
    ensures var m, s' := s.queue[0], Step(s, HandleCommand(now));
            var t := m.timer;
            var was, start, change := s.timers[t], m.id in {0, 1, 2, 6, 7}, m.id in {4, 9};
            var late := start && m.value + was.period <= now;
            && Fired(s'.log, t) == Fired(s.log, t) + (if late then [m.value + was.period] else [])
            && (if start && !late then ListedFor(s', t, m.value + was.period)
                else if change then ListedFor(s', t, now + m.value)
                else !HasOwner(s'.pending, t))
            && (m.id == 5 && !was.staticallyAllocated ==> s'.timers == s.timers - {t})
            && (m.id != 5 || was.staticallyAllocated ==>
                  s'.timers == s.timers[t := was.(active := start || change || (m.id > 9 && was.active),
                                                  period := if change then m.value else was.period)])
  {
    hide Epoch, Inv, Sample, HasOwner, Insert, Fired, Taken, ListedFor;
    var m := s.queue[0];
    ReadForCommand(s, now);
    InvPositive(Taken(s));
    ApplyEffect(Sample(Taken(s), now), m);
  }

  lemma ApplyEffect(s: Service, m: Message)
    requires m.timer in s.timers && !HasOwner(s.pending, m.timer)
    ensures var t, s' := m.timer, Apply(s, m);
            var was, start, change := s.timers[t], m.id in {0, 1, 2, 6, 7}, m.id in {4, 9};
            var late := start && m.value + was.period <= s.now;
            && Fired(s'.log, t) == Fired(s.log, t) + (if late then [m.value + was.period] else [])
            && (if start && !late then ListedFor(s', t, m.value + was.period)
                else if change then ListedFor(s', t, s.now + m.value)
                else !HasOwner(s'.pending, t))
            && (m.id == 5 && !was.staticallyAllocated ==> s'.timers == s.timers - {t})
            && (m.id != 5 || was.staticallyAllocated ==>
                  s'.timers == s.timers[t := was.(active := start || change || (m.id > 9 && was.active),
                                                  period := if change then m.value else was.period)])
  {
    hide HasOwner, Insert, Fired;
    var t := m.timer;
    var due := m.value + s.timers[t].period;
    ListedAlone(s.pending, t, due);
    ListedAlone(s.pending, t, s.now + m.value);
    FiredAppend(s.log, Fire(t, due, s.now), t);
  }

  /** Any other timer sees of a command only that the time is read. */
  lemma CommandLeavesOthers(s: Service, now: nat, u: nat)
    requires Inv(s) && Guard(s, HandleCommand(now)) && s.queue[0].timer != u
    ensures PositivePeriods(s.timers)
    ensures SameFor(s, Taken(s), u) && SameFor(Sample(Taken(s), now), Step(s, HandleCommand(now)), u)
  {
    hide Epoch, Inv, Sample, Apply, SameFor, Without;
    TakeOther(s, u);
    TakenKeepsInv(s, now);
    InvPositive(s);
    ApplyOther(Sample(Taken(s), now), s.queue[0], u);
  }

  lemma {:induction false} DrainQueue(s: Service, boundary: nat, at: nat)
    requires PositivePeriods(s.timers)
    ensures s.queue <= Drain(s, boundary, at).queue
    decreases Slack(s.pending, boundary)
  {
    hide Insert;
    if s.pending != [] && s.pending[0].value < boundary {
      DrainOneUsesSlack(s, boundary, at);
      DrainQueue(DrainOne(s, boundary, at), boundary, at);
    }
  }

  /** First come, first served: whatever is sent goes behind what is queued, and a command leaves from the front. */
  lemma QueueInOrder(s: Service, a: Action)
    requires Inv(s) && Guard(s, a)
    ensures match a
            case DaemonTurn(_) => s.queue <= Step(s, a).queue
            case HandleCommand(_) => s.queue[1..] <= Step(s, a).queue
            case Post(m) => Step(s, a).queue == if |s.queue| < 10 then s.queue + [m] else s.queue
  {
    hide Epoch, Inv, Drain, Insert, Without;
    InvPositive(s);
    match a
    case DaemonTurn(now) =>
      DrainQueue(s, (Epoch(s.now) + 1) * TICK_MODULUS, now);
    case HandleCommand(now) =>
      TakenKeepsInv(s, now);
      InvPositive(Taken(s));
      DrainQueue(Taken(s), (Epoch(s.now) + 1) * TICK_MODULUS, now);
    case Post(_) =>
  }

  /**
   A start, reset or change of period of an auto-reload timer begins its expiries anew: from the time in the command,
   or from now with the new period.
   */
  lemma CommandBegins(s: Service, now: nat)
    requires Inv(s) && Guard(s, HandleCommand(now)) && IsAuto(s.timers, s.queue[0].timer)
    requires !Queued(s.queue[1..], s.queue[0].timer)
    ensures var m, s' := s.queue[0], Step(s, HandleCommand(now));
            var t, before := m.timer, Fired(s.log, m.timer);
            && (IsChangePeriod(m.id) ==> Chain(s', t, now, m.value, before, 0))
            && (IsStart(m.id) ==>
                  var period := s.timers[t].period;
                  OnTrack(s', s.lost[t], t, m.value, period, before, if m.value + period <= now then 1 else 0))
  {
    hide Epoch, Inv, Sample, HasOwner, Insert, Fired, Taken, Due, Dues, Queued, Chain, Gone;
    ReadForCommand(s, now);
    InvPositive(Taken(s));
    var m, s2 := s.queue[0], Sample(Taken(s), now);
    var t, before := m.timer, Fired(s.log, m.timer);
    Beginning(m.value, s.timers[t].period);
    Beginning(now, m.value);
    assert before + [] == before;
    if IsStart(m.id) {
      var period, s3 := s.timers[t].period, SetActive(s2, t, true);
      FiredOwn(s3, t, m.value, period, before, 0, now);
      if now < m.value + period {
        ListOwn(s3, t, m.value, period, before, 0);
      } else {
        ReloadOwn(CallBack(s3, t, m.value + period, now), t, m.value, period, before, 1);
      }
    } else if IsChangePeriod(m.id) {
      var s3 := s2.(timers := s2.timers[t := s2.timers[t].(active := true, period := m.value)]);
      ListOwn(s3, t, now, m.value, before, 0);
    }
  }

  lemma Beginning(start: nat, period: nat)
    ensures Dues(start, period, 0) == [] && Due(start, period, 0) == start && Due(start, period, 1) == start + period
  {
  }

  /** A timer that is stopped, or has ended, and for which no command comes, is left alone: no callback, no listing. */
  lemma {:induction false} LeftAlone(states: seq<Service>, actions: seq<Action>, n: nat, t: nat)
    requires IsRun(states, actions) && Inv(states[0]) && n <= |actions|
    requires !HasOwner(states[0].pending, t) && !Queued(states[0].queue, t)
    requires forall i :: 0 <= i < |actions| && actions[i].Post? ==> actions[i].m.timer != t
    ensures SameFor(states[0], states[n], t)
    ensures Fired(states[n].log, t) == Fired(states[0].log, t) && !HasOwner(states[n].pending, t)
  {
    hide Step, Inv, Guard, HasOwner, Queued, Fired, Listed, StartQueuedOnce;
    if n == 0 {
      SameForSelf(states[0], t);
    } else {
      LeftAlone(states, actions, n - 1, t);
      RunKeepsInv(states, actions, n - 1);
      assert Guard(states[n - 1], actions[n - 1]) && states[n] == Step(states[n - 1], actions[n - 1]);
      GoneStep(states[n - 1], actions[n - 1], t);
      SameForCompose(states[0], states[n - 1], states[n], t);
    }
  }
}
