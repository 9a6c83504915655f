/**
 Promises of the timer service over every run: auto-reload timers are drift-free and fire exactly
 once per period, unless a reload command was lost to a full queue; and no callback comes early.
 */
module TimerRuns {
  import opened ListSpec
  import opened TwoLists
  import opened TimerModel

  // ---------------------------------------------------------------- the service invariant

  ghost predicate WithinEpochs(pending: seq<Entry>, epoch: nat) {
    forall i :: 0 <= i < |pending| ==> epoch <= Epoch(pending[i].value) <= epoch + 1
  }

  ghost predicate Owned(pending: seq<Entry>, timers: map<nat, Timer>) {
    forall i :: 0 <= i < |pending| ==> pending[i].owner in timers && timers[pending[i].owner].active
  }

  /** A listed timer exists, is active, is listed once, and expires in this epoch or the next. */
  ghost predicate Inv(s: Service) {
    && PositivePeriods(s.timers)
    && Sorted(s.pending) && DistinctOwners(s.pending)
    && Owned(s.pending, s.timers)
    && WithinEpochs(s.pending, Epoch(s.now))
    && NeverEarly(s.log)
  }

  ghost predicate NeverEarly(log: seq<Fire>) {
    forall i :: 0 <= i < |log| ==> log[i].due <= log[i].at
  }

  // ---------------------------------------------------------------- runs

  datatype Action = DaemonTurn(now: nat) | HandleCommand(now: nat) | Post(m: Message)

  /** Less than 2^32 ticks pass between two readings of the time, unless no timer runs. */
  ghost predicate TimeOk(s: Service, now: nat) {
    s.now <= now && (now < s.now + TICK_MODULUS || s.pending == [])
  }

  /** A start command is carried out less than 2^32 ticks after its command time; a period is positive. */
  ghost predicate MessageOk(m: Message, now: nat) {
    && (IsStart(m.id) ==> m.value <= now < m.value + TICK_MODULUS)
    && (IsChangePeriod(m.id) ==> 0 < m.value < TICK_MODULUS)
  }

  ghost predicate Guard(s: Service, a: Action) {
    match a
    case DaemonTurn(now) => TimeOk(s, now)
    case HandleCommand(now) =>
      s.queue != [] && s.queue[0].timer in s.timers && TimeOk(s, now) && MessageOk(s.queue[0], now)
    case Post(_) => true
  }

  /** What an action does; nothing, where it is not possible. */
  ghost function Step(s: Service, a: Action): Service {
    if !(Inv(s) && Guard(s, a)) then s
    else
      match a
      case DaemonTurn(now) => Turn(s, now)
      case HandleCommand(now) => Command(s, now)
      case Post(m) => if |s.queue| < QUEUE_LENGTH then s.(queue := s.queue + [m]) else s
  }

  ghost predicate IsRun(states: seq<Service>, actions: seq<Action>) {
    && |states| == |actions| + 1
    && forall i {:trigger actions[i]} :: 0 <= i < |actions| ==>
         Guard(states[i], actions[i]) && states[i + 1] == Step(states[i], actions[i])
  }

  // ---------------------------------------------------------------- the invariant is kept

  lemma PopKeeps(s: seq<Entry>)
    requires s != [] && Sorted(s) && DistinctOwners(s)
    ensures Sorted(s[1..]) && DistinctOwners(s[1..]) && !HasOwner(s[1..], s[0].owner)
  {
  }

  lemma InsertKeepsDistinct(s: seq<Entry>, e: Entry)
    requires DistinctOwners(s) && !HasOwner(s, e.owner)
    ensures DistinctOwners(Insert(s, e))
  {
    hide Insert;
    InsertAt(s, e);
  }

  /** What holds of every listed timer, and of the new one, holds after an insertion. */
  lemma InsertKeepsAll(s: seq<Entry>, e: Entry, timers: map<nat, Timer>, epoch: nat)
    requires Owned(s, timers) && WithinEpochs(s, epoch)
    requires e.owner in timers && timers[e.owner].active && epoch <= Epoch(e.value) <= epoch + 1
    ensures Owned(Insert(s, e), timers) && WithinEpochs(Insert(s, e), epoch)
  {
    hide Insert;
    InsertAt(s, e);
  }

  lemma CutSorted(s: seq<Entry>, k: nat, t: seq<Entry>)
    requires k < |s| && t == s[..k] + s[k + 1..] && Sorted(s) && DistinctOwners(s)
    ensures Sorted(t) && DistinctOwners(t) && !HasOwner(t, s[k].owner)
  {
    assert forall i {:trigger t[i]} :: 0 <= i < |t| ==> t[i] == if i < k then s[i] else s[i + 1];
  }

  lemma CutKeepsAll(s: seq<Entry>, k: nat, t: seq<Entry>, timers: map<nat, Timer>, epoch: nat)
    requires k < |s| && t == s[..k] + s[k + 1..] && Owned(s, timers) && WithinEpochs(s, epoch)
    ensures Owned(t, timers) && WithinEpochs(t, epoch)
  {
    assert forall i {:trigger t[i]} :: 0 <= i < |t| ==> t[i] == if i < k then s[i] else s[i + 1];
  }

  lemma WithoutKeeps(s: seq<Entry>, owner: nat, timers: map<nat, Timer>, epoch: nat)
    requires Sorted(s) && DistinctOwners(s) && Owned(s, timers) && WithinEpochs(s, epoch)
    ensures var t := Without(s, owner);
            Sorted(t) && DistinctOwners(t) && Owned(t, timers) && WithinEpochs(t, epoch) && !HasOwner(t, owner)
  {
    hide Sorted, Owned, WithinEpochs, Without;
    if HasOwner(s, owner) {
      var k :| 0 <= k < |s| && s[k].owner == owner;
      WithoutAt(s, k);
      CutSorted(s, k, Without(s, owner));
      CutKeepsAll(s, k, Without(s, owner), timers, epoch);
    } else {
      WithoutAbsent(s, owner);
    }
  }

  lemma NextEpoch(value: nat, period: nat, epoch: nat)
    requires period < TICK_MODULUS && Epoch(value) == epoch
    ensures epoch <= Epoch(value + period) <= epoch + 1
    ensures value + period < (epoch + 1) * TICK_MODULUS <==> Epoch(value + period) == epoch
    ensures value < (epoch + 1) * TICK_MODULUS
  {
  }

  lemma DrainOneKeepsInv(s: Service, at: nat)
    requires Inv(s) && s.pending != []
    requires s.pending[0].value < (Epoch(s.now) + 1) * TICK_MODULUS <= at
    ensures Inv(DrainOne(s, (Epoch(s.now) + 1) * TICK_MODULUS, at))
  {
    hide Epoch, Inv, Insert, HasOwner, Reload;
    PopKeepsInv(s);
    var e, epoch := s.pending[0], Epoch(s.now);
    var s1 := CallBack(Pop(s), e.owner, e.value, at);
    EpochBelow(e.value, epoch);
    NextEpoch(e.value, s.timers[e.owner].period, epoch);
    CallBackKeepsInv(Pop(s), e.owner, e.value, at);
    ReloadKeepsInv(s1, e.owner, e.value);
    if IsAuto(s.timers, e.owner) && e.value + s.timers[e.owner].period < (epoch + 1) * TICK_MODULUS {
      ListKeepsInv(s1, e.owner, e.value + s.timers[e.owner].period);
    }
  }

  lemma EpochBelow(value: nat, epoch: nat)
    requires epoch <= Epoch(value) && value < (epoch + 1) * TICK_MODULUS
    ensures Epoch(value) == epoch
  {
  }

  /** Draining keeps the invariant and leaves only timers of the new epoch. */
  lemma {:induction false} DrainKeepsInv(s: Service, at: nat)
    requires Inv(s) && (Epoch(s.now) + 1) * TICK_MODULUS <= at
    ensures var s' := Drain(s, (Epoch(s.now) + 1) * TICK_MODULUS, at);
            && Inv(s') && s'.now == s.now && s'.timers == s.timers
            && forall i :: 0 <= i < |s'.pending| ==> (Epoch(s.now) + 1) * TICK_MODULUS <= s'.pending[i].value
    decreases Slack(s.pending, (Epoch(s.now) + 1) * TICK_MODULUS)
  {
    hide Epoch;
    var boundary := (Epoch(s.now) + 1) * TICK_MODULUS;
    if s.pending != [] && s.pending[0].value < boundary {
      DrainOneUsesSlack(s, boundary, at);
      DrainOneKeepsInv(s, at);
      DrainKeepsInv(DrainOne(s, boundary, at), at);
    }
  }

  /** Draining takes off exactly the timers that were listed in front of the boundary. */
  lemma {:induction false} DrainMembers(s: Service, at: nat, e: Entry)
    requires Inv(s) && (Epoch(s.now) + 1) * TICK_MODULUS <= at
    ensures e in Drain(s, (Epoch(s.now) + 1) * TICK_MODULUS, at).pending
            <==> e in s.pending && (Epoch(s.now) + 1) * TICK_MODULUS <= e.value
    decreases Slack(s.pending, (Epoch(s.now) + 1) * TICK_MODULUS)
  {
    hide Epoch, Inv, Sorted, Insert;
    var boundary := (Epoch(s.now) + 1) * TICK_MODULUS;
    if s.pending != [] && s.pending[0].value < boundary {
      var head, s1 := s.pending[0], DrainOne(s, boundary, at);
      InvPositive(s);
      DrainOneUsesSlack(s, boundary, at);
      DrainOneKeepsInv(s, at);
      DrainOneNow(s, boundary, at);
      DrainMembers(s1, at, e);
      assert s.pending == [head] + s.pending[1..];
      if IsAuto(s.timers, head.owner) {
        InsertMembers(s.pending[1..], Entry(head.owner, head.value + s.timers[head.owner].period));
      }
    } else {
      NoneBelow(s, boundary, e);
    }
  }

  lemma NoneBelow(s: Service, boundary: nat, e: Entry)
    requires Inv(s) && (s.pending == [] || boundary <= s.pending[0].value)
    ensures e in s.pending ==> boundary <= e.value
  {
  }

  lemma DrainOneNow(s: Service, boundary: nat, at: nat)
    requires s.pending != []
    ensures DrainOne(s, boundary, at).now == s.now
  {
  }

  lemma EpochStep(last: nat, now: nat)
    requires last <= now < last + TICK_MODULUS
    ensures Epoch(last) <= Epoch(now) <= Epoch(last) + 1
    ensures Epoch(now) != Epoch(last) <==> (Epoch(last) + 1) * TICK_MODULUS <= now
    ensures Epoch(now) != Epoch(last) <==> now % TICK_MODULUS < last % TICK_MODULUS
  {
  }

  lemma EpochFrom(value: nat, epoch: nat)
    requires Epoch(value) <= epoch + 1
    ensures (epoch + 1) * TICK_MODULUS <= value <==> Epoch(value) == epoch + 1
  {
  }

  lemma SampleKeepsInv(s: Service, now: nat)
    requires Inv(s) && TimeOk(s, now)
    ensures Inv(Sample(s, now))
  {
    hide Epoch, Sorted, DistinctOwners, Owned;
    if s.pending != [] {
      EpochStep(s.now, now);
      if Epoch(now) != Epoch(s.now) {
        DrainKeepsInv(s, now);
        var s' := Drain(s, (Epoch(s.now) + 1) * TICK_MODULUS, now);
        forall i | 0 <= i < |s'.pending| ensures Epoch(s'.pending[i].value) == Epoch(now) {
          EpochFrom(s'.pending[i].value, Epoch(s.now));
        }
      }
    }
  }

  /** After a rollover exactly the timers of the new epoch are listed. */
  lemma SampleMembers(s: Service, now: nat, e: Entry)
    requires Inv(s) && s.now <= now < s.now + TICK_MODULUS && Epoch(now) != Epoch(s.now)
    ensures Epoch(now) == Epoch(s.now) + 1
    ensures e in Sample(s, now).pending <==> e in s.pending && Epoch(e.value) == Epoch(now)
    ensures e in s.pending ==> (Epoch(e.value) == Epoch(now) <==> (Epoch(s.now) + 1) * TICK_MODULUS <= e.value)
  {
    hide Epoch, Sorted, DistinctOwners, Owned;
    EpochStep(s.now, now);
    DrainMembers(s, now, e);
    if e in s.pending {
      EpochFrom(e.value, Epoch(s.now));
    }
  }

  lemma PopKeepsInv(s: Service)
    requires Inv(s) && s.pending != []
    ensures Inv(Pop(s)) && !HasOwner(Pop(s).pending, s.pending[0].owner)
    ensures s.pending[0].owner in s.timers && s.timers[s.pending[0].owner].active
    ensures 0 < s.timers[s.pending[0].owner].period < TICK_MODULUS
    ensures Epoch(s.now) <= Epoch(s.pending[0].value)
  {
    hide Epoch;
    PopKeeps(s.pending);
  }

  lemma ExpireKeepsInv(s: Service)
    requires Inv(s) && s.pending != [] && s.pending[0].value <= s.now
    ensures Inv(Expire(s))
  {
    hide Epoch, Inv, Insert, HasOwner, CallBack, Reload;
    PopKeepsInv(s);
    var e, s1 := s.pending[0], Pop(s);
    var due := e.value + s.timers[e.owner].period;
    EpochUpTo(e.value, s.now);
    NextEpoch(e.value, s.timers[e.owner].period, Epoch(s.now));
    ChangesKeepInv(s1, e.owner, 0);
    ReloadKeepsInv(s1, e.owner, e.value);
    if s.timers[e.owner].autoReload && s.now < due {
      ListKeepsInv(s1, e.owner, due);
    }
    var s2 :=
      if !s.timers[e.owner].autoReload then SetActive(s1, e.owner, false)
      else if due <= s.now then Reload(s1, e.owner, e.value)
      else s1.(pending := Insert(s.pending[1..], Entry(e.owner, due)));
    ReloadNow(s1, e.owner, e.value);
    CallBackKeepsInv(s2, e.owner, e.value, s.now);
  }

  lemma ReloadNow(s: Service, timer: nat, time: nat)
    ensures Reload(s, timer, time).now == s.now
  {
  }

  lemma EpochUpTo(value: nat, now: nat)
    requires Epoch(now) <= Epoch(value) && value <= now
    ensures Epoch(value) == Epoch(now)
  {
  }

  /** An expiry less than 2^32 ticks ahead falls into this epoch or the next. */
  lemma EpochAhead(now: nat, due: nat)
    requires now < due < now + TICK_MODULUS
    ensures Epoch(now) <= Epoch(due) <= Epoch(now) + 1
  {
  }

  /** What the commands do to a timer that is on no list keeps the service invariant. */
  lemma ChangesKeepInv(s: Service, timer: nat, period: nat)
    requires Inv(s) && timer in s.timers && !HasOwner(s.pending, timer)
    ensures Inv(SetActive(s, timer, true)) && Inv(SetActive(s, timer, false))
    ensures Inv(s.(timers := s.timers - {timer}))
    ensures 0 < period < TICK_MODULUS ==>
              Inv(s.(timers := s.timers[timer := s.timers[timer].(active := true, period := period)]))
  {
    hide Epoch, Sorted, DistinctOwners;
  }

  lemma CallBackKeepsInv(s: Service, timer: nat, due: nat, at: nat)
    requires Inv(s) && due <= at
    ensures Inv(CallBack(s, timer, due, at))
  {
    hide Epoch, Sorted, DistinctOwners, Owned, WithinEpochs, PositivePeriods;
  }

  lemma ReloadKeepsInv(s: Service, timer: nat, time: nat)
    requires Inv(s)
    ensures Inv(Reload(s, timer, time))
  {
    hide Epoch, Sorted, DistinctOwners, Owned, WithinEpochs, PositivePeriods, NeverEarly;
  }

  lemma ApplyKeepsInv(s: Service, m: Message)
    requires Inv(s) && m.timer in s.timers && !HasOwner(s.pending, m.timer) && MessageOk(m, s.now)
    ensures Inv(Apply(s, m))
  {
    hide Epoch, Inv, HasOwner, Insert, Reload, CallBack;
    ChangesKeepInv(s, m.timer, m.value);
    InvPeriod(s, m.timer);
    var s1 := SetActive(s, m.timer, true);
    if IsStart(m.id) {
      var due := m.value + s.timers[m.timer].period;
      if s.now < due {
        EpochAhead(s.now, due);
        ListKeepsInv(s1, m.timer, due);
      } else {
        CallBackKeepsInv(s1, m.timer, due, s.now);
        ReloadKeepsInv(CallBack(s1, m.timer, due, s.now), m.timer, due);
      }
    } else if IsChangePeriod(m.id) && !IsStop(m.id) {
      EpochAhead(s.now, s.now + m.value);
      var s2 := s.(timers := s.timers[m.timer := s.timers[m.timer].(active := true, period := m.value)]);
      ListKeepsInv(s2, m.timer, s.now + m.value);
    }
  }

  lemma InvPeriod(s: Service, timer: nat)
    requires Inv(s) && timer in s.timers
    ensures 0 < s.timers[timer].period < TICK_MODULUS
  {
  }

  lemma ListKeepsInv(s: Service, timer: nat, due: nat)
    requires Inv(s) && !HasOwner(s.pending, timer) && timer in s.timers && s.timers[timer].active
    requires Epoch(s.now) <= Epoch(due) <= Epoch(s.now) + 1
    ensures Inv(s.(pending := Insert(s.pending, Entry(timer, due))))
  {
    hide Epoch, Sorted, DistinctOwners, Insert, Owned, WithinEpochs, NeverEarly, PositivePeriods;
    InsertKeepsSorted(s.pending, Entry(timer, due));
    InsertKeepsDistinct(s.pending, Entry(timer, due));
    InsertKeepsAll(s.pending, Entry(timer, due), s.timers, Epoch(s.now));
  }

  /** Draining lists no timer that was not listed before. */
  lemma {:induction false} DrainListsNone(s: Service, boundary: nat, at: nat, timer: nat)
    requires PositivePeriods(s.timers) && !HasOwner(s.pending, timer)
    ensures !HasOwner(Drain(s, boundary, at).pending, timer)
    decreases Slack(s.pending, boundary)
  {
    if s.pending != [] && s.pending[0].value < boundary {
      var e := s.pending[0];
      DrainOneUsesSlack(s, boundary, at);
      if IsAuto(s.timers, e.owner) {
        NotInserted(s.pending[1..], Entry(e.owner, e.value + s.timers[e.owner].period), timer);
      }
      DrainListsNone(DrainOne(s, boundary, at), boundary, at, timer);
    }
  }

  lemma NotInserted(s: seq<Entry>, e: Entry, owner: nat)
    requires !HasOwner(s, owner) && e.owner != owner
    ensures !HasOwner(Insert(s, e), owner)
  {
    hide Insert;
    InsertAt(s, e);
  }

  lemma TurnKeepsInv(s: Service, now: nat)
    requires Inv(s) && TimeOk(s, now)
    ensures Inv(Turn(s, now))
  {
    hide Expire, Drain, Epoch;
    SampleKeepsInv(s, now);
    if Epoch(now) == Epoch(s.now) && s.pending != [] && s.pending[0].value <= now {
      ExpireKeepsInv(Sample(s, now));
    }
  }

  /** The service once the command is off the queue and its timer off the list. */
  ghost function Taken(s: Service): Service
    requires s.queue != []
  {
    s.(queue := s.queue[1..], pending := Without(s.pending, s.queue[0].timer))
  }

  lemma TakenKeepsInv(s: Service, now: nat)
    requires Inv(s) && Guard(s, HandleCommand(now))
    ensures Inv(Taken(s)) && TimeOk(Taken(s), now) && !HasOwner(Taken(s).pending, s.queue[0].timer)
    ensures Inv(Sample(Taken(s), now)) && !HasOwner(Sample(Taken(s), now).pending, s.queue[0].timer)
    ensures Sample(Taken(s), now).timers == s.timers && Sample(Taken(s), now).now == now
    ensures Command(s, now) == Apply(Sample(Taken(s), now), s.queue[0])
  {
    hide Apply, Drain, Epoch, Without;
    var m, s1 := s.queue[0], Taken(s);
    WithoutKeeps(s.pending, m.timer, s.timers, Epoch(s.now));
    WithoutEmpty(s.pending, m.timer);
    SampleKeepsInv(s1, now);
    SampleKeepsTimers(s1, now);
    DrainListsNone(s1, (Epoch(s1.now) + 1) * TICK_MODULUS, now, m.timer);
  }

  lemma CommandKeepsInv(s: Service, now: nat)
    requires Inv(s) && Guard(s, HandleCommand(now))
    ensures Inv(Command(s, now))
  {
    hide Apply, Sample, Taken;
    TakenKeepsInv(s, now);
    ApplyKeepsInv(Sample(Taken(s), now), s.queue[0]);
  }

  lemma WithoutEmpty(s: seq<Entry>, owner: nat)
    ensures s == [] ==> Without(s, owner) == []
  {
  }

  lemma StepKeepsInv(s: Service, a: Action)
    requires Inv(s) && Guard(s, a)
    ensures Inv(Step(s, a))
  {
    match a
    case DaemonTurn(now) => TurnKeepsInv(s, now);
    case HandleCommand(now) => CommandKeepsInv(s, now);
    case Post(_) =>
  }

  // ---------------------------------------------------------------- drift-free and exactly once

  /** The k-th expiry of a timer started at `start`. */
  function Due(start: nat, period: nat, k: nat): nat {
    if k == 0 then start else Due(start, period, k - 1) + period
  }

  lemma {:induction false} DueExact(start: nat, period: nat, k: nat)
    ensures Due(start, period, k) == start + k * period
  {
    if k > 0 {
      DueExact(start, period, k - 1);
    }
  }

  /** The first k expiries. */
  function Dues(start: nat, period: nat, k: nat): seq<nat> {
    if k == 0 then [] else Dues(start, period, k - 1) + [Due(start, period, k)]
  }

  /** When the callbacks of a timer were due, in the order in which they ran. */
  function Fired(log: seq<Fire>, timer: nat): seq<nat> {
    if log == [] then []
    else
      var before, last := Fired(log[..|log| - 1], timer), log[|log| - 1];
      if last.timer == timer then before + [last.due] else before
  }

  lemma FiredAppend(log: seq<Fire>, f: Fire, timer: nat)
    ensures Fired(log + [f], timer) == Fired(log, timer) + if f.timer == timer then [f.due] else []
  {
    assert (log + [f])[..|log|] == log;
  }

  ghost predicate Listed(pending: seq<Entry>, timer: nat, due: nat) {
    Entry(timer, due) in pending
  }

  ghost predicate Queued(queue: seq<Message>, timer: nat) {
    exists i :: 0 <= i < |queue| && queue[i].timer == timer
  }

  /** The only queued command for the timer is to start it as of the given time. */
  ghost predicate StartQueuedOnce(queue: seq<Message>, timer: nat, time: nat) {
    exists i :: 0 <= i < |queue| && IsStart(queue[i].id) && queue[i].timer == timer && queue[i].value == time
      && forall j :: 0 <= j < |queue| && queue[j].timer == timer ==> j == i
  }

  /**
   Timer t, started at `start` with period P, has called back k times, exactly for its first k
   expiries; and either it is listed for expiry k+1, or exactly one start command is queued for it,
   as of expiry k.
   */
  ghost predicate Chain(s: Service, t: nat, start: nat, period: nat, before: seq<nat>, k: nat) {
    && IsAuto(s.timers, t) && s.timers[t].period == period
    && Fired(s.log, t) == before + Dues(start, period, k)
    && if HasOwner(s.pending, t)
       then Listed(s.pending, t, Due(start, period, k + 1)) && !Queued(s.queue, t)
       else StartQueuedOnce(s.queue, t, Due(start, period, k))
  }

  // What happens to other timers leaves the timer's chain alone.

  lemma InsertOther(s: seq<Entry>, e: Entry, t: nat)
    requires e.owner != t
    ensures HasOwner(Insert(s, e), t) <==> HasOwner(s, t)
    ensures forall v: nat :: Listed(Insert(s, e), t, v) <==> Listed(s, t, v)
  {
    InsertMembers(s, e);
    OwnerListed(s, t);
    OwnerListed(Insert(s, e), t);
  }

  lemma OwnerListed(s: seq<Entry>, t: nat)
    ensures HasOwner(s, t) <==> exists v: nat :: Listed(s, t, v)
  {
    if HasOwner(s, t) {
      var i :| 0 <= i < |s| && s[i].owner == t;
      assert Listed(s, t, s[i].value);
    }
  }

  lemma PopOther(s: seq<Entry>, t: nat)
    requires s != [] && s[0].owner != t
    ensures HasOwner(s[1..], t) <==> HasOwner(s, t)
    ensures forall v: nat :: Listed(s[1..], t, v) <==> Listed(s, t, v)
  {
    assert s == [s[0]] + s[1..];
    OwnerListed(s, t);
    OwnerListed(s[1..], t);
  }

  lemma WithoutOther(s: seq<Entry>, u: nat, t: nat)
    requires u != t
    ensures HasOwner(Without(s, u), t) <==> HasOwner(s, t)
    ensures forall v: nat :: Listed(Without(s, u), t, v) <==> Listed(s, t, v)
  {
    WithoutOtherMembers(s, u, t);
    OwnerListed(s, t);
    OwnerListed(Without(s, u), t);
  }

  lemma {:induction false} WithoutOtherMembers(s: seq<Entry>, u: nat, t: nat)
    requires u != t
    ensures forall e: Entry :: e.owner == t ==> (e in Without(s, u) <==> e in s)
  {
    if s != [] {
      assert s == [s[0]] + s[1..];
      WithoutOtherMembers(s[1..], u, t);
    }
  }

  lemma AppendOther(queue: seq<Message>, m: Message, t: nat)
    requires m.timer != t
    ensures Queued(queue + [m], t) <==> Queued(queue, t)
    ensures forall v: nat :: StartQueuedOnce(queue, t, v) ==> StartQueuedOnce(queue + [m], t, v)
  {
    var q := queue + [m];
    if i :| 0 <= i < |queue| && queue[i].timer == t { assert q[i].timer == t; }
    forall v: nat | StartQueuedOnce(queue, t, v) ensures StartQueuedOnce(q, t, v) {
      var i :| 0 <= i < |queue| && IsStart(queue[i].id) && queue[i].timer == t && queue[i].value == v
        && forall j :: 0 <= j < |queue| && queue[j].timer == t ==> j == i;
      assert IsStart(q[i].id) && q[i].timer == t && q[i].value == v;
    }
  }

  lemma UnqueueOther(queue: seq<Message>, t: nat)
    requires queue != [] && queue[0].timer != t
    ensures Queued(queue[1..], t) <==> Queued(queue, t)
    ensures forall v: nat :: StartQueuedOnce(queue, t, v) ==> StartQueuedOnce(queue[1..], t, v)
  {
    var q := queue[1..];
    if i :| 0 <= i < |queue| && queue[i].timer == t { assert q[i - 1].timer == t; }
    forall v: nat | StartQueuedOnce(queue, t, v) ensures StartQueuedOnce(q, t, v) {
      var i :| 0 <= i < |queue| && IsStart(queue[i].id) && queue[i].timer == t && queue[i].value == v
        && forall j :: 0 <= j < |queue| && queue[j].timer == t ==> j == i;
      assert IsStart(q[i - 1].id) && q[i - 1].timer == t && q[i - 1].value == v;
    }
  }

  /** s' differs from s only in what concerns other timers than t. */
  ghost predicate SameFor(s: Service, s': Service, t: nat) {
    && (t in s.timers <==> t in s'.timers) && (t in s.timers ==> s'.timers[t] == s.timers[t])
    && s'.lost[t] == s.lost[t]
    && Fired(s'.log, t) == Fired(s.log, t)
    && (HasOwner(s'.pending, t) <==> HasOwner(s.pending, t))
    && (forall v: nat :: Listed(s'.pending, t, v) <==> Listed(s.pending, t, v))
    && (Queued(s'.queue, t) <==> Queued(s.queue, t))
    && (forall v: nat :: StartQueuedOnce(s.queue, t, v) ==> StartQueuedOnce(s'.queue, t, v))
  }

  lemma SameForCompose(s: Service, s1: Service, s2: Service, t: nat)
    requires SameFor(s, s1, t) && SameFor(s1, s2, t)
    ensures SameFor(s, s2, t)
  {
    hide Fired, HasOwner, Listed, Queued, StartQueuedOnce;
  }

  lemma ChainSame(s: Service, s': Service, t: nat, start: nat, period: nat, before: seq<nat>, k: nat)
    requires Chain(s, t, start, period, before, k) && SameFor(s, s', t)
    ensures Chain(s', t, start, period, before, k) && s'.lost[t] == s.lost[t]
  {
    hide Fired, HasOwner, Listed, Queued, StartQueuedOnce, Due, Dues;
  }

  lemma ReloadOther(s: Service, u: nat, time: nat, t: nat)
    requires u != t
    ensures SameFor(s, Reload(s, u, time), t)
  {
    hide Fired, HasOwner, Listed, Queued, StartQueuedOnce;
    AppendOther(s.queue, Message(COMMAND_START_DONT_TRACE, u, time), t);
  }

  lemma CallBackOther(s: Service, u: nat, due: nat, at: nat, t: nat)
    requires u != t
    ensures SameFor(s, CallBack(s, u, due, at), t)
  {
    FiredAppend(s.log, Fire(u, due, at), t);
    hide Fired, HasOwner, Listed, Queued, StartQueuedOnce;
  }

  lemma ListOther(s: Service, e: Entry, t: nat)
    requires e.owner != t
    ensures SameFor(s, s.(pending := Insert(s.pending, e)), t)
  {
    InsertOther(s.pending, e, t);
    hide Fired, HasOwner, Listed, Queued, StartQueuedOnce, Insert;
  }

  lemma DrainOneOther(s: Service, boundary: nat, at: nat, t: nat)
    requires s.pending != [] && s.pending[0].owner != t
    ensures SameFor(s, DrainOne(s, boundary, at), t)
  {
    hide SameFor, Insert, Fired, Reload;
    var e := s.pending[0];
    var s1 := CallBack(Pop(s), e.owner, e.value, at);
    PopSame(s, t);
    CallBackOther(Pop(s), e.owner, e.value, at, t);
    SameForCompose(s, Pop(s), s1, t);
    if IsAuto(s.timers, e.owner) {
      var due := e.value + s.timers[e.owner].period;
      ListOther(s1, Entry(e.owner, due), t);
      ReloadOther(s1, e.owner, e.value, t);
      SameForCompose(s, s1, DrainOne(s, boundary, at), t);
    }
  }

  lemma PopSame(s: Service, t: nat)
    requires s.pending != [] && s.pending[0].owner != t
    ensures SameFor(s, Pop(s), t)
  {
    hide Fired, HasOwner, Listed, Queued, StartQueuedOnce;
    PopOther(s.pending, t);
  }

  lemma SetActiveOther(s: Service, u: nat, active: bool, t: nat)
    requires u in s.timers && u != t
    ensures SameFor(s, SetActive(s, u, active), t)
  {
  }

  lemma ExpireOther(s: Service, t: nat)
    requires s.pending != [] && s.pending[0].owner in s.timers && s.pending[0].owner != t
    ensures SameFor(s, Expire(s), t)
  {
    hide SameFor, Insert, Fired, Reload, SetActive, CallBack;
    var e := s.pending[0];
    var due := e.value + s.timers[e.owner].period;
    PopSame(s, t);
    var s1 :=
      if !s.timers[e.owner].autoReload then SetActive(Pop(s), e.owner, false)
      else if due <= s.now then Reload(Pop(s), e.owner, e.value)
      else Pop(s).(pending := Insert(s.pending[1..], Entry(e.owner, due)));
    SetActiveOther(Pop(s), e.owner, false, t);
    ReloadOther(Pop(s), e.owner, e.value, t);
    ListOther(Pop(s), Entry(e.owner, due), t);
    SameForCompose(s, Pop(s), s1, t);
    CallBackOther(s1, e.owner, e.value, s.now, t);
    SameForCompose(s, s1, Expire(s), t);
  }

  lemma ApplyOther(s: Service, m: Message, t: nat)
    requires m.timer in s.timers && m.timer != t
    ensures SameFor(s, Apply(s, m), t)
  {
    hide SameFor, Insert, Fired, Reload, CallBack;
    SameForSelf(s, t);
    SetActiveOther(s, m.timer, true, t);
    SetActiveOther(s, m.timer, false, t);
    var s1 := SetActive(s, m.timer, true);
    if IsStart(m.id) {
      var due := m.value + s.timers[m.timer].period;
      if s.now < due {
        ListOther(s1, Entry(m.timer, due), t);
      } else {
        var s2 := CallBack(s1, m.timer, due, s.now);
        CallBackOther(s1, m.timer, due, s.now, t);
        SameForCompose(s, s1, s2, t);
        ReloadOther(s2, m.timer, due, t);
        if s.timers[m.timer].autoReload { SameForCompose(s, s2, Apply(s, m), t); }
        SameForSelf(s2, t);
      }
      if s.now < due { SameForCompose(s, s1, Apply(s, m), t); }
    } else if IsChangePeriod(m.id) && !IsStop(m.id) {
      var s2 := s.(timers := s.timers[m.timer := s.timers[m.timer].(active := true, period := m.value)]);
      TimersOther(s, s2, t);
      ListOther(s2, Entry(m.timer, s.now + m.value), t);
      SameForCompose(s, s2, Apply(s, m), t);
    } else {
      TimersOther(s, s.(timers := s.timers - {m.timer}), t);
    }
  }

  lemma SameForSelf(s: Service, t: nat)
    ensures SameFor(s, s, t)
  {
  }

  lemma TimersOther(s: Service, s': Service, t: nat)
    requires s' == s.(timers := s'.timers)
    requires (t in s.timers <==> t in s'.timers) && (t in s.timers ==> s'.timers[t] == s.timers[t])
    ensures SameFor(s, s', t)
  {
  }

  // What happens to the timer itself moves its chain on, one expiry at a time.

  /** The timer has called back exactly for its first k expiries, and is neither listed nor in the queue. */
  ghost predicate Gone(s: Service, t: nat, start: nat, period: nat, before: seq<nat>, k: nat) {
    && Fired(s.log, t) == before + Dues(start, period, k)
    && !HasOwner(s.pending, t) && !Queued(s.queue, t)
  }

  /**
   k expiries have been called back; and the chain goes on if no reload command of the timer has been lost
   beyond the given count, and is over if one has.
   */
  ghost predicate OnTrack(s: Service, lost: nat, t: nat, start: nat, period: nat, before: seq<nat>, k: nat) {
    if s.lost[t] == lost then Chain(s, t, start, period, before, k)
    else lost < s.lost[t] && Gone(s, t, start, period, before, k)
  }

  lemma OnTrackSame(s: Service, s': Service, lost: nat, t: nat, start: nat, period: nat, before: seq<nat>, k: nat)
    requires OnTrack(s, lost, t, start, period, before, k) && SameFor(s, s', t)
    ensures OnTrack(s', lost, t, start, period, before, k)
  {
    hide Fired, HasOwner, Listed, Queued, StartQueuedOnce, Due, Dues;
  }

  lemma GoneNotChain(s: Service, t: nat, start: nat, period: nat, before: seq<nat>, k: nat)
    requires Gone(s, t, start, period, before, k)
    ensures !Chain(s, t, start, period, before, k)
  {
    hide Fired, HasOwner, Due, Dues;
  }

  /** A timer that has called back and is on no list asks to be restarted as of the expiry just served. */
  lemma ReloadOwn(s: Service, t: nat, start: nat, period: nat, before: seq<nat>, k: nat)
    requires IsAuto(s.timers, t) && s.timers[t].period == period
    requires Fired(s.log, t) == before + Dues(start, period, k)
    requires !HasOwner(s.pending, t) && !Queued(s.queue, t)
    ensures OnTrack(Reload(s, t, Due(start, period, k)), s.lost[t], t, start, period, before, k)
    ensures Reload(s, t, Due(start, period, k)).lost[t] == s.lost[t] <==> |s.queue| < QUEUE_LENGTH
  {
    hide Fired, Due, Dues, HasOwner;
    var m := Message(COMMAND_START_DONT_TRACE, t, Due(start, period, k));
    var q := s.queue + [m];
    assert IsStart(q[|s.queue|].id) && q[|s.queue|].timer == t && q[|s.queue|].value == m.value;
    assert forall j :: 0 <= j < |s.queue| ==> q[j] == s.queue[j];
    assert StartQueuedOnce(q, t, Due(start, period, k));
  }

  lemma ListOwn(s: Service, t: nat, start: nat, period: nat, before: seq<nat>, k: nat)
    requires IsAuto(s.timers, t) && s.timers[t].period == period
    requires Fired(s.log, t) == before + Dues(start, period, k)
    requires !HasOwner(s.pending, t) && !Queued(s.queue, t)
    ensures Chain(s.(pending := Insert(s.pending, Entry(t, Due(start, period, k + 1)))), t, start, period, before, k)
  {
    hide Fired, Due, Dues, Queued, HasOwner, Insert;
    InsertMembers(s.pending, Entry(t, Due(start, period, k + 1)));
    assert Listed(Insert(s.pending, Entry(t, Due(start, period, k + 1))), t, Due(start, period, k + 1));
    OwnerListed(Insert(s.pending, Entry(t, Due(start, period, k + 1))), t);
  }

  lemma FiredOwn(s: Service, t: nat, start: nat, period: nat, before: seq<nat>, k: nat, at: nat)
    requires Fired(s.log, t) == before + Dues(start, period, k)
    ensures Fired(CallBack(s, t, Due(start, period, k + 1), at).log, t) == before + Dues(start, period, k + 1)
    ensures Due(start, period, k + 2) == Due(start, period, k + 1) + period
  {
    FiredAppend(s.log, Fire(t, Due(start, period, k + 1), at), t);
  }

  /** A listed chain: the entry of the timer is the one for expiry k+1. */
  lemma ListedEntry(s: Service, t: nat, start: nat, period: nat, before: seq<nat>, k: nat)
    requires Chain(s, t, start, period, before, k) && DistinctOwners(s.pending)
    requires s.pending != [] && s.pending[0].owner == t
    ensures s.pending[0] == Entry(t, Due(start, period, k + 1))
    ensures !HasOwner(s.pending[1..], t) && !Queued(s.queue, t)
  {
    hide Fired, Due, Dues;
    assert HasOwner(s.pending, t);
    var v := Due(start, period, k + 1);
    assert Listed(s.pending, t, v);
    var i :| 0 <= i < |s.pending| && s.pending[i] == Entry(t, v);
    if i != 0 { assert s.pending[0].owner != s.pending[i].owner; }
  }

  lemma ChainDrainOne(s: Service, boundary: nat, at: nat, t: nat, start: nat, period: nat, before: seq<nat>, k: nat)
    returns (k': nat)
    requires s.pending != [] && DistinctOwners(s.pending) && Chain(s, t, start, period, before, k)
    ensures k <= k' && OnTrack(DrainOne(s, boundary, at), s.lost[t], t, start, period, before, k')
  {
    hide Fired, Due, Dues, Queued, HasOwner, Insert, Listed, StartQueuedOnce, Reload, DistinctOwners, SameFor;
    var e := s.pending[0];
    if e.owner != t {
      DrainOneOther(s, boundary, at, t);
      ChainSame(s, DrainOne(s, boundary, at), t, start, period, before, k);
      k' := k;
    } else {
      ListedEntry(s, t, start, period, before, k);
      FiredOwn(Pop(s), t, start, period, before, k, at);
      var s1 := CallBack(Pop(s), t, e.value, at);
      ListOwn(s1, t, start, period, before, k + 1);
      ReloadOwn(s1, t, start, period, before, k + 1);
      k' := k + 1;
    }
  }

  lemma {:induction false} ChainDrain(s: Service, at: nat, t: nat, start: nat, period: nat, before: seq<nat>, k: nat)
    returns (k': nat)
    requires Inv(s) && (Epoch(s.now) + 1) * TICK_MODULUS <= at && Chain(s, t, start, period, before, k)
    ensures k <= k' && OnTrack(Drain(s, (Epoch(s.now) + 1) * TICK_MODULUS, at), s.lost[t], t, start, period, before, k')
    decreases Slack(s.pending, (Epoch(s.now) + 1) * TICK_MODULUS)
  {
    hide Chain, Epoch, SameFor, HasOwner;
    var boundary := (Epoch(s.now) + 1) * TICK_MODULUS;
    k' := k;
    if s.pending != [] && s.pending[0].value < boundary {
      var s1 := DrainOne(s, boundary, at);
      DrainOneUsesSlack(s, boundary, at);
      DrainOneKeepsInv(s, at);
      k' := ChainDrainOne(s, boundary, at, t, start, period, before, k);
      if s1.lost[t] == s.lost[t] {
        k' := ChainDrain(s1, at, t, start, period, before, k');
      } else {
        DrainIdle(s1, boundary, at, t);
        OnTrackSame(s1, Drain(s1, boundary, at), s.lost[t], t, start, period, before, k');
      }
    }
  }

  lemma ChainSample(s: Service, now: nat, t: nat, start: nat, period: nat, before: seq<nat>, k: nat)
    returns (k': nat)
    requires Inv(s) && TimeOk(s, now) && Chain(s, t, start, period, before, k)
    ensures k <= k' && OnTrack(Sample(s, now), s.lost[t], t, start, period, before, k')
  {
    hide Epoch, Fired, Due, Dues, Queued, HasOwner, Listed, StartQueuedOnce;
    k' := k;
    if Epoch(now) != Epoch(s.now) && s.pending != [] {
      EpochStep(s.now, now);
      k' := ChainDrain(s, now, t, start, period, before, k);
    }
  }

  lemma ChainExpire(s: Service, t: nat, start: nat, period: nat, before: seq<nat>, k: nat)
    returns (k': nat)
    requires Inv(s) && s.pending != [] && Chain(s, t, start, period, before, k)
    ensures k <= k' && OnTrack(Expire(s), s.lost[t], t, start, period, before, k')
    ensures s.pending[0].owner == t ==> k' == k + 1
  {
    hide Fired, Due, Dues, Queued, HasOwner, Insert, Listed, StartQueuedOnce, DistinctOwners, SameFor, Sorted;
    var e := s.pending[0];
    if e.owner != t {
      ExpireOther(s, t);
      ChainSame(s, Expire(s), t, start, period, before, k);
      k' := k;
    } else {
      ListedEntry(s, t, start, period, before, k);
      FiredOwn(Pop(s), t, start, period, before, k, s.now);
      var s1 := CallBack(Pop(s), t, e.value, s.now);
      ListOwn(s1, t, start, period, before, k + 1);
      ReloadOwn(s1, t, start, period, before, k + 1);
      k' := k + 1;
      assert Expire(s) == if e.value + period <= s.now then Reload(s1, t, e.value)
                          else s1.(pending := Insert(s1.pending, Entry(t, e.value + period)));
    }
  }

  lemma ChainTurn(s: Service, now: nat, t: nat, start: nat, period: nat, before: seq<nat>, k: nat)
    returns (k': nat)
    requires Inv(s) && TimeOk(s, now) && Chain(s, t, start, period, before, k)
    ensures k <= k' && OnTrack(Turn(s, now), s.lost[t], t, start, period, before, k')
  {
    hide Chain, Epoch, Drain, Expire;
    SampleKeepsInv(s, now);
    k' := ChainSample(s, now, t, start, period, before, k);
    var s1 := Sample(s, now);
    if Epoch(now) == Epoch(s.now) && s.pending != [] && s.pending[0].value <= now {
      k' := ChainExpire(s1, t, start, period, before, k');
    }
  }

  // The commands.

  /** A timer that is neither listed nor in the queue is left alone by draining. */
  lemma {:induction false} DrainIdle(s: Service, boundary: nat, at: nat, t: nat)
    requires PositivePeriods(s.timers) && !HasOwner(s.pending, t)
    ensures SameFor(s, Drain(s, boundary, at), t)
    decreases Slack(s.pending, boundary)
  {
    hide SameFor, HasOwner;
    SameForSelf(s, t);
    if s.pending != [] && s.pending[0].value < boundary {
      HeadOwner(s.pending);
      DrainOneUsesSlack(s, boundary, at);
      DrainOneOther(s, boundary, at, t);
      SameForOwner(s, DrainOne(s, boundary, at), t);
      DrainIdle(DrainOne(s, boundary, at), boundary, at, t);
      SameForCompose(s, DrainOne(s, boundary, at), Drain(s, boundary, at), t);
    }
  }

  lemma HeadOwner(s: seq<Entry>)
    requires s != []
    ensures HasOwner(s, s[0].owner)
  {
  }

  lemma SameForOwner(s: Service, s': Service, t: nat)
    requires SameFor(s, s', t)
    ensures HasOwner(s'.pending, t) <==> HasOwner(s.pending, t)
  {
  }

  /** The timer's own start command, at the head of the queue, is carried out. */
  lemma ChainOwnStart(s: Service, now: nat, t: nat, start: nat, period: nat, before: seq<nat>, k: nat)
    returns (k': nat)
    requires Inv(s) && Guard(s, HandleCommand(now)) && s.queue[0].timer == t && Chain(s, t, start, period, before, k)
    ensures k <= k' && OnTrack(Command(s, now), s.lost[t], t, start, period, before, k')
  {
    hide Fired, Due, Dues, HasOwner, Insert, Listed, DistinctOwners, Sorted, Epoch, Drain, Owned, WithinEpochs,
      NeverEarly;
    var m := s.queue[0];
    OwnStartAtHead(s, t, start, period, before, k);
    WithoutAbsent(s.pending, t);
    var s1 := s.(queue := s.queue[1..]);
    var s2 := Sample(s1, now);
    SampleKeepsTimers(s1, now);
    DrainIdle(s1, (Epoch(s1.now) + 1) * TICK_MODULUS, now, t);
    SameForSelf(s1, t);
    assert SameFor(s1, s2, t);
    var s3 := SetActive(s2, t, true);
    FiredOwn(s3, t, start, period, before, k, now);
    if now < m.value + period {
      ListOwn(s3, t, start, period, before, k);
      k' := k;
    } else {
      ReloadOwn(CallBack(s3, t, m.value + period, now), t, start, period, before, k + 1);
      k' := k + 1;
    }
  }

  lemma OwnStartAtHead(s: Service, t: nat, start: nat, period: nat, before: seq<nat>, k: nat)
    requires s.queue != [] && s.queue[0].timer == t && Chain(s, t, start, period, before, k)
    ensures IsStart(s.queue[0].id) && s.queue[0].value == Due(start, period, k)
    ensures !HasOwner(s.pending, t) && !Queued(s.queue[1..], t)
    ensures Due(start, period, k + 1) == Due(start, period, k) + period
  {
    hide Fired, Dues;
    assert Queued(s.queue, t);
    assert StartQueuedOnce(s.queue, t, Due(start, period, k));
    assert forall i :: 0 <= i < |s.queue[1..]| ==> s.queue[1..][i] == s.queue[i + 1];
  }

  /** A command for another timer is carried out. */
  lemma ChainOtherCommand(s: Service, now: nat, t: nat, start: nat, period: nat, before: seq<nat>, k: nat)
    returns (k': nat)
    requires Inv(s) && Guard(s, HandleCommand(now)) && s.queue[0].timer != t && Chain(s, t, start, period, before, k)
    ensures k <= k' && OnTrack(Command(s, now), s.lost[t], t, start, period, before, k')
  {
    hide Chain, Epoch, Drain, Apply, SameFor, Without;
    var m, s1 := s.queue[0], Taken(s);
    TakeOther(s, t);
    ChainSame(s, s1, t, start, period, before, k);
    WithoutKeeps(s.pending, m.timer, s.timers, Epoch(s.now));
    WithoutEmpty(s.pending, m.timer);
    k' := ChainSample(s1, now, t, start, period, before, k);
    SampleKeepsTimers(s1, now);
    var s2 := Sample(s1, now);
    ApplyOther(s2, m, t);
    SameForLost(s, s1, t);
    OnTrackSame(s2, Apply(s2, m), s.lost[t], t, start, period, before, k');
  }

  lemma SameForLost(s: Service, s': Service, t: nat)
    requires SameFor(s, s', t)
    ensures s'.lost[t] == s.lost[t]
  {
  }

  lemma TakeOther(s: Service, t: nat)
    requires s.queue != [] && s.queue[0].timer != t
    ensures SameFor(s, s.(queue := s.queue[1..], pending := Without(s.pending, s.queue[0].timer)), t)
  {
    hide Fired, HasOwner, Listed, Queued, StartQueuedOnce, Without;
    UnqueueOther(s.queue, t);
    WithoutOther(s.pending, s.queue[0].timer, t);
  }

  lemma ChainStep(s: Service, a: Action, t: nat, start: nat, period: nat, before: seq<nat>, k: nat)
    returns (k': nat)
    requires Inv(s) && Guard(s, a) && Chain(s, t, start, period, before, k)
    requires a.Post? ==> a.m.timer != t
    ensures k <= k' && OnTrack(Step(s, a), s.lost[t], t, start, period, before, k')
  {
    hide Chain, Turn, Command;
    match a
    case DaemonTurn(now) =>
      k' := ChainTurn(s, now, t, start, period, before, k);
    case HandleCommand(now) =>
      if s.queue[0].timer == t {
        k' := ChainOwnStart(s, now, t, start, period, before, k);
      } else {
        k' := ChainOtherCommand(s, now, t, start, period, before, k);
      }
    case Post(m) =>
      PostOther(s, m, t);
      OnTrackSame(s, Step(s, a), s.lost[t], t, start, period, before, k);
      k' := k;
  }

  /** A timer that is neither listed nor in the queue stays as it is until a command for it is posted. */
  lemma GoneStep(s: Service, a: Action, t: nat)
    requires Inv(s) && Guard(s, a) && !HasOwner(s.pending, t) && !Queued(s.queue, t)
    requires a.Post? ==> a.m.timer != t
    ensures SameFor(s, Step(s, a), t)
  {
    hide SameFor, HasOwner, Epoch, Drain, Apply, Expire, Without, Sorted, DistinctOwners, Owned, WithinEpochs,
      NeverEarly;
    SameForSelf(s, t);
    match a
    case DaemonTurn(now) =>
      var s1 := Sample(s, now);
      DrainIdle(s, (Epoch(s.now) + 1) * TICK_MODULUS, now, t);
      SameForNow(s, s1, now, t);
      if Epoch(now) == Epoch(s.now) && s.pending != [] && s.pending[0].owner in s.timers {
        HeadOwner(s.pending);
        ExpireOther(s1, t);
        SameForCompose(s, s1, Expire(s1), t);
      }
    case HandleCommand(now) =>
      var s1, s2 := Taken(s), Sample(Taken(s), now);
      TakeOther(s, t);
      SameForOwner(s, s1, t);
      DrainIdle(s1, (Epoch(s1.now) + 1) * TICK_MODULUS, now, t);
      SameForNow(s1, s2, now, t);
      SampleKeepsTimers(s1, now);
      ApplyOther(s2, s.queue[0], t);
      SameForCompose(s, s1, s2, t);
      SameForCompose(s, s2, Apply(s2, s.queue[0]), t);
    case Post(m) => PostOther(s, m, t);
  }

  lemma SameForNow(s: Service, s': Service, now: nat, t: nat)
    requires PositivePeriods(s.timers) && s' == Sample(s, now)
    requires SameFor(s, Drain(s, (Epoch(s.now) + 1) * TICK_MODULUS, now), t)
    ensures SameFor(s, s', t)
  {
    hide Fired, HasOwner, Listed, Queued, StartQueuedOnce, Drain, Epoch;
  }

  lemma PostOther(s: Service, m: Message, t: nat)
    requires m.timer != t
    ensures SameFor(s, if |s.queue| < QUEUE_LENGTH then s.(queue := s.queue + [m]) else s, t)
  {
    hide Fired, HasOwner, Listed, Queued, StartQueuedOnce;
    AppendOther(s.queue, m, t);
  }

  lemma InvPositive(s: Service)
    requires Inv(s)
    ensures PositivePeriods(s.timers)
  {
  }

  /** Over every run the invariant holds; so no callback ever comes before its expiry. */
  lemma {:induction false} RunKeepsInv(states: seq<Service>, actions: seq<Action>, n: nat)
    requires IsRun(states, actions) && Inv(states[0]) && n <= |actions|
    ensures Inv(states[n]) && NeverEarly(states[n].log)
  {
    hide Step;
    if n > 0 {
      RunKeepsInv(states, actions, n - 1);
      assert states[n] == Step(states[n - 1], actions[n - 1]);
      StepKeepsInv(states[n - 1], actions[n - 1]);
    }
  }

  /** Sending the start command of an idle auto-reload timer begins its chain. */
  lemma StartBegins(s: Service, t: nat, start: nat)
    requires Inv(s) && IsAuto(s.timers, t) && |s.queue| < QUEUE_LENGTH
    requires !HasOwner(s.pending, t) && !Queued(s.queue, t)
    ensures Chain(Step(s, Post(Message(COMMAND_START, t, start))), t, start, s.timers[t].period, Fired(s.log, t), 0)
  {
    hide Fired, HasOwner;
    var m := Message(COMMAND_START, t, start);
    var q := s.queue + [m];
    assert IsStart(q[|s.queue|].id) && q[|s.queue|].timer == t && q[|s.queue|].value == start;
    assert forall j :: 0 <= j < |s.queue| ==> q[j] == s.queue[j];
    assert StartQueuedOnce(q, t, start);
  }

  /**
   Drift-free and exactly once, over every run without further user commands for the timer: the callbacks so
   far were due at start + P, ..., start + kP exactly; and the timer is either listed for start + (k+1)P or has
   exactly one start command queued, as of start + kP, if and only if no reload command of it has been lost to
   a full queue. Once one has been lost, the timer is never listed, queued or called back again.
   */
  lemma {:induction false} ExactlyOnce(states: seq<Service>, actions: seq<Action>, n: nat,
                                       t: nat, start: nat, period: nat, before: seq<nat>) returns (k: nat)
    requires IsRun(states, actions) && Inv(states[0]) && n <= |actions|
    requires Chain(states[0], t, start, period, before, 0)
    requires forall i :: 0 <= i < |actions| && actions[i].Post? ==> actions[i].m.timer != t
    ensures OnTrack(states[n], states[0].lost[t], t, start, period, before, k)
    ensures Chain(states[n], t, start, period, before, k) <==> states[n].lost[t] == states[0].lost[t]
    ensures states[n].lost[t] != states[0].lost[t] ==> Gone(states[n], t, start, period, before, k)
  {
    hide Step, Chain, Inv, Guard, Fired, Dues, HasOwner, Queued, SameFor;
    k := 0;
    if n > 0 {
      k := ExactlyOnce(states, actions, n - 1, t, start, period, before);
      var s, a := states[n - 1], actions[n - 1];
      RunKeepsInv(states, actions, n - 1);
      assert states[n] == Step(s, a) && Guard(s, a);
      if s.lost[t] == states[0].lost[t] {
        k := ChainStep(s, a, t, start, period, before, k);
      } else {
        GoneStep(s, a, t);
        OnTrackSame(s, Step(s, a), states[0].lost[t], t, start, period, before, k);
      }
    }
    if states[n].lost[t] != states[0].lost[t] {
      GoneNotChain(states[n], t, start, period, before, k);
    }
  }

  /** The expiries of a chain, in closed form. */
  lemma {:induction false} DuesExact(start: nat, period: nat, k: nat)
    ensures |Dues(start, period, k)| == k
    ensures forall j :: 0 <= j < k ==> Dues(start, period, k)[j] == start + (j + 1) * period
  {
    if k > 0 {
      DuesExact(start, period, k - 1);
      DueExact(start, period, k);
    }
  }
}
