/**
 When the daemon has room in its command queue for the restarts it has to send: exactly, for a turn, for a
 command, for a run, and for the next turn whatever the time at which it reads the clock. A restart that finds
 no room is lost, and its timer with it.
 */
module TimerRoom {
  import opened ListSpec
  import opened TwoLists
  import opened TimerModel
  import opened TimerRuns

  /** How many of the listed timers reload themselves. */
  function Autos(pending: seq<Entry>, timers: map<nat, Timer>): nat {
    if pending == [] then 0
    else (if IsAuto(timers, pending[0].owner) then 1 else 0) + Autos(pending[1..], timers)
  }

  /** How many of those expire in front of the boundary. */
  function AutosBelow(pending: seq<Entry>, timers: map<nat, Timer>, boundary: nat): nat {
    if pending == [] then 0
    else
      (if IsAuto(timers, pending[0].owner) && pending[0].value < boundary then 1 else 0)
      + AutosBelow(pending[1..], timers, boundary)
  }

  /** Commands queued and auto-reload timers listed. */
  function Load(s: Service): nat {
    |s.queue| + Autos(s.pending, s.timers)
  }

  // ---------------------------------------------------------------- counting

  lemma {:induction false} AutosSplit(a: seq<Entry>, b: seq<Entry>, timers: map<nat, Timer>, boundary: nat)
    ensures Autos(a + b, timers) == Autos(a, timers) + Autos(b, timers)
    ensures AutosBelow(a + b, timers, boundary) == AutosBelow(a, timers, boundary) + AutosBelow(b, timers, boundary)
  {
    if a == [] {
      assert a + b == b;
    } else {
      assert (a + b)[1..] == a[1..] + b;
      AutosSplit(a[1..], b, timers, boundary);
    }
  }

  lemma AutosOne(e: Entry, timers: map<nat, Timer>, boundary: nat)
    ensures Autos([e], timers) == if IsAuto(timers, e.owner) then 1 else 0
    ensures AutosBelow([e], timers, boundary) == if IsAuto(timers, e.owner) && e.value < boundary then 1 else 0
  {
  }

  lemma AutosInsert(s: seq<Entry>, e: Entry, timers: map<nat, Timer>, boundary: nat)
    ensures Autos(Insert(s, e), timers) == Autos(s, timers) + if IsAuto(timers, e.owner) then 1 else 0
    ensures AutosBelow(Insert(s, e), timers, boundary)
            == AutosBelow(s, timers, boundary) + if IsAuto(timers, e.owner) && e.value < boundary then 1 else 0
  {
    hide Autos, AutosBelow, IsAuto;
    var p := InsertPosition(s, e.value);
    var a, b := s[..p], s[p..];
    AutosSplit(a + [e], b, timers, boundary);
    AutosSplit(a, [e], timers, boundary);
    AutosSplit(a, b, timers, boundary);
    AutosOne(e, timers, boundary);
    assert s == a + b;
  }

  lemma {:induction false} AutosWithout(s: seq<Entry>, owner: nat, timers: map<nat, Timer>)
    ensures Autos(Without(s, owner), timers) <= Autos(s, timers)
  {
    if s != [] && s[0].owner != owner {
      AutosWithout(s[1..], owner, timers);
      assert ([s[0]] + Without(s[1..], owner))[1..] == Without(s[1..], owner);
    }
  }

  /** What happens to the other timers does not matter. */
  lemma {:induction false} AutosSame(s: seq<Entry>, timers: map<nat, Timer>, timers': map<nat, Timer>)
    requires forall i :: 0 <= i < |s| ==> IsAuto(timers', s[i].owner) == IsAuto(timers, s[i].owner)
    ensures Autos(s, timers') == Autos(s, timers)
  {
    if s != [] {
      assert forall i :: 0 <= i < |s[1..]| ==> s[1..][i] == s[i + 1];
      AutosSame(s[1..], timers, timers');
    }
  }

  lemma {:induction false} NoneBelowBoundary(s: seq<Entry>, timers: map<nat, Timer>, boundary: nat)
    requires Sorted(s) && (s == [] || boundary <= s[0].value)
    ensures AutosBelow(s, timers, boundary) == 0
  {
    if s != [] {
      assert forall i :: 0 <= i < |s[1..]| ==> s[1..][i] == s[i + 1];
      NoneBelowBoundary(s[1..], timers, boundary);
    }
  }

  // ---------------------------------------------------------------- what a step does to load and losses

  /** Each restart lost makes the load smaller by one, and is lost only with the queue full. */
  ghost predicate Conserves(s: Service, s': Service) {
    && s.lost <= s'.lost && Load(s') + |s'.lost| == Load(s) + |s.lost|
    && |s.queue| <= |s'.queue| && (|s.queue| <= QUEUE_LENGTH ==> |s'.queue| <= QUEUE_LENGTH)
    && (s'.lost != s.lost ==> QUEUE_LENGTH <= |s'.queue| && QUEUE_LENGTH < Load(s))
  }

  lemma ConservesCompose(s: Service, s1: Service, s2: Service)
    requires Conserves(s, s1) && Conserves(s1, s2)
    ensures Conserves(s, s2)
  {
    hide Autos;
    if s2.lost != s.lost && s1.lost == s.lost {
      assert Load(s1) == Load(s);
    }
  }

  lemma ConservesSelf(s: Service, s': Service)
    requires s'.lost == s.lost && s'.queue == s.queue && Autos(s'.pending, s'.timers) == Autos(s.pending, s.timers)
    ensures Conserves(s, s')
  {
  }

  lemma OneMore(m: multiset<nat>, t: nat)
    ensures |m + multiset{t}| == |m| + 1 && m <= m + multiset{t} && m + multiset{t} != m
  {
    assert (m + multiset{t})[t] == m[t] + 1;
  }

  lemma DrainOneConserves(s: Service, boundary: nat, at: nat)
    requires s.pending != [] && s.pending[0].value < boundary
    ensures Conserves(s, DrainOne(s, boundary, at))
    ensures var s' := DrainOne(s, boundary, at);
            |s'.queue| + |s'.lost| + AutosBelow(s'.pending, s'.timers, boundary)
            == |s.queue| + |s.lost| + AutosBelow(s.pending, s.timers, boundary)
  {
    hide Insert, Sorted;
    var e := s.pending[0];
    OneMore(s.lost, e.owner);
    if IsAuto(s.timers, e.owner) {
      AutosInsert(s.pending[1..], Entry(e.owner, e.value + s.timers[e.owner].period), s.timers, boundary);
    }
  }

  lemma {:induction false} DrainConserves(s: Service, at: nat)
    requires Inv(s) && (Epoch(s.now) + 1) * TICK_MODULUS <= at
    ensures var boundary := (Epoch(s.now) + 1) * TICK_MODULUS;
            var s' := Drain(s, boundary, at);
            Conserves(s, s')
            && |s'.queue| + |s'.lost| == |s.queue| + |s.lost| + AutosBelow(s.pending, s.timers, boundary)
    decreases Slack(s.pending, (Epoch(s.now) + 1) * TICK_MODULUS)
  {
    hide Epoch, Inv, Conserves, DrainOne;
    var boundary := (Epoch(s.now) + 1) * TICK_MODULUS;
    InvPositive(s);
    if s.pending != [] && s.pending[0].value < boundary {
      DrainOneUsesSlack(s, boundary, at);
      DrainOneKeepsInv(s, at);
      DrainOneNow(s, boundary, at);
      DrainOneConserves(s, boundary, at);
      DrainConserves(DrainOne(s, boundary, at), at);
      ConservesCompose(s, DrainOne(s, boundary, at), Drain(s, boundary, at));
    } else {
      ConservesSelf(s, s);
      InvSorted(s);
      NoneBelowBoundary(s.pending, s.timers, boundary);
    }
  }

  lemma InvSorted(s: Service)
    requires Inv(s)
    ensures Sorted(s.pending)
  {
  }

  lemma DrainNothing(s: Service, boundary: nat, at: nat)
    requires PositivePeriods(s.timers) && s.pending == []
    ensures Drain(s, boundary, at) == s
  {
  }

  lemma ExpireConserves(s: Service)
    requires Inv(s) && s.pending != []
    ensures s.pending[0].owner in s.timers && Conserves(s, Expire(s))
  {
    hide Insert, Epoch, Sorted, NeverEarly, WithinEpochs;
    var e := s.pending[0];
    OneMore(s.lost, e.owner);
    AutosInsert(s.pending[1..], Entry(e.owner, e.value + s.timers[e.owner].period), s.timers, 0);
    if !s.timers[e.owner].autoReload {
      AutosSame(s.pending[1..], s.timers, SetActive(s, e.owner, false).timers);
    }
  }

  lemma SameSize(a: multiset<nat>, b: multiset<nat>)
    requires a <= b
    ensures |a| <= |b| && (|a| == |b| ==> a == b)
  {
    assert b == a + (b - a);
  }

  /** How many restarts reading the time has to send: those of a rollover. */
  ghost function Rolled(s: Service, now: nat): nat {
    if Epoch(now) != Epoch(s.now) then AutosBelow(s.pending, s.timers, (Epoch(s.now) + 1) * TICK_MODULUS) else 0
  }

  /** Whether the daemon, having read the time, finds the first timer so late that it has to be restarted. */
  predicate LateHead(s: Service, now: nat) {
    && s.pending != [] && IsAuto(s.timers, s.pending[0].owner)
    && s.pending[0].value + s.timers[s.pending[0].owner].period <= now
  }

  /** Whether a command starts an auto-reload timer after the expiry it asks for. */
  predicate LateStart(s: Service, m: Message, now: nat) {
    IsStart(m.id) && IsAuto(s.timers, m.timer) && m.value + s.timers[m.timer].period <= now
  }

  /** How many restarts a step of the daemon has to send. */
  ghost function Sends(s: Service, a: Action): nat
    requires Inv(s) && Guard(s, a)
  {
    match a
    case DaemonTurn(now) =>
      if Epoch(now) != Epoch(s.now) then Rolled(s, now) else if LateHead(s, now) then 1 else 0
    case HandleCommand(now) => Rolled(Taken(s), now) + if LateStart(s, s.queue[0], now) then 1 else 0
    case Post(_) => 0
  }

  /** There is room for them; a command that is carried out has left its own place free. */
  ghost predicate HasRoom(s: Service, a: Action)
    requires Inv(s) && Guard(s, a)
  {
    |s.queue| - (if a.HandleCommand? then 1 else 0) + Sends(s, a) <= QUEUE_LENGTH
  }

  // ---------------------------------------------------------------- exactly when a step loses a restart

  /** What is sent and cannot be queued is lost. */
  ghost predicate Accounted(s: Service, s': Service, sends: nat) {
    && s.lost <= s'.lost && |s'.queue| <= QUEUE_LENGTH
    && (s'.lost != s.lost <==> |s.queue| + sends > QUEUE_LENGTH)
    && (s'.lost == s.lost ==> |s'.queue| == |s.queue| + sends)
  }

  lemma AccountedSelf(s: Service, s': Service)
    requires s'.queue == s.queue && s'.lost == s.lost && |s.queue| <= QUEUE_LENGTH
    ensures Accounted(s, s', 0)
  {
  }

  lemma SampleAccounted(s: Service, now: nat)
    requires Inv(s) && TimeOk(s, now) && |s.queue| <= QUEUE_LENGTH
    ensures PositivePeriods(s.timers) && Accounted(s, Sample(s, now), Rolled(s, now))
  {
    hide Epoch, Inv, Drain;
    InvPositive(s);
    var boundary := (Epoch(s.now) + 1) * TICK_MODULUS;
    var s' := Sample(s, now);
    if Epoch(now) == Epoch(s.now) {
      AccountedSelf(s, s');
    } else if s.pending == [] {
      DrainNothing(s, boundary, now);
      AccountedSelf(s, s');
    } else {
      EpochStep(s.now, now);
      DrainConserves(s, now);
      SameSize(s.lost, s'.lost);
    }
  }

  lemma ReloadAccounted(s: Service, timer: nat, time: nat)
    requires |s.queue| <= QUEUE_LENGTH
    ensures Accounted(s, Reload(s, timer, time), 1)
  {
    OneMore(s.lost, timer);
  }

  lemma AccountedCompose(s: Service, s1: Service, s2: Service, m: nat, n: nat)
    requires Accounted(s, s1, m) && Accounted(s1, s2, n)
    ensures Accounted(s, s2, m + n)
  {
    if s2.lost == s.lost {
      SameSize(s.lost, s1.lost);
      SameSize(s1.lost, s2.lost);
    }
  }

  lemma ExpireAccounted(s: Service)
    requires Inv(s) && s.pending != [] && |s.queue| <= QUEUE_LENGTH
    ensures s.pending[0].owner in s.timers && Accounted(s, Expire(s), if LateHead(s, s.now) then 1 else 0)
  {
    hide Insert, Epoch, Sorted, NeverEarly, WithinEpochs;
    var e := s.pending[0];
    ReloadAccounted(Pop(s), e.owner, e.value);
  }

  lemma ApplyAccounted(s: Service, m: Message)
    requires m.timer in s.timers && |s.queue| <= QUEUE_LENGTH
    ensures Accounted(s, Apply(s, m), if LateStart(s, m, s.now) then 1 else 0)
  {
    hide Insert, Reload, Accounted;
    var s1 := SetActive(s, m.timer, true);
    var due := m.value + s.timers[m.timer].period;
    var s2 := CallBack(s1, m.timer, due, s.now);
    if LateStart(s, m, s.now) {
      ReloadAccounted(s2, m.timer, due);
      AccountedFrom(s, s2, Reload(s2, m.timer, due), 1);
    } else {
      AccountedSelf(s, Apply(s, m));
    }
  }

  lemma AccountedFrom(s: Service, t: Service, s': Service, sends: nat)
    requires Accounted(t, s', sends) && t.queue == s.queue && t.lost == s.lost
    ensures Accounted(s, s', sends)
  {
  }

  /** A turn loses a restart if and only if there is no room for all that it has to send. */
  lemma TurnLoses(s: Service, now: nat)
    requires Inv(s) && TimeOk(s, now) && |s.queue| <= QUEUE_LENGTH
    ensures Accounted(s, Step(s, DaemonTurn(now)), Sends(s, DaemonTurn(now)))
  {
    hide Epoch, Inv, Sample, Expire, Accounted;
    InvPositive(s);
    SampleAccounted(s, now);
    SampleKeepsInv(s, now);
    if Epoch(now) == Epoch(s.now) {
      SampleSameEpoch(s, now);
      if s.pending != [] {
        ExpireAccounted(s.(now := now));
        HeadKnown(s);
        AccountedFrom(s, s.(now := now), Expire(s.(now := now)), if LateHead(s, now) then 1 else 0);
      }
    }
  }

  lemma SampleSameEpoch(s: Service, now: nat)
    requires PositivePeriods(s.timers) && Epoch(now) == Epoch(s.now)
    ensures Sample(s, now) == s.(now := now) && Rolled(s, now) == 0
  {
  }

  lemma HeadKnown(s: Service)
    requires Inv(s) && s.pending != []
    ensures s.pending[0].owner in s.timers && s.timers[s.pending[0].owner].period > 0
  {
  }

  /** A command leaves its place in the queue, and may have to send restarts at a rollover and its own. */
  lemma CommandLoses(s: Service, now: nat)
    requires Inv(s) && Guard(s, HandleCommand(now)) && |s.queue| <= QUEUE_LENGTH
    ensures Accounted(Taken(s), Step(s, HandleCommand(now)), Sends(s, HandleCommand(now)))
  {
    hide Epoch, Inv, Sample, Apply, Accounted, Rolled, Without;
    var s1, m := Taken(s), s.queue[0];
    TakenKeepsInv(s, now);
    InvPositive(s1);
    SampleAccounted(s1, now);
    var s2 := Sample(s1, now);
    AccountedBound(s1, s2, Rolled(s1, now));
    ApplyAccounted(s2, m);
    AccountedCompose(s1, s2, Apply(s2, m), Rolled(s1, now), if LateStart(s, m, now) then 1 else 0);
  }

  lemma AccountedBound(s: Service, s': Service, sends: nat)
    requires Accounted(s, s', sends)
    ensures |s'.queue| <= QUEUE_LENGTH
  {
  }

  /** A step loses a restart if and only if it has to send more of them than the queue has room for. */
  lemma StepLoses(s: Service, a: Action)
    requires Inv(s) && Guard(s, a) && |s.queue| <= QUEUE_LENGTH
    ensures Step(s, a).lost != s.lost <==> !HasRoom(s, a)
    ensures s.lost <= Step(s, a).lost && |Step(s, a).queue| <= QUEUE_LENGTH
  {
    hide Inv, Epoch, Turn, Command, Sends;
    match a
    case DaemonTurn(now) => TurnLoses(s, now);
    case HandleCommand(now) => CommandLoses(s, now);
    case Post(m) => PostSends(s, m);
  }

  lemma PostSends(s: Service, m: Message)
    requires Inv(s)
    ensures Sends(s, Post(m)) == 0
  {
  }

  ghost predicate RoomAt(states: seq<Service>, actions: seq<Action>, i: nat) {
    i < |states| && i < |actions| && Inv(states[i]) && Guard(states[i], actions[i]) && HasRoom(states[i], actions[i])
  }

  /** A run has lost a restart, of whatever timer, if and only if some step had no room for what it had to send. */
  lemma {:induction false} RunLoses(states: seq<Service>, actions: seq<Action>, n: nat)
    requires IsRun(states, actions) && Inv(states[0]) && n <= |actions| && |states[0].queue| <= QUEUE_LENGTH
    ensures states[n].lost != states[0].lost <==> exists i :: 0 <= i < n && !RoomAt(states, actions, i)
    ensures states[0].lost <= states[n].lost && |states[n].queue| <= QUEUE_LENGTH
  {
    hide Step, Inv, Guard, HasRoom;
    if n > 0 {
      var p := n - 1;
      RunLoses(states, actions, p);
      RunKeepsInv(states, actions, p);
      assert Guard(states[p], actions[p]) && states[n] == Step(states[p], actions[p]);
      StepLoses(states[p], actions[p]);
      Monotone(states[0].lost, states[p].lost, states[n].lost);
      assert RoomAt(states, actions, p) <==> HasRoom(states[p], actions[p]);
    }
  }

  lemma Monotone(a: multiset<nat>, b: multiset<nat>, c: multiset<nat>)
    requires a <= b <= c
    ensures a <= c && (a == c <==> a == b && b == c)
  {
    if a == c {
      assert forall t :: a[t] <= b[t] <= c[t];
      assert a == b;
    }
  }

  // ---------------------------------------------------------------- the next turn

  /** The most that the next turn can have to send: all of a rollover, if one can come before the next reading. */
  ghost function Most(s: Service): nat {
    var boundary := (Epoch(s.now) + 1) * TICK_MODULUS;
    if s.now % TICK_MODULUS > 0 then AutosBelow(s.pending, s.timers, boundary)
    else if LateHead(s, boundary - 1) then 1
    else 0
  }

  /**
   The exact condition for the next turn: at some time at which the daemon may read the clock it loses a restart if
   and only if the commands queued, and the most it can have to send, are more than the queue holds.
   */
  lemma CanLose(s: Service)
    requires Inv(s) && |s.queue| <= QUEUE_LENGTH
    ensures (exists now :: TimeOk(s, now) && Step(s, DaemonTurn(now)).lost != s.lost)
            <==> |s.queue| + Most(s) > QUEUE_LENGTH
  {
    hide Inv, Step, Sends, Most, Epoch;
    forall now | TimeOk(s, now)
      ensures Step(s, DaemonTurn(now)).lost != s.lost <==> |s.queue| + Sends(s, DaemonTurn(now)) > QUEUE_LENGTH
      ensures Sends(s, DaemonTurn(now)) <= Most(s)
    {
      TurnLoses(s, now);
      SendsAtMost(s, now);
    }
    var now := MostIsSent(s);
  }

  lemma SendsAtMost(s: Service, now: nat)
    requires Inv(s) && TimeOk(s, now)
    ensures Sends(s, DaemonTurn(now)) <= Most(s)
  {
    hide Epoch, Inv, AutosBelow;
    NowWithin(s.now, now);
    NoneListed(s, (Epoch(s.now) + 1) * TICK_MODULUS);
    if LateHead(s, now) && Epoch(now) == Epoch(s.now) {
      HeadBelow(s, (Epoch(s.now) + 1) * TICK_MODULUS);
    }
  }

  lemma NowWithin(last: nat, now: nat)
    requires last <= now
    ensures Epoch(now) == Epoch(last) ==> now < (Epoch(last) + 1) * TICK_MODULUS
    ensures now < last + TICK_MODULUS && Epoch(now) != Epoch(last) ==> last % TICK_MODULUS > 0
    ensures Epoch((Epoch(last) + 1) * TICK_MODULUS - 1) == Epoch(last)
    ensures Epoch((Epoch(last) + 1) * TICK_MODULUS) == Epoch(last) + 1
    ensures last <= (Epoch(last) + 1) * TICK_MODULUS - 1 < last + TICK_MODULUS
    ensures last % TICK_MODULUS > 0 ==> (Epoch(last) + 1) * TICK_MODULUS < last + TICK_MODULUS
  {
  }

  lemma NoneListed(s: Service, boundary: nat)
    ensures s.pending == [] ==> AutosBelow(s.pending, s.timers, boundary) == 0
  {
  }

  lemma HeadBelow(s: Service, boundary: nat)
    requires Inv(s) && s.pending != [] && IsAuto(s.timers, s.pending[0].owner) && s.pending[0].value < boundary
    ensures AutosBelow(s.pending, s.timers, boundary) >= 1
  {
  }

  lemma MostIsSent(s: Service) returns (now: nat)
    requires Inv(s)
    ensures TimeOk(s, now) && Sends(s, DaemonTurn(now)) == Most(s)
  {
    hide Epoch, Inv, AutosBelow;
    var boundary := (Epoch(s.now) + 1) * TICK_MODULUS;
    NowWithin(s.now, s.now);
    if s.now % TICK_MODULUS > 0 {
      now := boundary;
    } else {
      now := boundary - 1;
    }
  }

  // An input that loses one: ten commands for another timer are queued when timer 0 is a period late.

  function Overloaded(): Service {
    Service(0, [Entry(0, 1)], seq(QUEUE_LENGTH, _ => Message(COMMAND_STOP, 1, 0)),
            map[0 := Timer(1, true, true, false), 1 := Timer(1, false, false, false)], [], multiset{})
  }

  lemma OverloadedChain()
    ensures Inv(Overloaded()) && Chain(Overloaded(), 0, 0, 1, [], 0)
  {
    var s := Overloaded();
    assert s.pending == [Entry(0, 1)];
    assert Listed(s.pending, 0, 1) && s.pending[0].owner == 0;
    assert Due(0, 1, 1) == 1;
  }

  lemma OverloadedTurn()
    ensures Inv(Overloaded()) && Guard(Overloaded(), DaemonTurn(2))
    ensures var s := Overloaded();
            Step(s, DaemonTurn(2))
            == s.(now := 2, pending := [], lost := multiset{0}, log := [Fire(0, 1, 2)])
  {
    hide Chain, Drain, Inv;
    OverloadedChain();
    InvPositive(Overloaded());
  }

  /** Before the turn the timer is on track; after it, it is gone, having called back once. */
  lemma RestartLost()
    ensures var s := Overloaded();
            && Inv(s) && Chain(s, 0, 0, 1, [], 0) && Guard(s, DaemonTurn(2))
            && Step(s, DaemonTurn(2)).lost[0] == s.lost[0] + 1 && Gone(Step(s, DaemonTurn(2)), 0, 0, 1, [], 1)
  {
    hide Inv, Guard, Step;
    OverloadedChain();
    OverloadedTurn();
    FiredAppend([], Fire(0, 1, 2), 0);
    assert [] + [Fire(0, 1, 2)] == [Fire(0, 1, 2)];
    assert Dues(0, 1, 1) == [1];
  }
}
