/**
 The daemon comes to the end of its commands. Carrying one out can queue another, as of a later time, and a
 rollover that is found on the way can queue more; but as long as the clock stays below a limit, and nothing else
 is posted, there is only so much work to do, and each command carried out makes it less.
 */
module TimerProgress {
  import opened ListSpec
  import opened TwoLists
  import opened TimerModel
  import opened TimerRuns

  /** The commands at the head of the queue, one for each reading of the clock, until there is none. */
  ghost function HandleAll(s: Service, nows: seq<nat>): Service
    decreases nows
  {
    if nows == [] || s.queue == [] then s
    else HandleAll(Step(s, HandleCommand(nows[0])), nows[1..])
  }

  ghost predicate CommandsOk(s: Service, nows: seq<nat>)
    decreases nows
  {
    nows == [] || s.queue == []
    || (Guard(s, HandleCommand(nows[0])) && CommandsOk(Step(s, HandleCommand(nows[0])), nows[1..]))
  }

  // ---------------------------------------------------------------- what there is to do until the clock says `limit`

  /** A start command can come back for each later expiry; a change of period lists a timer that then can. */
  function Weight(m: Message, limit: nat): (w: nat)
    ensures w > 0
  {
    if IsStart(m.id) && m.value <= limit then 2 * (limit - m.value) + 2
    else if IsChangePeriod(m.id) then 2 * limit + 2
    else 1
  }

  function QueueWork(queue: seq<Message>, limit: nat): nat {
    if queue == [] then 0 else Weight(queue[0], limit) + QueueWork(queue[1..], limit)
  }

  function ListedWork(pending: seq<Entry>, limit: nat): nat {
    if pending == [] then 0
    else
      (if pending[0].value <= limit then 2 * (limit - pending[0].value) + 3 else 0) + ListedWork(pending[1..], limit)
  }

  function Work(s: Service, limit: nat): nat {
    QueueWork(s.queue, limit) + ListedWork(s.pending, limit)
  }

  lemma {:induction false} QueueWorkAppend(queue: seq<Message>, m: Message, limit: nat)
    ensures QueueWork(queue + [m], limit) == QueueWork(queue, limit) + Weight(m, limit)
  {
    if queue == [] {
      assert queue + [m] == [m];
    } else {
      assert (queue + [m])[1..] == queue[1..] + [m];
      QueueWorkAppend(queue[1..], m, limit);
    }
  }

  lemma {:induction false} ListedWorkConcat(a: seq<Entry>, b: seq<Entry>, limit: nat)
    ensures ListedWork(a + b, limit) == ListedWork(a, limit) + ListedWork(b, limit)
  {
    if a == [] {
      assert a + b == b;
    } else {
      assert (a + b)[1..] == a[1..] + b;
      ListedWorkConcat(a[1..], b, limit);
    }
  }

  lemma ListedWorkInsert(s: seq<Entry>, e: Entry, limit: nat)
    ensures ListedWork(Insert(s, e), limit) == ListedWork(s, limit) + ListedWork([e], limit)
  {
    hide ListedWork;
    var p := InsertPosition(s, e.value);
    ListedWorkConcat(s[..p] + [e], s[p..], limit);
    ListedWorkConcat(s[..p], [e], limit);
    ListedWorkConcat(s[..p], s[p..], limit);
    assert s == s[..p] + s[p..];
  }

  lemma ListedWorkOne(e: Entry, limit: nat)
    ensures ListedWork([e], limit) == if e.value <= limit then 2 * (limit - e.value) + 3 else 0
  {
  }

  lemma {:induction false} ListedWorkWithout(s: seq<Entry>, owner: nat, limit: nat)
    ensures ListedWork(Without(s, owner), limit) <= ListedWork(s, limit)
  {
    if s != [] && s[0].owner != owner {
      ListedWorkWithout(s[1..], owner, limit);
      assert ([s[0]] + Without(s[1..], owner))[1..] == Without(s[1..], owner);
    }
  }

  lemma ReloadWork(s: Service, timer: nat, time: nat, limit: nat)
    requires time <= limit
    ensures Work(Reload(s, timer, time), limit) <= Work(s, limit) + 2 * (limit - time) + 2
  {
    hide QueueWork, ListedWork;
    QueueWorkAppend(s.queue, Message(COMMAND_START_DONT_TRACE, timer, time), limit);
  }

  // ---------------------------------------------------------------- what the steps do to it

  lemma DrainOneWork(s: Service, boundary: nat, at: nat, limit: nat)
    requires PositivePeriods(s.timers) && s.pending != [] && s.pending[0].value < boundary <= limit
    ensures Work(DrainOne(s, boundary, at), limit) <= Work(s, limit)
  {
    hide Insert, QueueWork, Reload;
    var e := s.pending[0];
    ReloadWork(CallBack(Pop(s), e.owner, e.value, at), e.owner, e.value, limit);
    if IsAuto(s.timers, e.owner) {
      var next := Entry(e.owner, e.value + s.timers[e.owner].period);
      ListedWorkInsert(s.pending[1..], next, limit);
      ListedWorkOne(next, limit);
    }
  }

  lemma {:induction false} DrainWork(s: Service, boundary: nat, at: nat, limit: nat)
    requires PositivePeriods(s.timers) && boundary <= limit
    ensures Work(Drain(s, boundary, at), limit) <= Work(s, limit)
    decreases Slack(s.pending, boundary)
  {
    hide Work, DrainOne;
    if s.pending != [] && s.pending[0].value < boundary {
      DrainOneUsesSlack(s, boundary, at);
      DrainOneWork(s, boundary, at, limit);
      DrainWork(DrainOne(s, boundary, at), boundary, at, limit);
    }
  }

  lemma SampleWork(s: Service, now: nat, limit: nat)
    requires PositivePeriods(s.timers) && s.now <= now <= limit
    ensures Work(Sample(s, now), limit) <= Work(s, limit)
  {
    hide Drain, QueueWork, ListedWork;
    var boundary := (Epoch(s.now) + 1) * TICK_MODULUS;
    if Epoch(now) != Epoch(s.now) {
      DrainWork(s, boundary, now, limit);
    }
  }

  lemma ApplyWork(s: Service, m: Message, limit: nat)
    requires m.timer in s.timers && 0 < s.timers[m.timer].period && MessageOk(m, s.now) && s.now <= limit
    ensures Work(Apply(s, m), limit) < Work(s, limit) + Weight(m, limit)
  {
    hide QueueWork, ListedWork, Insert, Reload;
    var due := m.value + s.timers[m.timer].period;
    var s1 := CallBack(SetActive(s, m.timer, true), m.timer, due, s.now);
    if due <= s.now {
      ReloadWork(s1, m.timer, due, limit);
    }
    ListedWorkInsert(s.pending, Entry(m.timer, due), limit);
    ListedWorkOne(Entry(m.timer, due), limit);
    ListedWorkInsert(s.pending, Entry(m.timer, s.now + m.value), limit);
    ListedWorkOne(Entry(m.timer, s.now + m.value), limit);
  }

  lemma TakenWork(s: Service, limit: nat)
    requires s.queue != []
    ensures Work(Taken(s), limit) + Weight(s.queue[0], limit) <= Work(s, limit)
  {
    hide Without, ListedWork, Weight;
    ListedWorkWithout(s.pending, s.queue[0].timer, limit);
  }

  /** Carrying out a command leaves less to do, whatever it queues or lists. */
  lemma CommandUsesWork(s: Service, now: nat, limit: nat)
    requires Inv(s) && Guard(s, HandleCommand(now)) && now <= limit
    ensures Work(Step(s, HandleCommand(now)), limit) < Work(s, limit)
  {
    hide Work, Weight, Sample, Apply, Epoch, Inv, Taken;
    TakenWork(s, limit);
    TakenKeepsInv(s, now);
    InvPositive(Taken(s));
    TakenNow(s);
    SampleWork(Taken(s), now, limit);
    InvPeriod(s, s.queue[0].timer);
    ApplyWork(Sample(Taken(s), now), s.queue[0], limit);
  }

  lemma TakenNow(s: Service)
    requires s.queue != []
    ensures Taken(s).now == s.now
  {
  }

  lemma NoWork(s: Service, limit: nat)
    ensures Work(s, limit) == 0 ==> s.queue == []
  {
  }

  /** With the clock below the limit the queue is empty after at most as many commands as there is work. */
  lemma {:induction false} CommandsEnd(s: Service, nows: seq<nat>, limit: nat)
    requires Inv(s) && CommandsOk(s, nows) && forall i :: 0 <= i < |nows| ==> nows[i] <= limit
    requires Work(s, limit) <= |nows|
    ensures Inv(HandleAll(s, nows)) && HandleAll(s, nows).queue == []
    decreases |nows|
  {
    hide Work, Inv, Guard, Step;
    NoWork(s, limit);
    if nows != [] && s.queue != [] {
      CommandUsesWork(s, nows[0], limit);
      StepKeepsInv(s, HandleCommand(nows[0]));
      CommandsEnd(Step(s, HandleCommand(nows[0])), nows[1..], limit);
    }
  }
}
