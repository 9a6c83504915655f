/**
 The timer daemon of timers.c: two lists switched when the 32-bit tick count rolls over. Each method is
 proved to take the step of TimerModel, with the wrapped tick values standing for true times.
 */
module Timers {
  import opened ListSpec
  import opened TwoLists
  import opened TimerModel
  import TimerRuns
  import TimerProgress

  // ---------------------------------------------------------------- wrapped time

  /** The 32-bit sum and difference of the code. */
  function Plus(a: TickType, b: nat): TickType {
    (a + b) % TICK_MODULUS
  }

  function Minus(a: TickType, b: TickType): TickType {
    (a - b + TICK_MODULUS) % TICK_MODULUS
  }

  /** The test of prvInsertTimerInActiveList, on wrapped values: has the timer expired already? */
  predicate ExpiredAlready(nextExpiry: TickType, timeNow: TickType, commandTime: TickType, period: nat) {
    if nextExpiry <= timeNow then Minus(timeNow, commandTime) >= period
    else timeNow < commandTime && nextExpiry >= commandTime
  }

  /**
   Wrap-safe insertion: if the command is less than 2^32 ticks old, the test on wrapped values tells
   exactly whether the true expiry has passed, and otherwise the comparison with the time picks the
   list of the epoch in which the timer expires.
   */
  lemma WrapSafe(command: nat, now: nat, period: nat)
    requires command <= now < command + TICK_MODULUS && 0 < period < TICK_MODULUS
    ensures var due := command + period;
            && (ExpiredAlready(Tick(due), Tick(now), Tick(command), period) <==> due <= now)
            && (now < due ==> Epoch(due) == Epoch(now) + if Tick(due) <= Tick(now) then 1 else 0)
    ensures Tick(command + period) == Plus(Tick(command), period)
  {
    TickParts(command);
    TickParts(now);
    TickParts(command + period);
    TimerRuns.EpochStep(command, now);
    if period > 0 { TimerRuns.EpochAhead(command, command + period); }
  }

  /** A period changed now is never reported as expired already. */
  lemma ChangedPeriodNotExpired(now: nat, period: nat)
    requires 0 < period < TICK_MODULUS
    ensures !ExpiredAlready(Tick(now + period), Tick(now), Tick(now), period)
  {
    WrapSafe(now, now, period);
  }

  // ---------------------------------------------------------------- the daemon

  ghost predicate QueueFor(queue: seq<Message>, trueQueue: seq<Message>) {
    && |queue| == |trueQueue|
    && forall i :: 0 <= i < |queue| ==>
         queue[i] == Message(trueQueue[i].id, trueQueue[i].timer, Tick(trueQueue[i].value))
  }

  ghost predicate CallsFor(calls: seq<nat>, log: seq<Fire>) {
    && |calls| == |log|
    && forall i :: 0 <= i < |calls| ==> calls[i] == log[i].timer
  }

  class TimerDaemon {
    var current: seq<Entry>          // pxCurrentTimerList
    var overflow: seq<Entry>         // pxOverflowTimerList
    var queue: seq<Message>          // xTimerQueue
    var timers: map<nat, Timer>      // the timer structures
    var lastTime: TickType           // xLastTime
    var calls: seq<nat>              // the callbacks executed
    ghost var service: Service       // what the daemon stands for

    /** The daemon stands for the service, with the lists those of the given epoch and the next. */
    ghost predicate Represents(epoch: nat)
      reads this
    {
      && TimerRuns.Inv(service)
      && Lists(current, overflow, service.pending, epoch)
      && QueueFor(queue, service.queue)
      && timers == service.timers
      && CallsFor(calls, service.log)
    }

    ghost predicate Valid()
      reads this
    {
      Represents(Epoch(service.now)) && lastTime == Tick(service.now)
    }

    /** prvCheckForValidListAndQueue, with the tick count at zero and the timers created so far. */
    constructor (timers: map<nat, Timer>)
      requires PositivePeriods(timers)
      ensures Valid() && service == Service(0, [], [], timers, [], multiset{})
    {
      current, overflow, queue, lastTime, calls := [], [], [], 0, [];
      this.timers := timers;
      service := Service(0, [], [], timers, [], multiset{});
    }

    /** xTimerGenericCommand with no block time: the command is dropped when the queue is full. */
    method GenericCommand(id: nat, timer: nat, value: TickType, ghost time: nat) returns (sent: bool)
      requires value == Tick(time) && QueueFor(queue, service.queue)
      modifies this`queue, this`service
      ensures QueueFor(queue, service.queue)
      ensures sent == (|old(queue)| < 10)
      ensures service == if sent then old(service).(queue := old(service).queue + [Message(id, timer, time)])
                         else old(service)
    {
      sent := false;
      if |queue| < QUEUE_LENGTH {
        queue := queue + [Message(id, timer, value)];
        service := service.(queue := service.queue + [Message(id, timer, time)]);
        sent := true;
      }
    }

    /** The daemon's own restart command. */
    method SendReload(timer: nat, value: TickType, ghost time: nat)
      requires value == Tick(time) && QueueFor(queue, service.queue)
      modifies this`queue, this`service
      ensures service == Reload(old(service), timer, time) && QueueFor(queue, service.queue)
    {
      var result := GenericCommand(COMMAND_START_DONT_TRACE, timer, value, time);
      if !result {
        service := service.(lost := service.lost + multiset{timer});
      }
    }

    /** prvInsertTimerInActiveList */
    method InsertTimerInActiveList(timer: nat, nextExpiryTime: TickType, timeNow: TickType, commandTime: TickType,
                                   ghost command: nat) returns (processTimerNow: bool)
      requires Valid() && timer in timers && timers[timer].active && !HasOwner(service.pending, timer)
      requires command <= service.now < command + TICK_MODULUS
      requires timeNow == lastTime && commandTime == Tick(command)
      requires nextExpiryTime == Tick(command + timers[timer].period)
      modifies this`current, this`overflow, this`service
      ensures Valid()
      ensures var due := command + timers[timer].period;
              && (processTimerNow <==> due <= old(service).now)
              && service == if processTimerNow then old(service)
                            else old(service).(pending := Insert(old(service).pending, Entry(timer, due)))
    {
      hide Epoch, Tick, Insert, Lists, TimerRuns.Inv, HasOwner;
      ghost var due := command + timers[timer].period;
      TimerRuns.InvPeriod(service, timer);
      WrapSafe(command, service.now, timers[timer].period);
      processTimerNow := false;
      if nextExpiryTime <= timeNow {
        if Minus(timeNow, commandTime) >= timers[timer].period {
          processTimerNow := true;
        } else {
          ListsInsertOverflow(current, overflow, service.pending, Entry(timer, due), Epoch(service.now));
          overflow := Insert(overflow, Entry(timer, nextExpiryTime));
          TimerRuns.ListKeepsInv(service, timer, due);
          service := service.(pending := Insert(service.pending, Entry(timer, due)));
        }
      } else {
        if timeNow < commandTime && nextExpiryTime >= commandTime {
          processTimerNow := true;
        } else {
          ListsInsertCurrent(current, overflow, service.pending, Entry(timer, due));
          current := Insert(current, Entry(timer, nextExpiryTime));
          TimerRuns.ListKeepsInv(service, timer, due);
          service := service.(pending := Insert(service.pending, Entry(timer, due)));
        }
      }
    }

    /** prvSwitchTimerLists, at the true time `at` after the rollover. */
    method SwitchTimerLists(ghost at: nat)
      requires Valid() && (Epoch(service.now) + 1) * TICK_MODULUS <= at
      modifies this`current, this`overflow, this`queue, this`calls, this`service
      ensures Represents(Epoch(old(service).now) + 1)
      ensures service == Drain(old(service), (Epoch(old(service).now) + 1) * TICK_MODULUS, at)
    {
      hide Epoch, Tick, Insert, Lists, TimerRuns.Inv, HasOwner, PositivePeriods, QueueFor, CallsFor, Drain, DrainOne;
      ghost var epoch, now := Epoch(service.now), service.now;
      ghost var boundary := (epoch + 1) * TICK_MODULUS;
      TimerRuns.InvPositive(service);
      while current != []
        invariant Represents(epoch) && service.now == now && PositivePeriods(service.timers)
        invariant Drain(service, boundary, at) == Drain(old(service), boundary, at)
        decreases Slack(service.pending, boundary)
      {
        ghost var s := service;
        ListsPop(current, overflow, service.pending, epoch);
        EpochBoundary(service.pending[0].value, epoch);
        DrainUnfolds(service, boundary, at);
        DrainOneUsesSlack(service, boundary, at);
        TimerRuns.DrainOneKeepsInv(service, at);
        ghost var due := service.pending[0].value;
        var nextExpireTime := current[0].value;
        var timer := current[0].owner;
        InvOwner(service, timer);
        ReloadTime(due, timers[timer].period, epoch);
        // uxListRemove
        current := current[1..];
        calls := calls + [timer];
        service := CallBack(Pop(service), timer, due, at);
        CallsAppend(s, calls[..|calls| - 1], timer, due, at);
        DrainOneParts(s, boundary, at);
        if timers[timer].autoReload {
          var reloadTime := Plus(nextExpireTime, timers[timer].period);
          if reloadTime > nextExpireTime {
            ListsInsertCurrent(current, overflow, service.pending, Entry(timer, due + timers[timer].period));
            current := Insert(current, Entry(timer, reloadTime));
            service := service.(pending := Insert(service.pending, Entry(timer, due + timers[timer].period)));
          } else {
            SendReload(timer, nextExpireTime, due);
          }
        }
      }
      ListsSwitch(overflow, service.pending, epoch);
      if service.pending != [] { EpochBoundary(service.pending[0].value, epoch + 1); }
      DrainDone(service, boundary, at);
      var temp := current;
      current := overflow;
      overflow := temp;
    }

    /** prvSampleTimeNow: reads the tick count, and switches the lists when it has rolled over. */
    method SampleTimeNow(tickCount: TickType, ghost now: nat) returns (timeNow: TickType, switched: bool)
      requires Valid() && tickCount == Tick(now) && TimerRuns.TimeOk(service, now)
      modifies this
      ensures Valid() && service == Sample(old(service), now) && timeNow == lastTime
      ensures Epoch(now) == Epoch(old(service).now) ==> !switched
      ensures !switched ==> current == old(current) && overflow == old(overflow)
                            && (Epoch(now) == Epoch(old(service).now) || old(service).pending == [])
    {
      hide Epoch, Lists, TimerRuns.Inv, Drain, PositivePeriods, QueueFor, CallsFor;
      ghost var s := service;
      TimerRuns.InvPositive(s);
      TimerRuns.SampleKeepsInv(s, now);
      timeNow := tickCount;
      RolledOver(s, now);
      ListsEmpty(current, overflow, s.pending, Epoch(s.now));
      if timeNow < lastTime {
        PastBoundary(s.now, now);
        SwitchTimerLists(now);
        ListsEmpty(current, overflow, service.pending, Epoch(s.now) + 1);
        switched := true;
      } else {
        switched := false;
      }
      lastTime := timeNow;
      service := Sample(s, now);
    }

    /** prvProcessExpiredTimer */
    method ProcessExpiredTimer(nextExpireTime: TickType, timeNow: TickType)
      requires Valid() && current != [] && nextExpireTime == current[0].value && timeNow == lastTime
      requires nextExpireTime <= timeNow
      modifies this
      ensures Valid() && old(service).pending != [] && old(service).pending[0].value <= old(service).now
      ensures old(service).pending[0].owner in old(service).timers && service == Expire(old(service))
    {
      hide Epoch, Lists, TimerRuns.Inv, QueueFor, CallsFor, Insert, HasOwner, Tick;
      ghost var s, epoch := service, Epoch(service.now);
      ListsPop(current, overflow, s.pending, epoch);
      SameEpochOrder(s.pending[0].value, s.now);
      ghost var due := s.pending[0].value;
      var timer := current[0].owner;
      InvOwner(s, timer);
      TimerRuns.PopKeepsInv(s);
      TimerRuns.ExpireKeepsInv(s);
      WithinEpoch(due, s.now);
      WrapSafe(due, s.now, timers[timer].period);
      // uxListRemove
      current := current[1..];
      service := Pop(service);
      if timers[timer].autoReload {
        var processNow := InsertTimerInActiveList(timer, Plus(nextExpireTime, timers[timer].period), timeNow,
                                                  nextExpireTime, due);
        if processNow {
          SendReload(timer, nextExpireTime, due);
        }
      } else {
        timers := timers[timer := timers[timer].(active := false)];
        service := SetActive(service, timer, false);
      }
      calls := calls + [timer];
      CallsAppend(service, calls[..|calls| - 1], timer, due, s.now);
      service := CallBack(service, timer, due, s.now);
      assert service == Expire(s);
    }

    /** prvGetNextExpireTime */
    method GetNextExpireTime() returns (nextExpireTime: TickType, listWasEmpty: bool)
      requires Valid()
      ensures listWasEmpty == (current == [])
      ensures nextExpireTime == if current == [] then 0 else current[0].value
      ensures !listWasEmpty ==>
                service.pending != [] && Epoch(service.pending[0].value) == Epoch(service.now)
                && nextExpireTime == Tick(service.pending[0].value)
      ensures listWasEmpty ==>
                forall i :: 0 <= i < |service.pending| ==> Epoch(service.pending[i].value) == Epoch(service.now) + 1
    {
      NextExpiry(current, overflow, service.pending, Epoch(service.now));
      listWasEmpty := current == [];
      if !listWasEmpty {
        CurrentHead();
        nextExpireTime := current[0].value;
      } else {
        nextExpireTime := 0;
      }
    }

    lemma CurrentHead()
      requires Valid() && current != []
      ensures service.pending != [] && current[0].value == Tick(service.pending[0].value)
    {
      ListsPop(current, overflow, service.pending, Epoch(service.now));
    }

    /**
     prvProcessTimerOrBlockTask: one turn of the daemon. If it asks to be blocked, it is until the earliest expiry
     if that is in the current list, and otherwise until the tick count rolls over, which comes first; and without
     limit only when no timer is running at all.
     */
    method ProcessTimerOrBlockTask(nextExpireTime: TickType, listWasEmpty: bool, tickCount: TickType, ghost now: nat)
      returns (block: bool, ticksToWait: TickType, waitIndefinitely: bool)
      requires Valid() && tickCount == Tick(now) && TimerRuns.TimeOk(service, now)
      requires listWasEmpty == (current == [])
      requires nextExpireTime == if current == [] then 0 else current[0].value
      modifies this
      ensures Valid() && PositivePeriods(old(service).timers) && service == Turn(old(service), now)
      ensures block ==> (waitIndefinitely <==> service.pending == [])
      ensures block && service.pending != [] ==>
                now < service.pending[0].value && now + ticksToWait <= service.pending[0].value
      ensures block && current != [] ==> service.pending != [] && now + ticksToWait == service.pending[0].value
      ensures block && current == [] ==> NextRollover(now, now + ticksToWait)
      ensures block ==> Epoch(now) == Epoch(old(service).now) || old(service).pending == []
      ensures !block ==> Epoch(now) != Epoch(old(service).now)
                         || (old(service).pending != [] && old(service).pending[0].value <= now)
    {
      hide Epoch, Lists, TimerRuns.Inv, Drain, PositivePeriods, QueueFor, CallsFor, Expire, Tick, Sample;
      ghost var s, wasCurrent, wasOverflow := service, current, overflow;
      TimerRuns.InvPositive(s);
      SampleKeepsTimers(s, now);
      var timeNow, switched := SampleTimeNow(tickCount, now);
      block, ticksToWait, waitIndefinitely := false, 0, false;
      if !switched {
        var empty := listWasEmpty;
        if !empty && nextExpireTime <= timeNow {
          ProcessExpiredTimer(nextExpireTime, timeNow);
          ListsEmpty(wasCurrent, wasOverflow, s.pending, Epoch(s.now));
          TurnExpires(s, now);
        } else {
          if empty {
            empty := overflow == [];
          }
          ticksToWait := Minus(nextExpireTime, timeNow);
          waitIndefinitely := empty;
          block := true;
          ListsEmpty(current, overflow, service.pending, Epoch(service.now));
          BlockTime(current, overflow, service.pending, service.now, nextExpireTime);
          TurnWaits(s, now);
        }
      } else {
        TurnSwitches(s, now);
      }
    }

    /** Takes a timer off the list that holds it, if one does. */
    method RemoveFromLists(timer: nat)
      requires Lists(current, overflow, service.pending, Epoch(service.now))
      modifies this`current, this`overflow, this`service
      ensures service == old(service).(pending := Without(old(service).pending, timer))
      ensures Lists(current, overflow, service.pending, Epoch(service.now))
    {
      hide Lists, Epoch, Without;
      ListsRemove(current, overflow, service.pending, timer, Epoch(service.now));
      if Contains(current, timer) {
        current := Without(current, timer);
      } else {
        overflow := Without(overflow, timer);
      }
      service := service.(pending := Without(service.pending, timer));
    }

    /** The case of the commands that start or reset a timer. */
    method PerformStart(message: Message, timeNow: TickType, ghost m: Message)
      requires Valid() && timeNow == lastTime && m.timer in service.timers && !HasOwner(service.pending, m.timer)
      requires message == Message(m.id, m.timer, Tick(m.value)) && TimerRuns.MessageOk(m, service.now)
      requires IsStart(m.id)
      modifies this
      ensures Valid() && service == Apply(old(service), m)
    {
      hide Epoch, Tick, Lists, TimerRuns.Inv, HasOwner, QueueFor, CallsFor, Insert, IsStart;
      ghost var s := service;
      var timer := message.timer;
      TimerRuns.InvPeriod(s, timer);
      TimerRuns.ChangesKeepInv(s, timer, m.value);
      TimerRuns.ApplyKeepsInv(s, m);
      var period := timers[timer].period;
      timers := timers[timer := timers[timer].(active := true)];
      service := SetActive(service, timer, true);
      WrapSafe(m.value, s.now, period);
      var processNow := InsertTimerInActiveList(timer, Plus(message.value, period), timeNow, message.value, m.value);
      if processNow {
        calls := calls + [timer];
        CallsAppend(service, calls[..|calls| - 1], timer, m.value + period, s.now);
        service := CallBack(service, timer, m.value + period, s.now);
        if timers[timer].autoReload {
          SendReload(timer, Plus(message.value, period), m.value + period);
        }
      }
      assert service == Apply(s, m);
    }

    /** The part of prvProcessReceivedCommands that follows the removal and the reading of the time. */
    method Perform(message: Message, timeNow: TickType, ghost m: Message)
      requires Valid() && timeNow == lastTime && m.timer in service.timers && !HasOwner(service.pending, m.timer)
      requires message == Message(m.id, m.timer, Tick(m.value)) && TimerRuns.MessageOk(m, service.now)
      modifies this
      ensures Valid() && service == Apply(old(service), m)
    {
      hide Epoch, Tick, Lists, TimerRuns.Inv, HasOwner, QueueFor, CallsFor, Insert, IsStart, IsStop, IsChangePeriod;
      ghost var s := service;
      var timer := message.timer;
      TimerRuns.InvPeriod(s, timer);
      TimerRuns.ChangesKeepInv(s, timer, m.value);
      TimerRuns.ApplyKeepsInv(s, m);
      if IsStart(message.id) {
        PerformStart(message, timeNow, m);
      } else if IsStop(message.id) {
        timers := timers[timer := timers[timer].(active := false)];
        service := SetActive(service, timer, false);
      } else if IsChangePeriod(message.id) {
        TickSmall(m.value);
        timers := timers[timer := timers[timer].(active := true, period := message.value)];
        service := service.(timers := timers);
        WrapSafe(s.now, s.now, m.value);
        var processNow := InsertTimerInActiveList(timer, Plus(timeNow, message.value), timeNow, timeNow, s.now);
        assert !processNow;
      } else if message.id == COMMAND_DELETE {
        if timers[timer].staticallyAllocated {
          timers := timers[timer := timers[timer].(active := false)];
          service := SetActive(service, timer, false);
        } else {
          timers := timers - {timer};
          service := service.(timers := timers);
        }
      }
    }

    /** One round of the loop of prvProcessReceivedCommands. */
    method ProcessCommand(tickCount: TickType, ghost now: nat)
      requires Valid() && queue != [] && tickCount == Tick(now)
      requires TimerRuns.Guard(service, TimerRuns.HandleCommand(now))
      modifies this
      ensures Valid() && service == TimerRuns.Step(old(service), TimerRuns.HandleCommand(now))
    {
      hide Epoch, Tick, Lists, TimerRuns.Inv, HasOwner, CallsFor, Insert, Without, Sample, Apply, TimerRuns.TimeOk,
        TimerRuns.MessageOk, Command, Drain;
      ghost var s, m := service, service.queue[0];
      TimerRuns.TakenKeepsInv(s, now);
      var message := queue[0];
      queue := queue[1..];
      service := service.(queue := service.queue[1..]);
      RemoveFromLists(message.timer);
      assert service == TimerRuns.Taken(s);
      var timeNow, switched := SampleTimeNow(tickCount, now);
      Perform(message, timeNow, m);
    }

    /**
     prvProcessReceivedCommands, up to the end of the given readings of the tick count: the loop ends with the
     first reading for which no command is left. There are as many readings as it needs if none is beyond the
     limit and the work to be done until then is no more.
     */
    method ProcessReceivedCommands(tickCounts: seq<TickType>, ghost nows: seq<nat>, ghost limit: nat)
      returns (used: nat)
      requires Valid() && |tickCounts| == |nows| && forall i :: 0 <= i < |nows| ==> tickCounts[i] == Tick(nows[i])
      requires TimerProgress.CommandsOk(service, nows)
      modifies this
      ensures Valid() && service == TimerProgress.HandleAll(old(service), nows)
      ensures used <= |nows| && (used < |nows| ==> queue == [])
      ensures ((forall i :: 0 <= i < |nows| ==> nows[i] <= limit)
               && TimerProgress.Work(old(service), limit) <= |nows|) ==> queue == []
    {
      hide TimerRuns.Step, TimerRuns.Guard, TimerRuns.Inv, Tick, Epoch, Lists, TimerProgress.Work;
      ghost var s := service;
      if (forall i :: 0 <= i < |nows| ==> nows[i] <= limit) && TimerProgress.Work(s, limit) <= |nows| {
        TimerProgress.CommandsEnd(s, nows, limit);
      }
      used := 0;
      while used < |tickCounts| && queue != []
        invariant used <= |nows| && Valid()
        invariant TimerProgress.CommandsOk(service, nows[used..])
        invariant TimerProgress.HandleAll(service, nows[used..]) == TimerProgress.HandleAll(s, nows)
      {
        ProcessCommand(tickCounts[used], nows[used]);
        assert nows[used..][1..] == nows[used + 1..];
        used := used + 1;
      }
    }
  }

  /** What the current list tells about the next expiry. */
  lemma NextExpiry(current: seq<Entry>, overflow: seq<Entry>, pending: seq<Entry>, epoch: nat)
    requires Lists(current, overflow, pending, epoch)
    ensures current != [] ==>
              pending != [] && Epoch(pending[0].value) == epoch && current[0].value == Tick(pending[0].value)
    ensures current == [] ==> forall i :: 0 <= i < |pending| ==> Epoch(pending[i].value) == epoch + 1
  {
    hide Epoch, Tick;
    if current != [] {
      ListsPop(current, overflow, pending, epoch);
    } else {
      assert pending[0..] == pending;
    }
  }

  lemma InvOwner(s: Service, timer: nat)
    requires TimerRuns.Inv(s) && s.pending != [] && s.pending[0].owner == timer
    ensures timer in s.timers && s.timers[timer].active && 0 < s.timers[timer].period < TICK_MODULUS
    ensures !HasOwner(s.pending[1..], timer)
  {
    TimerRuns.PopKeeps(s.pending);
  }

  lemma EpochBoundary(value: nat, epoch: nat)
    requires Epoch(value) == epoch
    ensures epoch * TICK_MODULUS <= value < (epoch + 1) * TICK_MODULUS
  {
  }

  lemma DrainUnfolds(s: Service, boundary: nat, at: nat)
    requires PositivePeriods(s.timers) && s.pending != [] && s.pending[0].value < boundary
    ensures PositivePeriods(DrainOne(s, boundary, at).timers)
    ensures Drain(s, boundary, at) == Drain(DrainOne(s, boundary, at), boundary, at)
  {
    DrainOneUsesSlack(s, boundary, at);
  }

  lemma DrainDone(s: Service, boundary: nat, at: nat)
    requires PositivePeriods(s.timers) && (s.pending == [] || boundary <= s.pending[0].value)
    ensures Drain(s, boundary, at) == s
  {
  }

  /** The reload test on wrapped values: does the timer expire once more in the same epoch? */
  lemma ReloadTime(due: nat, period: nat, epoch: nat)
    requires Epoch(due) == epoch && 0 < period < TICK_MODULUS
    ensures Plus(Tick(due), period) == Tick(due + period)
    ensures Plus(Tick(due), period) > Tick(due) <==> due + period < (epoch + 1) * TICK_MODULUS
    ensures due + period < (epoch + 1) * TICK_MODULUS ==> Epoch(due + period) == epoch
  {
    TickParts(due);
    TickParts(due + period);
    TimerRuns.NextEpoch(due, period, epoch);
  }

  lemma CallsAppend(s: Service, calls: seq<nat>, timer: nat, due: nat, at: nat)
    requires CallsFor(calls, s.log)
    ensures CallsFor(calls + [timer], CallBack(s, timer, due, at).log)
  {
  }

  lemma DrainOneParts(s: Service, boundary: nat, at: nat)
    requires s.pending != [] && s.pending[0].owner in s.timers
    ensures var e := s.pending[0];
            var due := e.value + s.timers[e.owner].period;
            var s1 := CallBack(Pop(s), e.owner, e.value, at);
            DrainOne(s, boundary, at) ==
            if !s.timers[e.owner].autoReload then s1
            else if due < boundary then s1.(pending := Insert(s1.pending, Entry(e.owner, due)))
            else Reload(s1, e.owner, e.value)
  {
  }

  /** The rollover test of the code, for readings less than 2^32 ticks apart. */
  lemma RolledOver(s: Service, now: nat)
    requires TimerRuns.TimeOk(s, now)
    ensures now < s.now + TICK_MODULUS ==> (Tick(now) < Tick(s.now) <==> Epoch(now) != Epoch(s.now))
    ensures Epoch(now) == Epoch(s.now) ==> Tick(s.now) <= Tick(now)
    ensures PositivePeriods(s.timers) && s.pending == [] ==> Sample(s, now) == s.(now := now)
  {
    if now < s.now + TICK_MODULUS { TimerRuns.EpochStep(s.now, now); }
    TickParts(s.now);
    TickParts(now);
  }

  lemma PastBoundary(last: nat, now: nat)
    requires last <= now && Tick(now) < Tick(last)
    ensures (Epoch(last) + 1) * TICK_MODULUS <= now
    ensures now < last + TICK_MODULUS ==> Epoch(now) == Epoch(last) + 1
  {
    TickParts(last);
    TickParts(now);
  }

  lemma ListsEmpty(current: seq<Entry>, overflow: seq<Entry>, pending: seq<Entry>, epoch: nat)
    requires Lists(current, overflow, pending, epoch)
    ensures pending == [] <==> current == [] && overflow == []
    ensures pending == [] ==> forall e :: Lists(current, overflow, pending, e)
  {
  }

  lemma WithinEpoch(due: nat, now: nat)
    requires Epoch(due) == Epoch(now) && due <= now
    ensures now < due + TICK_MODULUS
  {
  }

  lemma TurnExpires(s: Service, now: nat)
    requires PositivePeriods(s.timers) && Epoch(now) == Epoch(s.now) && Sample(s, now).pending != []
    requires Sample(s, now).pending[0].value <= now && Sample(s, now).pending[0].owner in Sample(s, now).timers
    ensures Turn(s, now) == Expire(Sample(s, now)) && s.pending == Sample(s, now).pending
  {
  }

  lemma TurnWaits(s: Service, now: nat)
    requires PositivePeriods(s.timers) && (Epoch(now) == Epoch(s.now) || s.pending == [])
    requires Sample(s, now).pending == [] || now < Sample(s, now).pending[0].value
    ensures Turn(s, now) == Sample(s, now)
  {
  }

  lemma TurnSwitches(s: Service, now: nat)
    requires PositivePeriods(s.timers) && Epoch(now) != Epoch(s.now)
    ensures Turn(s, now) == Sample(s, now)
  {
  }

  /**
   The block time of the code: up to the earliest expiry, if it is in the current list; otherwise up to the next
   rollover, which no expiry in the overflow list precedes. At a rollover that is no time at all.
   */
  lemma BlockTime(current: seq<Entry>, overflow: seq<Entry>, pending: seq<Entry>, now: nat, nextExpireTime: TickType)
    requires Lists(current, overflow, pending, Epoch(now))
    requires nextExpireTime == if current == [] then 0 else current[0].value
    requires current != [] ==> Tick(now) < nextExpireTime
    ensures pending != [] ==> now < pending[0].value && now + Minus(nextExpireTime, Tick(now)) <= pending[0].value
    ensures current != [] ==> pending != [] && now + Minus(nextExpireTime, Tick(now)) == pending[0].value
    ensures current == [] ==> NextRollover(now, now + Minus(nextExpireTime, Tick(now)))
  {
    TickParts(now);
    if pending != [] {
      TickParts(pending[0].value);
    }
    if current != [] {
      ListsPop(current, overflow, pending, Epoch(now));
    } else {
      if pending != [] {
        ListsSwitch(overflow, pending, Epoch(now));
        EpochBoundary(pending[0].value, Epoch(now) + 1);
      }
      EpochBoundary(now, Epoch(now));
    }
  }

  /** The first moment, not before the given one, at which the 32-bit tick count is 0. */
  ghost predicate NextRollover(now: nat, at: nat) {
    now <= at < now + 0x1_0000_0000 && at % 0x1_0000_0000 == 0
  }

  lemma TickSmall(value: nat)
    requires value < TICK_MODULUS
    ensures Tick(value) == value
  {
  }
}
