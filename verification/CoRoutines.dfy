/**
 The co-routine scheduler of croutine.c. Interrupts may run wherever the code has not disabled them; they
 touch only the event lists, the pending-ready list and the event list items.
 */
module CoRoutines {
  import opened ListSpec
  import opened TwoLists
  import opened CoRoutineModel

  /** pxContainer of an event list item. */
  datatype Container = Nowhere | InEvents(list: nat) | InPending

  ghost predicate DistinctItems(s: seq<nat>) {
    forall i, j :: 0 <= i < j < |s| ==> s[i] != s[j]
  }

  /** Every event list item is in the list that its container says, once. */
  ghost predicate EventItems(events: seq<seq<Entry>>, pending: seq<nat>, container: map<nat, Container>) {
    && (forall l :: 0 <= l < |events| ==> DistinctOwners(events[l]))
    && DistinctItems(pending)
    && (forall l, c :: 0 <= l < |events| ==>
          (HasOwner(events[l], c) <==> c in container && container[c] == InEvents(l)))
    && (forall c :: c in pending <==> c in container && container[c] == InPending)
    && (forall c :: c in container && container[c].InEvents? ==> container[c].list < |events|)
  }

  /** An event list, in the order in which it is served: those of high priority have low values. */
  ghost predicate InTurn(s: seq<Entry>, priority: map<nat, nat>, priorities: nat) {
    Sorted(s) && forall e :: e in s ==> e.owner in priority && e.value + priority[e.owner] == priorities
  }

  ghost predicate ByPriority(events: seq<seq<Entry>>, priority: map<nat, nat>, priorities: nat) {
    forall l :: 0 <= l < |events| ==> InTurn(events[l], priority, priorities)
  }

  /** The head of an event list has the highest priority of those who wait there. */
  lemma HeadInTurn(s: seq<Entry>, priority: map<nat, nat>, priorities: nat)
    requires InTurn(s, priority, priorities) && s != []
    ensures InTurn(s[1..], priority, priorities) && s[0].owner in priority
    ensures forall e :: e in s ==> e.owner in priority && priority[e.owner] <= priority[s[0].owner]
  {
    SortedTail(s);
    assert s[0] in s;
  }

  lemma LeftInTurn(s: seq<Entry>, c: nat, priority: map<nat, nat>, priorities: nat)
    requires InTurn(s, priority, priorities)
    ensures InTurn(Without(s, c), priority, priorities)
  {
    hide Sorted, Without;
    SortedWithout(s, c);
    WithoutFrom(s, c);
  }

  lemma InsertedInTurn(s: seq<Entry>, e: Entry, priority: map<nat, nat>, priorities: nat)
    requires InTurn(s, priority, priorities) && e.owner in priority && e.value + priority[e.owner] == priorities
    ensures InTurn(Insert(s, e), priority, priorities)
  {
    hide Sorted, Insert;
    InsertKeepsSorted(s, e);
    InsertMembers(s, e);
  }

  /** Only delayed co-routines wait for events. */
  ghost predicate EventsAsleep(container: map<nat, Container>, sleeping: seq<Entry>) {
    forall c :: c in container && container[c] != Nowhere ==> HasOwner(sleeping, c)
  }

  /** The same co-routines have their event list item in some list. */
  ghost predicate SameWaiting(was: map<nat, Container>, now: map<nat, Container>) {
    was.Keys == now.Keys && forall c :: c in was ==> (was[c] == Nowhere <==> now[c] == Nowhere)
  }

  /**
   Nobody has been woken that was not delayed before, and whoever is still delayed waits for an event, in an
   event list or in the pending-ready list, exactly if it did before.
   */
  ghost predicate KeepsWaiting(was: map<nat, Container>, wasAsleep: seq<Entry>,
                               now: map<nat, Container>, asleep: seq<Entry>) {
    && was.Keys == now.Keys
    && (forall c :: HasOwner(asleep, c) ==> HasOwner(wasAsleep, c))
    && (forall c :: c in was && HasOwner(asleep, c) ==> (was[c] == Nowhere <==> now[c] == Nowhere))
  }

  lemma KeepsTrans(a: map<nat, Container>, s: seq<Entry>, b: map<nat, Container>, t: seq<Entry>,
                   c: map<nat, Container>, u: seq<Entry>)
    requires KeepsWaiting(a, s, b, t) && KeepsWaiting(b, t, c, u)
    ensures KeepsWaiting(a, s, c, u)
  {
    hide HasOwner;
  }

  lemma KeepsSame(a: map<nat, Container>, b: map<nat, Container>, s: seq<Entry>)
    requires SameWaiting(a, b)
    ensures KeepsWaiting(a, s, b, s)
  {
    hide HasOwner;
  }

  /** One co-routine stops being delayed, and its event list item is taken out. */
  lemma KeepsOthers(a: map<nat, Container>, s: seq<Entry>, c: nat)
    requires c in a && !HasOwner(Without(s, c), c)
    ensures KeepsWaiting(a, s, a[c := Nowhere], Without(s, c))
  {
    WithoutFrom(s, c);
    forall x | HasOwner(Without(s, c), x) ensures HasOwner(s, x) {
      var i :| 0 <= i < |Without(s, c)| && Without(s, c)[i].owner == x;
      assert Without(s, c)[i] in s;
    }
  }

  lemma HeadOwner(s: seq<Entry>)
    requires s != [] && DistinctOwners(s)
    ensures DistinctOwners(s[1..])
    ensures forall c :: HasOwner(s[1..], c) <==> HasOwner(s, c) && c != s[0].owner
  {
    forall c ensures HasOwner(s[1..], c) <==> HasOwner(s, c) && c != s[0].owner {
      OwnerFromTail(s, c);
    }
  }

  lemma HeadToPending(events: seq<seq<Entry>>, pending: seq<nat>, container: map<nat, Container>, l: nat)
    requires EventItems(events, pending, container) && l < |events| && events[l] != []
    ensures var c := events[l][0].owner;
            && c in container && container[c] == InEvents(l)
            && EventItems(events[l := events[l][1..]], pending + [c], container[c := InPending])
  {
    hide DistinctOwners;
    var c := events[l][0].owner;
    HeadOwner(events[l]);
    assert HasOwner(events[l], c);
  }

  lemma NoOwners()
    ensures forall c :: !HasOwner([], c)
  {
  }

  lemma {:induction false} OwnersLeft(s: seq<Entry>, c: nat)
    requires DistinctOwners(s)
    ensures DistinctOwners(Without(s, c))
    ensures forall x :: HasOwner(Without(s, c), x) <==> HasOwner(s, x) && x != c
  {
    hide DistinctOwners, HasOwner;
    NoOwners();
    if s != [] {
      HeadOwner(s);
      forall x ensures HasOwner(s, x) <==> s[0].owner == x || HasOwner(s[1..], x) { OwnerFromTail(s, x); }
      if s[0].owner != c {
        var rest := Without(s[1..], c);
        OwnersLeft(s[1..], c);
        assert ([s[0]] + rest)[1..] == rest;
        forall x ensures HasOwner([s[0]] + rest, x) <==> s[0].owner == x || HasOwner(rest, x) {
          OwnerFromTail([s[0]] + rest, x);
        }
        ConsDistinct(s[0], rest);
      } else {
        forall x ensures HasOwner(s[1..], x) <==> HasOwner(s, x) && x != c { OwnerFromTail(s, x); }
      }
    }
  }

  lemma ConsDistinct(e: Entry, s: seq<Entry>)
    requires DistinctOwners(s) && !HasOwner(s, e.owner)
    ensures DistinctOwners([e] + s)
  {
  }

  function WithoutItem(s: seq<nat>, c: nat): seq<nat> {
    if s == [] then [] else if s[0] == c then s[1..] else [s[0]] + WithoutItem(s[1..], c)
  }

  lemma {:induction false} ItemsLeft(s: seq<nat>, c: nat)
    requires DistinctItems(s)
    ensures DistinctItems(WithoutItem(s, c))
    ensures forall x :: x in WithoutItem(s, c) <==> x in s && x != c
  {
    if s != [] {
      assert s == [s[0]] + s[1..];
      ItemsLeft(s[1..], c);
      forall i | 0 <= i < |WithoutItem(s[1..], c)| ensures WithoutItem(s[1..], c)[i] != s[0] {
        assert WithoutItem(s[1..], c)[i] in s[1..];
      }
    }
  }

  lemma OutOfEvents(events: seq<seq<Entry>>, pending: seq<nat>, container: map<nat, Container>, c: nat)
    requires EventItems(events, pending, container) && c in container && container[c].InEvents?
    ensures container[c].list < |events|
    ensures EventItems(events[container[c].list := Without(events[container[c].list], c)], pending,
                       container[c := Nowhere])
  {
    hide DistinctOwners, HasOwner, Without;
    OwnersLeft(events[container[c].list], c);
  }

  lemma OutOfPending(events: seq<seq<Entry>>, pending: seq<nat>, container: map<nat, Container>, c: nat)
    requires EventItems(events, pending, container) && c in container && container[c] == InPending
    ensures EventItems(events, WithoutItem(pending, c), container[c := Nowhere])
  {
    hide DistinctOwners, HasOwner, WithoutItem, DistinctItems;
    ItemsLeft(pending, c);
  }

  lemma OwnersInserted(s: seq<Entry>, e: Entry)
    requires DistinctOwners(s) && !HasOwner(s, e.owner)
    ensures DistinctOwners(Insert(s, e))
    ensures forall x :: HasOwner(Insert(s, e), x) <==> HasOwner(s, x) || x == e.owner
  {
    InsertAt(s, e);
    var t, p := Insert(s, e), InsertPosition(s, e.value);
    hide Insert, InsertPosition;
    forall x ensures HasOwner(t, x) <==> HasOwner(s, x) || x == e.owner {
      if i :| 0 <= i < |s| && s[i].owner == x { assert t[if i < p then i else i + 1].owner == x; }
      if x == e.owner { assert t[p].owner == x; }
      if i :| 0 <= i < |t| && t[i].owner == x {
        if i != p { assert s[if i < p then i else i - 1].owner == x; }
      }
    }
  }

  lemma IntoEvents(events: seq<seq<Entry>>, pending: seq<nat>, container: map<nat, Container>, l: nat, e: Entry)
    requires EventItems(events, pending, container) && l < |events|
    requires e.owner in container && container[e.owner] == Nowhere
    ensures EventItems(events[l := Insert(events[l], e)], pending, container[e.owner := InEvents(l)])
  {
    hide DistinctOwners, HasOwner, Insert, DistinctItems;
    OwnersInserted(events[l], e);
  }

  lemma NewInTurn(events: seq<seq<Entry>>, priority: map<nat, nat>, c: nat, p: nat, priorities: nat)
    requires ByPriority(events, priority, priorities) && c !in priority
    ensures ByPriority(events, priority[c := p], priorities)
  {
    hide Sorted;
    forall l | 0 <= l < |events| ensures InTurn(events[l], priority[c := p], priorities) {
      assert InTurn(events[l], priority, priorities);
    }
  }

  lemma NewItem(events: seq<seq<Entry>>, pending: seq<nat>, container: map<nat, Container>, c: nat,
                sleeping: seq<Entry>)
    requires EventItems(events, pending, container) && EventsAsleep(container, sleeping) && c !in container
    ensures EventItems(events, pending, container[c := Nowhere])
    ensures EventsAsleep(container[c := Nowhere], sleeping)
  {
    hide DistinctOwners, HasOwner, DistinctItems;
  }

  /** What keeps the two lists right. */
  lemma Restamp(sleeping: seq<Entry>, tick: nat)
    ensures Tick(tick + 1) == (Tick(tick) + 1) % TICK_MODULUS
    ensures Epoch(tick + 1) == Epoch(tick) + if Tick(tick + 1) == 0 then 1 else 0
  {
    TickParts(tick);
    TickParts(tick + 1);
  }

  /**
   When the tick count wraps, the delayed list is empty: everything on it had its wake time before the
   wrap, and has been woken.
   */
  lemma EmptyAtSwap(delayed: seq<Entry>, overflow: seq<Entry>, s: Sched)
    requires Lists(delayed, overflow, s.sleeping, Epoch(s.tick)) && Asleep(s) && Tick(s.tick + 1) == 0
    ensures delayed == []
  {
    if delayed != [] {
      var v := s.sleeping[..|delayed|][0].value;
      assert v == s.sleeping[0].value && Epoch(v) == Epoch(s.tick);
      Restamp(s.sleeping, s.tick);
      LaterEpoch(v, s.tick + 1);
    }
  }

  class Scheduler {
    var ready: seq<Ready>                  // pxReadyCoRoutineLists
    var delayed: seq<Entry>                // pxDelayedCoRoutineList
    var overflow: seq<Entry>               // pxOverflowDelayedCoRoutineList
    var pending: seq<nat>                  // xPendingReadyCoRoutineList, of event list items
    var events: seq<seq<Entry>>            // the event lists of the queues
    var container: map<nat, Container>     // the containers of the event list items
    var priority: map<nat, nat>            // uxPriority of each co-routine
    var top: nat                           // uxTopCoRoutineReadyPriority
    var tickCount: TickType                // xCoRoutineTickCount
    var lastTickCount: TickType            // xLastTickCount
    var current: nat                       // pxCurrentCoRoutine, once there is one
    const priorities: nat                  // configMAX_CO_ROUTINE_PRIORITIES
    ghost var sched: Sched                 // what all this stands for

    /** The lists of generic items stand for the scheduler state. */
    ghost predicate Represents()
      reads this`ready, this`delayed, this`overflow, this`priority, this`top, this`tickCount, this`sched
    {
      && Lists(delayed, overflow, sched.sleeping, Epoch(sched.tick))
      && ready == sched.ready && priority == sched.priority && top == sched.top && tickCount == Tick(sched.tick)
      && |ready| == priorities
    }

    ghost predicate EventsOk()
      reads this`events, this`pending, this`container, this`priority, this`current, this`sched
    {
      && EventItems(events, pending, container) && EventsAsleep(container, sched.sleeping)
      && ByPriority(events, priority, priorities)
      && container.Keys == priority.Keys && (priority != map[] ==> current in priority)
    }

    ghost predicate Stable()
      reads this
    {
      Represents() && Inv(sched) && EventsOk()
    }

    ghost predicate Valid()
      reads this
    {
      Stable() && lastTickCount == tickCount
    }

    /** prvInitialiseCoRoutineLists, for the given number of priorities and of event lists. */
    constructor (priorities: nat, eventLists: nat)
      requires 0 < priorities
      ensures Valid() && sched.priority == map[] && sched.tick == 0 && |sched.ready| == priorities
      ensures events == seq(eventLists, _ => [])
    {
      hide Inv, EventItems;
      ready := seq(priorities, _ => Ready([], 0));
      delayed, overflow, pending := [], [], [];
      events := seq(eventLists, _ => []);
      container, priority := map[], map[];
      top, tickCount, lastTickCount, current := 0, 0, 0, 0;
      this.priorities := priorities;
      sched := Sched(0, [], seq(priorities, _ => Ready([], 0)), 0, map[]);
      new;
      StartInv(priorities);
      StartEvents(eventLists);
    }

    // -------------------------------------------------------------- interrupts

    /** xCoRoutineRemoveFromEventList, called from an interrupt for an event list that is not empty. */
    method RemoveFromEventList(l: nat) returns (mayYield: bool)
      requires EventsOk() && l < |events| && events[l] != []
      modifies this`events, this`pending, this`container
      ensures EventsOk()
      ensures var c := old(events[l][0].owner);
              && events == old(events)[l := old(events[l][1..])]
              && pending == old(pending) + [c] && container == old(container)[c := InPending]
              && SameWaiting(old(container), container)
              && c in priority && current in priority && mayYield == (priority[c] >= priority[current])
              && forall e :: e in old(events[l]) ==> e.owner in priority && priority[e.owner] <= priority[c]
    {
      hide EventItems, InTurn;
      HeadInTurn(events[l], priority, priorities);
      HeadToPending(events, pending, container, l);
      var c := events[l][0].owner;
      events := events[l := events[l][1..]];
      pending := pending + [c];
      container := container[c := InPending];
      mayYield := priority[c] >= priority[current];
    }

    /** Any number of interrupts, each for any event list that is not empty. */
    method Interrupts()
      requires EventsOk()
      modifies this`events, this`pending, this`container
      ensures EventsOk() && |events| == |old(events)|
      ensures old(pending) <= pending && SameWaiting(old(container), container)
    {
      hide EventItems, EventsAsleep;
      var count: int := *;
      for i := 0 to if count > 0 then count else 0
        invariant EventsOk() && |events| == |old(events)|
        invariant old(pending) <= pending && SameWaiting(old(container), container)
      {
        var l: int := *;
        if 0 <= l < |events| && events[l] != [] {
          var _ := RemoveFromEventList(l);
        }
      }
    }

    /** uxListRemove of the event list item, from whichever list holds it. */
    method RemoveEventItem(c: nat)
      requires EventItems(events, pending, container) && c in container && container[c] != Nowhere
      requires ByPriority(events, priority, priorities)
      modifies this`events, this`pending, this`container
      ensures EventItems(events, pending, container) && ByPriority(events, priority, priorities)
      ensures container == old(container)[c := Nowhere] && |events| == |old(events)|
    {
      hide EventItems, InTurn, Without;
      match container[c] {
        case InEvents(l) =>
          OutOfEvents(events, pending, container, c);
          LeftInTurn(events[l], c, priority, priorities);
          events := events[l := Without(events[l], c)];
        case InPending =>
          OutOfPending(events, pending, container, c);
          pending := WithoutItem(pending, c);
        case Nowhere =>
      }
      container := container[c := Nowhere];
    }

    // -------------------------------------------------------------- the ready lists

    /** prvAddCoRoutineToReadyQueue */
    method AddToReadyQueue(c: nat)
      requires Represents() && Shape(sched) && c in sched.priority
      modifies this`ready, this`top, this`sched
      ensures sched == AddReady(old(sched), c) && Represents()
    {
      hide Lists, Enqueue;
      if priority[c] > top {
        top := priority[c];
      }
      ready := ready[priority[c] := Enqueue(ready[priority[c]], c)];
      sched := AddReady(sched, c);
    }

    /** A new control block, with its list items in no list; the first one becomes the current one. */
    method Register(c: nat, p: nat)
      requires Represents() && EventsOk() && c !in priority
      modifies this`current, this`priority, this`container, this`sched
      ensures Represents() && EventsOk() && sched == old(sched).(priority := old(sched).priority[c := p])
      ensures container == old(container)[c := Nowhere]
      ensures current == if old(priority) == map[] then c else old(current)
    {
      hide Lists, EventItems, EventsAsleep, Tick, Epoch;
      NewItem(events, pending, container, c, sched.sleeping);
      NewInTurn(events, priority, c, p, priorities);
      if priority == map[] {
        current := c;
      }
      priority := priority[c := p];
      container := container[c := Nowhere];
      sched := sched.(priority := sched.priority[c := p]);
    }

    /** xCoRoutineCreate: `hasMemory` says whether there was memory for the control block c. */
    method Create(c: nat, requestedPriority: nat, hasMemory: bool) returns (pass: bool)
      requires Valid() && c !in sched.priority
      modifies this`current, this`priority, this`container, this`ready, this`top, this`sched
      ensures Valid() && pass == hasMemory
      ensures sched == if hasMemory then CoRoutineModel.Create(old(sched), c, requestedPriority) else old(sched)
      ensures container == if hasMemory then old(container)[c := Nowhere] else old(container)
      ensures current == if hasMemory && old(priority) == map[] then c else old(current)
    {
      hide Lists, EventItems, EventsAsleep, AddReady, Inv, Tick, Epoch, Shape;
      if !hasMemory {
        return false;
      }
      InvShape(sched);
      CreateKeepsInv(sched, c, requestedPriority);
      CreateParts(sched, c, requestedPriority);
      var p := requestedPriority;
      if p >= |ready| {
        p := |ready| - 1;
      }
      Register(c, p);
      AddToReadyQueue(c);
      pass := true;
    }

    /** The generic list item of the running co-routine moves from its ready list to the list for its wake time. */
    method MoveToDelayed(ticksToDelay: TickType)
      requires Represents() && Shape(sched) && 0 < ticksToDelay
      requires current in priority && current in ready[priority[current]].items
      modifies this`ready, this`delayed, this`overflow, this`sched
      ensures Represents() && sched == Delay(old(sched), current, ticksToDelay)
    {
      hide Lists, Insert, Dequeue, Tick, Epoch;
      var timeToWake: TickType := (tickCount + ticksToDelay) % TICK_MODULUS;
      ghost var e := Entry(current, sched.tick + ticksToDelay);
      WakeEpoch(sched.tick, ticksToDelay);
      ready := ready[priority[current] := Dequeue(ready[priority[current]], current)];
      if timeToWake < tickCount {
        ListsInsertOverflow(delayed, overflow, sched.sleeping, e, Epoch(sched.tick));
        overflow := Insert(overflow, Entry(current, timeToWake));
      } else {
        ListsInsertCurrent(delayed, overflow, sched.sleeping, e);
        delayed := Insert(delayed, Entry(current, timeToWake));
      }
      sched := Delay(sched, current, ticksToDelay);
    }

    /** vCoRoutineAddToDelayedList, called by the running co-routine; callers check that the delay is not 0. */
    method AddToDelayedList(ticksToDelay: TickType, waits: bool, eventList: nat)
      requires Valid() && 0 < ticksToDelay && (waits ==> eventList < |events|)
      requires current in priority && current in ready[priority[current]].items
      modifies this`ready, this`delayed, this`overflow, this`events, this`container, this`sched
      ensures Valid() && sched == Delay(old(sched), current, ticksToDelay)
      ensures container == if waits then old(container)[current := InEvents(eventList)] else old(container)
      ensures events == if !waits then old(events)
                        else old(events)[eventList := Insert(old(events)[eventList],
                                                             Entry(current, priorities - priority[current]))]
    {
      hide Lists, EventItems, Inv, Insert, Dequeue, Tick, Epoch, InTurn;
      InvShape(sched);
      NotDelayed(sched, current);
      DelayKeepsInv(sched, current, ticksToDelay);
      OwnersMore(sched.sleeping, Entry(current, sched.tick + ticksToDelay));
      MoveToDelayed(ticksToDelay);
      if waits {
        var e := Entry(current, priorities - priority[current]);
        InsertedInTurn(events[eventList], e, priority, priorities);
        IntoEvents(events, pending, container, eventList, e);
        events := events[eventList := Insert(events[eventList], e)];
        container := container[current := InEvents(eventList)];
      }
    }

    // -------------------------------------------------------------- the scheduler

    /** uxListRemove of the generic list item of a delayed co-routine, from whichever list holds it. */
    method RemoveDelayed(c: nat)
      requires Represents()
      modifies this`delayed, this`overflow, this`sched
      ensures Represents() && sched == old(sched).(sleeping := Without(old(sched).sleeping, c))
    {
      hide Lists, Without, HasOwner, Epoch, Tick;
      ListsRemove(delayed, overflow, sched.sleeping, c, Epoch(sched.tick));
      if Contains(delayed, c) {
        delayed := Without(delayed, c);
      } else {
        overflow := Without(overflow, c);
      }
      sched := sched.(sleeping := Without(sched.sleeping, c));
    }

    /** The event list item at the head of the pending-ready list leaves it; then interrupts may run. */
    method TakePendingHead() returns (c: nat)
      requires Stable() && pending != []
      modifies this`pending, this`events, this`container
      ensures Stable() && c == old(pending[0]) && old(pending)[1..] <= pending && |events| == |old(events)|
      ensures HasOwner(sched.sleeping, c) && EventsAsleep(container, Without(sched.sleeping, c))
      ensures KeepsWaiting(old(container), sched.sleeping, container, Without(sched.sleeping, c))
    {
      hide EventItems, EventsAsleep, Represents, Inv, Without, HasOwner, KeepsWaiting;
      c := pending[0];
      HeadOfPending(events, pending, container, sched.sleeping);
      pending := pending[1..];
      KeepsOthersWoken(container, sched, c);
      container := container[c := Nowhere];
      ghost var taken := container;
      Interrupts();
      KeepsSame(taken, container, Without(sched.sleeping, c));
      KeepsTrans(old(container), sched.sleeping, taken, Without(sched.sleeping, c),
                 container, Without(sched.sleeping, c));
      StillAsleep(container, sched.sleeping, c);
    }

    /** The co-routine at the head of the pending-ready list leaves the lists it is on and becomes ready. */
    method ReadyPendingHead() returns (c: nat)
      requires Valid() && pending != []
      modifies this`ready, this`delayed, this`overflow, this`pending, this`events, this`container, this`top, this`sched
      ensures Valid() && c == old(pending[0]) && old(pending)[1..] <= pending && |events| == |old(events)|
      ensures HasOwner(old(sched).sleeping, c) && Woken(old(sched), c, sched)
      ensures KeepsWaiting(old(container), old(sched).sleeping, container, sched.sleeping)
    {
      hide Lists, EventItems, EventsAsleep, Inv, Shape, AddReady, Without, HasOwner, Epoch, Tick, Woken, KeepsWaiting;
      c := TakePendingHead();
      WakeEarlyParts(sched, c);
      RemoveDelayed(c);
      AddReadyFrame(sched, c);
      AddToReadyQueue(c);
    }

    /** prvCheckPendingReadyList: the co-routines readied by events, among them those pending at the start. */
    method CheckPendingReadyList() returns (ghost woken: seq<nat>)
      requires Valid()
      modifies this`ready, this`delayed, this`overflow, this`pending, this`events, this`container, this`top, this`sched
      ensures Valid() && pending == [] && old(pending) <= woken
      ensures Shape(old(sched)) && AllDelayed(old(sched), woken) && sched == Events(old(sched), woken)
      ensures KeepsWaiting(old(container), old(sched).sleeping, container, sched.sleeping)
    {
      hide Represents, EventsOk, Inv, Shape, Events, AllDelayed, HasOwner, Woken, KeepsWaiting;
      woken := [];
      KeepsSame(container, container, sched.sleeping);
      InvShape(sched);
      NoEvents(sched);
      while pending != []
        invariant Valid() && Shape(old(sched)) && AllDelayed(old(sched), woken) && sched == Events(old(sched), woken)
        invariant old(pending) <= woken + pending
        invariant KeepsWaiting(old(container), old(sched).sleeping, container, sched.sleeping)
        decreases |sched.sleeping|
      {
        ghost var before, list, was := sched, pending, container;
        var c := ReadyPendingHead();
        KeepsTrans(old(container), old(sched).sleeping, was, before.sleeping, container, sched.sleeping);
        EventWoken(old(sched), woken, c, before, sched);
        assert woken + list == (woken + [c]) + list[1..];
        woken := woken + [c];
        was := container;
        Interrupts();
        KeepsSame(was, container, sched.sleeping);
        KeepsTrans(old(container), old(sched).sleeping, was, sched.sleeping, container, sched.sleeping);
      }
    }

    /**
     The co-routine c at the head of the delayed list, whose wake time has come, becomes ready. The interrupts
     that run just before the critical section may have moved its event list item to the pending-ready list.
     */
    method WakeHead(c: nat)
      requires Represents() && DueInv(sched) && EventsOk() && Shape(sched)
      requires delayed != [] && c == delayed[0].owner && delayed[0].value <= tickCount
      modifies this`ready, this`delayed, this`pending, this`events, this`container, this`top, this`sched
      ensures Represents() && DueInv(sched) && EventsOk() && |events| == |old(events)| && |delayed| < old(|delayed|)
      ensures Shape(sched) && WakeDue(sched) == WakeDue(old(sched))
      ensures KeepsWaiting(old(container), old(sched).sleeping, container, sched.sleeping)
    {
      hide Represents, EventItems, EventsAsleep, DueInv, WakeDue, AddReady, Shape, KeepsWaiting, HasOwner;
      Interrupts();
      ghost var was, s := container, sched;
      PopDelayed();
      WakesOne(s);
      KeepsSame(old(container), was, s.sleeping);
      KeepsTail(was, s.sleeping);
      KeepsTrans(old(container), s.sleeping, was, s.sleeping, was[c := Nowhere], s.sleeping[1..]);
      if container[c] != Nowhere {
        RemoveEventItem(c);
      }
      OthersAsleep(was, s.sleeping);
      AddReadyFrame(sched, c);
      AddToReadyQueue(c);
      DueInvShape(sched);
    }

    /** The generic list item at the head of the delayed list leaves it. */
    method PopDelayed()
      requires Represents() && delayed != []
      modifies this`delayed, this`sched
      ensures Represents() && old(sched).sleeping != [] && old(delayed[0].owner) == old(sched).sleeping[0].owner
      ensures old(delayed[0].value) <= tickCount ==> old(sched).sleeping[0].value <= sched.tick
      ensures sched == old(sched).(sleeping := old(sched).sleeping[1..]) && delayed == old(delayed)[1..]
      ensures priority == sched.priority
    {
      hide Lists, Epoch, Tick;
      ListsPop(delayed, overflow, sched.sleeping, Epoch(sched.tick));
      SameEpochOrder(sched.sleeping[0].value, sched.tick);
      delayed := delayed[1..];
      sched := sched.(sleeping := sched.sleeping[1..]);
    }

    /** The inner loop of prvCheckDelayedList: readies every co-routine whose wake time is now. */
    method WakeExpired()
      requires Represents() && DueInv(sched) && EventsOk()
      modifies this`ready, this`delayed, this`pending, this`events, this`container, this`top, this`sched
      ensures Stable() && sched == WakeDue(old(sched)) && |events| == |old(events)|
      ensures KeepsWaiting(old(container), old(sched).sleeping, container, sched.sleeping)
    {
      hide Lists, EventsOk, DueInv, Inv, WakeDue, Epoch, Shape, KeepsWaiting;
      DueInvShape(sched);
      KeepsSame(container, container, sched.sleeping);
      while delayed != []
        invariant Represents() && DueInv(sched) && EventsOk() && |events| == |old(events)|
        invariant Shape(sched) && WakeDue(sched) == WakeDue(old(sched))
        invariant KeepsWaiting(old(container), old(sched).sleeping, container, sched.sleeping)
        decreases |delayed|
      {
        var c := delayed[0].owner;
        if tickCount < delayed[0].value {
          break;
        }
        ghost var was, asleep := container, sched.sleeping;
        WakeHead(c);
        KeepsTrans(old(container), old(sched).sleeping, was, asleep, container, sched.sleeping);
      }
      NoneDue(delayed, overflow, sched);
      TickEnds(sched);
    }

    /** The count goes on by one tick; when it wraps, the delayed list, empty by then, becomes the overflow list. */
    method CountTick()
      requires Stable()
      modifies this`delayed, this`overflow, this`tickCount, this`sched
      ensures Represents() && DueInv(sched) && EventsOk() && sched == old(sched).(tick := old(sched).tick + 1)
      ensures tickCount == (old(tickCount) + 1) % TICK_MODULUS
      ensures tickCount == 0 ==> old(delayed) == [] && delayed == old(overflow) && overflow == []
    {
      hide Lists, EventItems, EventsAsleep, Inv, DueInv, Epoch;
      Restamp(sched.sleeping, sched.tick);
      TickBegins(sched);
      tickCount := (tickCount + 1) % TICK_MODULUS;
      if tickCount == 0 {
        InvAsleep(sched);
        EmptyAtSwap(delayed, overflow, sched);
        ListsSwitch(overflow, sched.sleeping, Epoch(sched.tick));
        delayed, overflow := overflow, delayed;
      }
      sched := sched.(tick := sched.tick + 1);
    }

    /** prvCheckDelayedList, where xTaskGetTickCount reads `now`. */
    method CheckDelayedList(now: TickType)
      requires Valid()
      modifies this`ready, this`delayed, this`overflow, this`pending, this`events, this`container, this`top,
               this`tickCount, this`lastTickCount, this`sched
      ensures Valid() && Shape(old(sched)) && tickCount == now
      ensures sched == Ticks(old(sched), (now - old(lastTickCount)) % TICK_MODULUS)
      ensures KeepsWaiting(old(container), old(sched).sleeping, container, sched.sleeping)
    {
      hide Represents, EventsOk, Inv, DueInv, Shape, WakeDue, Ticks, KeepsWaiting;
      KeepsSame(container, container, sched.sleeping);
      var passedTicks: TickType := (now - lastTickCount) % TICK_MODULUS;
      ghost var total, done := passedTicks, 0;
      InvShape(sched);
      NoTicks(sched);
      TicksLater(lastTickCount, now);
      while passedTicks > 0
        invariant Stable() && done + passedTicks == total && Shape(old(sched)) && sched == Ticks(old(sched), done)
        invariant tickCount == (old(tickCount) + done) % TICK_MODULUS
        invariant KeepsWaiting(old(container), old(sched).sleeping, container, sched.sleeping)
      {
        NextTick(old(tickCount), done);
        OneMoreTick(old(sched), done);
        CountTick();
        passedTicks := passedTicks - 1;
        done := done + 1;
        ghost var was, asleep := container, sched.sleeping;
        WakeExpired();
        KeepsTrans(old(container), old(sched).sleeping, was, asleep, container, sched.sleeping);
      }
      lastTickCount := tickCount;
    }

    /** The end of vCoRoutineSchedule: finds the highest priority with anything ready, and moves its index on. */
    method Choose() returns (runs: bool)
      requires Valid()
      modifies this`ready, this`top, this`current, this`sched
      ensures Valid() && Shape(old(sched)) && sched == Pick(old(sched)) && sched.sleeping == old(sched).sleeping
      ensures if runs then Picks(old(sched), current)
              else forall p :: 0 <= p < |ready| ==> ready[p].items == []
    {
      hide Lists, EventItems, EventsAsleep, Inv;
      ghost var s := sched;
      InvShape(s);
      PickKeepsInv(s);
      NothingReadyAbove(s);
      while ready[top].items == []
        invariant top <= s.top && Highest(s.ready, top) == Highest(s.ready, s.top)
        invariant Lists(delayed, overflow, s.sleeping, Epoch(s.tick)) && ready == s.ready && tickCount == Tick(s.tick)
        invariant EventsOk() && sched == s && priority == s.priority && lastTickCount == tickCount
        decreases top
      {
        if top == 0 {
          sched := Pick(s);
          return false;
        }
        top := top - 1;
      }
      var l := ready[top];
      var c := NextCursor(|l.items|, l.cursor);
      ready := ready[top := Ready(l.items, c)];
      CurrentExists(s, top, c);
      current := l.items[c - 1];
      sched := Pick(s);
      runs := true;
    }

    /** vCoRoutineSchedule, up to calling the co-routine that it makes the current one. */
    method Schedule(now: TickType) returns (runs: bool, ghost woken: seq<nat>)
      requires Valid()
      modifies this
      ensures Valid() && Shape(old(sched)) && old(pending) <= woken && AllDelayed(old(sched), woken)
      ensures var s := Ticks(Events(old(sched), woken), (now - old(lastTickCount)) % TICK_MODULUS);
              && sched == Pick(s) && tickCount == now
              && if runs then Picks(s, current) else forall p :: 0 <= p < |ready| ==> ready[p].items == []
      ensures KeepsWaiting(old(container), old(sched).sleeping, container, sched.sleeping)
    {
      hide Lists, EventItems, EventsAsleep, Inv, Ticks, Events, AllDelayed, Pick, Picks, Shape, EventsOk, Represents,
           KeepsWaiting;
      woken := CheckPendingReadyList();
      ghost var was, asleep := container, sched.sleeping;
      CheckDelayedList(now);
      KeepsTrans(old(container), old(sched).sleeping, was, asleep, container, sched.sleeping);
      runs := Choose();
    }
  }

  // ---------------------------------------------------------------- facts for the methods

  lemma InvShape(s: Sched)
    requires Inv(s)
    ensures Shape(s)
  {
  }

  lemma CreateParts(s: Sched, c: nat, priority: nat)
    requires Shape(s) && c !in s.priority
    ensures var p := if priority >= |s.ready| then |s.ready| - 1 else priority;
            var s1 := s.(priority := s.priority[c := p]);
            && 0 < |s.ready| && Shape(s1) && AddReady(s1, c) == Create(s, c, priority)
            && Create(s, c, priority).priority == s1.priority && Create(s, c, priority).sleeping == s.sleeping
  {
  }

  lemma DueInvShape(s: Sched)
    requires DueInv(s)
    ensures Shape(s)
  {
  }

  lemma InvAsleep(s: Sched)
    requires Inv(s)
    ensures Asleep(s)
  {
  }

  lemma {:induction false} NothingReady(n: nat)
    ensures AllReady(seq(n, _ => Ready([], 0))) == multiset{}
  {
    if n > 0 {
      NothingReady(n - 1);
      assert seq(n, _ => Ready([], 0))[1..] == seq(n - 1, _ => Ready([], 0));
    }
  }

  lemma StartInv(priorities: nat)
    requires 0 < priorities
    ensures Inv(Sched(0, [], seq(priorities, _ => Ready([], 0)), 0, map[]))
  {
    var s := Sched(0, [], seq(priorities, _ => Ready([], 0)), 0, map[]);
    NothingReady(priorities);
    assert Placed(s) == multiset(s.priority.Keys);
  }

  lemma StartEvents(eventLists: nat)
    ensures EventItems(seq(eventLists, _ => []), [], map[])
  {
    NoOwners();
  }

  /** A ready co-routine waits for nothing. */
  lemma NotDelayed(s: Sched, c: nat)
    requires Inv(s) && c in s.priority && c in s.ready[s.priority[c]].items
    ensures !HasOwner(s.sleeping, c)
  {
    OneList(s, c);
  }

  lemma OwnersMore(s: seq<Entry>, e: Entry)
    ensures forall c :: HasOwner(s, c) ==> HasOwner(Insert(s, e), c)
    ensures HasOwner(Insert(s, e), e.owner)
  {
    hide Insert;
    InsertMembers(s, e);
    forall c | HasOwner(s, c) ensures HasOwner(Insert(s, e), c) {
      var i :| 0 <= i < |s| && s[i].owner == c;
      assert s[i] in Insert(s, e);
    }
    assert e in Insert(s, e);
  }

  /** The wake time as the code works it out, and the list it picks. */
  lemma WakeEpoch(tick: nat, delay: nat)
    requires delay < TICK_MODULUS
    ensures (Tick(tick) + delay) % TICK_MODULUS == Tick(tick + delay)
    ensures Epoch(tick + delay) == Epoch(tick) + if Tick(tick + delay) < Tick(tick) then 1 else 0
  {
    TickParts(tick);
    TickParts(tick + delay);
  }

  /** One step of readying after an event. */
  ghost predicate Woken(s: Sched, c: nat, now: Sched) {
    Shape(s) && c in s.priority && now == WakeEarly(s, c) && |now.sleeping| < |s.sleeping|
  }

  lemma EventWoken(s: Sched, cs: seq<nat>, c: nat, before: Sched, now: Sched)
    requires Shape(s) && AllDelayed(s, cs) && before == Events(s, cs) && Inv(before)
    requires HasOwner(before.sleeping, c) && Woken(before, c, now)
    ensures AllDelayed(s, cs + [c]) && now == Events(s, cs + [c]) && |now.sleeping| < |before.sleeping|
  {
    hide Inv, WakeEarly, AllDelayed, Events, HasOwner;
    OneMoreEvent(s, cs, c);
  }

  lemma NoEvents(s: Sched)
    requires Shape(s)
    ensures AllDelayed(s, []) && Events(s, []) == s
  {
  }

  lemma HeadOfPending(events: seq<seq<Entry>>, pending: seq<nat>, container: map<nat, Container>, sleeping: seq<Entry>)
    requires EventItems(events, pending, container) && EventsAsleep(container, sleeping) && pending != []
    ensures var c := pending[0];
            && c in container && HasOwner(sleeping, c)
            && EventItems(events, pending[1..], container[c := Nowhere])
            && EventsAsleep(container[c := Nowhere], sleeping)
  {
    hide DistinctOwners, HasOwner;
    assert pending == [pending[0]] + pending[1..];
  }

  lemma StillAsleep(container: map<nat, Container>, sleeping: seq<Entry>, c: nat)
    requires EventsAsleep(container, sleeping) && c in container && container[c] == Nowhere
    ensures EventsAsleep(container, Without(sleeping, c))
  {
    forall x | x in container && container[x] != Nowhere ensures HasOwner(Without(sleeping, c), x) {
      var i :| 0 <= i < |sleeping| && sleeping[i].owner == x;
      WithoutKeeps(sleeping, c, sleeping[i]);
      var j :| 0 <= j < |Without(sleeping, c)| && Without(sleeping, c)[j] == sleeping[i];
    }
  }

  lemma KeepsTail(container: map<nat, Container>, sleeping: seq<Entry>)
    requires sleeping != [] && !HasOwner(sleeping[1..], sleeping[0].owner) && sleeping[0].owner in container
    ensures KeepsWaiting(container, sleeping, container[sleeping[0].owner := Nowhere], sleeping[1..])
    ensures container[sleeping[0].owner] == Nowhere ==> container[sleeping[0].owner := Nowhere] == container
  {
    assert Without(sleeping, sleeping[0].owner) == sleeping[1..];
    KeepsOthers(container, sleeping, sleeping[0].owner);
  }

  lemma OthersAsleep(container: map<nat, Container>, sleeping: seq<Entry>)
    requires EventsAsleep(container, sleeping) && sleeping != []
    requires sleeping[0].owner in container
    ensures EventsAsleep(container[sleeping[0].owner := Nowhere], sleeping[1..])
  {
    var now := container[sleeping[0].owner := Nowhere];
    forall x | x in now && now[x] != Nowhere ensures HasOwner(sleeping[1..], x) {
      OwnerFromTail(sleeping, x);
    }
  }

  lemma KeepsOthersWoken(container: map<nat, Container>, s: Sched, c: nat)
    requires Inv(s) && c in container && HasOwner(s.sleeping, c)
    ensures KeepsWaiting(container, s.sleeping, container[c := Nowhere], Without(s.sleeping, c))
  {
    hide KeepsWaiting, Without, Owners, AllReady, Sorted;
    OwnersWithout(s.sleeping, c);
    OwnersWithout(Without(s.sleeping, c), c);
    WakeEarlyKeepsInv(s, c);
    assert Placed(s)[c] <= 1;
    KeepsOthers(container, s.sleeping, c);
  }

  lemma WakeEarlyParts(s: Sched, c: nat)
    requires Inv(s) && HasOwner(s.sleeping, c)
    ensures var s1 := s.(sleeping := Without(s.sleeping, c));
            && c in s.priority && Shape(s) && Shape(s1) && AddReady(s1, c) == WakeEarly(s, c)
            && WakeEarly(s, c).sleeping == s1.sleeping && |s1.sleeping| < |s.sleeping|
            && WakeEarly(s, c).priority == s.priority && Inv(WakeEarly(s, c)) && Woken(s, c, WakeEarly(s, c))
  {
    WakeEarlyKeepsInv(s, c);
    WithoutShort(s, c);
    ShorterWithout(s.sleeping, c);
  }

  lemma {:induction false} ShorterWithout(s: seq<Entry>, c: nat)
    requires HasOwner(s, c)
    ensures |Without(s, c)| < |s|
  {
    OwnerFromTail(s, c);
    if s[0].owner != c { ShorterWithout(s[1..], c); }
  }

  /** At the end of the inner loop nobody is due any more. */
  lemma NoneDue(delayed: seq<Entry>, overflow: seq<Entry>, s: Sched)
    requires Lists(delayed, overflow, s.sleeping, Epoch(s.tick))
    requires delayed != [] ==> Tick(s.tick) < delayed[0].value
    ensures s.sleeping == [] || s.tick < s.sleeping[0].value
  {
    if delayed != [] {
      ListsPop(delayed, overflow, s.sleeping, Epoch(s.tick));
      SameEpochOrder(s.sleeping[0].value, s.tick);
    } else if s.sleeping != [] {
      assert s.sleeping[0] == s.sleeping[0..][0];
      LaterEpoch(s.tick, s.sleeping[0].value);
    }
  }

  lemma TicksLater(last: TickType, now: TickType)
    ensures (last + (now - last) % TICK_MODULUS) % TICK_MODULUS == now
  {
  }

  lemma NextTick(last: TickType, done: nat)
    ensures ((last + done) % TICK_MODULUS + 1) % TICK_MODULUS == (last + (done + 1)) % TICK_MODULUS
  {
  }

  lemma NoTicks(s: Sched)
    requires Shape(s)
    ensures Ticks(s, 0) == s
  {
  }

  lemma OneMoreTick(s: Sched, n: nat)
    requires Shape(s)
    ensures var t := Ticks(s, n).(tick := Ticks(s, n).tick + 1);
            Shape(t) && WakeDue(t) == Ticks(s, n + 1)
  {
  }

  lemma NothingReadyAbove(s: Sched)
    requires Inv(s)
    ensures s.ready[Highest(s.ready, s.top)].items == [] ==> forall p :: 0 <= p < |s.ready| ==> s.ready[p].items == []
  {
  }

  lemma CurrentExists(s: Sched, p: nat, c: nat)
    requires Inv(s) && p < |s.ready| && 1 <= c <= |s.ready[p].items|
    ensures s.ready[p].items[c - 1] in s.priority
  {
    assert s.ready[p].items[c - 1] in s.ready[p].items;
  }
}
