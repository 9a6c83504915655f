/**
 The co-routine scheduler as it would be with an unbounded tick count: one list of delayed co-routines in
 order of true wake time. Module CoRoutines proves that the code, with its two lists and its wrapping
 count, does exactly this, whatever interrupts do to the event lists meanwhile.
 */
module CoRoutineModel {
  import opened ListSpec
  import opened TwoLists

  /** A ready list: the co-routines in list order, and where pxIndex stands. */
  datatype Ready = Ready(items: seq<nat>, cursor: nat)

  /**
   tick: xCoRoutineTickCount, had it not wrapped; sleeping: the delayed co-routines by true wake time;
   ready: the ready lists by priority; top: uxTopCoRoutineReadyPriority; priority: of every co-routine.
   */
  datatype Sched = Sched(tick: nat, sleeping: seq<Entry>, ready: seq<Ready>, top: nat, priority: map<nat, nat>)

  // ---------------------------------------------------------------- the ready lists

  function IndexOf(items: seq<nat>, c: nat): (k: nat)
    requires c in items
    ensures k < |items| && items[k] == c && c !in items[..k]
  {
    if items[0] == c then 0 else 1 + IndexOf(items[1..], c)
  }

  function Enqueue(l: Ready, c: nat): Ready
    requires l.cursor <= |l.items|
  {
    Ready(InsertEnd(l.items, l.cursor, c), InsertEndCursor(l.cursor))
  }

  function Dequeue(l: Ready, c: nat): Ready
    requires l.cursor <= |l.items| && c in l.items
  {
    var k := IndexOf(l.items, c);
    Ready(RemoveAt(l.items, k), RemoveCursor(l.cursor, k))
  }

  /** The lists exist and their indices stand in them; every co-routine has one of the priorities. */
  ghost predicate Shape(s: Sched) {
    && s.top < |s.ready|
    && (forall p :: 0 <= p < |s.ready| ==> s.ready[p].cursor <= |s.ready[p].items|)
    && (forall c :: c in s.priority ==> s.priority[c] < |s.ready|)
    && (forall i :: 0 <= i < |s.sleeping| ==> s.sleeping[i].owner in s.priority)
  }

  /** prvAddCoRoutineToReadyQueue */
  ghost function AddReady(s: Sched, c: nat): (r: Sched)
    requires Shape(s) && c in s.priority
    ensures Shape(r)
  {
    var p := s.priority[c];
    s.(top := if p > s.top then p else s.top, ready := s.ready[p := Enqueue(s.ready[p], c)])
  }

  // ---------------------------------------------------------------- the operations

  /** xCoRoutineCreate */
  ghost function Create(s: Sched, c: nat, priority: nat): Sched
    requires Shape(s) && c !in s.priority
  {
    var p := if priority >= |s.ready| then |s.ready| - 1 else priority;
    AddReady(s.(priority := s.priority[c := p]), c)
  }

  /** The co-routine c runs and delays itself. */
  ghost function Delay(s: Sched, c: nat, ticks: nat): Sched
    requires Shape(s) && c in s.priority && c in s.ready[s.priority[c]].items
  {
    var p := s.priority[c];
    s.(ready := s.ready[p := Dequeue(s.ready[p], c)], sleeping := Insert(s.sleeping, Entry(c, s.tick + ticks)))
  }

  /** Moves every co-routine whose wake time has come to its ready list. */
  ghost function WakeDue(s: Sched): (r: Sched)
    requires Shape(s)
    ensures Shape(r)
    decreases |s.sleeping|
  {
    if s.sleeping == [] || s.tick < s.sleeping[0].value then s
    else WakeDue(AddReady(s.(sleeping := s.sleeping[1..]), s.sleeping[0].owner))
  }

  ghost function OneTick(s: Sched): (r: Sched)
    requires Shape(s)
    ensures Shape(r)
  {
    WakeDue(s.(tick := s.tick + 1))
  }

  ghost function Ticks(s: Sched, n: nat): (r: Sched)
    requires Shape(s)
    ensures Shape(r)
  {
    if n == 0 then s else OneTick(Ticks(s, n - 1))
  }

  lemma WithoutShort(s: Sched, c: nat)
    requires Shape(s)
    ensures Shape(s.(sleeping := Without(s.sleeping, c)))
  {
    WithoutFrom(s.sleeping, c);
    forall i | 0 <= i < |Without(s.sleeping, c)| ensures Without(s.sleeping, c)[i].owner in s.priority {
      assert Without(s.sleeping, c)[i] in Without(s.sleeping, c);
    }
  }

  lemma {:induction false} WithoutFrom(s: seq<Entry>, c: nat)
    ensures forall e :: e in Without(s, c) ==> e in s
  {
    if s != [] {
      WithoutFrom(s[1..], c);
      assert s == [s[0]] + s[1..];
    }
  }

  /** An event readies the co-routine c before its delay is over. */
  ghost function WakeEarly(s: Sched, c: nat): Sched
    requires Shape(s) && c in s.priority
  {
    WithoutShort(s, c);
    AddReady(s.(sleeping := Without(s.sleeping, c)), c)
  }

  /** The highest priority, at most `top`, at which something is ready; 0 if there is none. */
  function Highest(ready: seq<Ready>, top: nat): (p: nat)
    requires top < |ready|
    ensures p <= top && (ready[p].items == [] ==> p == 0)
    ensures forall q :: p < q <= top ==> ready[q].items == []
  {
    if ready[top].items == [] && top > 0 then Highest(ready, top - 1) else top
  }

  function Next(l: Ready): Ready
    requires l.items != [] && l.cursor <= |l.items|
  {
    l.(cursor := NextCursor(|l.items|, l.cursor))
  }

  /** Choosing what to run: the state after, with the index of the chosen list on the co-routine to run. */
  ghost function Pick(s: Sched): Sched
    requires Shape(s)
  {
    var p := Highest(s.ready, s.top);
    if s.ready[p].items == [] then s.(top := p) else s.(top := p, ready := s.ready[p := Next(s.ready[p])])
  }

  /** The co-routine that a choice sets running, if there is one. */
  ghost predicate Picks(s: Sched, c: nat)
    requires Shape(s)
  {
    var p := Highest(s.ready, s.top);
    s.ready[p].items != [] && c == s.ready[p].items[Next(s.ready[p]).cursor - 1]
  }

  // ---------------------------------------------------------------- every co-routine in exactly one list

  function Owners(s: seq<Entry>): multiset<nat> {
    if s == [] then multiset{} else multiset{s[0].owner} + Owners(s[1..])
  }

  function AllReady(ready: seq<Ready>): multiset<nat> {
    if ready == [] then multiset{} else multiset(ready[0].items) + AllReady(ready[1..])
  }

  /** How often each co-routine's generic list item occurs in all the lists together. */
  function Placed(s: Sched): multiset<nat> {
    Owners(s.sleeping) + AllReady(s.ready)
  }

  ghost predicate AtPriority(s: Sched) {
    forall p, c :: 0 <= p < |s.ready| && c in s.ready[p].items ==> c in s.priority && s.priority[c] == p
  }

  ghost predicate Asleep(s: Sched) {
    && Sorted(s.sleeping)
    && forall i :: 0 <= i < |s.sleeping| ==> s.tick < s.sleeping[i].value < s.tick + TICK_MODULUS
  }

  ghost predicate NothingAbove(s: Sched) {
    forall p :: s.top < p < |s.ready| ==> s.ready[p].items == []
  }

  /**
   The invariant: every co-routine is in exactly one list, once; a ready one in the list of its priority;
   a delayed one has still to wait; nothing is ready above the top priority.
   */
  ghost predicate Inv(s: Sched) {
    && Shape(s) && Placed(s) == multiset(s.priority.Keys) && AtPriority(s) && Asleep(s) && NothingAbove(s)
  }

  lemma {:induction false} OwnersSplit(s: seq<Entry>, t: seq<Entry>)
    ensures Owners(s + t) == Owners(s) + Owners(t)
  {
    if s == [] {
      assert s + t == t;
    } else {
      assert (s + t)[1..] == s[1..] + t;
      OwnersSplit(s[1..], t);
    }
  }

  lemma OwnersInsert(s: seq<Entry>, e: Entry)
    ensures Owners(Insert(s, e)) == Owners(s) + multiset{e.owner}
  {
    hide Owners;
    var p := InsertPosition(s, e.value);
    var a, b := s[..p], s[p..];
    OwnersSplit(a + [e], b);
    OwnersSplit(a, [e]);
    OwnersSplit(a, b);
    OwnersOne(e);
    assert s == a + b;
  }

  lemma OwnersOne(e: Entry)
    ensures Owners([e]) == multiset{e.owner}
  {
  }

  lemma {:induction false} OwnersWithout(s: seq<Entry>, c: nat)
    ensures Owners(Without(s, c)) == Owners(s) - multiset{c}
    ensures c in Owners(s) <==> HasOwner(s, c)
  {
    if s != [] {
      var head, rest := s[0].owner, Without(s[1..], c);
      OwnersWithout(s[1..], c);
      OwnerFromTail(s, c);
      LessOne(Owners(s[1..]), head, c);
      if head != c {
        assert ([s[0]] + rest)[1..] == rest;
      }
    }
  }

  lemma LessOne(m: multiset<nat>, x: nat, c: nat)
    ensures multiset{x} + m - multiset{c} == if x == c then m else multiset{x} + (m - multiset{c})
  {
  }

  lemma {:induction false} AllReadyUpdate(ready: seq<Ready>, p: nat, l: Ready, c: nat)
    requires p < |ready|
    ensures multiset(ready[p].items) <= AllReady(ready)
    ensures AllReady(ready[p := l])[c] + multiset(ready[p].items)[c] == AllReady(ready)[c] + multiset(l.items)[c]
  {
    if p == 0 {
      assert ready[p := l][1..] == ready[1..];
    } else {
      AllReadyUpdate(ready[1..], p - 1, l, c);
      assert ready[p := l][1..] == ready[1..][p - 1 := l];
    }
  }

  /** Replacing one list by one with the same items, one more, or one fewer. */
  lemma AllReadyChange(ready: seq<Ready>, p: nat, l: Ready, c: nat)
    requires p < |ready|
    ensures multiset(l.items) == multiset(ready[p].items) ==> AllReady(ready[p := l]) == AllReady(ready)
    ensures multiset(l.items) == multiset(ready[p].items) + multiset{c} ==>
              AllReady(ready[p := l]) == AllReady(ready) + multiset{c}
    ensures c in ready[p].items && multiset(l.items) == multiset(ready[p].items) - multiset{c} ==>
              c in AllReady(ready) && AllReady(ready[p := l]) == AllReady(ready) - multiset{c}
  {
    hide AllReady;
    forall x: nat
      ensures AllReady(ready[p := l])[x] + multiset(ready[p].items)[x] == AllReady(ready)[x] + multiset(l.items)[x]
    {
      AllReadyUpdate(ready, p, l, x);
    }
    AllReadyUpdate(ready, p, l, c);
    if c in ready[p].items { assert c in multiset(ready[p].items); }
  }

  lemma EnqueueItems(l: Ready, c: nat)
    requires l.cursor <= |l.items|
    ensures multiset(Enqueue(l, c).items) == multiset(l.items) + multiset{c}
    ensures Enqueue(l, c).cursor <= |Enqueue(l, c).items|
    ensures forall x :: x in Enqueue(l, c).items <==> x in l.items || x == c
  {
    var p := EndPosition(|l.items|, l.cursor);
    assert l.items == l.items[..p] + l.items[p..];
    forall x ensures x in Enqueue(l, c).items <==> x in l.items || x == c {
      assert x in l.items <==> x in l.items[..p] || x in l.items[p..];
    }
  }

  lemma CutItems(items: seq<nat>, k: nat)
    requires k < |items|
    ensures multiset(RemoveAt(items, k)) == multiset(items) - multiset{items[k]}
    ensures forall x :: x in RemoveAt(items, k) ==> x in items
  {
    var a, b := items[..k], items[k + 1..];
    assert items == a + [items[k]] + b;
    assert multiset(a + b) == multiset(a) + multiset(b);
  }

  lemma DequeueItems(l: Ready, c: nat)
    requires l.cursor <= |l.items| && c in l.items
    ensures multiset(Dequeue(l, c).items) == multiset(l.items) - multiset{c}
    ensures Dequeue(l, c).cursor <= |Dequeue(l, c).items|
    ensures forall x :: x in Dequeue(l, c).items ==> x in l.items
  {
    hide IndexOf;
    CutItems(l.items, IndexOf(l.items, c));
  }

  /** A co-routine put on its ready list from nowhere. */
  lemma AddReadyKeeps(s: Sched, c: nat)
    requires Shape(s) && AtPriority(s) && Asleep(s) && NothingAbove(s) && c in s.priority
    ensures var r := AddReady(s, c);
            AtPriority(r) && Asleep(r) && NothingAbove(r) && Placed(r) == Placed(s) + multiset{c}
  {
    hide Enqueue, Owners, AllReady, Sorted;
    var p := s.priority[c];
    EnqueueItems(s.ready[p], c);
    AllReadyChange(s.ready, p, Enqueue(s.ready[p], c), c);
  }

  lemma CreateKeepsInv(s: Sched, c: nat, priority: nat)
    requires Inv(s) && c !in s.priority
    ensures Inv(Create(s, c, priority))
  {
    hide AddReady, Placed, Sorted;
    var p := if priority >= |s.ready| then |s.ready| - 1 else priority;
    var s1 := s.(priority := s.priority[c := p]);
    PlacedSame(s, s1);
    AddReadyKeeps(s1, c);
    AddReadyFrame(s1, c);
    MoreKeys(s.priority, c, p);
  }

  lemma MoreKeys(m: map<nat, nat>, c: nat, p: nat)
    requires c !in m
    ensures multiset(m[c := p].Keys) == multiset(m.Keys) + multiset{c}
  {
    assert m[c := p].Keys == m.Keys + {c};
  }

  lemma PlacedSame(s: Sched, t: Sched)
    requires s.sleeping == t.sleeping && s.ready == t.ready
    ensures Placed(s) == Placed(t)
  {
  }

  lemma AddReadyFrame(s: Sched, c: nat)
    requires Shape(s) && c in s.priority
    ensures var r := AddReady(s, c);
            r.priority == s.priority && r.sleeping == s.sleeping && r.tick == s.tick && |r.ready| == |s.ready|
  {
  }

  lemma Moved(a: multiset<nat>, b: multiset<nat>, c: nat)
    requires c in b
    ensures (a + multiset{c}) + (b - multiset{c}) == a + b
  {
  }

  /** One more delayed co-routine, with its wake time still to come. */
  lemma FallAsleep(s: Sched, e: Entry)
    requires Asleep(s) && s.tick < e.value < s.tick + TICK_MODULUS
    ensures Asleep(s.(sleeping := Insert(s.sleeping, e)))
    ensures Owners(Insert(s.sleeping, e)) == Owners(s.sleeping) + multiset{e.owner}
    ensures forall x :: x in Insert(s.sleeping, e) <==> x == e || x in s.sleeping
  {
    hide Insert, Sorted, Owners;
    OwnersInsert(s.sleeping, e);
    InsertKeepsSorted(s.sleeping, e);
    InsertMembers(s.sleeping, e);
    var t := Insert(s.sleeping, e);
    forall i | 0 <= i < |t| ensures s.tick < t[i].value < s.tick + TICK_MODULUS {
      assert t[i] in t;
    }
  }

  lemma DelayKeepsInv(s: Sched, c: nat, ticks: nat)
    requires Inv(s) && c in s.priority && c in s.ready[s.priority[c]].items
    requires 0 < ticks < TICK_MODULUS
    ensures Inv(Delay(s, c, ticks))
  {
    hide Dequeue, Owners, AllReady, Insert, Asleep;
    var p, e := s.priority[c], Entry(c, s.tick + ticks);
    DequeueItems(s.ready[p], c);
    AllReadyChange(s.ready, p, Dequeue(s.ready[p], c), c);
    FallAsleep(s, e);
    Moved(Owners(s.sleeping), AllReady(s.ready), c);
    var r := Delay(s, c, ticks);
    AsleepSame(s.(sleeping := r.sleeping), r);
    forall i | 0 <= i < |r.sleeping| ensures r.sleeping[i].owner in s.priority {
      assert r.sleeping[i] in r.sleeping;
    }
  }

  lemma AsleepSame(s: Sched, t: Sched)
    requires Asleep(s) && s.sleeping == t.sleeping && s.tick == t.tick
    ensures Asleep(t)
  {
  }

  lemma SortedTail(s: seq<Entry>)
    requires Sorted(s) && s != []
    ensures Sorted(s[1..])
    ensures forall e :: e in s <==> e == s[0] || e in s[1..]
    ensures forall e :: e in s ==> s[0].value <= e.value
  {
    assert s == [s[0]] + s[1..];
  }

  /** Delayed co-routines that have their wake time still to come, or just now. */
  ghost predicate AsleepOrDue(s: Sched) {
    && Sorted(s.sleeping)
    && forall i :: 0 <= i < |s.sleeping| ==> s.tick <= s.sleeping[i].value < s.tick + TICK_MODULUS
  }

  /** Waking takes off exactly those whose wake time is now; the others sleep on. */
  lemma {:induction false} WakeDueExact(s: Sched)
    requires Shape(s) && AtPriority(s) && AsleepOrDue(s) && NothingAbove(s)
    ensures var r := WakeDue(s);
            && AtPriority(r) && Asleep(r) && NothingAbove(r) && Placed(r) == Placed(s)
            && r.tick == s.tick && r.priority == s.priority && |r.ready| == |s.ready|
            && (forall e :: e in r.sleeping <==> e in s.sleeping && e.value > s.tick)
    decreases |s.sleeping|
  {
    hide AddReady, Sorted, Owners, AllReady, AtPriority, NothingAbove;
    if s.sleeping != [] {
      SortedTail(s.sleeping);
      if s.tick >= s.sleeping[0].value {
        var e, s1 := s.sleeping[0], s.(sleeping := s.sleeping[1..]);
        SleepingAside(s, s1);
        AddReadyDue(s1, e.owner);
        OwnersSplit([e], s.sleeping[1..]);
        assert s.sleeping == [e] + s.sleeping[1..];
        OwnersOne(e);
        WakeDueExact(AddReady(s1, e.owner));
      } else {
        AsleepAll(s);
      }
    }
  }

  lemma SleepingAside(s: Sched, s': Sched)
    requires s' == s.(sleeping := s'.sleeping) && AtPriority(s) && NothingAbove(s)
    ensures AtPriority(s') && NothingAbove(s')
  {
  }

  lemma AsleepAll(s: Sched)
    requires AsleepOrDue(s) && s.sleeping != [] && s.tick < s.sleeping[0].value
    ensures Asleep(s) && forall e :: e in s.sleeping ==> e.value > s.tick
  {
    SortedTail(s.sleeping);
    forall i | 0 <= i < |s.sleeping| ensures s.tick < s.sleeping[i].value {
      assert s.sleeping[i] in s.sleeping;
    }
  }

  lemma AddReadyDue(s: Sched, c: nat)
    requires Shape(s) && AtPriority(s) && AsleepOrDue(s) && NothingAbove(s) && c in s.priority
    ensures var r := AddReady(s, c);
            && AtPriority(r) && AsleepOrDue(r) && NothingAbove(r) && Placed(r) == Placed(s) + multiset{c}
            && r.priority == s.priority && r.sleeping == s.sleeping && r.tick == s.tick && |r.ready| == |s.ready|
  {
    hide Enqueue, Owners, AllReady, Sorted;
    var p := s.priority[c];
    EnqueueItems(s.ready[p], c);
    AllReadyChange(s.ready, p, Enqueue(s.ready[p], c), c);
  }

  /** One tick wakes exactly the co-routines whose wake time it is. */
  lemma OneTickKeepsInv(s: Sched)
    requires Inv(s)
    ensures Inv(OneTick(s)) && OneTick(s).tick == s.tick + 1 && OneTick(s).priority == s.priority
    ensures forall e :: e in OneTick(s).sleeping <==> e in s.sleeping && e.value != s.tick + 1
  {
    hide WakeDue, Sorted, Owners, AllReady, AddReady, AtPriority, NothingAbove, Asleep, AsleepOrDue;
    var s1 := s.(tick := s.tick + 1);
    PlacedSame(s, s1);
    NowDue(s, s1);
    WakeDueExact(s1);
  }

  /** When the count has gone on, those who are asleep are asleep or due. */
  lemma NowDue(s: Sched, s1: Sched)
    requires s1 == s.(tick := s.tick + 1) && AtPriority(s) && NothingAbove(s) && Asleep(s)
    ensures AtPriority(s1) && NothingAbove(s1) && AsleepOrDue(s1)
    ensures forall e :: e in s.sleeping ==> e.value >= s.tick + 1
  {
    hide Sorted;
    forall e | e in s.sleeping ensures e.value >= s.tick + 1 {
      var i :| 0 <= i < |s.sleeping| && s.sleeping[i] == e;
    }
  }

  lemma WakeEarlyKeepsInv(s: Sched, c: nat)
    requires Inv(s) && HasOwner(s.sleeping, c)
    ensures c in s.priority && Inv(WakeEarly(s, c))
  {
    hide AddReady, Owners, AllReady, Without, Sorted;
    WithoutShort(s, c);
    OwnersWithout(s.sleeping, c);
    SortedWithout(s.sleeping, c);
    WithoutFrom(s.sleeping, c);
    var s1 := s.(sleeping := Without(s.sleeping, c));
    forall i | 0 <= i < |s1.sleeping| ensures s.tick < s1.sleeping[i].value < s.tick + TICK_MODULUS {
      assert s1.sleeping[i] in s.sleeping;
    }
    AddReadyKeeps(s1, c);
    AddReadyFrame(s1, c);
  }

  lemma {:induction false} SortedWithout(s: seq<Entry>, c: nat)
    requires Sorted(s)
    ensures Sorted(Without(s, c))
  {
    if s != [] {
      SortedTail(s);
      if s[0].owner != c {
        SortedWithout(s[1..], c);
        WithoutFrom(s[1..], c);
        forall e | e in Without(s[1..], c) ensures s[0].value <= e.value {
        }
      }
    }
  }

  lemma PickKeepsInv(s: Sched)
    requires Inv(s)
    ensures Inv(Pick(s))
  {
    hide Owners, AllReady, Sorted;
    var p := Highest(s.ready, s.top);
    if s.ready[p].items != [] {
      AllReadyChange(s.ready, p, Next(s.ready[p]), 0);
    }
  }

  // ---------------------------------------------------------------- whole runs

  datatype Action =
    | DoCreate(c: nat, priority: nat)
    | DoDelay(c: nat, ticks: nat)
    | DoTick
    | DoEvent(c: nat)
    | DoPick

  ghost predicate Enabled(s: Sched, a: Action)
    requires Shape(s)
  {
    match a
    case DoCreate(c, _) => c !in s.priority
    case DoDelay(c, ticks) => c in s.priority && c in s.ready[s.priority[c]].items && 0 < ticks < TICK_MODULUS
    case DoEvent(c) => HasOwner(s.sleeping, c)
    case DoTick => true
    case DoPick => true
  }

  ghost function Step(s: Sched, a: Action): Sched
    requires Shape(s) && Enabled(s, a)
  {
    match a
    case DoCreate(c, p) => Create(s, c, p)
    case DoDelay(c, ticks) => Delay(s, c, ticks)
    case DoEvent(c) => WakeEarly(s, c)
    case DoTick => OneTick(s)
    case DoPick => Pick(s)
  }

  lemma StepKeepsInv(s: Sched, a: Action)
    requires Inv(s) && Enabled(s, a)
    ensures Inv(Step(s, a))
  {
    hide Inv, Create, Delay, WakeEarly, OneTick, Pick;
    match a
    case DoCreate(c, p) => CreateKeepsInv(s, c, p);
    case DoDelay(c, ticks) => DelayKeepsInv(s, c, ticks);
    case DoEvent(c) => WakeEarlyKeepsInv(s, c);
    case DoTick => OneTickKeepsInv(s);
    case DoPick => PickKeepsInv(s);
  }

  ghost predicate IsRun(states: seq<Sched>, actions: seq<Action>) {
    && |states| == |actions| + 1 && Inv(states[0])
    && forall i {:trigger actions[i]} :: 0 <= i < |actions| ==>
         Shape(states[i]) && Enabled(states[i], actions[i]) && states[i + 1] == Step(states[i], actions[i])
  }

  lemma {:induction false} RunKeepsInv(states: seq<Sched>, actions: seq<Action>, n: nat)
    requires IsRun(states, actions) && n <= |actions|
    ensures Inv(states[n])
  {
    hide Step, Enabled, Inv;
    if n > 0 {
      RunKeepsInv(states, actions, n - 1);
      assert states[n] == Step(states[n - 1], actions[n - 1]) && Enabled(states[n - 1], actions[n - 1]);
      StepKeepsInv(states[n - 1], actions[n - 1]);
    }
  }

  /** What a step does to one delayed co-routine that no event wakes. */
  lemma StepSleeper(s: Sched, a: Action, e: Entry)
    requires Inv(s) && Enabled(s, a) && a != DoEvent(e.owner)
    requires e in s.sleeping
    ensures e in Step(s, a).sleeping <==> Step(s, a).tick < e.value
    ensures e !in Step(s, a).sleeping ==> Step(s, a).tick == e.value
  {
    hide Insert, Without, Owners, AllReady, Highest, Next, Enqueue, Dequeue, Sorted, WakeDue;
    var i :| 0 <= i < |s.sleeping| && s.sleeping[i] == e;
    match a
    case DoDelay(c, ticks) => InsertMembers(s.sleeping, Entry(c, s.tick + ticks));
    case DoEvent(c) => WithoutKeeps(s.sleeping, c, e);
    case DoTick => OneTickKeepsInv(s);
    case _ =>
  }

  lemma {:induction false} WithoutKeeps(s: seq<Entry>, c: nat, e: Entry)
    requires e in s && e.owner != c
    ensures e in Without(s, c)
  {
    if s[0].owner != c && e != s[0] {
      WithoutKeeps(s[1..], c, e);
    }
  }

  /** And once its wake time has come, it is never found asleep for that time again. */
  lemma SleeperInFuture(s: Sched, e: Entry)
    requires Inv(s) && e in s.sleeping
    ensures s.tick < e.value
  {
    var i :| 0 <= i < |s.sleeping| && s.sleeping[i] == e;
  }

  /** The clock never goes back, and moves one tick at a time. */
  lemma StepTick(s: Sched, a: Action)
    requires Inv(s) && Enabled(s, a)
    ensures Step(s, a).tick == s.tick + if a == DoTick then 1 else 0
  {
    hide WakeDue, Sorted, Owners, AllReady;
    if a == DoTick { OneTickKeepsInv(s); }
  }

  /**
   Delays are exact. In every run, a co-routine that delays itself for some ticks, and that no event wakes,
   is asleep at every later point exactly as long as fewer ticks than that have passed, and is in the ready
   list of its priority from the very tick with which the delay is over.
   */
  lemma {:induction false} DelayExact(states: seq<Sched>, actions: seq<Action>, i: nat, n: nat)
    requires IsRun(states, actions) && i < n <= |actions| && actions[i].DoDelay?
    requires forall j :: i < j < n ==> actions[j] != DoEvent(actions[i].c)
    ensures var e := Entry(actions[i].c, states[i].tick + actions[i].ticks);
            && (e in states[n].sleeping <==> states[n].tick < e.value)
            && (n > i + 1 && e in states[n - 1].sleeping && e !in states[n].sleeping ==>
                  actions[n - 1] == DoTick && states[n].tick == e.value && ReadyAt(states[n], e.owner))
  {
    hide Step, Enabled, Inv, Shape;
    var e := Entry(actions[i].c, states[i].tick + actions[i].ticks);
    RunKeepsInv(states, actions, n - 1);
    RunKeepsInv(states, actions, n);
    var s, a := states[n - 1], actions[n - 1];
    assert Shape(s) && Enabled(s, a) && states[n] == Step(s, a);
    StepTick(s, a);
    if n == i + 1 {
      DelaySleeps(s, a.c, a.ticks);
      SleeperInFuture(states[n], e);
    } else {
      DelayExact(states, actions, i, n - 1);
      if e in s.sleeping {
        StepSleeper(s, a, e);
        SleeperInFuture(s, e);
        if e !in states[n].sleeping {
          assert a == DoTick;
          StepIsTick(s);
          WokenIsReady(s, e);
        }
      } else if e in states[n].sleeping {
        SleeperInFuture(states[n], e);
      }
    }
  }

  lemma StepIsTick(s: Sched)
    requires Shape(s)
    ensures Enabled(s, DoTick) && Step(s, DoTick) == OneTick(s)
  {
  }

  lemma DelaySleeps(s: Sched, c: nat, ticks: nat)
    requires Inv(s) && Enabled(s, DoDelay(c, ticks))
    ensures Entry(c, s.tick + ticks) in Step(s, DoDelay(c, ticks)).sleeping
  {
    hide Insert, Dequeue;
    InsertMembers(s.sleeping, Entry(c, s.tick + ticks));
  }

  ghost predicate ReadyAt(s: Sched, c: nat) {
    c in s.priority && s.priority[c] < |s.ready| && c in s.ready[s.priority[c]].items
  }

  lemma {:induction false} InAllReady(ready: seq<Ready>, c: nat)
    requires c in AllReady(ready)
    ensures exists p :: 0 <= p < |ready| && c in ready[p].items
  {
    if c in multiset(ready[0].items) {
      assert c in ready[0].items;
    } else {
      InAllReady(ready[1..], c);
      var p :| 0 <= p < |ready[1..]| && c in ready[1..][p].items;
      assert c in ready[p + 1].items;
    }
  }

  /** Of every co-routine: it is ready, in the list of its priority, exactly if it is not delayed. */
  lemma OneList(s: Sched, c: nat)
    requires Inv(s) && c in s.priority
    ensures ReadyAt(s, c) <==> !HasOwner(s.sleeping, c)
    ensures Owners(s.sleeping)[c] + AllReady(s.ready)[c] == 1
  {
    hide Owners, AllReady, Sorted;
    OwnersWithout(s.sleeping, c);
    assert Placed(s)[c] == 1;
    if ReadyAt(s, c) {
      var p := s.priority[c];
      AllReadyUpdate(s.ready, p, s.ready[p], c);
      assert c in multiset(s.ready[p].items);
    }
    if c in AllReady(s.ready) { InAllReady(s.ready, c); }
  }

  lemma WokenIsReady(s: Sched, e: Entry)
    requires Inv(s) && e in s.sleeping && e !in OneTick(s).sleeping
    ensures ReadyAt(OneTick(s), e.owner)
  {
    hide Owners, AllReady, Sorted, OneTick;
    OneTickKeepsInv(s);
    var i :| 0 <= i < |s.sleeping| && s.sleeping[i] == e;
    OneList(OneTick(s), e.owner);
    OnlyOnce(s, e);
    forall j | 0 <= j < |OneTick(s).sleeping| ensures OneTick(s).sleeping[j].owner != e.owner {
      assert OneTick(s).sleeping[j] in s.sleeping;
    }
  }

  /** A co-routine is delayed at most once. */
  lemma OnlyOnce(s: Sched, e: Entry)
    requires Inv(s) && e in s.sleeping
    ensures forall x :: x in s.sleeping && x.owner == e.owner ==> x == e
  {
    hide AllReady, Sorted;
    forall x | x in s.sleeping && x.owner == e.owner ensures x == e {
      if x != e { TwiceOwned(s.sleeping, x, e); }
      assert Placed(s)[e.owner] <= 1;
    }
  }

  lemma {:induction false} TwiceOwned(s: seq<Entry>, x: Entry, y: Entry)
    requires x in s && y in s && x != y && x.owner == y.owner
    ensures Owners(s)[x.owner] >= 2
  {
    if s[0] == x {
      OnceOwned(s[1..], y);
    } else if s[0] == y {
      OnceOwned(s[1..], x);
    } else {
      TwiceOwned(s[1..], x, y);
    }
  }

  lemma {:induction false} OnceOwned(s: seq<Entry>, x: Entry)
    requires x in s
    ensures Owners(s)[x.owner] >= 1
  {
    if s[0] != x { OnceOwned(s[1..], x); }
  }

  /** A co-routine that becomes ready is served after those that are, except the one served last. */
  lemma ServedLast(l: Ready, c: nat)
    requires l.cursor <= |l.items|
    ensures var r, order := Enqueue(l, c), VisitOrder(l.items, l.cursor);
            && r.cursor <= |r.items|
            && VisitOrder(r.items, r.cursor)
               == if l.cursor == 0 then order + [c] else order[..|order| - 1] + [c, l.items[l.cursor - 1]]
  {
    InsertEndIsVisitedLast(l.items, l.cursor, c);
  }

  /** When one is not ready any more the others are served in the order in which they would have been. */
  lemma OthersInTurn(l: Ready, c: nat)
    requires l.cursor <= |l.items| && c in l.items
    ensures var r, order := Dequeue(l, c), VisitOrder(l.items, l.cursor);
            && r.cursor <= |r.items|
            && exists p :: 0 <= p < |order| && order[p] == c && VisitOrder(r.items, r.cursor) == RemoveAt(order, p)
  {
    var k := IndexOf(l.items, c);
    RemoveKeepsVisitOrder(l.items, l.cursor, k);
    var p := if k < l.cursor then |l.items| - l.cursor + k else k - l.cursor;
    assert VisitOrder(l.items, l.cursor)[p] == c;
  }

  /** A new co-routine is ready at the priority it asked for, or the highest there is; nothing else changes. */
  lemma CreateReady(s: Sched, c: nat, priority: nat)
    requires Inv(s) && c !in s.priority
    ensures var r := Create(s, c, priority);
            && ReadyAt(r, c) && r.priority == s.priority[c := Least(priority, |s.ready| - 1)]
            && r.sleeping == s.sleeping && r.tick == s.tick
            && forall d :: d in s.priority ==> (ReadyAt(r, d) <==> ReadyAt(s, d))
  {
    hide Owners, AllReady, Sorted, ReadyAt, HasOwner;
    var r := Create(s, c, priority);
    CreateKeepsInv(s, c, priority);
    forall d | d in s.priority ensures ReadyAt(r, d) <==> ReadyAt(s, d) {
      OneList(s, d);
      OneList(r, d);
    }
    NewNotDelayed(s, c);
    OneList(r, c);
  }

  function Least(a: nat, b: int): int {
    if a <= b then a else b
  }

  lemma NewNotDelayed(s: Sched, c: nat)
    requires Inv(s) && c !in s.priority
    ensures !HasOwner(s.sleeping, c)
  {
  }

  /** An event readies the co-routine that it is for, and changes nothing for the others. */
  lemma EventReadies(s: Sched, c: nat)
    requires Inv(s) && HasOwner(s.sleeping, c)
    ensures c in s.priority && ReadyAt(WakeEarly(s, c), c)
    ensures var r := WakeEarly(s, c);
            && r.priority == s.priority && r.tick == s.tick
            && (forall e :: e in r.sleeping <==> e in s.sleeping && e.owner != c)
            && forall d :: d in s.priority && d != c ==> (ReadyAt(r, d) <==> ReadyAt(s, d))
  {
    hide Owners, AllReady, Sorted, ReadyAt, Without;
    WakeEarlyKeepsInv(s, c);
    var r := WakeEarly(s, c);
    WithoutFrom(s.sleeping, c);
    forall e | e in s.sleeping && e.owner != c ensures e in r.sleeping {
      WithoutKeeps(s.sleeping, c, e);
    }
    OnceOff(s, c);
    OwnersAmong(s.sleeping, r.sleeping, c);
    OneList(r, c);
    forall d | d in s.priority && d != c ensures ReadyAt(r, d) <==> ReadyAt(s, d) {
      OneList(s, d);
      OneList(r, d);
    }
  }

  lemma OnceOff(s: Sched, c: nat)
    requires Inv(s) && HasOwner(s.sleeping, c)
    ensures forall e :: e in Without(s.sleeping, c) ==> e.owner != c
  {
    hide AllReady, Sorted;
    OwnersWithout(s.sleeping, c);
    OwnersWithout(Without(s.sleeping, c), c);
    assert Placed(s)[c] <= 1;
    forall e | e in Without(s.sleeping, c) ensures e.owner != c {
      if e.owner == c { OnceOwned(Without(s.sleeping, c), e); }
    }
  }

  lemma OwnersAmong(s: seq<Entry>, t: seq<Entry>, c: nat)
    requires forall e :: e in t <==> e in s && e.owner != c
    ensures !HasOwner(t, c) && forall d :: d != c ==> (HasOwner(t, d) <==> HasOwner(s, d))
  {
    forall i | 0 <= i < |t| ensures t[i].owner != c && HasOwner(s, t[i].owner) {
      assert t[i] in t;
      var j :| 0 <= j < |s| && s[j] == t[i];
    }
    forall i | 0 <= i < |s| && s[i].owner != c ensures HasOwner(t, s[i].owner) {
      assert s[i] in s;
      var j :| 0 <= j < |t| && t[j] == s[i];
    }
  }

  // ---------------------------------------------------------------- one waking at a time

  /** The invariant in the middle of a tick, when some wake times may just have come. */
  ghost predicate DueInv(s: Sched) {
    && Shape(s) && Placed(s) == multiset(s.priority.Keys) && AtPriority(s) && AsleepOrDue(s) && NothingAbove(s)
  }

  lemma TickBegins(s: Sched)
    requires Inv(s)
    ensures DueInv(s.(tick := s.tick + 1))
  {
    hide Sorted, Owners, AllReady;
    PlacedSame(s, s.(tick := s.tick + 1));
  }

  lemma WakesOne(s: Sched)
    requires DueInv(s) && s.sleeping != [] && s.tick >= s.sleeping[0].value
    ensures var c := s.sleeping[0].owner;
            && c in s.priority && Shape(s.(sleeping := s.sleeping[1..]))
            && DueInv(AddReady(s.(sleeping := s.sleeping[1..]), c))
            && WakeDue(AddReady(s.(sleeping := s.sleeping[1..]), c)) == WakeDue(s)
            && !HasOwner(s.sleeping[1..], c)
  {
    hide AddReady, Sorted, Owners, AllReady, AtPriority, NothingAbove;
    var e, s1 := s.sleeping[0], s.(sleeping := s.sleeping[1..]);
    SortedTail(s.sleeping);
    SleepingAside(s, s1);
    AddReadyDue(s1, e.owner);
    OwnersSplit([e], s.sleeping[1..]);
    assert s.sleeping == [e] + s.sleeping[1..];
    OwnersOne(e);
    OwnersWithout(s.sleeping[1..], e.owner);
    assert Placed(s)[e.owner] <= 1;
  }

  lemma TickEnds(s: Sched)
    requires DueInv(s) && (s.sleeping == [] || s.tick < s.sleeping[0].value)
    ensures Inv(s) && WakeDue(s) == s
  {
    hide Placed;
  }

  /** Of several events, each readies its co-routine in turn. */
  ghost function Events(s: Sched, cs: seq<nat>): (r: Sched)
    requires Shape(s)
    ensures Shape(r)
  {
    if cs == [] then s
    else
      var before, c := Events(s, cs[..|cs| - 1]), cs[|cs| - 1];
      if c in before.priority then WakeEarly(before, c) else before
  }

  /** Each of them is delayed when its event comes. */
  ghost predicate AllDelayed(s: Sched, cs: seq<nat>)
    requires Shape(s)
  {
    forall i :: 0 <= i < |cs| ==> HasOwner(Events(s, cs[..i]).sleeping, cs[i])
  }

  lemma OneMoreEvent(s: Sched, cs: seq<nat>, c: nat)
    requires Shape(s) && AllDelayed(s, cs) && Inv(Events(s, cs)) && HasOwner(Events(s, cs).sleeping, c)
    ensures AllDelayed(s, cs + [c]) && c in Events(s, cs).priority
    ensures Events(s, cs + [c]) == WakeEarly(Events(s, cs), c) && Inv(Events(s, cs + [c]))
  {
    hide WakeEarly, Inv, Shape;
    WakeEarlyKeepsInv(Events(s, cs), c);
    assert (cs + [c])[..|cs|] == cs;
    forall i | 0 <= i < |cs + [c]| ensures HasOwner(Events(s, (cs + [c])[..i]).sleeping, (cs + [c])[i]) {
      if i < |cs| { assert (cs + [c])[..i] == cs[..i] && (cs + [c])[i] == cs[i]; }
    }
  }

  // ---------------------------------------------------------------- turns

  /** What n choices in a row set running, while nothing else happens. */
  ghost function Chosen(s: Sched, n: nat): seq<nat>
    requires Shape(s) && s.ready[Highest(s.ready, s.top)].items != []
    decreases n
  {
    if n == 0 then []
    else
      var p := Highest(s.ready, s.top);
      PickShape(s);
      [s.ready[p].items[Next(s.ready[p]).cursor - 1]] + Chosen(Pick(s), n - 1)
  }

  lemma PickShape(s: Sched)
    requires Shape(s) && s.ready[Highest(s.ready, s.top)].items != []
    ensures var p := Highest(s.ready, s.top);
            && Shape(Pick(s)) && Highest(Pick(s).ready, Pick(s).top) == p
            && Pick(s).ready[p] == Next(s.ready[p])
  {
  }

  lemma {:induction false} ChosenVisits(s: Sched, n: nat)
    requires Shape(s) && s.ready[Highest(s.ready, s.top)].items != []
    ensures var l := s.ready[Highest(s.ready, s.top)];
            Chosen(s, n) == Visited(l.items, l.cursor, n)
    decreases n
  {
    hide Highest, Pick, Shape;
    if n > 0 {
      PickShape(s);
      ChosenVisits(Pick(s), n - 1);
    }
  }

  /**
   Equal shares at the highest ready priority: only co-routines of that priority are chosen, and as many
   choices as there are of them choose each of them once.
   */
  lemma ServedInTurn(s: Sched)
    requires Inv(s) && s.ready[Highest(s.ready, s.top)].items != []
    ensures var p := Highest(s.ready, s.top);
            && (forall q :: p < q < |s.ready| ==> s.ready[q].items == [])
            && multiset(Chosen(s, |s.ready[p].items|)) == multiset(s.ready[p].items)
  {
    var l := s.ready[Highest(s.ready, s.top)];
    ChosenVisits(s, |l.items|);
    RoundRobin(l.items, l.cursor);
  }
}
