/**
 Tasks that meet by calling xEventGroupSync over and over. Task t sets the bits bit[t] and waits, without
 a time-out, for the union of all the tasks' bits. Nobody else uses the group.
 */
module Rendezvous {
  import opened EventSpec

  /** calls[t] is the number of calls that task t has made so far. */
  datatype State = State(group: Group, calls: seq<nat>)

  datatype Action = Arrive(task: Task) | RunOn(task: Task)

  function UnionOf(bit: seq<Bits>): Bits {
    if bit == [] then 0 else Union(UnionOf(bit[..|bit| - 1]), bit[|bit| - 1])
  }

  /** Every task has bits of its own, distinct from those of the others. */
  ghost predicate Plan(bit: seq<Bits>) {
    && bit != []
    && (forall t :: 0 <= t < |bit| ==> bit[t] != 0 && And(bit[t], CONTROL) == 0)
    && (forall t, u :: 0 <= t < |bit| && 0 <= u < |bit| && t != u ==> And(bit[t], bit[u]) == 0)
  }

  predicate Enabled(bit: seq<Bits>, s: State, a: Action) {
    match a
    case Arrive(t) => t < |bit| == |s.calls| && Free(s.group, t)
    case RunOn(t) => t in s.group.woken && t in s.group.calls
  }

  function Step(bit: seq<Bits>, s: State, a: Action): State
    requires Enabled(bit, s, a)
  {
    match a
    case Arrive(t) => State(Sync(s.group, t, bit[t], UnionOf(bit), true).group, s.calls[t := s.calls[t] + 1])
    case RunOn(t) => State(Resume(s.group, t).group, s.calls)
  }

  /** The run begins with none of the tasks' bits set, and nobody waiting. */
  ghost predicate Initial(bit: seq<Bits>, s: State) {
    && And(s.group.bits, CONTROL) == 0 && And(s.group.bits, UnionOf(bit)) == 0
    && s.group.waiting == [] && s.group.woken == map[] && s.group.calls == map[]
    && s.calls == seq(|bit|, _ => 0)
  }

  ghost predicate IsRun(bit: seq<Bits>, states: seq<State>, actions: seq<Action>) {
    && |states| == |actions| + 1 && Initial(bit, states[0])
    && forall i {:trigger actions[i]} :: 0 <= i < |actions| ==>
         Enabled(bit, states[i], actions[i]) && states[i + 1] == Step(bit, states[i], actions[i])
  }

  // ---------------------------------------------------------------- bits

  lemma CoverBoth(v: Bits, a: Bits, b: Bits)
    requires And(v, a) == a && And(v, b) == b
    ensures And(v, Union(a, b)) == Union(a, b)
  {
  }

  lemma CoverFirst(v: Bits, a: Bits, b: Bits)
    requires And(v, Union(a, b)) == Union(a, b)
    ensures And(v, a) == a
  {
  }

  lemma EitherOrder(a: Bits, b: Bits)
    ensures Union(a, b) == Union(b, a)
  {
  }

  lemma CoverTwo(v: Bits, a: Bits, b: Bits)
    ensures And(v, Union(a, b)) == Union(a, b) <==> And(v, a) == a && And(v, b) == b
  {
    hide And, Union;
    EitherOrder(a, b);
    if And(v, Union(a, b)) == Union(a, b) {
      CoverFirst(v, a, b);
      CoverFirst(v, b, a);
    } else if And(v, a) == a && And(v, b) == b {
      CoverBoth(v, a, b);
    }
  }

  lemma CoverNone(v: Bits)
    ensures And(v, 0) == 0
  {
  }

  /** The union is covered when every task's bits are. */
  lemma {:induction false} Covered(bit: seq<Bits>, v: Bits)
    ensures And(v, UnionOf(bit)) == UnionOf(bit) <==> forall t :: 0 <= t < |bit| ==> And(v, bit[t]) == bit[t]
  {
    hide And, Union;
    if bit == [] {
      CoverNone(v);
    } else {
      var init, last := bit[..|bit| - 1], bit[|bit| - 1];
      Covered(init, v);
      CoverTwo(v, UnionOf(init), last);
      assert forall t :: 0 <= t < |init| ==> init[t] == bit[t];
    }
  }

  lemma Itself(v: Bits)
    ensures And(v, v) == v
  {
  }

  lemma PartOfUnion(bit: seq<Bits>, t: nat)
    requires t < |bit|
    ensures And(UnionOf(bit), bit[t]) == bit[t]
  {
    hide And, UnionOf;
    Itself(UnionOf(bit));
    Covered(bit, UnionOf(bit));
  }

  lemma {:induction false} UnionNoControl(bit: seq<Bits>)
    requires forall t :: 0 <= t < |bit| ==> And(bit[t], CONTROL) == 0
    ensures And(UnionOf(bit), CONTROL) == 0
  {
    hide And, Union;
    if bit == [] {
      NothingAnd(CONTROL);
    } else {
      var init := bit[..|bit| - 1];
      UnionNoControl(init);
      ControlFree(UnionOf(init), bit[|bit| - 1], 0);
    }
  }

  lemma NothingAnd(v: Bits)
    ensures And(0, v) == 0
  {
  }

  lemma AddBit(bits: Bits, x: Bits, y: Bits)
    ensures And(x, y) == 0 ==> And(Union(bits, x), y) == And(bits, y)
    ensures And(Union(bits, x), x) == x
    ensures Minus(x, y) == 0 ==> Minus(Union(bits, x), y) == Minus(bits, y)
    ensures Minus(Union(bits, x), 0) == Union(bits, x)
  {
    hide And, Union, Minus;
    AddMeets(bits, x, y);
    AddLeaves(bits, x, y);
    AddOwn(bits, x);
    NothingAdded(And(bits, y));
    NothingAdded(Minus(bits, y));
    NothingTaken(Union(bits, x));
  }

  lemma AddMeets(bits: Bits, x: Bits, y: Bits)
    ensures And(Union(bits, x), y) == Union(And(bits, y), And(x, y))
  {
    assert (bits | x) & y == (bits & y) | (x & y);
  }

  lemma AddLeaves(bits: Bits, x: Bits, y: Bits)
    ensures Minus(Union(bits, x), y) == Union(Minus(bits, y), Minus(x, y))
  {
    assert (bits | x) & !y == (bits & !y) | (x & !y);
  }

  lemma AddOwn(bits: Bits, x: Bits)
    ensures And(Union(bits, x), x) == x
  {
  }

  lemma NothingAdded(bits: Bits)
    ensures Union(bits, 0) == bits
  {
  }

  lemma NothingTaken(bits: Bits)
    ensures Minus(bits, 0) == bits
  {
  }

  /** What is left once the union has been cleared. */
  lemma ClearedBits(now: Bits, c: Bits, w: Bits, y: Bits)
    requires And(w, y) == y && Minus(c, w) == 0
    ensures And(Minus(Minus(now, c), w), y) == 0
    ensures Minus(Minus(Minus(now, c), w), w) == Minus(now, w)
  {
  }

  lemma PartOut(w: Bits, y: Bits)
    requires And(w, y) == y
    ensures Minus(y, w) == 0
  {
  }

  // ---------------------------------------------------------------- all waiters satisfied, or none

  lemma {:induction false} NoneReleased(woken: map<Task, Bits>, waiting: seq<Waiter>, bits: Bits)
    requires forall w :: w in waiting ==> !Satisfied(w.value, bits)
    ensures Unsatisfied(waiting, bits) == waiting && Release(woken, waiting, bits) == woken
    ensures ClearRequest(waiting, bits) == 0
  {
    hide Satisfied, ClearsOnExit, Wanted;
    if waiting != [] {
      NoneReleased(woken, waiting[..|waiting| - 1], bits);
    }
  }

  lemma {:induction false} AllReleased(waiting: seq<Waiter>, bits: Bits, want: Bits)
    requires forall w :: w in waiting ==> Satisfied(w.value, bits) && ClearsOnExit(w.value) && Wanted(w.value) == want
    ensures Unsatisfied(waiting, bits) == []
    ensures Minus(ClearRequest(waiting, bits), want) == 0
  {
    hide Satisfied, ClearsOnExit, Wanted, Union, Minus;
    MoreOut(0, want);
    if waiting != [] {
      var init := waiting[..|waiting| - 1];
      AllReleased(init, bits, want);
      MoreOut(ClearRequest(init, bits), want);
    }
  }

  lemma MoreOut(c: Bits, w: Bits)
    ensures Minus(c, w) == 0 ==> Minus(Union(c, w), w) == 0
    ensures Minus(0, w) == 0
  {
  }

  // ---------------------------------------------------------------- the invariant

  ghost predicate IsWaiting(s: State, t: Task) { Waits(s.group.waiting, t) }

  /**
   In round r: the tasks that wait have made r + 1 calls and their bits are set; the others have made r
   and theirs are clear; not all of them wait. Bits that belong to none of the tasks stay as they were.
   */
  ghost predicate InRound(bit: seq<Bits>, others: Bits, s: State, r: nat) {
    && |s.calls| == |bit| && Minus(s.group.bits, UnionOf(bit)) == others
    && (forall t :: 0 <= t < |bit| ==>
          s.calls[t] == (if IsWaiting(s, t) then r + 1 else r)
          && And(s.group.bits, bit[t]) == if IsWaiting(s, t) then bit[t] else 0)
    && (exists t :: 0 <= t < |bit| && !IsWaiting(s, t))
  }

  /** The waiters wait for the union; whoever has been woken was woken with all of the union set. */
  ghost predicate SyncOnly(bit: seq<Bits>, g: Group) {
    && (forall w :: w in g.waiting ==> w.value == Item(Call(UnionOf(bit), true, true)))
    && (forall t :: t in g.woken ==>
          And(g.woken[t], UNBLOCKED) != 0 && And(Wanted(g.woken[t]), UnionOf(bit)) == UnionOf(bit))
  }

  ghost predicate RendezvousInv(bit: seq<Bits>, others: Bits, s: State, r: nat) {
    Inv(s.group) && SyncOnly(bit, s.group) && InRound(bit, others, s, r)
  }

  lemma UnionValid(bit: seq<Bits>)
    requires Plan(bit)
    ensures ValidCall(Call(UnionOf(bit), true, true))
  {
    hide And, UnionOf;
    UnionNoControl(bit);
    PartOfUnion(bit, 0);
    if UnionOf(bit) == 0 {
      NothingAnd(bit[0]);
    }
  }

  /** When the bits cover the union after an arrival: exactly if all the others wait. */
  lemma CoveredWhen(bit: seq<Bits>, others: Bits, s: State, r: nat, t: Task)
    requires Plan(bit) && InRound(bit, others, s, r) && t < |bit| && !IsWaiting(s, t)
    ensures And(Union(s.group.bits, bit[t]), UnionOf(bit)) == UnionOf(bit)
            <==> forall u :: 0 <= u < |bit| && u != t ==> IsWaiting(s, u)
  {
    hide And, Union, Minus, UnionOf, IsWaiting;
    var now := Union(s.group.bits, bit[t]);
    Covered(bit, now);
    forall u | 0 <= u < |bit|
      ensures And(now, bit[u]) == bit[u] <==> u == t || IsWaiting(s, u)
    {
      AddBit(s.group.bits, bit[t], bit[u]);
    }
    assert And(now, bit[t]) == bit[t];
  }

  /** A waiter of this rendezvous. */
  lemma SyncWaiter(bit: seq<Bits>, now: Bits)
    requires Plan(bit)
    ensures var value := Item(Call(UnionOf(bit), true, true));
            (Satisfied(value, now) <==> And(now, UnionOf(bit)) == UnionOf(bit))
            && ClearsOnExit(value) && Wanted(value) == UnionOf(bit)
  {
    hide And, UnionOf, Item, ClearsOnExit, Wanted;
    UnionValid(bit);
    ItemSplits(Call(UnionOf(bit), true, true));
  }

  /** An arrival that leaves somebody out: the task blocks, and nothing else changes but its own bits. */
  lemma EarlyArrival(bit: seq<Bits>, g: Group, t: Task)
    requires Plan(bit) && SyncOnly(bit, g) && t < |bit|
    requires And(Union(g.bits, bit[t]), UnionOf(bit)) != UnionOf(bit)
    ensures Sync(g, t, bit[t], UnionOf(bit), true)
            == Outcome(PlaceOnList(g.(bits := Union(g.bits, bit[t])), t, Call(UnionOf(bit), true, true)), Block)
  {
    hide And, Union, Minus, UnionOf, Item, Satisfied, Unsatisfied, Release, ClearRequest;
    var now := Union(g.bits, bit[t]);
    SyncWaiter(bit, now);
    NoneReleased(g.woken, g.waiting, now);
    AddBit(g.bits, bit[t], 0);
  }

  /** The last arrival: everybody is released with the union set, and the union is cleared. */
  lemma LastArrival(bit: seq<Bits>, g: Group, t: Task)
    requires Plan(bit) && SyncOnly(bit, g) && t < |bit| && And(g.bits, CONTROL) == 0
    requires And(Union(g.bits, bit[t]), UnionOf(bit)) == UnionOf(bit)
    ensures var now, o := Union(g.bits, bit[t]), Sync(g, t, bit[t], UnionOf(bit), true);
            && o.answer == Return(now) && o.group.waiting == [] && SyncOnly(bit, o.group)
            && o.group.woken == Release(g.woken, g.waiting, now)
            && Minus(o.group.bits, UnionOf(bit)) == Minus(g.bits, UnionOf(bit))
            && forall u :: 0 <= u < |bit| ==> And(o.group.bits, bit[u]) == 0
  {
    hide And, Union, Minus, UnionOf, Item, Satisfied, ClearsOnExit, Wanted, Unsatisfied, Release, ClearRequest;
    var now, all := Union(g.bits, bit[t]), UnionOf(bit);
    var c := ClearRequest(g.waiting, now);
    SyncWaiter(bit, now);
    AllReleased(g.waiting, now, all);
    forall u | 0 <= u < |bit| ensures And(Minus(Minus(now, c), all), bit[u]) == 0 {
      PartOfUnion(bit, u);
      ClearedBits(now, c, all, bit[u]);
    }
    PartOfUnion(bit, t);
    ClearedBits(now, c, all, bit[t]);
    PartOut(all, bit[t]);
    AddBit(g.bits, bit[t], all);
    ControlFree(g.bits, bit[t], 0);
    MarkSplits(now);
    forall u | u in Release(g.woken, g.waiting, now)
      ensures And(Release(g.woken, g.waiting, now)[u], UNBLOCKED) != 0
              && And(Wanted(Release(g.woken, g.waiting, now)[u]), all) == all
    {
      Releases(g.woken, g.waiting, now, u);
    }
  }

  lemma WaitsAfter(waiting: seq<Waiter>, w: Waiter, t: Task)
    ensures Waits(waiting + [w], t) <==> Waits(waiting, t) || w.task == t
    ensures !Waits([], t)
  {
    assert forall x :: x in waiting + [w] <==> x in waiting || x == w;
  }

  lemma ArrivalKeepsInv(bit: seq<Bits>, others: Bits, s: State, r: nat, t: Task) returns (r': nat)
    requires Plan(bit) && RendezvousInv(bit, others, s, r) && Enabled(bit, s, Arrive(t))
    ensures RendezvousInv(bit, others, Step(bit, s, Arrive(t)), r')
  {
    hide And, Union, Minus, UnionOf, Item, Inv, Sync, Wanted, Waits;
    var g, s', all := s.group, Step(bit, s, Arrive(t)), UnionOf(bit);
    NotWaiting(g, t);
    UnionValid(bit);
    SyncKeepsInv(g, t, bit[t], all, true);
    CoveredWhen(bit, others, s, r, t);
    if And(Union(g.bits, bit[t]), all) == all {
      LastArrival(bit, g, t);
      forall u ensures !IsWaiting(s', u) { WaitsAfter([], Waiter(t, 0), u); }
      assert !IsWaiting(s', 0);
      r' := r + 1;
    } else {
      EarlyArrival(bit, g, t);
      PartOfUnion(bit, t);
      PartOut(all, bit[t]);
      forall u | 0 <= u < |bit|
        ensures IsWaiting(s', u) <==> IsWaiting(s, u) || u == t
        ensures And(s'.group.bits, bit[u]) == if u == t then bit[t] else And(g.bits, bit[u])
      {
        AddBit(g.bits, bit[t], bit[u]);
        WaitsAfter(g.waiting, Waiter(t, Item(Call(all, true, true))), u);
      }
      AddBit(g.bits, bit[t], all);
      r' := r;
    }
  }

  lemma NotWaiting(g: Group, t: Task)
    requires Inv(g) && Free(g, t)
    ensures !Waits(g.waiting, t) && And(g.bits, CONTROL) == 0
  {
    forall w | w in g.waiting ensures w.task != t { assert Blocked(g, w); }
  }

  lemma RunOnKeepsInv(bit: seq<Bits>, others: Bits, s: State, r: nat, t: Task)
    requires RendezvousInv(bit, others, s, r) && Enabled(bit, s, RunOn(t))
    ensures RendezvousInv(bit, others, Step(bit, s, RunOn(t)), r)
  {
    hide And, Union, Minus, UnionOf, Item, Inv, Wanted, Waits;
    ResumeKeepsInv(s.group, t);
    var s' := Step(bit, s, RunOn(t));
    forall u ensures IsWaiting(s', u) <==> IsWaiting(s, u) {
    }
  }

  // ---------------------------------------------------------------- whole runs

  lemma {:induction false} RunInRounds(bit: seq<Bits>, states: seq<State>, actions: seq<Action>, n: nat)
    returns (r: nat)
    requires Plan(bit) && IsRun(bit, states, actions) && n <= |actions|
    ensures RendezvousInv(bit, states[0].group.bits, states[n], r)
  {
    hide Step, Enabled, RendezvousInv, Plan;
    if n == 0 {
      StartInRound(bit, states[0]);
      r := 0;
    } else {
      var q := RunInRounds(bit, states, actions, n - 1);
      var a := actions[n - 1];
      assert Enabled(bit, states[n - 1], a) && states[n] == Step(bit, states[n - 1], a);
      match a
      case Arrive(t) => r := ArrivalKeepsInv(bit, states[0].group.bits, states[n - 1], q, t);
      case RunOn(t) => RunOnKeepsInv(bit, states[0].group.bits, states[n - 1], q, t); r := q;
    }
  }

  lemma NoneInCommon(a: Bits, w: Bits, y: Bits)
    requires And(a, w) == 0
    ensures Minus(a, w) == a
    ensures And(w, y) == y ==> And(a, y) == 0
  {
  }

  lemma StartInRound(bit: seq<Bits>, s: State)
    requires Plan(bit) && Initial(bit, s)
    ensures RendezvousInv(bit, s.group.bits, s, 0)
  {
    hide And, Union, Minus, UnionOf, Item, Wanted;
    NoneInCommon(s.group.bits, UnionOf(bit), 0);
    forall t | 0 <= t < |bit| ensures And(s.group.bits, bit[t]) == 0 {
      PartOfUnion(bit, t);
      NoneInCommon(s.group.bits, UnionOf(bit), bit[t]);
    }
    assert !IsWaiting(s, 0);
  }

  /**
   The rendezvous, over every run of any number of rounds: a task that has made its k-th call is held
   back exactly as long as some task has not made its k-th call; whoever has been released was released
   with all the bits set; and while nobody is held back, none of the tasks' bits is set.
   */
  lemma MeetEveryRound(bit: seq<Bits>, states: seq<State>, actions: seq<Action>, n: nat)
    requires Plan(bit) && IsRun(bit, states, actions) && n <= |actions|
    ensures var s := states[n];
            && |s.calls| == |bit|
            && (forall t :: 0 <= t < |bit| ==>
                  (IsWaiting(s, t) <==> exists u :: 0 <= u < |bit| && s.calls[u] < s.calls[t]))
            && (forall t :: t in s.group.woken ==>
                  And(s.group.woken[t], UNBLOCKED) != 0
                  && And(Wanted(s.group.woken[t]), UnionOf(bit)) == UnionOf(bit))
            && (forall t, u :: 0 <= t < |bit| && 0 <= u < |bit| ==> s.calls[t] <= s.calls[u] + 1)
            && (forall t :: 0 <= t < |bit| ==> And(s.group.bits, bit[t]) == if IsWaiting(s, t) then bit[t] else 0)
  {
    hide Step, Enabled, Plan, IsRun, And, Minus, UnionOf, Wanted, Waits, Inv, IsWaiting;
    var r := RunInRounds(bit, states, actions, n);
  }

  /** What a call answers: it returns at once, with all the bits, exactly if all the others are waiting. */
  lemma ArrivalAnswer(bit: seq<Bits>, states: seq<State>, actions: seq<Action>, n: nat, t: Task)
    requires Plan(bit) && IsRun(bit, states, actions) && n <= |actions| && Enabled(bit, states[n], Arrive(t))
    ensures var answer := Sync(states[n].group, t, bit[t], UnionOf(bit), true).answer;
            && (answer.Return? <==> forall u :: 0 <= u < |bit| && u != t ==> IsWaiting(states[n], u))
            && (answer.Return? ==> And(answer.value, UnionOf(bit)) == UnionOf(bit))
  {
    hide Step, Plan, And, Union, Minus, UnionOf, Wanted, Waits, Inv, IsWaiting, SetBits;
    var r := RunInRounds(bit, states, actions, n);
    NotWaitingState(states[n], t);
    CoveredWhen(bit, states[0].group.bits, states[n], r, t);
  }

  lemma NotWaitingState(s: State, t: Task)
    requires Inv(s.group) && Free(s.group, t)
    ensures !IsWaiting(s, t)
  {
    hide Inv;
    NotWaiting(s.group, t);
  }
}
