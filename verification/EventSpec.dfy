/**
 Event groups as a state machine: what setting, waiting, clearing and waking do to the bits of a group,
 to the list of waiting tasks, and to the value each woken task finds in its event list item.
 */
module EventSpec {
  type Bits = bv32
  type Task = nat

  const CLEAR_ON_EXIT: Bits := 0x0100_0000
  const UNBLOCKED: Bits := 0x0200_0000
  const WAIT_FOR_ALL: Bits := 0x0400_0000
  const CONTROL: Bits := 0xff00_0000
  const ITEM_IN_USE: Bits := 0x8000_0000

  /** An entry of xTasksWaitingForBits: a task, and the value of its event list item. */
  datatype Waiter = Waiter(task: Task, value: Bits)

  /** The parameters of a call that has blocked; they stay on the stack of the task. */
  datatype Call = Call(waitFor: Bits, clearOnExit: bool, waitForAll: bool)

  /**
   bits: uxEventBits; waiting: xTasksWaitingForBits; woken: the item values of the tasks that have left
   that list but have not run yet; calls: the calls of all the tasks in either.
   */
  datatype Group = Group(bits: Bits, waiting: seq<Waiter>, woken: map<Task, Bits>, calls: map<Task, Call>)

  /** What a call answers: it returns a value at once, or the task blocks. */
  datatype Answer = Return(value: Bits) | Block

  datatype Outcome = Outcome(group: Group, answer: Answer)

  function And(a: Bits, b: Bits): Bits { a & b }

  function Union(a: Bits, b: Bits): Bits { a | b }

  function Minus(a: Bits, b: Bits): Bits { a & !b }

  // ---------------------------------------------------------------- one waiter

  /** prvTestWaitCondition */
  predicate TestWaitCondition(bits: Bits, waitFor: Bits, waitForAll: bool) {
    if waitForAll then And(bits, waitFor) == waitFor else And(bits, waitFor) != 0
  }

  /** The value with which a blocking task is placed on the list. */
  function Item(c: Call): Bits {
    var clear := if c.clearOnExit then CLEAR_ON_EXIT else 0;
    var all := if c.waitForAll then WAIT_FOR_ALL else 0;
    Union(Union(Union(c.waitFor, clear), all), ITEM_IN_USE)
  }

  function Wanted(value: Bits): Bits { Minus(value, CONTROL) }

  predicate Satisfied(value: Bits, bits: Bits) {
    TestWaitCondition(bits, Wanted(value), And(value, WAIT_FOR_ALL) != 0)
  }

  predicate ClearsOnExit(value: Bits) { And(value, CLEAR_ON_EXIT) != 0 }

  /** What configASSERT demands of a wait. */
  predicate ValidCall(c: Call) { And(c.waitFor, CONTROL) == 0 && c.waitFor != 0 }

  /** Splitting a stored item gives back the call that was packed into it. */
  lemma ItemSplits(c: Call)
    requires ValidCall(c)
    ensures Wanted(Item(c)) == c.waitFor && (And(Item(c), WAIT_FOR_ALL) != 0) == c.waitForAll
    ensures ClearsOnExit(Item(c)) == c.clearOnExit && And(Item(c), UNBLOCKED) == 0
  {
  }

  // ---------------------------------------------------------------- the operations

  /** What a released task finds in its item: the bits, with two control bits on top. */
  function Mark(bits: Bits): Bits { bits | UNBLOCKED | ITEM_IN_USE }

  /** The waiters that the bits do not release, in list order. */
  function Unsatisfied(waiting: seq<Waiter>, bits: Bits): seq<Waiter> {
    if waiting == [] then []
    else
      var rest, last := Unsatisfied(waiting[..|waiting| - 1], bits), waiting[|waiting| - 1];
      if Satisfied(last.value, bits) then rest else rest + [last]
  }

  /** The item values once every waiter that the bits satisfy has been taken off the list. */
  function Release(woken: map<Task, Bits>, waiting: seq<Waiter>, bits: Bits): map<Task, Bits> {
    if waiting == [] then woken
    else
      var rest, last := Release(woken, waiting[..|waiting| - 1], bits), waiting[|waiting| - 1];
      if Satisfied(last.value, bits) then rest[last.task := Mark(bits)] else rest
  }

  /** The bits that the released waiters want cleared. */
  function ClearRequest(waiting: seq<Waiter>, bits: Bits): Bits {
    if waiting == [] then 0
    else
      var rest, last := ClearRequest(waiting[..|waiting| - 1], bits), waiting[|waiting| - 1];
      if Satisfied(last.value, bits) && ClearsOnExit(last.value) then Union(rest, Wanted(last.value)) else rest
  }

  function SetBits(g: Group, set_: Bits): Group {
    var now := Union(g.bits, set_);
    g.(bits := Minus(now, ClearRequest(g.waiting, now)),
       waiting := Unsatisfied(g.waiting, now),
       woken := Release(g.woken, g.waiting, now))
  }

  function ClearBits(g: Group, clear: Bits): Group {
    g.(bits := Minus(g.bits, clear))
  }

  function PlaceOnList(g: Group, task: Task, c: Call): Group {
    g.(waiting := g.waiting + [Waiter(task, Item(c))], calls := g.calls[task := c])
  }

  function WaitBits(g: Group, task: Task, c: Call, block: bool): Outcome {
    if TestWaitCondition(g.bits, c.waitFor, c.waitForAll) then
      Outcome(if c.clearOnExit then ClearBits(g, c.waitFor) else g, Return(g.bits))
    else if !block then Outcome(g, Return(g.bits))
    else Outcome(PlaceOnList(g, task, c), Block)
  }

  function Sync(g: Group, task: Task, set_: Bits, waitFor: Bits, block: bool): Outcome {
    var g' := SetBits(g, set_);
    if And(Union(g.bits, set_), waitFor) == waitFor then Outcome(ClearBits(g', waitFor), Return(Union(g.bits, set_)))
    else if block then Outcome(PlaceOnList(g', task, Call(waitFor, true, true)), Block)
    else Outcome(g', Return(g'.bits))
  }

  /** The list without the entry of one task. */
  function WithoutTask(waiting: seq<Waiter>, task: Task): seq<Waiter> {
    if waiting == [] then []
    else if waiting[0].task == task then waiting[1..]
    else [waiting[0]] + WithoutTask(waiting[1..], task)
  }

  /** The block time of a waiting task runs out: the kernel takes its item off the list, value and all. */
  function TimeOut(g: Group, w: Waiter): Group
    requires w in g.waiting
  {
    g.(waiting := WithoutTask(g.waiting, w.task), woken := g.woken[w.task := w.value])
  }

  /** A woken task runs on, to the end of its wait or sync. */
  function Resume(g: Group, task: Task): Outcome
    requires task in g.woken && task in g.calls
  {
    var g', value, c := g.(woken := g.woken - {task}, calls := g.calls - {task}), g.woken[task], g.calls[task];
    if And(value, UNBLOCKED) != 0 then Outcome(g', Return(Minus(value, CONTROL)))
    else
      Outcome(if TestWaitCondition(g.bits, c.waitFor, c.waitForAll) && c.clearOnExit
              then ClearBits(g', c.waitFor) else g',
              Return(Minus(g.bits, CONTROL)))
  }

  /** Deleting the group wakes every waiter, with no bits set. */
  function Delete(g: Group): Group {
    g.(waiting := [], woken := WakeAll(g.woken, g.waiting))
  }

  function WakeAll(woken: map<Task, Bits>, waiting: seq<Waiter>): map<Task, Bits>
    decreases waiting
  {
    if waiting == [] then woken
    else WakeAll(woken[waiting[0].task := UNBLOCKED | ITEM_IN_USE], waiting[1..])
  }

  // ---------------------------------------------------------------- what a set does

  ghost predicate DistinctTasks(waiting: seq<Waiter>) {
    forall i, j :: 0 <= i < j < |waiting| ==> waiting[i].task != waiting[j].task
  }

  /** A task is in the waiting list. */
  ghost predicate Waits(waiting: seq<Waiter>, task: Task) {
    exists w :: w in waiting && w.task == task
  }

  /** One more waiter at the end. */
  lemma Unfold(waiting: seq<Waiter>, w: Waiter, woken: map<Task, Bits>, bits: Bits)
    ensures Unsatisfied(waiting + [w], bits)
            == if Satisfied(w.value, bits) then Unsatisfied(waiting, bits) else Unsatisfied(waiting, bits) + [w]
    ensures Release(woken, waiting + [w], bits)
            == if Satisfied(w.value, bits) then Release(woken, waiting, bits)[w.task := Mark(bits)]
               else Release(woken, waiting, bits)
    ensures ClearRequest(waiting + [w], bits)
            == if Satisfied(w.value, bits) && ClearsOnExit(w.value)
               then Union(ClearRequest(waiting, bits), Wanted(w.value))
               else ClearRequest(waiting, bits)
  {
    hide Satisfied, ClearsOnExit, Wanted;
    assert (waiting + [w])[..|waiting|] == waiting;
  }

  /** A set leaves waiting exactly the waiters whose condition the new bits do not meet. */
  lemma {:induction false} StillWaiting(waiting: seq<Waiter>, bits: Bits, x: Waiter)
    ensures x in Unsatisfied(waiting, bits) <==> x in waiting && !Satisfied(x.value, bits)
  {
    hide Satisfied;
    if waiting != [] {
      StillWaiting(waiting[..|waiting| - 1], bits, x);
      assert waiting == waiting[..|waiting| - 1] + [waiting[|waiting| - 1]];
    }
  }

  /** It wakes exactly the others, each with the bits as they were before any was cleared. */
  lemma {:induction false} Releases(woken: map<Task, Bits>, waiting: seq<Waiter>, bits: Bits, task: Task)
    ensures (exists w :: w in waiting && w.task == task && Satisfied(w.value, bits)) ==>
              task in Release(woken, waiting, bits)
              && Release(woken, waiting, bits)[task] == Mark(bits)
    ensures !(exists w :: w in waiting && w.task == task && Satisfied(w.value, bits)) ==>
              (task in Release(woken, waiting, bits) <==> task in woken)
              && (task in woken ==> Release(woken, waiting, bits)[task] == woken[task])
  {
    hide Satisfied;
    if waiting != [] {
      var init, last := waiting[..|waiting| - 1], waiting[|waiting| - 1];
      Releases(woken, init, bits, task);
      assert waiting == init + [last];
      assert forall w :: w in waiting <==> w in init || w == last;
    }
  }

  /** Two sets of bits have one in common. */
  predicate Meets(a: Bits, b: Bits) { And(a, b) != 0 }

  lemma Distributes(x: Bits, a: Bits, b: Bits)
    ensures x & (a | b) == (x & a) | (x & b)
  {
  }

  lemma AndOfUnion(x: Bits, a: Bits, b: Bits)
    ensures And(x, Union(a, b)) == Union(And(x, a), And(x, b))
    ensures And(x, 0) == 0
  {
    Distributes(x, a, b);
  }

  lemma OrZero(a: Bits, b: Bits)
    ensures Union(a, b) == 0 <==> a == 0 && b == 0
  {
  }

  lemma OrMeets(x: Bits, a: Bits, b: Bits)
    ensures Meets(x, Union(a, b)) <==> Meets(x, a) || Meets(x, b)
    ensures !Meets(x, 0)
  {
    hide And, Union;
    AndOfUnion(x, a, b);
    OrZero(And(x, a), And(x, b));
  }

  /** It clears exactly the union of what the released clear-on-exit waiters waited for. */
  lemma {:induction false} Clears(waiting: seq<Waiter>, bits: Bits, mask: Bits)
    ensures Meets(mask, ClearRequest(waiting, bits)) <==>
            exists w :: w in waiting && Satisfied(w.value, bits) && ClearsOnExit(w.value)
                        && Meets(mask, Wanted(w.value))
  {
    hide Satisfied, ClearsOnExit, Wanted, Meets, Union;
    if waiting == [] {
      OrMeets(mask, 0, 0);
    } else {
      var init, last := waiting[..|waiting| - 1], waiting[|waiting| - 1];
      Clears(init, bits, mask);
      OrMeets(mask, ClearRequest(init, bits), Wanted(last.value));
      assert waiting == init + [last];
      assert forall w :: w in waiting <==> w in init || w == last;
    }
  }

  /** Bits that meet the same masks are the same; two masks are enough to tell. */
  lemma SameMeets(a: Bits, b: Bits)
    requires Meets(a & !b, a) <==> Meets(a & !b, b)
    requires Meets(b & !a, a) <==> Meets(b & !a, b)
    ensures a == b
  {
  }

  lemma SameClearRequest(was: seq<Waiter>, waiting: seq<Waiter>, bits: Bits)
    requires forall w :: w in was <==> w in waiting
    ensures ClearRequest(was, bits) == ClearRequest(waiting, bits)
  {
    hide Satisfied, ClearsOnExit, Wanted, ClearRequest, Meets;
    var a, b := ClearRequest(was, bits), ClearRequest(waiting, bits);
    Clears(was, bits, a & !b);
    Clears(waiting, bits, a & !b);
    Clears(was, bits, b & !a);
    Clears(waiting, bits, b & !a);
    SameMeets(a, b);
  }

  lemma SameRelease(woken: map<Task, Bits>, was: seq<Waiter>, waiting: seq<Waiter>, bits: Bits)
    requires forall w :: w in was <==> w in waiting
    ensures Release(woken, was, bits) == Release(woken, waiting, bits)
  {
    hide Satisfied, Release;
    forall task
      ensures task in Release(woken, was, bits) <==> task in Release(woken, waiting, bits)
      ensures task in Release(woken, was, bits) ==>
                Release(woken, was, bits)[task] == Release(woken, waiting, bits)[task]
    {
      Releases(woken, was, bits, task);
      Releases(woken, waiting, bits, task);
    }
  }

  /** The effect of a set does not depend on the order of the list. */
  lemma OrderIndependent(g: Group, waiting: seq<Waiter>, set_: Bits)
    requires forall w :: w in g.waiting <==> w in waiting
    ensures SetBits(g.(waiting := waiting), set_).bits == SetBits(g, set_).bits
    ensures SetBits(g.(waiting := waiting), set_).woken == SetBits(g, set_).woken
    ensures forall w :: w in SetBits(g.(waiting := waiting), set_).waiting <==> w in SetBits(g, set_).waiting
  {
    hide Satisfied, Unsatisfied, Release, ClearRequest, Union, Minus;
    var now := Union(g.bits, set_);
    SameClearRequest(g.waiting, waiting, now);
    SameRelease(g.woken, g.waiting, waiting, now);
    forall w ensures w in Unsatisfied(g.waiting, now) <==> w in Unsatisfied(waiting, now) {
      StillWaiting(g.waiting, now, w);
      StillWaiting(waiting, now, w);
    }
  }

  // ---------------------------------------------------------------- no satisfied waiter stays blocked

  /** The list entry of a blocked call whose condition the bits do not meet. */
  ghost predicate Blocked(g: Group, w: Waiter) {
    && w.task in g.calls && ValidCall(g.calls[w.task]) && w.value == Item(g.calls[w.task])
    && !Satisfied(w.value, g.bits) && w.task !in g.woken
  }

  /** What a woken task will find: nothing, if it timed out or the group is gone, or bits that meet its wait. */
  ghost predicate WokenRightly(value: Bits, c: Call) {
    && ValidCall(c)
    && (And(value, UNBLOCKED) == 0 || Wanted(value) == 0 || TestWaitCondition(Wanted(value), c.waitFor, c.waitForAll))
  }

  ghost predicate Inv(g: Group) {
    && And(g.bits, CONTROL) == 0 && DistinctTasks(g.waiting)
    && (forall w :: w in g.waiting ==> Blocked(g, w))
    && (forall t :: t in g.woken ==> t in g.calls && WokenRightly(g.woken[t], g.calls[t]))
  }

  lemma FewerBits(value: Bits, bits: Bits, mask: Bits)
    requires !Satisfied(value, bits)
    ensures !Satisfied(value, Minus(bits, mask))
  {
    hide Wanted;
    var w := Wanted(value);
    assert (bits & !mask) & w == (bits & w) & !mask;
    WithinBoth(bits & w, !mask, w);
  }

  lemma WithinBoth(a: Bits, mask: Bits, w: Bits)
    ensures a == 0 ==> a & mask == 0
    ensures (a & mask) & w == w ==> a & w == w
  {
  }

  lemma {:induction false} UnsatisfiedDistinct(waiting: seq<Waiter>, bits: Bits)
    requires DistinctTasks(waiting)
    ensures DistinctTasks(Unsatisfied(waiting, bits))
  {
    hide Satisfied;
    if waiting != [] {
      var init, last := waiting[..|waiting| - 1], waiting[|waiting| - 1];
      UnsatisfiedDistinct(init, bits);
      forall i | 0 <= i < |Unsatisfied(init, bits)| ensures Unsatisfied(init, bits)[i].task != last.task {
        StillWaiting(init, bits, Unsatisfied(init, bits)[i]);
      }
    }
  }

  lemma {:induction false} WithoutTaskMembers(waiting: seq<Waiter>, task: Task)
    requires DistinctTasks(waiting)
    ensures DistinctTasks(WithoutTask(waiting, task))
    ensures forall x :: x in WithoutTask(waiting, task) <==> x in waiting && x.task != task
  {
    hide DistinctTasks;
    if waiting != [] {
      var head, rest := waiting[0], WithoutTask(waiting[1..], task);
      OneInFront(head, waiting[1..]);
      OneInFront(head, rest);
      assert waiting == [head] + waiting[1..];
      WithoutTaskMembers(waiting[1..], task);
    }
  }

  lemma OneInFront(head: Waiter, rest: seq<Waiter>)
    ensures forall x :: x in [head] + rest <==> x == head || x in rest
    ensures DistinctTasks([head] + rest) <==> DistinctTasks(rest) && forall x :: x in rest ==> x.task != head.task
  {
    var s := [head] + rest;
    if DistinctTasks(s) {
      forall i, j | 0 <= i < j < |rest| ensures rest[i].task != rest[j].task {
        assert s[i + 1].task != s[j + 1].task;
      }
      forall x | x in rest ensures x.task != head.task {
        var i :| 0 <= i < |rest| && rest[i] == x;
        assert s[0].task != s[i + 1].task;
      }
    } else {
      var i, j :| 0 <= i < j < |s| && s[i].task == s[j].task;
      assert s[j] == rest[j - 1] && (i > 0 ==> s[i] == rest[i - 1]);
    }
  }

  lemma {:induction false} WakeAllMembers(woken: map<Task, Bits>, waiting: seq<Waiter>, task: Task)
    ensures task in WakeAll(woken, waiting) <==> task in woken || Waits(waiting, task)
    ensures task in WakeAll(woken, waiting) ==>
              WakeAll(woken, waiting)[task] == if Waits(waiting, task) then UNBLOCKED | ITEM_IN_USE else woken[task]
    decreases waiting
  {
    if waiting != [] {
      assert waiting == [waiting[0]] + waiting[1..];
      WakeAllMembers(woken[waiting[0].task := UNBLOCKED | ITEM_IN_USE], waiting[1..], task);
      assert Waits(waiting, task) <==> waiting[0].task == task || Waits(waiting[1..], task) by {
        if Waits(waiting[1..], task) {
          var w :| w in waiting[1..] && w.task == task;
          assert w in waiting;
        }
        if waiting[0].task == task { assert waiting[0] in waiting; }
      }
    }
  }

  lemma MarkSplits(bits: Bits)
    requires And(bits, CONTROL) == 0
    ensures Wanted(bits) == bits && Wanted(Mark(bits)) == bits && And(Mark(bits), UNBLOCKED) != 0
  {
  }

  /** The value a released task finds meets its condition. */
  lemma ReleasedValue(c: Call, bits: Bits)
    requires ValidCall(c) && And(bits, CONTROL) == 0 && Satisfied(Item(c), bits)
    ensures WokenRightly(Mark(bits), c)
  {
    hide TestWaitCondition, Item, Wanted, Mark, ClearsOnExit, ValidCall;
    ItemSplits(c);
    MarkSplits(bits);
  }

  lemma ControlFree(a: Bits, b: Bits, m: Bits)
    requires And(a, CONTROL) == 0 && And(b, CONTROL) == 0
    ensures And(Union(a, b), CONTROL) == 0 && And(Minus(a, m), CONTROL) == 0
  {
  }

  lemma SetKeepsInv(g: Group, set_: Bits)
    requires Inv(g) && And(set_, CONTROL) == 0
    ensures Inv(SetBits(g, set_))
  {
    hide Satisfied, Unsatisfied, Release, ClearRequest, WokenRightly, ValidCall, Item, Union, Minus, Mark;
    var now := Union(g.bits, set_);
    var g' := SetBits(g, set_);
    ControlFree(g.bits, set_, set_);
    ControlFree(now, now, ClearRequest(g.waiting, now));
    UnsatisfiedDistinct(g.waiting, now);
    forall w | w in g'.waiting ensures Blocked(g', w) {
      StillWaiting(g.waiting, now, w);
      FewerBits(w.value, now, ClearRequest(g.waiting, now));
      Releases(g.woken, g.waiting, now, w.task);
      forall x | x in g.waiting && x.task == w.task ensures x == w {
      }
    }
    forall t | t in g'.woken ensures t in g'.calls && WokenRightly(g'.woken[t], g'.calls[t]) {
      Releases(g.woken, g.waiting, now, t);
      if w :| w in g.waiting && w.task == t && Satisfied(w.value, now) {
        assert Blocked(g, w);
        ReleasedValue(g.calls[t], now);
      }
    }
  }

  lemma ClearKeepsInv(g: Group, clear: Bits)
    requires Inv(g)
    ensures Inv(ClearBits(g, clear))
  {
    hide Satisfied, WokenRightly, ValidCall, Item;
    ControlFree(g.bits, g.bits, clear);
    forall w | w in g.waiting ensures Blocked(ClearBits(g, clear), w) {
      assert Blocked(g, w);
      FewerBits(w.value, g.bits, clear);
    }
  }

  /** A task outside any call of the group. */
  predicate Free(g: Group, task: Task) { task !in g.calls }

  lemma PlaceKeepsInv(g: Group, task: Task, c: Call)
    requires Inv(g) && Free(g, task) && ValidCall(c) && !TestWaitCondition(g.bits, c.waitFor, c.waitForAll)
    ensures Inv(PlaceOnList(g, task, c))
  {
    hide TestWaitCondition, WokenRightly, ValidCall, Item;
    ItemSplits(c);
    var g' := PlaceOnList(g, task, c);
    assert !Satisfied(Item(c), g.bits);
    hide Satisfied;
    forall w | w in g'.waiting ensures Blocked(g', w) {
      assert w in g.waiting || w == Waiter(task, Item(c));
    }
    forall i | 0 <= i < |g.waiting| ensures g.waiting[i].task != task {
      assert Blocked(g, g.waiting[i]);
    }
  }

  lemma TimeOutKeepsInv(g: Group, w: Waiter)
    requires Inv(g) && w in g.waiting
    ensures Inv(TimeOut(g, w))
  {
    hide Satisfied, TestWaitCondition, ValidCall, Item;
    WithoutTaskMembers(g.waiting, w.task);
    assert Blocked(g, w);
    ItemSplits(g.calls[w.task]);
    var g' := TimeOut(g, w);
    forall x | x in g'.waiting ensures Blocked(g', x) {
      assert Blocked(g, x);
    }
  }

  lemma DeleteKeepsInv(g: Group)
    requires Inv(g)
    ensures Inv(Delete(g))
  {
    hide Satisfied, TestWaitCondition, Item;
    var g' := Delete(g);
    forall t | t in g'.woken ensures t in g'.calls && WokenRightly(g'.woken[t], g'.calls[t]) {
      WakeAllMembers(g.woken, g.waiting, t);
      if Waits(g.waiting, t) {
        var w :| w in g.waiting && w.task == t;
        assert Blocked(g, w);
        assert Wanted(UNBLOCKED | ITEM_IN_USE) == 0;
      }
    }
  }

  lemma ResumeKeepsInv(g: Group, task: Task)
    requires Inv(g) && task in g.woken
    ensures Inv(Resume(g, task).group)
  {
    hide Satisfied, TestWaitCondition, Item, WokenRightly, ValidCall;
    var g' := g.(woken := g.woken - {task}, calls := g.calls - {task});
    forall w | w in g'.waiting ensures Blocked(g', w) {
      assert Blocked(g, w);
    }
    assert Inv(g');
    ClearKeepsInv(g', g.calls[task].waitFor);
  }

  /** A caller whose condition was not met does not find it met by what a set leaves. */
  lemma SyncNotMet(g: Group, set_: Bits, waitFor: Bits)
    requires And(Union(g.bits, set_), waitFor) != waitFor
    ensures !TestWaitCondition(SetBits(g, set_).bits, waitFor, true)
  {
    hide Unsatisfied, Release, ClearRequest;
  }

  // ---------------------------------------------------------------- whole runs

  datatype Action =
    | DoSet(set_: Bits)
    | DoClear(clear: Bits)
    | DoWait(task: Task, call: Call, block: bool)
    | DoSync(task: Task, set_: Bits, waitFor: Bits, block: bool)
    | DoTimeOut(waiter: Waiter)
    | DoResume(task: Task)
    | DoDelete

  /** What the callers and the kernel may do next: the assertions of the calls, and one call per task. */
  predicate Enabled(g: Group, a: Action) {
    match a
    case DoSet(s) => And(s, CONTROL) == 0
    case DoClear(c) => And(c, CONTROL) == 0
    case DoWait(t, c, _) => Free(g, t) && ValidCall(c)
    case DoSync(t, s, w, _) => Free(g, t) && And(s, CONTROL) == 0 && ValidCall(Call(w, true, true))
    case DoTimeOut(w) => w in g.waiting
    case DoResume(t) => t in g.woken && t in g.calls
    case DoDelete => true
  }

  function Step(g: Group, a: Action): Group
    requires Enabled(g, a)
  {
    match a
    case DoSet(s) => SetBits(g, s)
    case DoClear(c) => ClearBits(g, c)
    case DoWait(t, c, block) => WaitBits(g, t, c, block).group
    case DoSync(t, s, w, block) => Sync(g, t, s, w, block).group
    case DoTimeOut(w) => TimeOut(g, w)
    case DoResume(t) => Resume(g, t).group
    case DoDelete => Delete(g)
  }

  lemma StepKeepsInv(g: Group, a: Action)
    requires Inv(g) && Enabled(g, a)
    ensures Inv(Step(g, a))
  {
    hide Inv, ValidCall, TestWaitCondition, SetBits, ClearBits, PlaceOnList, TimeOut, Resume, Delete;
    match a
    case DoSet(s) => SetKeepsInv(g, s);
    case DoClear(c) => ClearKeepsInv(g, c);
    case DoWait(t, c, block) => WaitKeepsInv(g, t, c, block);
    case DoSync(t, s, w, block) => SyncKeepsInv(g, t, s, w, block);
    case DoTimeOut(w) => TimeOutKeepsInv(g, w);
    case DoResume(t) => ResumeKeepsInv(g, t);
    case DoDelete => DeleteKeepsInv(g);
  }

  lemma WaitKeepsInv(g: Group, task: Task, c: Call, block: bool)
    requires Inv(g) && Free(g, task) && ValidCall(c)
    ensures Inv(WaitBits(g, task, c, block).group)
  {
    hide Inv, ValidCall, TestWaitCondition, ClearBits, PlaceOnList;
    ClearKeepsInv(g, c.waitFor);
    if !TestWaitCondition(g.bits, c.waitFor, c.waitForAll) {
      PlaceKeepsInv(g, task, c);
    }
  }

  lemma SyncKeepsInv(g: Group, task: Task, set_: Bits, waitFor: Bits, block: bool)
    requires Inv(g) && Free(g, task) && And(set_, CONTROL) == 0 && ValidCall(Call(waitFor, true, true))
    ensures Inv(Sync(g, task, set_, waitFor, block).group)
  {
    hide Inv, ValidCall, TestWaitCondition, ClearBits, PlaceOnList, Unsatisfied, Release, ClearRequest;
    SetKeepsInv(g, set_);
    var g' := SetBits(g, set_);
    ClearKeepsInv(g', waitFor);
    if And(Union(g.bits, set_), waitFor) != waitFor {
      SyncNotMet(g, set_, waitFor);
      PlaceKeepsInv(g', task, Call(waitFor, true, true));
    }
  }

  ghost predicate IsRun(states: seq<Group>, actions: seq<Action>) {
    && |states| == |actions| + 1 && states[0] == Group(0, [], map[], map[])
    && forall i {:trigger actions[i]} :: 0 <= i < |actions| ==>
         Enabled(states[i], actions[i]) && states[i + 1] == Step(states[i], actions[i])
  }

  /**
   In every run, between any two operations: no entry of the list has its condition met by the bits, and
   a task about to run on that was not timed out will return bits that meet its condition, or 0 because
   the group has been deleted.
   */
  lemma {:induction false} NoSatisfiedWaiterBlocked(states: seq<Group>, actions: seq<Action>, n: nat)
    requires IsRun(states, actions) && n <= |actions|
    ensures forall w :: w in states[n].waiting ==>
              w.task in states[n].calls && w.value == Item(states[n].calls[w.task])
              && !Satisfied(w.value, states[n].bits)
    ensures Inv(states[n])
  {
    hide Step, Enabled, Inv, Satisfied, Item;
    if n == 0 {
      StartInv();
    } else {
      NoSatisfiedWaiterBlocked(states, actions, n - 1);
      assert Enabled(states[n - 1], actions[n - 1]) && states[n] == Step(states[n - 1], actions[n - 1]);
      StepKeepsInv(states[n - 1], actions[n - 1]);
    }
    WaitersBlocked(states[n]);
  }

  lemma WaitersBlocked(g: Group)
    requires Inv(g)
    ensures forall w :: w in g.waiting ==>
              w.task in g.calls && w.value == Item(g.calls[w.task]) && !Satisfied(w.value, g.bits)
  {
    hide Satisfied, Item;
  }

  lemma StartInv()
    ensures Inv(Group(0, [], map[], map[]))
  {
  }

  /** What a task that runs on returns: the bits it was woken with, or, after a time-out, the present ones. */
  lemma ResumeAnswer(g: Group, task: Task)
    requires Inv(g) && task in g.woken
    ensures task in g.calls && Resume(g, task).answer.Return?
    ensures var value, c, r := g.woken[task], g.calls[task], Resume(g, task).answer.value;
            if And(value, UNBLOCKED) != 0
            then r == 0 || TestWaitCondition(r, c.waitFor, c.waitForAll)
            else r == g.bits
    ensures And(g.woken[task], UNBLOCKED) != 0 ==> Resume(g, task).group.bits == g.bits
  {
    hide TestWaitCondition, Blocked, ValidCall, ClearBits;
    assert WokenRightly(g.woken[task], g.calls[task]);
    MarkSplits(g.bits);
  }

  // ---------------------------------------------------------------- bit by bit

  /** A single bit. */
  predicate IsBit(b: Bits) { b != 0 && And(b, b - 1) == 0 }

  lemma WholeOrNothing(b: Bits, x: Bits)
    requires IsBit(b)
    ensures And(b, x) == 0 || And(b, x) == b
  {
  }

  lemma BothWhole(b: Bits, x: Bits, y: Bits)
    requires And(b, x) == b && And(b, y) == b
    ensures And(b, And(x, y)) == b
  {
  }

  lemma OneNothing(b: Bits, x: Bits, y: Bits)
    requires And(b, x) == 0
    ensures And(b, And(x, y)) == 0 && And(b, And(y, x)) == 0
  {
  }

  lemma ComplementOfWhole(b: Bits, x: Bits)
    requires And(b, x) == b
    ensures And(b, !x) == 0
  {
  }

  lemma ComplementOfNothing(b: Bits, x: Bits)
    requires And(b, x) == 0
    ensures And(b, !x) == b
  {
  }

  lemma BitOfBoth(b: Bits, x: Bits, y: Bits)
    requires IsBit(b)
    ensures Meets(b, And(x, y)) <==> Meets(b, x) && Meets(b, y)
  {
    WholeOrNothing(b, x);
    WholeOrNothing(b, y);
    hide And;
    if And(b, x) == 0 {
      OneNothing(b, x, y);
    } else if And(b, y) == 0 {
      OneNothing(b, y, x);
    } else {
      BothWhole(b, x, y);
    }
  }

  lemma MinusIsAnd(x: Bits, y: Bits)
    ensures Minus(x, y) == And(x, !y)
  {
  }

  /** A bit of a difference. */
  lemma BitLaws(b: Bits, x: Bits, y: Bits)
    requires IsBit(b)
    ensures Meets(b, Minus(x, y)) <==> Meets(b, x) && !Meets(b, y)
  {
    hide And, Minus, IsBit;
    MinusIsAnd(x, y);
    BitOfBoth(b, x, !y);
    BitIsNot(b);
    WholeOrNothing(b, y);
    if And(b, y) == 0 {
      ComplementOfNothing(b, y);
    } else {
      ComplementOfWhole(b, y);
    }
  }

  lemma BitIsNot(b: Bits)
    requires IsBit(b)
    ensures b != 0
  {
  }

  lemma LowestBit(x: Bits)
    requires x != 0
    ensures IsBit(x & (0 - x)) && Meets(x & (0 - x), x)
  {
  }

  /** The bits are what a call waits for: all of its bits are set, or one of them is. */
  ghost predicate Met(bits: Bits, waitFor: Bits, waitForAll: bool) {
    if waitForAll then forall b :: IsBit(b) && Meets(b, waitFor) ==> Meets(b, bits)
    else exists b :: IsBit(b) && Meets(b, waitFor) && Meets(b, bits)
  }

  lemma NoneLacking(bits: Bits, waitFor: Bits)
    requires And(bits, waitFor) == waitFor
    ensures Minus(waitFor, bits) == 0
  {
  }

  lemma AllThere(bits: Bits, waitFor: Bits)
    requires Minus(waitFor, bits) == 0
    ensures And(bits, waitFor) == waitFor
  {
  }

  lemma MeetsNothing(b: Bits)
    ensures !Meets(b, 0)
  {
  }

  /** The test of the code is that. */
  lemma TestExact(bits: Bits, waitFor: Bits, waitForAll: bool)
    ensures TestWaitCondition(bits, waitFor, waitForAll) <==> Met(bits, waitFor, waitForAll)
  {
    hide And, Minus, Meets, IsBit;
    var lacking, common := Minus(waitFor, bits), And(bits, waitFor);
    if lacking == 0 { AllThere(bits, waitFor); }
    if common == waitFor { NoneLacking(bits, waitFor); }
    forall b { MeetsNothing(b); }
    forall b | IsBit(b)
      ensures Meets(b, lacking) <==> Meets(b, waitFor) && !Meets(b, bits)
      ensures Meets(b, common) <==> Meets(b, bits) && Meets(b, waitFor)
    {
      BitLaws(b, waitFor, bits);
      BitOfBoth(b, bits, waitFor);
    }
    if lacking != 0 { LowestBit(lacking); }
    if common != 0 { LowestBit(common); }
  }

  /** A waiter whose call the bits meet, who asked for this bit to be cleared. */
  ghost predicate AsksToClear(g: Group, w: Waiter, now: Bits, b: Bits) {
    && w in g.waiting && w.task in g.calls
    && var c := g.calls[w.task];
       c.clearOnExit && Met(now, c.waitFor, c.waitForAll) && Meets(b, c.waitFor)
  }

  lemma AsksExact(g: Group, w: Waiter, now: Bits, b: Bits)
    requires Inv(g) && w in g.waiting
    ensures AsksToClear(g, w, now, b)
            <==> Satisfied(w.value, now) && ClearsOnExit(w.value) && Meets(b, Wanted(w.value))
  {
    hide TestWaitCondition, Met, Meets, Item, Wanted, ClearsOnExit, And, ValidCall;
    assert Blocked(g, w);
    var c := g.calls[w.task];
    ItemSplits(c);
    TestExact(now, c.waitFor, c.waitForAll);
  }

  /**
   What a set leaves, bit by bit: a bit is set afterwards if and only if it was set before or is in the call, and
   no waiter whose call is met asked for it to be cleared.
   */
  lemma SetAfter(g: Group, set_: Bits, b: Bits)
    requires Inv(g) && IsBit(b)
    ensures Meets(b, SetBits(g, set_).bits)
            <==> (Meets(b, g.bits) || Meets(b, set_)) && !exists w :: AsksToClear(g, w, Union(g.bits, set_), b)
    ensures SetBits(g, set_).calls == g.calls
  {
    hide Inv, Satisfied, ClearsOnExit, Wanted, AsksToClear, ClearRequest, Unsatisfied, Release, Minus, Union, Meets,
      IsBit;
    var now := Union(g.bits, set_);
    OrMeets(b, g.bits, set_);
    BitLaws(b, now, ClearRequest(g.waiting, now));
    Clears(g.waiting, now, b);
    forall w | w in g.waiting
      ensures AsksToClear(g, w, now, b)
              <==> Satisfied(w.value, now) && ClearsOnExit(w.value) && Meets(b, Wanted(w.value))
    {
      AsksExact(g, w, now, b);
    }
    AskersWait(g, now, b);
  }

  lemma AskersWait(g: Group, now: Bits, b: Bits)
    ensures forall w :: AsksToClear(g, w, now, b) ==> w in g.waiting
  {
  }

  /**
   What a wait answers and leaves: the bits from before; of those it waited for each is clear afterwards if the
   call was met and clears on exit, and no other bit changes. A task that blocks is entered with its call.
   */
  lemma WaitAfter(g: Group, task: Task, c: Call, block: bool, b: Bits)
    requires ValidCall(c) && IsBit(b)
    ensures var o, met := WaitBits(g, task, c, block), Met(g.bits, c.waitFor, c.waitForAll);
            && o.answer == (if met || !block then Return(g.bits) else Block)
            && (Meets(b, o.group.bits) <==> Meets(b, g.bits) && !(met && c.clearOnExit && Meets(b, c.waitFor)))
            && o.group.woken == g.woken
            && (o.answer.Return? ==> o.group.waiting == g.waiting && o.group.calls == g.calls)
            && (o.answer == Block ==>
                  o.group.calls == g.calls[task := c] && o.group.waiting == g.waiting + [Waiter(task, Item(c))])
  {
    hide TestWaitCondition, Met, Meets, IsBit, ValidCall, Item, Minus;
    TestExact(g.bits, c.waitFor, c.waitForAll);
    BitLaws(b, g.bits, c.waitFor);
  }

  /** A bit that is cleared is clear, and no other changes. */
  lemma ClearAfter(g: Group, clear: Bits, b: Bits)
    requires IsBit(b)
    ensures Meets(b, ClearBits(g, clear).bits) <==> Meets(b, g.bits) && !Meets(b, clear)
    ensures ClearBits(g, clear) == g.(bits := ClearBits(g, clear).bits)
  {
    BitLaws(b, g.bits, clear);
  }

  /**
   What a sync answers and leaves: it sets, and if that makes all of its bits set, or they were, it returns them so
   and clears them; otherwise it blocks until they all are, and then clears them, or it returns what the set left.
   */
  lemma SyncAfter(g: Group, task: Task, set_: Bits, waitFor: Bits, block: bool, b: Bits)
    requires IsBit(b)
    ensures var o, met := Sync(g, task, set_, waitFor, block), Met(Union(g.bits, set_), waitFor, true);
            var g' := SetBits(g, set_);
            && o.answer == (if met then Return(Union(g.bits, set_)) else if block then Block else Return(g'.bits))
            && (Meets(b, o.group.bits) <==> Meets(b, g'.bits) && !(met && Meets(b, waitFor)))
            && o.group.woken == g'.woken
            && (o.answer.Return? ==> o.group.waiting == g'.waiting && o.group.calls == g'.calls)
            && (o.answer == Block ==>
                  o.group.calls == g'.calls[task := Call(waitFor, true, true)]
                  && o.group.waiting == g'.waiting + [Waiter(task, Item(Call(waitFor, true, true)))])
  {
    hide SetBits, Met, Meets, IsBit, Item, Minus, And, Union;
    TestExact(Union(g.bits, set_), waitFor, true);
    BitLaws(b, SetBits(g, set_).bits, waitFor);
  }

  /** What a task that ran out of time leaves: if its call is met after all, and clears on exit, what it waited for. */
  lemma ResumeAfter(g: Group, task: Task, b: Bits)
    requires Inv(g) && task in g.woken && IsBit(b)
    ensures task in g.calls
    ensures var g', c := Resume(g, task).group, g.calls[task];
            var late := And(g.woken[task], UNBLOCKED) == 0;
            && (Meets(b, g'.bits)
                <==> Meets(b, g.bits)
                     && !(late && Met(g.bits, c.waitFor, c.waitForAll) && c.clearOnExit && Meets(b, c.waitFor)))
            && g'.waiting == g.waiting && g'.woken == g.woken - {task} && g'.calls == g.calls - {task}
  {
    hide TestWaitCondition, Met, Meets, IsBit, Minus, And, Blocked;
    assert WokenRightly(g.woken[task], g.calls[task]);
    var c := g.calls[task];
    TestExact(g.bits, c.waitFor, c.waitForAll);
    BitLaws(b, g.bits, c.waitFor);
  }

  /** A task that runs out of time leaves the list, as the only one, and is not taken for one that was released. */
  lemma TimeOutAfter(g: Group, w: Waiter)
    requires Inv(g) && w in g.waiting
    ensures var g' := TimeOut(g, w);
            && (forall x :: x in g'.waiting <==> x in g.waiting && x != w)
            && w.task in g'.woken && And(g'.woken[w.task], UNBLOCKED) == 0
            && g'.woken - {w.task} == g.woken && g'.bits == g.bits && g'.calls == g.calls
  {
    hide And, Satisfied, ValidCall, Item;
    WithoutTaskMembers(g.waiting, w.task);
    assert Blocked(g, w);
    ItemSplits(g.calls[w.task]);
    forall x | x in g.waiting && x.task == w.task ensures x == w {
      assert Blocked(g, x);
    }
  }

  /** After a delete nobody waits, and everyone who did will return no bits. */
  lemma DeleteAfter(g: Group, w: Waiter)
    requires Inv(g) && w in g.waiting
    ensures var g' := Delete(g);
            && g'.waiting == [] && w.task in g'.woken && w.task in g'.calls
            && Resume(g', w.task).answer == Return(0) && Resume(g', w.task).group.bits == g.bits
  {
    hide Satisfied, ValidCall, Item;
    assert Blocked(g, w);
    WakeAllMembers(g.woken, g.waiting, w.task);
    assert Waits(g.waiting, w.task);
  }
}
