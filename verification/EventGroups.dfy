/** The code of event_groups.c, proved to do what EventSpec says. */
module EventGroups {
  import opened EventSpec

  /** How the code splits an item value agrees with EventSpec. */
  lemma SplitValue(value: Bits, bits: Bits)
    ensures And(And(value, CONTROL), WAIT_FOR_ALL) == And(value, WAIT_FOR_ALL)
    ensures And(And(value, CONTROL), CLEAR_ON_EXIT) == And(value, CLEAR_ON_EXIT)
    ensures And(Wanted(value), bits) == And(bits, Wanted(value))
    ensures Mark(bits) == Union(Union(bits, UNBLOCKED), ITEM_IN_USE)
  {
  }

  /** What the code packs into an item value. */
  lemma PackValue(c: Call)
    ensures Item(c) == Union(Union(c.waitFor, Union(if c.clearOnExit then CLEAR_ON_EXIT else 0,
                                                    if c.waitForAll then WAIT_FOR_ALL else 0)), ITEM_IN_USE)
    ensures Union(0, CLEAR_ON_EXIT) == CLEAR_ON_EXIT && Union(0, WAIT_FOR_ALL) == WAIT_FOR_ALL
    ensures Union(0, 0) == 0 && Union(CLEAR_ON_EXIT, 0) == CLEAR_ON_EXIT
    ensures c.clearOnExit && c.waitForAll ==>
              Item(c) == Union(Union(Union(c.waitFor, CLEAR_ON_EXIT), WAIT_FOR_ALL), ITEM_IN_USE)
  {
    hide Union;
    var clear: Bits, all: Bits := if c.clearOnExit then CLEAR_ON_EXIT else 0, if c.waitForAll then WAIT_FOR_ALL else 0;
    UnionThree(c.waitFor, clear, all);
    UnionNothing(CLEAR_ON_EXIT);
    UnionNothing(WAIT_FOR_ALL);
    UnionNothing(0);
  }

  lemma UnionThree(w: Bits, x: Bits, y: Bits)
    ensures Union(Union(w, x), y) == Union(w, Union(x, y))
  {
  }

  lemma UnionNothing(x: Bits)
    ensures Union(0, x) == x && Union(x, 0) == x
  {
  }

  class EventGroup {
    var bits: Bits                  // uxEventBits
    var waiting: seq<Waiter>        // xTasksWaitingForBits
    var woken: map<Task, Bits>      // event item values of tasks that have left the list
    var calls: map<Task, Call>      // the locals of the calls that have blocked
    const isStatic: bool            // ucStaticallyAllocated
    var freed: bool                 // whether the memory has been given back

    function State(): Group
      reads this
    {
      Group(bits, waiting, woken, calls)
    }

    /** xEventGroupCreate or xEventGroupCreateStatic */
    constructor (isStatic: bool)
      ensures State() == Group(0, [], map[], map[]) && this.isStatic == isStatic && !freed
    {
      bits, waiting, woken, calls := 0, [], map[], map[];
      this.isStatic := isStatic;
      freed := false;
    }

    /** vTaskRemoveFromUnorderedEventList, for the entry at position i. */
    method RemoveFromList(i: nat, value: Bits)
      requires i < |waiting|
      modifies this`waiting, this`woken
      ensures waiting == old(waiting[..i] + waiting[i + 1..])
      ensures woken == old(woken)[old(waiting)[i].task := Union(value, ITEM_IN_USE)]
    {
      woken := woken[waiting[i].task := Union(value, ITEM_IN_USE)];
      waiting := waiting[..i] + waiting[i + 1..];
    }

    /** vTaskPlaceOnUnorderedEventList; the call of the task blocks. */
    method PlaceOnList(task: Task, call: Call, value: Bits)
      requires Union(value, ITEM_IN_USE) == Item(call)
      modifies this`waiting, this`calls
      ensures State() == EventSpec.PlaceOnList(old(State()), task, call)
    {
      waiting := waiting + [Waiter(task, Union(value, ITEM_IN_USE))];
      calls := calls[task := call];
    }

    /** xEventGroupSetBits */
    method SetBits(bitsToSet: Bits) returns (r: Bits)
      requires And(bitsToSet, CONTROL) == 0
      modifies this`bits, this`waiting, this`woken
      ensures State() == EventSpec.SetBits(old(State()), bitsToSet) && r == bits
    {
      hide Unsatisfied, Release, ClearRequest, And, Union, Minus, Mark;
      ghost var list := waiting;
      ghost var before := woken;
      ghost var k := 0;
      bits := Union(bits, bitsToSet);
      var bitsToClear: Bits := 0;
      NothingDone(before, bits);
      var i := 0;
      while i < |waiting|
        invariant k <= |list| && Progress(list[..k], list[k..], before, i, bitsToClear)
        invariant bits == Union(old(bits), bitsToSet)
        decreases |list| - k
      {
        var item := waiting[i];
        StepAt(list, k, Unsatisfied(list[..k], bits), item);
        SplitValue(item.value, bits);
        Unfold(list[..k], item, before, bits);
        var controlBits := And(item.value, CONTROL);
        var bitsWaitedFor := Minus(item.value, CONTROL);
        var matchFound := false;
        if And(controlBits, WAIT_FOR_ALL) == 0 {
          if And(bitsWaitedFor, bits) != 0 {
            matchFound := true;
          }
        } else if And(bitsWaitedFor, bits) == bitsWaitedFor {
          matchFound := true;
        }
        if matchFound {
          if And(controlBits, CLEAR_ON_EXIT) != 0 {
            bitsToClear := Union(bitsToClear, bitsWaitedFor);
          }
          RemoveFromList(i, Union(bits, UNBLOCKED));
        } else {
          i := i + 1;
        }
        k := k + 1;
      }
      assert list[..k] == list;
      bits := Minus(bits, bitsToClear);
      r := bits;
    }

    /** The traversal has dealt with the entries in `done` and stands in front of those in `rest`. */
    ghost predicate Progress(done: seq<Waiter>, rest: seq<Waiter>, before: map<Task, Bits>, i: nat, toClear: Bits)
      reads this
    {
      && waiting == Unsatisfied(done, bits) + rest && i == |Unsatisfied(done, bits)|
      && woken == Release(before, done, bits) && toClear == ClearRequest(done, bits)
    }

    /** xEventGroupClearBits */
    method ClearBits(bitsToClear: Bits) returns (r: Bits)
      requires And(bitsToClear, CONTROL) == 0
      modifies this`bits
      ensures State() == EventSpec.ClearBits(old(State()), bitsToClear) && r == old(bits)
    {
      r := bits;
      bits := Minus(bits, bitsToClear);
    }

    /** prvTestWaitCondition */
    method TestCondition(current: Bits, waitFor: Bits, waitForAll: bool) returns (met: bool)
      ensures met <==> TestWaitCondition(current, waitFor, waitForAll)
      ensures ValidCall(Call(waitFor, false, waitForAll)) ==>
                (met <==> Satisfied(Item(Call(waitFor, false, waitForAll)), current))
    {
      hide Item, And;
      if ValidCall(Call(waitFor, false, waitForAll)) {
        ItemSplits(Call(waitFor, false, waitForAll));
      }
      met := false;
      if !waitForAll {
        if And(current, waitFor) != 0 {
          met := true;
        }
      } else if And(current, waitFor) == waitFor {
        met := true;
      }
    }

    /** xEventGroupWaitBits, up to where the task returns or blocks. */
    method WaitBits(task: Task, call: Call, block: bool) returns (answer: Answer)
      requires ValidCall(call)
      modifies this`bits, this`waiting, this`calls
      ensures Outcome(State(), answer) == EventSpec.WaitBits(old(State()), task, call, block)
    {
      hide TestWaitCondition, And, Union, Minus, Item;
      PackValue(call);
      var current := bits;
      var conditionMet := TestCondition(current, call.waitFor, call.waitForAll);
      if conditionMet {
        if call.clearOnExit {
          bits := Minus(bits, call.waitFor);
        }
        answer := Return(current);
      } else if !block {
        answer := Return(current);
      } else {
        var controlBits: Bits := 0;
        if call.clearOnExit {
          controlBits := Union(controlBits, CLEAR_ON_EXIT);
        }
        if call.waitForAll {
          controlBits := Union(controlBits, WAIT_FOR_ALL);
        }
        PlaceOnList(task, call, Union(call.waitFor, controlBits));
        answer := Block;
      }
    }

    /** xEventGroupSync, up to where the task returns or blocks. */
    method Sync(task: Task, bitsToSet: Bits, waitFor: Bits, block: bool) returns (answer: Answer)
      requires And(bitsToSet, CONTROL) == 0 && And(waitFor, CONTROL) == 0 && waitFor != 0
      modifies this`bits, this`waiting, this`woken, this`calls
      ensures Outcome(State(), answer) == EventSpec.Sync(old(State()), task, bitsToSet, waitFor, block)
    {
      hide EventSpec.SetBits, And, Minus, Union, Item;
      PackValue(Call(waitFor, true, true));
      var original := bits;
      var _ := SetBits(bitsToSet);
      if And(Union(original, bitsToSet), waitFor) == waitFor {
        answer := Return(Union(original, bitsToSet));
        bits := Minus(bits, waitFor);
      } else if block {
        PlaceOnList(task, Call(waitFor, true, true), Union(Union(waitFor, CLEAR_ON_EXIT), WAIT_FOR_ALL));
        answer := Block;
      } else {
        answer := Return(bits);
      }
    }

    /** The rest of xEventGroupWaitBits or xEventGroupSync, once a task that blocked in it runs again. */
    method Resume(task: Task) returns (answer: Answer)
      requires task in woken && task in calls
      modifies this`bits, this`woken, this`calls
      ensures Outcome(State(), answer) == EventSpec.Resume(old(State()), task)
    {
      hide TestWaitCondition, And, Minus;
      var call := calls[task];
      var value := woken[task];
      woken := woken - {task};
      calls := calls - {task};
      if And(value, UNBLOCKED) == 0 {
        value := bits;
        var met := TestCondition(value, call.waitFor, call.waitForAll);
        if met && call.clearOnExit {
          bits := Minus(bits, call.waitFor);
        }
      }
      answer := Return(Minus(value, CONTROL));
    }

    /** vEventGroupDelete */
    method Delete()
      requires !freed
      modifies this`waiting, this`woken, this`freed
      ensures State() == EventSpec.Delete(old(State())) && freed == !isStatic
    {
      while |waiting| > 0
        invariant WakeAll(woken, waiting) == old(WakeAll(woken, waiting)) && !freed
      {
        assert waiting[..0] + waiting[1..] == waiting[1..];
        RemoveFromList(0, UNBLOCKED);
      }
      if !isStatic {
        freed := true;
      }
    }
  }

  lemma NothingDone(before: map<Task, Bits>, bits: Bits)
    ensures Unsatisfied([], bits) == [] && Release(before, [], bits) == before && ClearRequest([], bits) == 0
  {
  }

  /** Where the traversal stands, and what is left if it takes the entry out or leaves it in. */
  lemma StepAt(list: seq<Waiter>, k: nat, kept: seq<Waiter>, item: Waiter)
    requires k <= |list| && |kept| < |kept + list[k..]| && item == (kept + list[k..])[|kept|]
    ensures k < |list| && item == list[k] && list[..k] + [item] == list[..k + 1]
    ensures var now := kept + list[k..];
            now == (kept + [item]) + list[k + 1..] && now[..|kept|] + now[|kept| + 1..] == kept + list[k + 1..]
  {
  }
}
