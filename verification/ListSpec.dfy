/**
 The sequence view of a kernel list: what `vListInsert`, `vListInsertEnd`, `uxListRemove` and the
 next-entry macro do to the items in list order, and to the roving index.
 The timer daemon and the co-routine scheduler are stated over this view; module IntrusiveList
 proves that the pointer code implements it.
 */
module ListSpec {

  // TickType_t and UBaseType_t are 32 bits wide in this port.
  const TICK_MODULUS: nat := 0x1_0000_0000
  type TickType = t: int | 0 <= t < TICK_MODULUS
  const PORT_MAX_DELAY: TickType := 0xFFFF_FFFF

  /** One item as its list sees it: the object that owns the item, and the item value. */
  datatype Entry = Entry(owner: nat, value: nat)

  ghost predicate Sorted(s: seq<Entry>) {
    forall i, j :: 0 <= i < j < |s| ==> s[i].value <= s[j].value
  }

  ghost predicate HasOwner(s: seq<Entry>, owner: nat) {
    exists i :: 0 <= i < |s| && s[i].owner == owner
  }

  /** Whether an item is on a list: the test of its container. */
  predicate Contains(s: seq<Entry>, owner: nat)
    ensures Contains(s, owner) <==> HasOwner(s, owner)
  {
    exists i :: 0 <= i < |s| && s[i].owner == owner
  }

  // ---------------------------------------------------------------- sorted insertion

  /** Where the search loop of vListInsert stops: in front of the first larger value. */
  function InsertPosition(s: seq<Entry>, value: nat): (p: nat)
    ensures p <= |s|
    ensures forall i :: 0 <= i < p ==> s[i].value <= value
    ensures p < |s| ==> value < s[p].value
  {
    if s == [] || value < s[0].value then 0 else 1 + InsertPosition(s[1..], value)
  }

  function Insert(s: seq<Entry>, e: Entry): seq<Entry> {
    var p := InsertPosition(s, e.value);
    s[..p] + [e] + s[p..]
  }

  /** The list after the item owned by `owner` has been removed. */
  function Without(s: seq<Entry>, owner: nat): seq<Entry> {
    if s == [] then []
    else if s[0].owner == owner then s[1..]
    else [s[0]] + Without(s[1..], owner)
  }

  lemma InsertAt(s: seq<Entry>, e: Entry)
    ensures |Insert(s, e)| == |s| + 1
    ensures forall i {:trigger Insert(s, e)[i]} :: 0 <= i <= |s| ==>
              Insert(s, e)[i] == var p := InsertPosition(s, e.value);
                                 if i < p then s[i] else if i == p then e else s[i - 1]
  {
  }

  lemma InsertMembers(s: seq<Entry>, e: Entry)
    ensures |Insert(s, e)| == |s| + 1
    ensures forall x :: x in Insert(s, e) <==> x == e || x in s
    ensures multiset(Insert(s, e)) == multiset(s) + multiset{e}
  {
    var p := InsertPosition(s, e.value);
    assert s == s[..p] + s[p..];
    forall x ensures x in Insert(s, e) <==> x == e || x in s {
      assert x in s <==> x in s[..p] || x in s[p..];
    }
  }

  lemma InsertKeepsSorted(s: seq<Entry>, e: Entry)
    requires Sorted(s)
    ensures Sorted(Insert(s, e))
  {
    var p := InsertPosition(s, e.value);
    forall i | p <= i < |s| ensures e.value < s[i].value {
      assert s[p].value <= s[i].value;
    }
  }

  /** Two positions stop at the same place when they split the values the same way. */
  lemma InsertPositionUnique(s: seq<Entry>, value: nat, p: nat)
    requires p <= |s|
    requires forall i :: 0 <= i < p ==> s[i].value <= value
    requires p < |s| ==> value < s[p].value
    ensures InsertPosition(s, value) == p
  {
  }

  lemma {:induction false} WithoutSplit(a: seq<Entry>, e: Entry, b: seq<Entry>)
    requires !HasOwner(a, e.owner)
    ensures Without(a + [e] + b, e.owner) == a + b
  {
    var s := a + [e] + b;
    if a == [] {
      assert s[1..] == b;
    } else {
      assert a[0].owner != e.owner;
      forall i | 0 <= i < |a[1..]| ensures a[1..][i].owner != e.owner {
        assert a[1..][i] == a[i + 1];
      }
      WithoutSplit(a[1..], e, b);
      assert s[1..] == a[1..] + [e] + b;
      assert a + b == [a[0]] + (a[1..] + b);
    }
  }

  /** Inserting an item and removing it again restores the list exactly. */
  lemma InsertThenRemove(s: seq<Entry>, e: Entry)
    requires !HasOwner(s, e.owner)
    ensures Without(Insert(s, e), e.owner) == s
  {
    var p := InsertPosition(s, e.value);
    WithoutSplit(s[..p], e, s[p..]);
    assert s == s[..p] + s[p..];
  }

  lemma {:induction false} WithoutAbsent(s: seq<Entry>, owner: nat)
    requires !HasOwner(s, owner)
    ensures Without(s, owner) == s
  {
    if s != [] {
      assert s[0].owner != owner;
      forall i | 0 <= i < |s[1..]| ensures s[1..][i].owner != owner {
        assert s[1..][i] == s[i + 1];
      }
      WithoutAbsent(s[1..], owner);
    }
  }

  /** Removal at a known place, when the owner occurs nowhere earlier. */
  lemma WithoutAt(s: seq<Entry>, k: nat)
    requires k < |s|
    requires forall i :: 0 <= i < k ==> s[i].owner != s[k].owner
    ensures Without(s, s[k].owner) == s[..k] + s[k + 1..]
  {
    assert s == s[..k] + [s[k]] + s[k + 1..];
    WithoutSplit(s[..k], s[k], s[k + 1..]);
  }

  // ---------------------------------------------------------------- whole runs

  datatype ListOp = OpInsert(value: nat) | OpRemove(owner: nat)

  /** The list after a run that starts from vListInitialise. The item inserted by step k has owner k. */
  function RunList(ops: seq<ListOp>): seq<Entry> {
    if ops == [] then []
    else
      var n := |ops| - 1;
      var before := RunList(ops[..n]);
      match ops[n]
      case OpInsert(value) => Insert(before, Entry(n, value))
      case OpRemove(owner) => Without(before, owner)
  }

  ghost predicate StillListed(ops: seq<ListOp>, e: Entry) {
    && e.owner < |ops|
    && ops[e.owner] == OpInsert(e.value)
    && forall k :: e.owner < k < |ops| ==> ops[k] != OpRemove(e.owner)
  }

  /** Ascending by value and, among equal values, by time of insertion. */
  ghost predicate SortedStable(s: seq<Entry>) {
    forall i, j :: 0 <= i < j < |s| ==>
      s[i].value < s[j].value || (s[i].value == s[j].value && s[i].owner < s[j].owner)
  }

  lemma CutStable(s: seq<Entry>, k: nat, t: seq<Entry>)
    requires k < |s| && SortedStable(s)
    requires t == s[..k] + s[k + 1..]
    ensures SortedStable(t)
  {
    forall i, j | 0 <= i < j < |t|
      ensures t[i].value < t[j].value || (t[i].value == t[j].value && t[i].owner < t[j].owner)
    {
      var i', j' := if i < k then i else i + 1, if j < k then j else j + 1;
      assert t[i] == s[i'] && t[j] == s[j'];
    }
  }

  ghost predicate DistinctOwners(s: seq<Entry>) {
    forall i, j :: 0 <= i < j < |s| ==> s[i].owner != s[j].owner
  }

  lemma WithoutMembers(s: seq<Entry>, owner: nat)
    requires DistinctOwners(s)
    ensures forall x :: x in Without(s, owner) <==> x in s && x.owner != owner
    ensures SortedStable(s) ==> SortedStable(Without(s, owner))
  {
    hide SortedStable, Without;
    if HasOwner(s, owner) {
      var k :| 0 <= k < |s| && s[k].owner == owner;
      WithoutAt(s, k);
      assert s == s[..k] + [s[k]] + s[k + 1..];
      if SortedStable(s) {
        CutStable(s, k, Without(s, owner));
      }
    } else {
      WithoutAbsent(s, owner);
    }
  }

  /**
   Sorted stable list, for every run of insertions and removals: the list holds exactly the items
   inserted and not removed since, ascending by value and first-in first-out among equals.
   */
  lemma {:induction false} RunSortedStable(ops: seq<ListOp>)
    ensures SortedStable(RunList(ops))
    ensures forall e :: e in RunList(ops) <==> StillListed(ops, e)
  {
    if ops != [] {
      RunSortedStable(ops[..|ops| - 1]);
      StepSortedStable(RunList(ops[..|ops| - 1]), ops);
    }
  }

  lemma StepSortedStable(before: seq<Entry>, ops: seq<ListOp>)
    requires ops != [] && before == RunList(ops[..|ops| - 1])
    requires SortedStable(before)
    requires forall e :: e in before <==> StillListed(ops[..|ops| - 1], e)
    ensures SortedStable(RunList(ops))
    ensures forall e :: e in RunList(ops) <==> StillListed(ops, e)
  {
    var n := |ops| - 1;
    OwnersAreSteps(before, ops[..n]);
    match ops[n] {
      case OpInsert(value) =>
        InsertMembers(before, Entry(n, value));
        InsertKeepsStable(before, Entry(n, value));
      case OpRemove(owner) =>
        WithoutMembers(before, owner);
    }
    forall e ensures e in RunList(ops) <==> StillListed(ops, e) {
      StillListedStep(ops, e);
    }
  }

  lemma StillListedStep(ops: seq<ListOp>, x: Entry)
    requires ops != []
    ensures var n := |ops| - 1;
            StillListed(ops, x) <==>
            match ops[n]
            case OpInsert(value) => StillListed(ops[..n], x) || x == Entry(n, value)
            case OpRemove(owner) => StillListed(ops[..n], x) && x.owner != owner
  {
    var n := |ops| - 1;
    if StillListed(ops[..n], x) && ops[n] != OpRemove(x.owner) {
      forall k | x.owner < k < |ops| ensures ops[k] != OpRemove(x.owner) {
        if k < n { assert ops[..n][k] != OpRemove(x.owner); }
      }
    }
    if StillListed(ops, x) && x.owner < n {
      assert ops[..n][x.owner] == OpInsert(x.value);
    }
  }

  lemma OwnersAreSteps(s: seq<Entry>, ops: seq<ListOp>)
    requires SortedStable(s)
    requires forall e :: e in s <==> StillListed(ops, e)
    ensures DistinctOwners(s)
    ensures forall i :: 0 <= i < |s| ==> s[i].owner < |ops|
  {
    forall i | 0 <= i < |s| ensures StillListed(ops, s[i]) {
      assert s[i] in s;
    }
  }

  lemma InsertKeepsStable(s: seq<Entry>, e: Entry)
    requires SortedStable(s)
    requires forall i :: 0 <= i < |s| ==> s[i].owner < e.owner
    ensures SortedStable(Insert(s, e))
  {
    hide Insert;
    InsertAt(s, e);
    var p := InsertPosition(s, e.value);
    forall i | p <= i < |s| ensures e.value < s[i].value {
      assert s[p].value <= s[i].value;
    }
  }

  // ---------------------------------------------------------------- the roving index

  /**
   The cursor stands for `pxIndex`: 0 is the end marker, k > 0 is the k-th item.
   Moving it once skips the end marker.
   */
  function NextCursor(count: nat, cursor: nat): (c: nat)
    requires 0 < count && cursor <= count
    ensures 1 <= c <= count
  {
    if cursor == count then 1 else cursor + 1
  }

  /** The items in the order in which repeated next-entry calls will return them. */
  function VisitOrder<T>(items: seq<T>, cursor: nat): seq<T>
    requires cursor <= |items|
  {
    items[cursor..] + items[..cursor]
  }

  /** What |calls| next-entry calls in a row return. */
  function Visited<T>(items: seq<T>, cursor: nat, calls: nat): seq<T>
    requires items != [] && cursor <= |items|
    decreases calls
  {
    if calls == 0 then []
    else
      var c := NextCursor(|items|, cursor);
      [items[c - 1]] + Visited(items, c, calls - 1)
  }

  lemma NextRotates<T>(items: seq<T>, cursor: nat)
    requires items != [] && cursor <= |items|
    ensures var c := NextCursor(|items|, cursor);
            var order := VisitOrder(items, cursor);
            items[c - 1] == order[0] && VisitOrder(items, c) == order[1..] + [order[0]]
  {
    var order := VisitOrder(items, cursor);
    var c := NextCursor(|items|, cursor);
    assert VisitOrder(items, c) == order[1..] + [order[0]];
  }

  lemma {:induction false} VisitedPrefix<T>(items: seq<T>, cursor: nat, calls: nat)
    requires items != [] && cursor <= |items| && calls <= |items|
    ensures Visited(items, cursor, calls) == VisitOrder(items, cursor)[..calls]
    decreases calls
  {
    if calls != 0 {
      var c := NextCursor(|items|, cursor);
      var order := VisitOrder(items, cursor);
      NextRotates(items, cursor);
      VisitedPrefix(items, c, calls - 1);
      assert VisitOrder(items, c)[..calls - 1] == order[1..calls];
      assert order[..calls] == [order[0]] + order[1..calls];
    }
  }

  /** Round-robin fairness: as many calls as there are items return every item exactly once. */
  lemma RoundRobin<T>(items: seq<T>, cursor: nat)
    requires items != [] && cursor <= |items|
    ensures Visited(items, cursor, |items|) == VisitOrder(items, cursor)
    ensures multiset(Visited(items, cursor, |items|)) == multiset(items)
  {
    VisitedPrefix(items, cursor, |items|);
    var order := VisitOrder(items, cursor);
    assert order[..|items|] == order;
    assert items == items[..cursor] + items[cursor..];
  }

  /** vListInsertEnd: the new item goes immediately in front of the indexed node. */
  function EndPosition(count: nat, cursor: nat): nat
    requires cursor <= count
  {
    if cursor == 0 then count else cursor - 1
  }

  function InsertEnd<T>(items: seq<T>, cursor: nat, x: T): seq<T>
    requires cursor <= |items|
  {
    var p := EndPosition(|items|, cursor);
    items[..p] + [x] + items[p..]
  }

  function InsertEndCursor(cursor: nat): nat {
    if cursor == 0 then 0 else cursor + 1
  }

  /** A new item is visited after every other item, except the one the index stands on. */
  lemma InsertEndIsVisitedLast<T>(items: seq<T>, cursor: nat, x: T)
    requires cursor <= |items|
    ensures InsertEndCursor(cursor) <= |InsertEnd(items, cursor, x)|
    ensures var order := VisitOrder(items, cursor);
            VisitOrder(InsertEnd(items, cursor, x), InsertEndCursor(cursor))
            == if cursor == 0 then order + [x]
               else order[..|order| - 1] + [x, items[cursor - 1]]
  {
    var after := InsertEnd(items, cursor, x);
    var order := VisitOrder(items, cursor);
    if cursor != 0 {
      assert after[cursor + 1..] == items[cursor..];
      assert after[..cursor + 1] == items[..cursor - 1] + [x, items[cursor - 1]];
      assert order[..|order| - 1] == items[cursor..] + items[..cursor - 1];
    }
  }

  function RemoveAt<T>(items: seq<T>, k: nat): seq<T>
    requires k < |items|
  {
    items[..k] + items[k + 1..]
  }

  /** The index steps back when it stood on, or behind, the removed item. */
  function RemoveCursor(cursor: nat, k: nat): nat {
    if cursor > k then cursor - 1 else cursor
  }

  /** Removing any item, even the indexed one, leaves the visiting order of the others alone. */
  lemma RemoveKeepsVisitOrder<T>(items: seq<T>, cursor: nat, k: nat)
    requires cursor <= |items| && k < |items|
    ensures RemoveCursor(cursor, k) <= |RemoveAt(items, k)|
    ensures var order := VisitOrder(items, cursor);
            var p := if k < cursor then |items| - cursor + k else k - cursor;
            && order[p] == items[k]
            && VisitOrder(RemoveAt(items, k), RemoveCursor(cursor, k)) == RemoveAt(order, p)
  {
    var order, rest := VisitOrder(items, cursor), RemoveAt(items, k);
    var c := RemoveCursor(cursor, k);
    if k < cursor {
      assert rest[c..] == items[cursor..];
      assert rest[..c] == items[..k] + items[k + 1..cursor];
      assert order[..|items| - cursor + k] == items[cursor..] + items[..k];
      assert order[|items| - cursor + k + 1..] == items[k + 1..cursor];
    } else {
      assert rest[c..] == items[cursor..k] + items[k + 1..];
      assert rest[..c] == items[..cursor];
      assert order[..k - cursor] == items[cursor..k];
      assert order[k - cursor + 1..] == items[k + 1..] + items[..cursor];
    }
  }
}
