/**
 The kernel's intrusive list over heap objects: a circular doubly linked ring through an end marker,
 with a roving index. Every operation is proved against the sequence functions of ListSpec.
 */
module IntrusiveList {
  import opened ListSpec

  class ListItem {
    var value: TickType
    var next: ListItem?
    var previous: ListItem?
    var owner: nat
    var container: List?

    /** vListInitialiseItem: a new item is on no list. */
    constructor (owner: nat)
      ensures container == null && this.owner == owner
    {
      value, next, previous, container := 0, null, null, null;
      this.owner := owner;
    }
  }

  ghost predicate Apart(x: ListItem, y: ListItem) {
    x != y
  }

  ghost predicate Distinct(ring: seq<ListItem>) {
    forall j, k {:trigger Apart(ring[j], ring[k])} :: 0 <= j < k < |ring| ==> Apart(ring[j], ring[k])
  }

  /** Node k occurs nowhere else. */
  lemma NodeOnce(ring: seq<ListItem>, k: nat)
    requires Distinct(ring) && k < |ring|
    ensures forall j :: 0 <= j < |ring| && j != k ==> ring[j] != ring[k]
  {
    forall j | 0 <= j < |ring| && j != k ensures ring[j] != ring[k] {
      assert if j < k then Apart(ring[j], ring[k]) else Apart(ring[k], ring[j]);
    }
  }

  /** Node k is the successor of no other node but its predecessor. */
  lemma SuccessorOnce(ring: seq<ListItem>, k: nat)
    requires Distinct(ring) && k < |ring|
    ensures forall j {:trigger After(ring, j)} :: 0 <= j < |ring| && j != k ==> After(ring, j) != After(ring, k)
  {
    NodeOnce(ring, if k + 1 == |ring| then 0 else k + 1);
  }

  /** What the items hold. */
  ghost predicate Holds(items: seq<ListItem>, entries: seq<Entry>)
    reads items`owner, items`value
  {
    && |items| == |entries|
    && forall k :: 0 <= k < |items| ==> entries[k] == Entry(items[k].owner, items[k].value)
  }

  /** The node behind node k. */
  ghost function After(ring: seq<ListItem>, k: nat): ListItem
    requires k < |ring|
  {
    if k + 1 == |ring| then ring[0] else ring[k + 1]
  }

  ghost predicate Linked(ring: seq<ListItem>)
    reads ring`next, ring`previous
  {
    && (forall k {:trigger After(ring, k)} :: 0 <= k < |ring| ==> ring[k].next == After(ring, k))
    && (forall k {:trigger After(ring, k)} :: 0 <= k < |ring| ==> After(ring, k).previous == ring[k])
  }

  lemma DistinctSplice(ring: seq<ListItem>, p: nat, item: ListItem, now: seq<ListItem>)
    requires Distinct(ring) && p < |ring| && item !in ring
    requires now == ring[..p + 1] + [item] + ring[p + 1..]
    ensures Distinct(now)
  {
    forall j, k | 0 <= j < k < |now| ensures Apart(now[j], now[k]) {
      var j', k' := if j <= p then j else j - 1, if k <= p then k else k - 1;
      assert j' < k' ==> Apart(ring[j'], ring[k']);
    }
  }

  lemma DistinctCut(ring: seq<ListItem>, p: nat, now: seq<ListItem>)
    requires Distinct(ring) && p < |ring| && now == ring[..p] + ring[p + 1..]
    ensures Distinct(now)
  {
    forall j, k | 0 <= j < k < |now| ensures Apart(now[j], now[k]) {
      assert Apart(ring[if j < p then j else j + 1], ring[if k < p then k else k + 1]);
    }
  }

  /** The links of a ring whose node p has just got a new successor. */
  ghost predicate SplicedBehind(ring: seq<ListItem>, p: nat, item: ListItem)
    requires p < |ring|
    reads ring`next, ring`previous, item`next, item`previous
  {
    && item.next == After(ring, p) && item.previous == ring[p]
    && (forall k {:trigger After(ring, k)} :: 0 <= k < |ring| ==>
          ring[k].next == if k == p then item else After(ring, k))
    && (forall k {:trigger After(ring, k)} :: 0 <= k < |ring| ==>
          After(ring, k).previous == if k == p then item else ring[k])
  }

  /** The links of a ring whose node p has just been bypassed. */
  ghost predicate Bypassed(ring: seq<ListItem>, p: nat)
    requires 0 < p < |ring|
    reads ring`next, ring`previous
  {
    && (forall k {:trigger After(ring, k)} :: 0 <= k < |ring| && k != p ==>
          ring[k].next == if k == p - 1 then After(ring, p) else After(ring, k))
    && (forall k {:trigger After(ring, k)} :: 0 <= k < |ring| && k != p - 1 ==>
          After(ring, k).previous == if k == p then ring[p - 1] else ring[k])
  }

  lemma LinkedSplice(ring: seq<ListItem>, p: nat, item: ListItem, now: seq<ListItem>)
    requires p < |ring| && now == ring[..p + 1] + [item] + ring[p + 1..]
    requires SplicedBehind(ring, p, item)
    ensures Linked(now)
  {
    forall k {:trigger After(now, k)} | 0 <= k < |now|
      ensures now[k].next == After(now, k) && After(now, k).previous == now[k]
    {
      if k <= p {
        assert now[k] == ring[k] && (k < p ==> After(now, k) == After(ring, k));
        assert After(ring, p) == item.next;
      } else if k > p + 1 {
        assert now[k] == ring[k - 1] && After(now, k) == After(ring, k - 1);
      }
    }
  }

  lemma LinkedCut(ring: seq<ListItem>, p: nat, now: seq<ListItem>)
    requires 0 < p < |ring| && now == ring[..p] + ring[p + 1..]
    requires Bypassed(ring, p)
    ensures Linked(now)
  {
    forall k {:trigger After(now, k)} | 0 <= k < |now|
      ensures now[k].next == After(now, k) && After(now, k).previous == now[k]
    {
      if k == p - 1 {
        assert now[k] == ring[k] && After(now, k) == After(ring, p) && After(ring, k) == ring[p];
      } else {
        var k' := if k < p then k else k + 1;
        assert now[k] == ring[k'] && After(now, k) == After(ring, k');
      }
    }
  }

  lemma ConsSplice<T>(x: T, s: seq<T>, p: nat, y: T)
    requires p <= |s|
    ensures [x] + (s[..p] + [y] + s[p..]) == ([x] + s)[..p + 1] + [y] + ([x] + s)[p + 1..]
  {
  }

  lemma ConsCut<T>(x: T, s: seq<T>, p: nat)
    requires p < |s|
    ensures [x] + RemoveAt(s, p) == ([x] + s)[..p + 1] + ([x] + s)[p + 2..]
  {
  }

  class List {
    var numberOfItems: nat
    var index: ListItem
    const listEnd: ListItem
    ghost var items: seq<ListItem>
    ghost var entries: seq<Entry>  // what the items say: owner and value

    ghost var ring: seq<ListItem>  // node 0 is the end marker, node k is the k-th item

    ghost predicate Valid()
      reads this, ring, items
    {
      && ring == [listEnd] + items
      && numberOfItems == |items|
      && Distinct(ring)
      && Linked(ring)
      && Holds(items, entries)
      && ring[0].value == PORT_MAX_DELAY
      && index in ring
      && (forall k :: 0 <= k < |items| ==> items[k].container == this)
    }

    /** Where the index stands: 0 for the end marker, k for the k-th item. */
    ghost function Cursor(): (c: nat)
      requires Valid()
      reads this, ring, items
      ensures c <= |items| && ring[c] == index
    {
      var c :| 0 <= c < |ring| && ring[c] == index;
      c
    }

    /** vListInitialise */
    constructor ()
      ensures Valid() && items == [] && entries == [] && Cursor() == 0
      ensures fresh(listEnd)
    {
      listEnd := new ListItem(0);
      index := listEnd;
      numberOfItems := 0;
      items := [];
      ring := [listEnd];
      entries := [];
      new;
      listEnd.value := PORT_MAX_DELAY;
      listEnd.next := listEnd;
      listEnd.previous := listEnd;
    }

    lemma Neighbours(k: nat)
      requires Valid() && k < |ring|
      ensures ring[k].next == After(ring, k)
      ensures ring[k].previous == ring[if k == 0 then |ring| - 1 else k - 1]
      ensures k > 0 ==> ring[k] == items[k - 1]
    {
      var j := if k == 0 then |ring| - 1 else k - 1;
      assert After(ring, j) == ring[k];
    }

    lemma CursorAt(c: nat)
      requires Valid() && c < |ring| && ring[c] == index
      ensures Cursor() == c
    {
      NodeOnce(ring, c);
    }

    lemma ItemOnce(k: nat)
      requires Valid() && k < |items|
      ensures forall j :: 0 <= j < |items| && j != k ==> items[j] != items[k]
    {
      forall j | 0 <= j < |items| && j != k ensures items[j] != items[k] {
        assert items[j] == ring[j + 1] && items[k] == ring[k + 1];
        NodeOnce(ring, k + 1);
      }
    }

    /** The search of vListInsert: the node behind which a value belongs. */
    method FindInsertionPoint(value: TickType) returns (walker: ListItem, ghost p: nat)
      requires Valid()
      ensures p == InsertPosition(entries, value) && walker == ring[InsertPosition(entries, value)]
    {
      p := 0;
      walker := listEnd;
      if value == PORT_MAX_DELAY {
        Neighbours(0);
        walker := listEnd.previous;
        p := |items|;
      } else {
        Neighbours(0);
        while walker.next.value <= value
          invariant p <= |items| && walker == ring[p] && walker.next == After(ring, p)
          invariant forall i :: 0 <= i < p ==> entries[i].value <= value
          decreases |items| - p
        {
          walker := walker.next;
          p := p + 1;
          assert entries[p - 1] == Entry(ring[p].owner, ring[p].value);
          Neighbours(p);
        }
      }
      assert p < |items| ==> After(ring, p).value == entries[p].value;
      InsertPositionUnique(entries, value, p);
    }

    /** The four link assignments of an insertion between two neighbours. */
    method LinkBetween(previous: ListItem, item: ListItem, next: ListItem, ghost p: nat)
      requires Valid() && p < |ring| && item !in ring && previous == ring[p] && next == After(ring, p)
      modifies previous`next, next`previous, item`next, item`previous
      ensures SplicedBehind(ring, p, item)
    {
      NodeOnce(ring, p);
      SuccessorOnce(ring, p);
      item.next := next;
      next.previous := item;
      item.previous := previous;
      previous.next := item;
    }

    /** The link assignments of a removal, and the step back of an index left on the removed node. */
    method Unlink(item: ListItem, ghost k: nat)
      requires Valid() && k < |items| && items[k] == item
      modifies ring`next, ring`previous, this`index
      ensures Bypassed(ring, k + 1)
      ensures item == ring[k + 1]
      ensures var r := RemoveCursor(old(Cursor()), k);
              r < |ring| - 1 && index == ring[if r <= k then r else r + 1] && index != item
    {
      Neighbours(k + 1);
      NodeOnce(ring, k);
      NodeOnce(ring, k + 1);
      SuccessorOnce(ring, k);
      SuccessorOnce(ring, k + 1);
      item.next.previous := item.previous;
      item.previous.next := item.next;
      if index == item {
        index := item.previous;
      }
    }

    ghost predicate Framed()
      reads this, ring, items
    {
      && ring == [listEnd] + items
      && Distinct(ring)
      && Holds(items, entries)
      && ring[0].value == PORT_MAX_DELAY
      && index in ring
      && (forall k :: 0 <= k < |items| ==> items[k].container == this)
    }

    /** Takes a linked-in item into the ghost view. */
    ghost method Splice(p: nat, item: ListItem)
      requires Framed() && item !in ring && p <= |items| && SplicedBehind(ring, p, item)
      requires item.container == this && numberOfItems == |items| + 1
      modifies this`items, this`entries, this`ring
      ensures Valid()
      ensures items == old(items)[..p] + [item] + old(items)[p..]
      ensures entries == old(entries)[..p] + [Entry(item.owner, item.value)] + old(entries)[p..]
      ensures forall k :: 0 <= k < |ring| ==>
                ring[k] == if k <= p then old(ring)[k] else if k == p + 1 then item else old(ring)[k - 1]
    {
      var was := ring;
      ConsSplice(listEnd, items, p, item);
      items := items[..p] + [item] + items[p..];
      entries := entries[..p] + [Entry(item.owner, item.value)] + entries[p..];
      ring := was[..p + 1] + [item] + was[p + 1..];
      DistinctSplice(was, p, item, ring);
      LinkedSplice(was, p, item, ring);
    }

    /** Drops a bypassed item from the ghost view. */
    ghost method Cut(k: nat)
      requires ring == [listEnd] + items && Distinct(ring) && Holds(items, entries)
      requires ring[0].value == PORT_MAX_DELAY && index in ring && k < |items| && index != items[k]
      requires forall j :: 0 <= j < |items| && j != k ==> items[j].container == this
      requires Bypassed(ring, k + 1) && numberOfItems == |items| - 1
      modifies this`items, this`entries, this`ring
      ensures Valid()
      ensures items == RemoveAt(old(items), k) && entries == RemoveAt(old(entries), k)
      ensures forall j :: 0 <= j < |ring| ==> ring[j] == old(ring)[if j <= k then j else j + 1]
    {
      var was := ring;
      ConsCut(listEnd, items, k);
      items := RemoveAt(items, k);
      entries := RemoveAt(entries, k);
      ring := was[..k + 1] + was[k + 2..];
      DistinctCut(was, k + 1, ring);
      LinkedCut(was, k + 1, ring);
    }

    /** vListInsert: the item goes in front of the first larger value, so behind all equal ones. */
    method Insert(item: ListItem)
      requires Valid() && item !in ring && item.container == null
      modifies this, ring, item
      ensures Valid()
      ensures var p := InsertPosition(old(entries), item.value);
              items == old(items)[..p] + [item] + old(items)[p..]
      ensures entries == ListSpec.Insert(old(entries), Entry(item.owner, item.value))
      ensures item.owner == old(item.owner) && item.value == old(item.value)
      ensures index == old(index)
    {
      hide Distinct, SplicedBehind, InsertPosition;
      var walker, p := FindInsertionPoint(item.value);
      Neighbours(p);
      LinkBetween(walker, item, walker.next, p);
      item.container := this;
      numberOfItems := numberOfItems + 1;
      Splice(p, item);
    }

    /** vListInsertEnd: the item goes immediately in front of the index. */
    method InsertEnd(item: ListItem)
      requires Valid() && item !in ring && item.container == null
      modifies this, ring, item
      ensures Valid()
      ensures items == ListSpec.InsertEnd(old(items), old(Cursor()), item)
      ensures entries == ListSpec.InsertEnd(old(entries), old(Cursor()), Entry(item.owner, item.value))
      ensures item.owner == old(item.owner) && item.value == old(item.value)
      ensures Cursor() == InsertEndCursor(old(Cursor()))
    {
      hide Distinct, SplicedBehind;
      ghost var c := Cursor();
      ghost var p := EndPosition(|items|, c);
      Neighbours(c);
      LinkBetween(index.previous, item, index, p);
      item.container := this;
      numberOfItems := numberOfItems + 1;
      Splice(p, item);
      CursorAt(InsertEndCursor(c));
    }

    /** uxListRemove, called on the list recorded in the item. */
    method Remove(item: ListItem) returns (remaining: nat, ghost k: nat)
      requires Valid() && item in items
      modifies this, ring
      ensures Valid() && item.container == null
      ensures k < |old(items)| && old(items)[k] == item
      ensures items == RemoveAt(old(items), k) && entries == RemoveAt(old(entries), k)
      ensures Cursor() == RemoveCursor(old(Cursor()), k)
      ensures remaining == |items|
      ensures item.owner == old(item.owner) && item.value == old(item.value)
    {
      hide Distinct, Linked, Bypassed, RemoveAt, RemoveCursor;
      k :| 0 <= k < |items| && items[k] == item;
      ghost var c := Cursor();
      ItemOnce(k);
      Unlink(item, k);
      item.container := null;
      numberOfItems := numberOfItems - 1;
      Cut(k);
      CursorAt(RemoveCursor(c, k));
      remaining := numberOfItems;
    }

    /** listGET_OWNER_OF_NEXT_ENTRY */
    method OwnerOfNextEntry() returns (owner: nat)
      requires Valid() && items != []
      modifies this`index
      ensures Valid()
      ensures Cursor() == NextCursor(|items|, old(Cursor()))
      ensures owner == entries[Cursor() - 1].owner
    {
      ghost var c := Cursor();
      Neighbours(c);
      Neighbours(0);
      NodeOnce(ring, 0);
      index := index.next;
      if index == listEnd {
        index := index.next;
      }
      CursorAt(NextCursor(|items|, c));
      owner := index.owner;
    }
  }
}
