/**
 The two-list idea that the timer daemon and the co-routine scheduler share: one list ordered by true
 time is kept as two lists of wrapped tick values, one for the present turn of the tick count and one for
 the next.
 */
module TwoLists {
  import opened ListSpec

  /** How often the tick count has wrapped, and what it reads, at a true time. */
  function Epoch(time: nat): nat {
    time / TICK_MODULUS
  }

  function Tick(time: nat): TickType {
    time % TICK_MODULUS
  }

  lemma TickParts(time: nat)
    ensures time == Epoch(time) * 0x1_0000_0000 + Tick(time)
  {
  }

  /** The list holds these items, with the wrapped values of their true times. */
  ghost predicate Wrapped(list: seq<Entry>, true_: seq<Entry>) {
    && |list| == |true_|
    && forall i :: 0 <= i < |list| ==> list[i] == Entry(true_[i].owner, Tick(true_[i].value))
  }

  ghost predicate AllIn(true_: seq<Entry>, epoch: nat) {
    forall i :: 0 <= i < |true_| ==> Epoch(true_[i].value) == epoch
  }

  /** The current list holds the items of this epoch, the overflow list those of the next. */
  ghost predicate Lists(current: seq<Entry>, overflow: seq<Entry>, pending: seq<Entry>, epoch: nat) {
    && |pending| == |current| + |overflow|
    && Wrapped(current, pending[..|current|]) && AllIn(pending[..|current|], epoch)
    && Wrapped(overflow, pending[|current|..]) && AllIn(pending[|current|..], epoch + 1)
  }

  lemma SameEpochOrder(v: nat, w: nat)
    requires Epoch(v) == Epoch(w)
    ensures v <= w <==> Tick(v) <= Tick(w)
  {
    TickParts(v);
    TickParts(w);
  }

  lemma LaterEpoch(v: nat, w: nat)
    requires Epoch(v) < Epoch(w)
    ensures v < w
  {
  }

  lemma WrappedPosition(list: seq<Entry>, true_: seq<Entry>, value: nat)
    requires Wrapped(list, true_) && AllIn(true_, Epoch(value))
    ensures InsertPosition(list, Tick(value)) == InsertPosition(true_, value)
  {
    hide Epoch, Tick;
    var p := InsertPosition(true_, value);
    forall i | 0 <= i < |true_|
      ensures true_[i].value <= value <==> list[i].value <= Tick(value)
    {
      SameEpochOrder(true_[i].value, value);
    }
    InsertPositionUnique(list, Tick(value), p);
  }

  lemma WrappedInsert(list: seq<Entry>, true_: seq<Entry>, e: Entry)
    requires Wrapped(list, true_) && AllIn(true_, Epoch(e.value))
    ensures Wrapped(Insert(list, Entry(e.owner, Tick(e.value))), Insert(true_, e))
    ensures AllIn(Insert(true_, e), Epoch(e.value))
  {
    hide Insert, Epoch, Tick;
    WrappedPosition(list, true_, e.value);
    InsertAt(list, Entry(e.owner, Tick(e.value)));
    InsertAt(true_, e);
  }

  lemma InsertLow(s: seq<Entry>, t: seq<Entry>, e: Entry)
    requires forall i :: 0 <= i < |t| ==> e.value < t[i].value
    ensures Insert(s + t, e) == Insert(s, e) + t
  {
    InsertPositionUnique(s + t, e.value, InsertPosition(s, e.value));
  }

  lemma InsertHigh(s: seq<Entry>, t: seq<Entry>, e: Entry)
    requires forall i :: 0 <= i < |s| ==> s[i].value <= e.value
    ensures Insert(s + t, e) == s + Insert(t, e)
  {
    var p := InsertPosition(t, e.value);
    forall i | 0 <= i < |s| + p ensures (s + t)[i].value <= e.value {
      if i >= |s| { assert (s + t)[i] == t[i - |s|]; }
    }
    InsertPositionUnique(s + t, e.value, |s| + p);
    assert (s + t)[..|s| + p] == s + t[..p] && (s + t)[|s| + p..] == t[p..];
  }

  lemma {:induction false} WrappedWithout(list: seq<Entry>, true_: seq<Entry>, owner: nat)
    requires Wrapped(list, true_)
    ensures Wrapped(Without(list, owner), Without(true_, owner))
    ensures HasOwner(list, owner) <==> HasOwner(true_, owner)
  {
    if list != [] {
      WrappedWithout(list[1..], true_[1..], owner);
      OwnerFromTail(list, owner);
      OwnerFromTail(true_, owner);
    }
  }

  lemma OwnerFromTail(s: seq<Entry>, owner: nat)
    requires s != []
    ensures HasOwner(s, owner) <==> s[0].owner == owner || HasOwner(s[1..], owner)
  {
    if i :| 0 <= i < |s[1..]| && s[1..][i].owner == owner { assert s[i + 1].owner == owner; }
    if i :| 0 <= i < |s| && s[i].owner == owner { assert i > 0 ==> s[1..][i - 1].owner == owner; }
  }

  lemma NobodyOwns(owner: nat)
    ensures !HasOwner([], owner)
  {
  }

  lemma {:induction false} WithoutConcat(s: seq<Entry>, t: seq<Entry>, owner: nat)
    ensures Without(s + t, owner) == if HasOwner(s, owner) then Without(s, owner) + t else s + Without(t, owner)
  {
    hide HasOwner;
    if s == [] {
      assert s + t == t;
      NobodyOwns(owner);
    } else {
      assert (s + t)[1..] == s[1..] + t;
      OwnerFromTail(s, owner);
      WithoutConcat(s[1..], t, owner);
    }
  }

  lemma {:induction false} WithoutIn(s: seq<Entry>, owner: nat, epoch: nat)
    requires AllIn(s, epoch)
    ensures AllIn(Without(s, owner), epoch)
  {
    if s != [] && s[0].owner != owner {
      WithoutIn(s[1..], owner, epoch);
    }
  }

  lemma Concat(s: seq<Entry>, t: seq<Entry>)
    ensures (s + t)[..|s|] == s && (s + t)[|s|..] == t
  {
  }

  /** Inserting a time of this epoch into the current list. */
  lemma ListsInsertCurrent(current: seq<Entry>, overflow: seq<Entry>, pending: seq<Entry>, e: Entry)
    requires Lists(current, overflow, pending, Epoch(e.value))
    ensures Lists(Insert(current, Entry(e.owner, Tick(e.value))), overflow, Insert(pending, e), Epoch(e.value))
  {
    hide Epoch, Insert;
    var p1, p2 := pending[..|current|], pending[|current|..];
    WrappedInsert(current, p1, e);
    InsertMembers(p1, e);
    forall i | 0 <= i < |p2| ensures e.value < p2[i].value { LaterEpoch(e.value, p2[i].value); }
    InsertLow(p1, p2, e);
    assert pending == p1 + p2;
    Concat(Insert(p1, e), p2);
  }

  /** Inserting a time of the next epoch into the overflow list. */
  lemma ListsInsertOverflow(current: seq<Entry>, overflow: seq<Entry>, pending: seq<Entry>, e: Entry, epoch: nat)
    requires Lists(current, overflow, pending, epoch) && Epoch(e.value) == epoch + 1
    ensures Lists(current, Insert(overflow, Entry(e.owner, Tick(e.value))), Insert(pending, e), epoch)
  {
    hide Epoch, Insert;
    var p1, p2 := pending[..|current|], pending[|current|..];
    WrappedInsert(overflow, p2, e);
    InsertMembers(p2, e);
    forall i | 0 <= i < |p1| ensures p1[i].value <= e.value { LaterEpoch(p1[i].value, e.value); }
    InsertHigh(p1, p2, e);
    assert pending == p1 + p2;
    Concat(p1, Insert(p2, e));
  }

  /** Taking an item off whichever list it is on. */
  lemma ListsRemove(current: seq<Entry>, overflow: seq<Entry>, pending: seq<Entry>, owner: nat, epoch: nat)
    requires Lists(current, overflow, pending, epoch)
    ensures Lists(if HasOwner(current, owner) then Without(current, owner) else current,
                  if HasOwner(current, owner) then overflow else Without(overflow, owner),
                  Without(pending, owner), epoch)
  {
    hide Epoch, Without;
    var p1, p2 := pending[..|current|], pending[|current|..];
    WrappedWithout(current, p1, owner);
    WrappedWithout(overflow, p2, owner);
    WithoutIn(p1, owner, epoch);
    WithoutIn(p2, owner, epoch + 1);
    assert pending == p1 + p2;
    WithoutConcat(p1, p2, owner);
    Concat(Without(p1, owner), p2);
    Concat(p1, Without(p2, owner));
  }

  /** Taking the first item off the current list. */
  lemma ListsPop(current: seq<Entry>, overflow: seq<Entry>, pending: seq<Entry>, epoch: nat)
    requires Lists(current, overflow, pending, epoch) && current != []
    ensures pending != [] && current[0] == Entry(pending[0].owner, Tick(pending[0].value))
    ensures Epoch(pending[0].value) == epoch
    ensures Lists(current[1..], overflow, pending[1..], epoch)
  {
    assert pending[1..][..|current| - 1] == pending[..|current|][1..];
    assert pending[1..][|current| - 1..] == pending[|current|..];
    assert pending[0] == pending[..|current|][0];
  }

  /** With the current list empty, switching the lists moves on to the next epoch. */
  lemma ListsSwitch(overflow: seq<Entry>, pending: seq<Entry>, epoch: nat)
    requires Lists([], overflow, pending, epoch)
    ensures Lists(overflow, [], pending, epoch + 1)
    ensures pending != [] ==> Epoch(pending[0].value) == epoch + 1
  {
    assert pending[..|overflow|] == pending == pending[0..];
    if pending != [] { assert pending[0] == pending[0..][0]; }
  }
}
