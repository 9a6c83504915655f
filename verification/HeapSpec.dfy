/**
 What the heap_4 allocator promises, over intervals of addresses: the free list is the list of
 maximal free intervals, so it is determined by which addresses are free.
 */
module HeapSpec {

  const SIZE_MODULUS: nat := 0x1_0000_0000   // size_t is 32 bits wide
  const ALLOCATED_BIT: nat := 0x8000_0000
  const ALIGNMENT: nat := 8
  const HEADER_SIZE: nat := 8
  const MINIMUM_BLOCK_SIZE: nat := 16

  datatype Block = Block(addr: nat, size: nat) {
    function End(): nat { addr + size }

    ghost predicate Has(a: nat) { addr <= a < addr + size }

    predicate Aligned() { addr % ALIGNMENT == 0 && size % ALIGNMENT == 0 && 0 < size }
  }

  ghost predicate Covers(blocks: seq<Block>, a: nat) {
    exists i :: 0 <= i < |blocks| && blocks[i].Has(a)
  }

  /** Ascending, and with a gap behind every block: no two free blocks touch. */
  ghost predicate Canonical(free: seq<Block>) {
    && (forall i :: 0 <= i < |free| ==> 0 < free[i].size)
    && (forall i, j :: 0 <= i < j < |free| ==> free[i].End() < free[j].addr)
  }

  ghost predicate AllAligned(blocks: seq<Block>) {
    forall i :: 0 <= i < |blocks| ==> blocks[i].Aligned()
  }

  function Total(blocks: seq<Block>): nat {
    if blocks == [] then 0 else blocks[0].size + Total(blocks[1..])
  }

  // ---------------------------------------------------------------- canonicity

  lemma FirstBlock(f: seq<Block>, g: seq<Block>)
    requires Canonical(f) && Canonical(g) && f != [] && g != []
    requires forall a: nat :: Covers(f, a) <==> Covers(g, a)
    ensures f[0] == g[0]
  {
    assert f[0].Has(f[0].addr) && g[0].Has(g[0].addr);
    assert Covers(g, f[0].addr) && Covers(f, g[0].addr);
    FirstBlockEnd(f, g);
    FirstBlockEnd(g, f);
  }

  lemma FirstBlockEnd(f: seq<Block>, g: seq<Block>)
    requires Canonical(f) && Canonical(g) && f != [] && g != []
    requires f[0].addr == g[0].addr
    requires forall a: nat :: Covers(f, a) <==> Covers(g, a)
    ensures f[0].End() <= g[0].End()
  {
    assert !Covers(g, g[0].End());
    if g[0].End() < f[0].End() {
      assert f[0].Has(g[0].End());
    }
  }

  lemma TailCovers(f: seq<Block>, a: nat)
    requires Canonical(f) && f != []
    ensures Canonical(f[1..])
    ensures Covers(f[1..], a) <==> Covers(f, a) && f[0].End() <= a
  {
    if Covers(f, a) && f[0].End() <= a {
      var i :| 0 <= i < |f| && f[i].Has(a);
      assert f[1..][i - 1].Has(a);
    }
    if Covers(f[1..], a) {
      var i :| 0 <= i < |f[1..]| && f[1..][i].Has(a);
      assert f[i + 1].Has(a);
    }
  }

  /** The free addresses determine the free list. */
  lemma {:induction false} CanonicalUnique(f: seq<Block>, g: seq<Block>)
    requires Canonical(f) && Canonical(g)
    requires forall a: nat :: Covers(f, a) <==> Covers(g, a)
    ensures f == g
  {
    if f == [] || g == [] {
      if f != [] { assert f[0].Has(f[0].addr); assert Covers(f, f[0].addr); }
      if g != [] { assert g[0].Has(g[0].addr); assert Covers(g, g[0].addr); }
    } else {
      FirstBlock(f, g);
      forall a: nat ensures Covers(f[1..], a) <==> Covers(g[1..], a) {
        TailCovers(f, a);
        TailCovers(g, a);
      }
      TailCovers(f, 0);
      TailCovers(g, 0);
      CanonicalUnique(f[1..], g[1..]);
    }
  }

  // ---------------------------------------------------------------- totals

  lemma {:induction false} TotalConcat(s: seq<Block>, t: seq<Block>)
    ensures Total(s + t) == Total(s) + Total(t)
  {
    if s == [] {
      assert s + t == t;
    } else {
      TotalConcat(s[1..], t);
      assert (s + t)[1..] == s[1..] + t;
    }
  }

  lemma TotalSplit(s: seq<Block>, k: nat)
    requires k < |s|
    ensures Total(s) == Total(s[..k]) + s[k].size + Total(s[k + 1..])
    ensures Total(s[..k] + s[k + 1..]) == Total(s) - s[k].size
    ensures s[k].size <= Total(s)
  {
    assert s == s[..k] + s[k..];
    TotalConcat(s[..k], s[k..]);
    TotalConcat(s[..k], s[k + 1..]);
  }

  // ---------------------------------------------------------------- insertion with coalescing

  /** Index of the first free block above the address. */
  function Position(free: seq<Block>, addr: nat): (k: nat)
    ensures k <= |free|
    ensures forall i :: 0 <= i < k ==> free[i].addr < addr
    ensures k < |free| ==> addr <= free[k].addr
  {
    if free == [] || addr <= free[0].addr then 0 else 1 + Position(free[1..], addr)
  }

  /** The neighbours that the block touches are free[First..Last]. */
  function First(free: seq<Block>, b: Block): nat {
    var k := Position(free, b.addr);
    if 0 < k && free[k - 1].End() == b.addr then k - 1 else k
  }

  function Last(free: seq<Block>, b: Block): nat {
    var k := Position(free, b.addr);
    if k < |free| && b.End() == free[k].addr then k + 1 else k
  }

  /** The block together with the neighbours that it touches. */
  function Joined(free: seq<Block>, b: Block): Block {
    var k := Position(free, b.addr);
    var before := if First(free, b) < k then free[k - 1].size else 0;
    var after := if k < Last(free, b) then free[k].size else 0;
    Block(if First(free, b) < k then free[k - 1].addr else b.addr, before + b.size + after)
  }

  /** prvInsertBlockIntoFreeList: the block joins its neighbours where it touches them. */
  function InsertFree(free: seq<Block>, b: Block): seq<Block> {
    free[..First(free, b)] + [Joined(free, b)] + free[Last(free, b)..]
  }

  /** No address of the block is free. */
  ghost predicate Apart(free: seq<Block>, b: Block) {
    forall i :: 0 <= i < |free| ==> free[i].End() <= b.addr || b.End() <= free[i].addr
  }

  /** How t comes from s: s[lo..hi] has become the one element x. */
  ghost predicate Spliced<T>(s: seq<T>, lo: nat, x: T, hi: nat, t: seq<T>) {
    && lo <= hi <= |s| && |t| == |s| + 1 + lo - hi
    && forall i {:trigger t[i]} :: 0 <= i < |t| ==>
         t[i] == if i < lo then s[i] else if i == lo then x else s[i - lo - 1 + hi]
  }

  lemma SpliceAt<T>(s: seq<T>, lo: nat, x: T, hi: nat, t: seq<T>)
    requires lo <= hi <= |s| && t == s[..lo] + [x] + s[hi..]
    ensures Spliced(s, lo, x, hi, t)
  {
  }

  lemma InsertShape(free: seq<Block>, b: Block)
    ensures Spliced(free, First(free, b), Joined(free, b), Last(free, b), InsertFree(free, b))
    ensures var k := Position(free, b.addr);
            k - 1 <= First(free, b) <= k <= Last(free, b) <= k + 1
    ensures Joined(free, b).addr ==
            if First(free, b) < Position(free, b.addr) then free[First(free, b)].addr else b.addr
  {
    SpliceAt(free, First(free, b), Joined(free, b), Last(free, b), InsertFree(free, b));
  }

  lemma SpliceCanonical(s: seq<Block>, lo: nat, x: Block, hi: nat, t: seq<Block>)
    requires Canonical(s) && lo <= hi <= |s| && t == s[..lo] + [x] + s[hi..] && 0 < x.size
    requires forall i :: 0 <= i < lo ==> s[i].End() < x.addr
    requires forall i :: hi <= i < |s| ==> x.End() < s[i].addr
    ensures Canonical(t)
  {
    SpliceAt(s, lo, x, hi, t);
  }

  lemma SpliceCovers(s: seq<Block>, lo: nat, x: Block, hi: nat, t: seq<Block>, a: nat)
    requires lo <= hi <= |s| && t == s[..lo] + [x] + s[hi..]
    ensures Covers(t, a) <==> x.Has(a) || exists i :: 0 <= i < |s| && !(lo <= i < hi) && s[i].Has(a)
  {
    SpliceAt(s, lo, x, hi, t);
    if Covers(t, a) && !x.Has(a) {
      var i :| 0 <= i < |t| && t[i].Has(a);
      assert s[if i < lo then i else i - lo - 1 + hi].Has(a);
    }
    if x.Has(a) { assert t[lo].Has(a); }
    if i :| 0 <= i < |s| && !(lo <= i < hi) && s[i].Has(a) {
      assert t[if i < lo then i else i + lo + 1 - hi].Has(a);
    }
  }

  /** Everything in front of the joined block ends before it, everything behind starts after it. */
  lemma JoinedBetween(free: seq<Block>, b: Block)
    requires Canonical(free) && Apart(free, b) && 0 < b.size
    ensures forall i :: 0 <= i < First(free, b) ==> free[i].End() < Joined(free, b).addr
    ensures forall i :: Last(free, b) <= i < |free| ==> Joined(free, b).End() < free[i].addr
  {
    var k := Position(free, b.addr);
    assert 0 < k ==> free[k - 1].End() <= b.addr;
    assert k < |free| ==> b.End() <= free[k].addr;
  }

  lemma InsertFreeCanonical(free: seq<Block>, b: Block)
    requires Canonical(free) && Apart(free, b) && 0 < b.size
    ensures Canonical(InsertFree(free, b))
  {
    JoinedBetween(free, b);
    SpliceCanonical(free, First(free, b), Joined(free, b), Last(free, b), InsertFree(free, b));
  }

  /** The joined block covers exactly the block and the neighbours that it touches. */
  lemma JoinedHas(free: seq<Block>, b: Block, a: nat)
    requires Canonical(free) && Apart(free, b) && 0 < b.size
    ensures Joined(free, b).Has(a) <==>
            b.Has(a) || exists i :: First(free, b) <= i < Last(free, b) && free[i].Has(a)
  {
    var k, lo, hi := Position(free, b.addr), First(free, b), Last(free, b);
    assert lo < k ==> free[k - 1].End() == b.addr;
    assert k < hi ==> b.End() == free[k].addr;
    if Joined(free, b).Has(a) && !b.Has(a) {
      var i := if a < b.addr then k - 1 else k;
      assert lo <= i < hi && free[i].Has(a);
    }
  }

  lemma InsertFreeCovers(free: seq<Block>, b: Block, a: nat)
    requires Canonical(free) && Apart(free, b) && 0 < b.size
    ensures Covers(InsertFree(free, b), a) <==> Covers(free, a) || b.Has(a)
  {
    JoinedHas(free, b, a);
    SpliceCovers(free, First(free, b), Joined(free, b), Last(free, b), InsertFree(free, b), a);
  }

  lemma InsertFreeTotal(free: seq<Block>, b: Block)
    ensures Total(InsertFree(free, b)) == Total(free) + b.size
  {
    var k, lo, hi := Position(free, b.addr), First(free, b), Last(free, b);
    var mid := [Joined(free, b)];
    TotalConcat(free[..lo] + mid, free[hi..]);
    TotalConcat(free[..lo], mid);
    assert free == free[..lo] + free[lo..hi] + free[hi..];
    TotalConcat(free[..lo] + free[lo..hi], free[hi..]);
    TotalConcat(free[..lo], free[lo..hi]);
    assert free[lo..hi] == free[lo..k] + free[k..hi];
    TotalConcat(free[lo..k], free[k..hi]);
    assert lo < k ==> free[lo..k] == [free[k - 1]];
    assert k < hi ==> free[k..hi] == [free[k]];
  }

  lemma InsertFreeAligned(free: seq<Block>, b: Block)
    requires AllAligned(free) && b.Aligned()
    ensures AllAligned(InsertFree(free, b))
  {
    hide First, Last, Joined, InsertFree, Position;
    InsertShape(free, b);
    JoinedAligned(free, b);
  }

  lemma JoinedAligned(free: seq<Block>, b: Block)
    requires AllAligned(free) && b.Aligned()
    ensures Joined(free, b).Aligned()
  {
  }
}
