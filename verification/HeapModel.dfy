/**
 The allocator as a machine over free and live blocks, and its properties over every run.
 Module Heap4 proves that the code over linked headers takes exactly these steps.
 */
module HeapModel {
  import opened HeapSpec

  /** Free blocks in address order, live blocks in order of allocation, and the low-water mark. */
  datatype Heap = Heap(free: seq<Block>, live: seq<Block>, minEver: nat)

  ghost predicate Inside(blocks: seq<Block>, lo: nat, hi: nat) {
    forall i :: 0 <= i < |blocks| ==> lo <= blocks[i].addr && blocks[i].End() <= hi
  }

  ghost predicate Disjoint(blocks: seq<Block>) {
    forall i, j :: 0 <= i < j < |blocks| ==>
      blocks[i].End() <= blocks[j].addr || blocks[j].End() <= blocks[i].addr
  }

  /** Free and live blocks partition the addresses from lo to hi, and the free list is canonical. */
  ghost predicate Tiling(h: Heap, lo: nat, hi: nat) {
    && Canonical(h.free) && AllAligned(h.free) && Inside(h.free, lo, hi)
    && Disjoint(h.live) && AllAligned(h.live) && Inside(h.live, lo, hi)
    && (forall a: nat :: lo <= a < hi ==> (Covers(h.free, a) <==> !Covers(h.live, a)))
    && Total(h.free) + Total(h.live) == hi - lo
    && h.minEver <= Total(h.free)
  }

  function Initial(lo: nat, hi: nat): Heap
    requires lo <= hi
  {
    Heap([Block(lo, hi - lo)], [], hi - lo)
  }

  // ---------------------------------------------------------------- pvPortMalloc

  /** The size the allocator looks for, in the 32-bit arithmetic of the code. */
  function Rounded(request: nat): nat {
    var w := (request + HEADER_SIZE) % SIZE_MODULUS;
    if w % ALIGNMENT != 0 then (w + (ALIGNMENT - w % ALIGNMENT)) % SIZE_MODULUS else w
  }

  /** For requests without the top bit nothing wraps: the header fits, with less than 8 bytes padding. */
  lemma RoundedExact(request: nat)
    requires request < 0x8000_0000
    ensures Rounded(request) % 8 == 0
    ensures request + 8 <= Rounded(request) < request + 16
  {
  }

  /** The lowest block that is large enough, or |free|. */
  function FirstFit(free: seq<Block>, want: nat): (i: nat)
    ensures i <= |free|
    ensures forall j :: 0 <= j < i ==> free[j].size < want
    ensures i < |free| ==> want <= free[i].size
  {
    if free == [] || want <= free[0].size then 0 else 1 + FirstFit(free[1..], want)
  }

  predicate Granted(h: Heap, request: nat) {
    && 0 < request < ALLOCATED_BIT
    && Rounded(request) <= Total(h.free)
    && FirstFit(h.free, Rounded(request)) < |h.free|
  }

  function Without<T>(s: seq<T>, i: nat): seq<T>
    requires i < |s|
  {
    s[..i] + s[i + 1..]
  }

  /** The block handed out, header included. */
  function Grant(h: Heap, request: nat): Block
    requires Granted(h, request)
  {
    var want, b := Rounded(request), h.free[FirstFit(h.free, Rounded(request))];
    if b.size - want > MINIMUM_BLOCK_SIZE then Block(b.addr, want) else b
  }

  function FreeAfterGrant(h: Heap, request: nat): seq<Block>
    requires Granted(h, request)
  {
    var i := FirstFit(h.free, Rounded(request));
    var b, got := h.free[i], Grant(h, request);
    if got == b then Without(h.free, i)
    else InsertFree(Without(h.free, i), Block(got.End(), b.size - got.size))
  }

  function Min(a: nat, b: nat): nat {
    if a < b then a else b
  }

  function Malloc(h: Heap, request: nat): Heap {
    if Granted(h, request) then
      var free := FreeAfterGrant(h, request);
      Heap(free, h.live + [Grant(h, request)], Min(h.minEver, Total(free)))
    else h
  }

  /**
   First-fit completeness: a request fails exactly when it is zero, has the top bit set, or no single
   free block holds the rounded size. The early test against the total never rejects another request.
   */
  lemma FirstFitComplete(h: Heap, request: nat)
    ensures Granted(h, request) <==>
            0 < request < 0x8000_0000 && exists i :: 0 <= i < |h.free| && Rounded(request) <= h.free[i].size
  {
    if i :| 0 <= i < |h.free| && Rounded(request) <= h.free[i].size {
      TotalSplit(h.free, i);
    }
  }

  /** What is handed out: the lowest sufficient block, at most 16 bytes more than the rounded size. */
  lemma GrantFits(h: Heap, request: nat)
    requires Granted(h, request) && AllAligned(h.free)
    ensures var got := Grant(h, request);
            && (exists i :: 0 <= i < |h.free| && h.free[i].addr == got.addr && got.size <= h.free[i].size
                  && forall j :: 0 <= j < i ==> h.free[j].size < Rounded(request))
            && Rounded(request) <= got.size <= Rounded(request) + 16
            && got.Aligned() && (got.addr + 8) % 8 == 0
  {
    RoundedExact(request);
  }

  /**
   When the block is split: of the lowest sufficient one just the rounded size is taken if more than 16 bytes
   remain of it, and all of it otherwise.
   */
  lemma GrantExact(h: Heap, request: nat, i: nat)
    requires 0 < request < 0x8000_0000 && Canonical(h.free)
    requires i < |h.free| && Rounded(request) <= h.free[i].size
    requires forall j :: 0 <= j < i ==> h.free[j].size < Rounded(request)
    ensures Granted(h, request) && Grant(h, request).addr == h.free[i].addr
    ensures var taken := if h.free[i].size > Rounded(request) + 16 then Rounded(request) else h.free[i].size;
            && Grant(h, request).size == taken && Total(h.free) - Total(Malloc(h, request).free) == taken
            && Malloc(h, request).live == h.live + [Grant(h, request)]
  {
    FirstFitComplete(h, request);
    FreeAfterGrantCovers(h, request);
  }

  lemma WithoutAt<T>(s: seq<T>, i: nat)
    requires i < |s|
    ensures |Without(s, i)| == |s| - 1
    ensures forall j {:trigger Without(s, i)[j]} :: 0 <= j < |s| - 1 ==>
              Without(s, i)[j] == s[if j < i then j else j + 1]
  {
  }

  lemma HolderUnique(s: seq<Block>, i: nat, a: nat)
    requires i < |s| && (Canonical(s) || Disjoint(s)) && s[i].Has(a)
    ensures forall j :: 0 <= j < |s| && s[j].Has(a) ==> j == i
  {
  }

  lemma WithoutCovers(s: seq<Block>, i: nat, a: nat)
    requires i < |s|
    requires s[i].Has(a) ==> forall j :: 0 <= j < |s| && s[j].Has(a) ==> j == i
    ensures Covers(Without(s, i), a) <==> Covers(s, a) && !s[i].Has(a)
  {
    var t := Without(s, i);
    WithoutAt(s, i);
    if j :| 0 <= j < |t| && t[j].Has(a) {
      assert s[if j < i then j else j + 1].Has(a);
    }
    if j :| 0 <= j < |s| && s[j].Has(a) && j != i {
      assert t[if j < i then j else j - 1].Has(a);
    }
  }

  /** What is left of the chosen block touches no other free block. */
  lemma RemainderApart(h: Heap, request: nat)
    requires Granted(h, request) && Canonical(h.free)
    ensures var i := FirstFit(h.free, Rounded(request));
            var b, got := h.free[i], Grant(h, request);
            Canonical(Without(h.free, i)) && Apart(Without(h.free, i), Block(got.End(), b.size - got.size))
  {
    var i := FirstFit(h.free, Rounded(request));
    WithoutAt(h.free, i);
    GrantFromBlock(h, request);
  }

  /** Taking one block out of the free list, and putting back what is left of it. */
  lemma ShrinkCovers(free: seq<Block>, i: nat, got: Block, after: seq<Block>, a: nat)
    requires i < |free| && Canonical(free) && Canonical(Without(free, i))
    requires got.addr == free[i].addr && 0 < got.size <= free[i].size
    requires var remainder := Block(got.End(), free[i].size - got.size);
             Apart(Without(free, i), remainder)
             && after == if got == free[i] then Without(free, i) else InsertFree(Without(free, i), remainder)
    ensures Covers(after, a) <==> Covers(free, a) && !got.Has(a)
  {
    var remainder := Block(got.End(), free[i].size - got.size);
    if free[i].Has(a) { HolderUnique(free, i, a); }
    WithoutCovers(free, i, a);
    if got != free[i] { InsertFreeCovers(Without(free, i), remainder, a); }
    assert free[i].Has(a) ==> Covers(free, a);
    assert free[i].Has(a) <==> got.Has(a) || remainder.Has(a);
  }

  /** Malloc takes exactly the granted addresses out of the free ones. */
  lemma FreeAfterGrantCovers(h: Heap, request: nat)
    requires Granted(h, request) && Canonical(h.free)
    ensures Canonical(FreeAfterGrant(h, request))
    ensures forall a: nat :: Covers(FreeAfterGrant(h, request), a) <==> Covers(h.free, a) && !Grant(h, request).Has(a)
    ensures Total(FreeAfterGrant(h, request)) == Total(h.free) - Grant(h, request).size
  {
    hide InsertFree, Canonical, Covers, Apart, Rounded, Grant;
    var i := FirstFit(h.free, Rounded(request));
    var b, got, rest := h.free[i], Grant(h, request), Without(h.free, i);
    GrantFromBlock(h, request);
    var remainder := Block(got.End(), b.size - got.size);
    RemainderApart(h, request);
    TotalSplit(h.free, i);
    if got != b {
      InsertFreeCanonical(rest, remainder);
      InsertFreeTotal(rest, remainder);
    }
    forall a: nat ensures Covers(FreeAfterGrant(h, request), a) <==> Covers(h.free, a) && !got.Has(a) {
      ShrinkCovers(h.free, i, got, FreeAfterGrant(h, request), a);
    }
  }

  lemma GrantFromBlock(h: Heap, request: nat)
    requires Granted(h, request)
    ensures FirstFit(h.free, Rounded(request)) < |h.free|
    ensures var b, got := h.free[FirstFit(h.free, Rounded(request))], Grant(h, request);
            got.addr == b.addr && 0 < got.size <= b.size && (got != b ==> got.size < b.size)
  {
    RoundedExact(request);
  }

  lemma FreeAfterGrantPlaced(h: Heap, request: nat, lo: nat, hi: nat)
    requires Granted(h, request) && Canonical(h.free) && AllAligned(h.free) && Inside(h.free, lo, hi)
    ensures AllAligned(FreeAfterGrant(h, request)) && Inside(FreeAfterGrant(h, request), lo, hi)
  {
    hide InsertFree, Canonical, Apart, Rounded, Grant, Granted, AllAligned, Inside, Without, Block.Aligned;
    GrantFromBlock(h, request);
    GrantAligned(h, request);
    var i := FirstFit(h.free, Rounded(request));
    var b, got, rest := h.free[i], Grant(h, request), Without(h.free, i);
    RestPlaced(h.free, i, lo, hi);
    if got != b {
      var remainder := Block(got.End(), b.size - got.size);
      RemainderAligned(b, got);
      InsertFreeAligned(rest, remainder);
      InsertFreeInside(rest, remainder, lo, hi);
    }
  }

  lemma GrantAligned(h: Heap, request: nat)
    requires Granted(h, request) && AllAligned(h.free)
    ensures Grant(h, request).Aligned()
  {
    GrantFits(h, request);
  }

  lemma RemainderAligned(b: Block, got: Block)
    requires b.Aligned() && got.Aligned() && got.addr == b.addr && got.size < b.size
    ensures Block(got.End(), b.size - got.size).Aligned()
  {
  }

  /** The other free blocks are as aligned, and as far inside the heap, as all of them. */
  lemma RestPlaced(free: seq<Block>, i: nat, lo: nat, hi: nat)
    requires i < |free| && AllAligned(free) && Inside(free, lo, hi)
    ensures AllAligned(Without(free, i)) && Inside(Without(free, i), lo, hi)
    ensures free[i].Aligned() && lo <= free[i].addr && free[i].End() <= hi
  {
    WithoutAt(free, i);
  }

  lemma InsertFreeInside(free: seq<Block>, b: Block, lo: nat, hi: nat)
    requires Inside(free, lo, hi) && lo <= b.addr && b.End() <= hi
    ensures Inside(InsertFree(free, b), lo, hi)
  {
    SpliceAt(free, First(free, b), Joined(free, b), Last(free, b), InsertFree(free, b));
  }

  lemma CoversAppend(s: seq<Block>, b: Block, a: nat)
    ensures Covers(s + [b], a) <==> Covers(s, a) || b.Has(a)
  {
    var t := s + [b];
    if Covers(s, a) {
      var i :| 0 <= i < |s| && s[i].Has(a);
      assert t[i].Has(a);
    }
    if b.Has(a) { assert t[|s|].Has(a); }
  }

  /** A free block and a live one share no address. */
  lemma LiveApartFromFree(h: Heap, lo: nat, hi: nat, i: nat)
    requires Tiling(h, lo, hi) && i < |h.live|
    ensures Apart(h.free, h.live[i])
  {
    forall j | 0 <= j < |h.free| ensures h.free[j].End() <= h.live[i].addr || h.live[i].End() <= h.free[j].addr {
      var a := if h.free[j].addr < h.live[i].addr then h.live[i].addr else h.free[j].addr;
      if h.free[j].Has(a) && h.live[i].Has(a) {
        assert Covers(h.free, a) && Covers(h.live, a);
      }
    }
  }

  lemma GrantIsFree(h: Heap, request: nat, lo: nat, hi: nat)
    requires Granted(h, request) && Tiling(h, lo, hi)
    ensures var got := Grant(h, request);
            && lo <= got.addr && got.End() <= hi
            && (forall a: nat :: got.Has(a) ==> Covers(h.free, a))
            && Disjoint(h.live + [got])
  {
    var got := Grant(h, request);
    var i := FirstFit(h.free, Rounded(request));
    GrantFits(h, request);
    forall a: nat | got.Has(a) ensures Covers(h.free, a) {
      assert h.free[i].Has(a);
    }
    forall k | 0 <= k < |h.live| ensures h.live[k].End() <= got.addr || got.End() <= h.live[k].addr {
      LiveApartFromFree(h, lo, hi, k);
      assert h.free[i].End() <= h.live[k].addr || h.live[k].End() <= h.free[i].addr;
    }
  }

  lemma MallocKeepsTiling(h: Heap, request: nat, lo: nat, hi: nat)
    requires Tiling(h, lo, hi)
    ensures Tiling(Malloc(h, request), lo, hi)
  {
    hide InsertFree, Grant, FreeAfterGrant, Granted;
    if Granted(h, request) {
      var got, h' := Grant(h, request), Malloc(h, request);
      FreeAfterGrantCovers(h, request);
      FreeAfterGrantPlaced(h, request, lo, hi);
      TotalConcat(h.live, [got]);
      LiveAfterGrant(h, request, lo, hi);
      forall a: nat | lo <= a < hi ensures Covers(h'.free, a) <==> !Covers(h'.live, a) {
        CoversAppend(h.live, got, a);
        assert got.Has(a) ==> Covers(h.free, a);
      }
    }
  }

  lemma LiveAfterGrant(h: Heap, request: nat, lo: nat, hi: nat)
    requires Granted(h, request) && Tiling(h, lo, hi)
    ensures var live := h.live + [Grant(h, request)];
            Disjoint(live) && AllAligned(live) && Inside(live, lo, hi)
    ensures forall a: nat :: Grant(h, request).Has(a) ==> Covers(h.free, a)
  {
    GrantFits(h, request);
    GrantIsFree(h, request, lo, hi);
  }

  /** A request that is not granted changes nothing. */
  lemma NotGranted(h: Heap, request: nat)
    requires request == 0 || request >= 0x8000_0000
             || forall i :: 0 <= i < |h.free| ==> h.free[i].size < Rounded(request)
    ensures Malloc(h, request) == h
  {
    FirstFitComplete(h, request);
  }

  // ---------------------------------------------------------------- vPortFree

  function Free(h: Heap, i: nat): Heap
    requires i < |h.live|
  {
    Heap(InsertFree(h.free, h.live[i]), Without(h.live, i), h.minEver)
  }

  lemma FreeKeepsTiling(h: Heap, i: nat, lo: nat, hi: nat)
    requires Tiling(h, lo, hi) && i < |h.live|
    ensures Tiling(Free(h, i), lo, hi)
  {
    var b, h' := h.live[i], Free(h, i);
    LiveApartFromFree(h, lo, hi, i);
    InsertFreeCanonical(h.free, b);
    InsertFreeAligned(h.free, b);
    InsertFreeInside(h.free, b, lo, hi);
    InsertFreeTotal(h.free, b);
    TotalSplit(h.live, i);
    WithoutAt(h.live, i);
    forall a: nat | lo <= a < hi ensures Covers(h'.free, a) <==> !Covers(h'.live, a) {
      InsertFreeCovers(h.free, b, a);
      if b.Has(a) { HolderUnique(h.live, i, a); }
      WithoutCovers(h.live, i, a);
      assert b.Has(a) ==> Covers(h.live, a);
    }
  }

  /** What a release does: the addresses of the block become free, and it is live no more, as the only one. */
  lemma FreeReturns(h: Heap, i: nat, lo: nat, hi: nat)
    requires Tiling(h, lo, hi) && i < |h.live|
    ensures forall a: nat :: Covers(Free(h, i).free, a) <==> Covers(h.free, a) || h.live[i].Has(a)
    ensures Total(Free(h, i).free) == Total(h.free) + h.live[i].size
    ensures forall b :: b in Free(h, i).live <==> b in h.live && b != h.live[i]
  {
    hide Canonical, InsertFree, Covers;
    forall a: nat ensures Covers(Free(h, i).free, a) <==> Covers(h.free, a) || h.live[i].Has(a) {
      FreeCovers(h, i, lo, hi, a);
    }
    InsertFreeTotal(h.free, h.live[i]);
    WithoutOne(h.live, i);
    LiveDistinct(h, lo, hi);
  }

  lemma LiveDistinct(h: Heap, lo: nat, hi: nat)
    requires Tiling(h, lo, hi)
    ensures forall i, j :: 0 <= i < j < |h.live| ==> h.live[i] != h.live[j]
  {
  }

  lemma WithoutOne<T>(s: seq<T>, i: nat)
    requires i < |s| && forall i, j :: 0 <= i < j < |s| ==> s[i] != s[j]
    ensures forall x :: x in Without(s, i) <==> x in s && x != s[i]
  {
    var t := Without(s, i);
    WithoutAt(s, i);
    forall x | x in s && x != s[i] ensures x in t {
      var j :| 0 <= j < |s| && s[j] == x;
      assert t[if j < i then j else j - 1] == x;
    }
    forall x | x in t ensures x in s && x != s[i] {
      var j :| 0 <= j < |t| && t[j] == x;
      assert x == s[if j < i then j else j + 1];
    }
  }

  /** Freeing the block that has just been handed out restores the free list exactly. */
  lemma MallocThenFree(h: Heap, request: nat, lo: nat, hi: nat)
    requires Tiling(h, lo, hi) && Granted(h, request)
    ensures var h' := Free(Malloc(h, request), |h.live|);
            h'.free == h.free && h'.live == h.live
  {
    hide Canonical, Covers, InsertFree, Grant, FreeAfterGrant, Granted, Disjoint, Inside, AllAligned, Total, Apart;
    var h1 := Malloc(h, request);
    var got, h' := Grant(h, request), Free(h1, |h.live|);
    GrantFromBlock(h, request);
    MallocKeepsTiling(h, request, lo, hi);
    FreeAfterGrantCovers(h, request);
    GrantIsFree(h, request, lo, hi);
    LiveApartFromFree(h1, lo, hi, |h.live|);
    InsertFreeCanonical(h1.free, got);
    forall a: nat ensures Covers(h'.free, a) <==> Covers(h.free, a) {
      InsertFreeCovers(h1.free, got, a);
    }
    CanonicalUnique(h'.free, h.free);
  }

  /** With nothing live, the heap is the one block that initialisation made. */
  lemma NothingLive(h: Heap, lo: nat, hi: nat)
    requires Tiling(h, lo, hi) && h.live == [] && lo < hi
    ensures h.free == Initial(lo, hi).free
  {
    var whole := [Block(lo, hi - lo)];
    forall a: nat ensures Covers(h.free, a) <==> Covers(whole, a) {
      assert whole[0].Has(a) <==> lo <= a < hi;
      assert !Covers(h.live, a);
    }
    CanonicalUnique(h.free, whole);
  }

  /** The order in which two blocks are freed makes no difference to the free list. */
  lemma FreesCommute(h: Heap, i: nat, j: nat, lo: nat, hi: nat)
    requires Tiling(h, lo, hi) && i < j < |h.live|
    ensures Free(Free(h, i), j - 1).free == Free(Free(h, j), i).free
  {
    hide Tiling, Canonical, Covers;
    var x, y := Free(h, i), Free(h, j);
    assert x.live[j - 1] == h.live[j] && y.live[i] == h.live[i];
    FreeKeepsTiling(h, i, lo, hi);
    FreeKeepsTiling(h, j, lo, hi);
    forall a: nat ensures Covers(Free(x, j - 1).free, a) <==> Covers(Free(y, i).free, a) {
      FreeCovers(h, i, lo, hi, a);
      FreeCovers(h, j, lo, hi, a);
      FreeCovers(x, j - 1, lo, hi, a);
      FreeCovers(y, i, lo, hi, a);
    }
    FreeCanonical(x, j - 1, lo, hi);
    FreeCanonical(y, i, lo, hi);
    CanonicalUnique(Free(x, j - 1).free, Free(y, i).free);
  }

  lemma FreeCovers(h: Heap, i: nat, lo: nat, hi: nat, a: nat)
    requires Tiling(h, lo, hi) && i < |h.live|
    ensures Covers(Free(h, i).free, a) <==> Covers(h.free, a) || h.live[i].Has(a)
  {
    hide Canonical, Covers, InsertFree, Disjoint, Inside, Total, Apart;
    LiveApartFromFree(h, lo, hi, i);
    InsertFreeCovers(h.free, h.live[i], a);
  }

  lemma FreeCanonical(h: Heap, i: nat, lo: nat, hi: nat)
    requires Tiling(h, lo, hi) && i < |h.live|
    ensures Canonical(Free(h, i).free)
  {
    hide Canonical, Covers, InsertFree, Disjoint, Inside, Total, Apart;
    LiveApartFromFree(h, lo, hi, i);
    InsertFreeCanonical(h.free, h.live[i]);
  }

  // ---------------------------------------------------------------- whole runs

  /** One call: an allocation, or the release of the i-th live block (of nothing, if there is none). */
  datatype Call = Allocate(request: nat) | Release(i: nat)

  function Step(h: Heap, call: Call): Heap {
    match call
    case Allocate(request) => Malloc(h, request)
    case Release(i) => if i < |h.live| then Free(h, i) else h
  }

  /** The states of a run: before the first call, and after each call. */
  function Trace(h: Heap, calls: seq<Call>): (t: seq<Heap>)
    ensures |t| == |calls| + 1
  {
    if calls == [] then [h]
    else
      var before := Trace(h, calls[..|calls| - 1]);
      before + [Step(before[|calls| - 1], calls[|calls| - 1])]
  }

  lemma InitialTiling(lo: nat, hi: nat)
    requires lo < hi && lo % ALIGNMENT == 0 && hi % ALIGNMENT == 0
    ensures Tiling(Initial(lo, hi), lo, hi)
  {
    var h := Initial(lo, hi);
    forall a: nat | lo <= a < hi ensures Covers(h.free, a) {
      assert h.free[0].Has(a);
    }
  }

  lemma StepKeepsTiling(h: Heap, call: Call, lo: nat, hi: nat)
    requires Tiling(h, lo, hi)
    ensures Tiling(Step(h, call), lo, hi)
    ensures Step(h, call).minEver == Min(h.minEver, Total(Step(h, call).free))
  {
    match call
    case Allocate(request) =>
      MallocKeepsTiling(h, request, lo, hi);
    case Release(i) =>
      if i < |h.live| {
        FreeKeepsTiling(h, i, lo, hi);
        InsertFreeTotal(h.free, h.live[i]);
      }
  }

  /** Tiling, conservation and accounting hold throughout every run from the initialised heap. */
  lemma {:induction false} RunKeepsTiling(calls: seq<Call>, lo: nat, hi: nat)
    requires lo < hi && lo % ALIGNMENT == 0 && hi % ALIGNMENT == 0
    ensures forall k :: 0 <= k <= |calls| ==> Tiling(Trace(Initial(lo, hi), calls)[k], lo, hi)
  {
    hide Tiling, Step, Initial;
    if calls == [] {
      InitialTiling(lo, hi);
    } else {
      var n := |calls| - 1;
      RunKeepsTiling(calls[..n], lo, hi);
      StepKeepsTiling(Trace(Initial(lo, hi), calls[..n])[n], calls[n], lo, hi);
    }
  }

  /** No block is a sliver: each of them, free or live, has at least 16 bytes. */
  ghost predicate NoSliver(blocks: seq<Block>) {
    forall i :: 0 <= i < |blocks| ==> blocks[i].size >= 16
  }

  lemma InsertFreeNoSliver(free: seq<Block>, b: Block)
    requires NoSliver(free) && b.size >= 16
    ensures NoSliver(InsertFree(free, b))
  {
    InsertShape(free, b);
  }

  lemma WithoutNoSliver(blocks: seq<Block>, i: nat)
    requires i < |blocks| && NoSliver(blocks)
    ensures NoSliver(Without(blocks, i)) && blocks[i].size >= 16
  {
    WithoutAt(blocks, i);
  }

  lemma StepKeepsNoSliver(h: Heap, call: Call)
    requires Canonical(h.free) && NoSliver(h.free) && NoSliver(h.live)
    ensures NoSliver(Step(h, call).free) && NoSliver(Step(h, call).live)
  {
    hide InsertFree, NoSliver, Without, Canonical;
    match call
    case Allocate(request) =>
      if Granted(h, request) {
        GrantNoSliver(h, request);
      }
    case Release(i) =>
      if i < |h.live| {
        WithoutNoSliver(h.live, i);
        InsertFreeNoSliver(h.free, h.live[i]);
      }
  }

  lemma GrantNoSliver(h: Heap, request: nat)
    requires Granted(h, request) && Canonical(h.free) && NoSliver(h.free) && NoSliver(h.live)
    ensures NoSliver(FreeAfterGrant(h, request)) && NoSliver(h.live + [Grant(h, request)])
  {
    hide InsertFree, Without;
    RoundedExact(request);
    var i := FirstFit(h.free, Rounded(request));
    GrantExact(h, request, i);
    WithoutNoSliver(h.free, i);
    var b, got := h.free[i], Grant(h, request);
    if got != b {
      InsertFreeNoSliver(Without(h.free, i), Block(got.End(), b.size - got.size));
    }
  }

  /** That holds throughout every run from a heap of at least 16 bytes: no block is too small to be used again. */
  lemma {:induction false} RunKeepsNoSliver(calls: seq<Call>, lo: nat, hi: nat)
    requires lo + 16 <= hi && lo % ALIGNMENT == 0 && hi % ALIGNMENT == 0
    ensures forall k :: 0 <= k <= |calls| ==>
              NoSliver(Trace(Initial(lo, hi), calls)[k].free) && NoSliver(Trace(Initial(lo, hi), calls)[k].live)
  {
    hide Tiling, Step;
    if calls != [] {
      var n := |calls| - 1;
      RunKeepsNoSliver(calls[..n], lo, hi);
      RunKeepsTiling(calls[..n], lo, hi);
      var h := Trace(Initial(lo, hi), calls[..n])[n];
      TilingCanonical(h, lo, hi);
      StepKeepsNoSliver(h, calls[n]);
    }
  }

  lemma TilingCanonical(h: Heap, lo: nat, hi: nat)
    requires Tiling(h, lo, hi)
    ensures Canonical(h.free)
  {
  }

  /** However they were released, once no block is live the initial single block is back. */
  lemma AllReleased(calls: seq<Call>, lo: nat, hi: nat)
    requires lo < hi && lo % ALIGNMENT == 0 && hi % ALIGNMENT == 0
    requires Trace(Initial(lo, hi), calls)[|calls|].live == []
    ensures Trace(Initial(lo, hi), calls)[|calls|].free == Initial(lo, hi).free
  {
    hide Trace;
    RunKeepsTiling(calls, lo, hi);
    NothingLive(Trace(Initial(lo, hi), calls)[|calls|], lo, hi);
  }

  /** The mark in the last state is the least number of free bytes over all the states. */
  ghost predicate MarkIsLeast(t: seq<Heap>)
    requires t != []
  {
    && (forall k :: 0 <= k < |t| ==> t[|t| - 1].minEver <= Total(t[k].free))
    && (exists k :: 0 <= k < |t| && t[|t| - 1].minEver == Total(t[k].free))
  }

  lemma MarkAfterStep(t: seq<Heap>, h: Heap)
    requires t != [] && MarkIsLeast(t)
    requires h.minEver == Min(t[|t| - 1].minEver, Total(h.free))
    ensures MarkIsLeast(t + [h])
  {
    hide Total;
    var t' := t + [h];
    var k :| 0 <= k < |t| && t[|t| - 1].minEver == Total(t[k].free);
    assert t'[k] == t[k];
    assert h.minEver == Total(t'[if h.minEver == t[|t| - 1].minEver then k else |t|].free);
  }

  /** The low-water mark is the least number of free bytes over the whole run. */
  lemma {:induction false} LowWaterMark(calls: seq<Call>, lo: nat, hi: nat)
    requires lo < hi && lo % ALIGNMENT == 0 && hi % ALIGNMENT == 0
    ensures MarkIsLeast(Trace(Initial(lo, hi), calls))
  {
    if calls == [] {
      assert Trace(Initial(lo, hi), calls)[0].minEver == Total(Trace(Initial(lo, hi), calls)[0].free);
    } else {
      hide Step, Tiling, Total, Initial, MarkIsLeast;
      var n := |calls| - 1;
      RunKeepsTiling(calls[..n], lo, hi);
      LowWaterMark(calls[..n], lo, hi);
      var before := Trace(Initial(lo, hi), calls[..n]);
      StepKeepsTiling(before[n], calls[n], lo, hi);
      MarkAfterStep(before, Step(before[n], calls[n]));
    }
  }
}
