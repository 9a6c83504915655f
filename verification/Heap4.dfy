/**
 heap_4 over memory: block headers live at the start of each block, and the free list is threaded
 through them. Memory is two sequences of words indexed by address, one per header field.
 */
module Heap4 {
  import opened HeapSpec
  import opened HeapModel

  /** Node 0 of the free list is xStart, node k is the k-th free block. */
  ghost function NodeAt(free: seq<Block>, start: nat, k: nat): nat
    requires k <= |free|
  {
    if k == 0 then start else free[k - 1].addr
  }

  /** What node k links to: the next free block, or pxEnd. */
  ghost function TargetAt(free: seq<Block>, end: nat, k: nat): nat
    requires k <= |free|
  {
    if k < |free| then free[k].addr else end
  }

  /** Free blocks lie in front of pxEnd; xStart lies elsewhere. */
  ghost predicate Placed(free: seq<Block>, start: nat, lo: nat, end: nat, limit: nat) {
    && Canonical(free) && Inside(free, lo, end)
    && lo <= end < limit && start < limit && !(lo <= start <= end)
  }

  ghost predicate Links(next: seq<nat>, free: seq<Block>, start: nat, end: nat)
    requires start < |next| && forall i :: 0 <= i < |free| ==> free[i].addr < |next|
  {
    forall k {:trigger NodeAt(free, start, k)} :: 0 <= k <= |free| ==>
      next[NodeAt(free, start, k)] == TargetAt(free, end, k)
  }

  ghost predicate Sizes(size: seq<nat>, free: seq<Block>)
    requires forall i :: 0 <= i < |free| ==> free[i].addr < |size|
  {
    forall i :: 0 <= i < |free| ==> size[free[i].addr] == free[i].size
  }

  /** The headers in memory spell out this free list. */
  ghost predicate Spells(next: seq<nat>, size: seq<nat>, free: seq<Block>, start: nat, end: nat)
    requires |next| == |size| && end < |next| && start < |next|
    requires forall i :: 0 <= i < |free| ==> free[i].addr < |next|
  {
    && Links(next, free, start, end) && Sizes(size, free)
    && size[start] == 0 && size[end] == 0 && next[end] == 0
  }

  lemma NodesDistinct(free: seq<Block>, start: nat, lo: nat, end: nat, limit: nat, k: nat)
    requires Placed(free, start, lo, end, limit) && k <= |free|
    ensures NodeAt(free, start, k) != end && NodeAt(free, start, k) < limit
    ensures forall j {:trigger NodeAt(free, start, j)} :: 0 <= j <= |free| && j != k ==>
              NodeAt(free, start, j) != NodeAt(free, start, k)
  {
  }

  lemma LinksInserted(next: seq<nat>, free: seq<Block>, k: nat, addr: nat, first: nat, x: Block, last: nat,
                      g: seq<Block>, start: nat, lo: nat, end: nat, next': seq<nat>)
    requires Placed(free, start, lo, end, |next|) && Placed(g, start, lo, end, |next|)
    requires Links(next, free, start, end) && Spliced(free, first, x, last, g)
    requires k - 1 <= first <= k <= last <= k + 1 && lo <= addr < end
    requires forall i :: 0 <= i < |free| ==> free[i].addr != addr
    requires x.addr == if first < k then free[first].addr else addr
    requires var target := next[if k < last then free[k].addr else NodeAt(free, start, k)];
             next' == if first < k then next[x.addr := target]
                      else next[x.addr := target][NodeAt(free, start, k) := x.addr]
    ensures Links(next', g, start, end)
  {
    hide Canonical;
    NodesDistinct(free, start, lo, end, |next|, k);
    assert next[NodeAt(free, start, last)] == TargetAt(free, end, last);
    forall j {:trigger NodeAt(g, start, j)} | 0 <= j <= |g|
      ensures next'[NodeAt(g, start, j)] == TargetAt(g, end, j)
    {
      if j <= first {
        assert NodeAt(g, start, j) == NodeAt(free, start, j);
      } else {
        var j' := j - first - 1 + last;
        assert TargetAt(g, end, j) == TargetAt(free, end, j');
        if j > first + 1 {
          NodesDistinct(g, start, lo, end, |next|, first + 1);
          assert NodeAt(g, start, j) == NodeAt(free, start, j');
        }
      }
    }
  }

  lemma SizesInserted(size: seq<nat>, free: seq<Block>, addr: nat, k: nat, first: nat, x: Block, last: nat,
                      g: seq<Block>, lo: nat, end: nat, start: nat)
    requires Placed(free, start, lo, end, |size|) && Placed(g, start, lo, end, |size|)
    requires Sizes(size, free) && Spliced(free, first, x, last, g) && lo <= addr < end
    requires k - 1 <= first <= k <= last <= k + 1
    requires forall i :: 0 <= i < |free| ==> free[i].addr != addr
    requires x.addr == if first < k then free[first].addr else addr
    ensures Sizes(size[x.addr := x.size], g)
    ensures x.addr != start && x.addr != end
  {
    forall i | 0 <= i < |g| ensures size[x.addr := x.size][g[i].addr] == g[i].size {
      if i != first {
        assert g[i] == free[if i < first then i else i - first - 1 + last];
      }
    }
  }

  /** Memory differs at most in the headers of the free list and of the block. */
  ghost predicate OnlyWithin(was: seq<nat>, now: seq<nat>, free: seq<Block>, b: Block, start: nat) {
    && |was| == |now|
    && forall a :: 0 <= a < |now| && now[a] != was[a] ==>
         a == start || a == b.addr || exists i :: 0 <= i < |free| && free[i].addr == a
  }

  /** The header writes of an insertion, in terms of the free list. */
  ghost predicate Writes(next: seq<nat>, size: seq<nat>, free: seq<Block>, b: Block, start: nat,
                         next': seq<nat>, size': seq<nat>)
  {
    var k := Position(free, b.addr);
    var walker, block := NodeAt(free, start, k), Joined(free, b).addr;
    && |next| == |size| && walker < |next| && block < |next| && (k < |free| ==> free[k].addr < |next|)
    && var target := next[if k < Last(free, b) then free[k].addr else walker];
       && next' == (if First(free, b) < k then next[block := target] else next[block := target][walker := block])
       && size' == size[block := Joined(free, b).size]
  }

  lemma WritesOnlyWithin(next: seq<nat>, size: seq<nat>, free: seq<Block>, b: Block,
                         start: nat, next': seq<nat>, size': seq<nat>)
    requires Writes(next, size, free, b, start, next', size')
    ensures OnlyWithin(next, next', free, b, start) && OnlyWithin(size, size', free, b, start)
  {
    InsertShape(free, b);
    var k := Position(free, b.addr);
    assert 0 < k ==> free[k - 1].addr == NodeAt(free, start, k);
  }

  /** After these writes memory spells the free list with the block inserted. */
  lemma SpellsInserted(next: seq<nat>, size: seq<nat>, free: seq<Block>, b: Block,
                       start: nat, lo: nat, end: nat, next': seq<nat>, size': seq<nat>)
    requires |next| == |size| && Placed(free, start, lo, end, |next|)
    requires Spells(next, size, free, start, end)
    requires Apart(free, b) && 0 < b.size && lo <= b.addr && b.End() <= end
    requires Writes(next, size, free, b, start, next', size')
    ensures |next'| == |size'| == |next| && Placed(InsertFree(free, b), start, lo, end, |next|)
    ensures Spells(next', size', InsertFree(free, b), start, end)
  {
    var k, g := Position(free, b.addr), InsertFree(free, b);
    assert forall i :: 0 <= i < |free| ==> free[i].addr != b.addr;
    InsertFreeCanonical(free, b);
    InsertFreeInside(free, b, lo, end);
    InsertShape(free, b);
    hide InsertFree, Joined, First, Last, Canonical, Apart;
    LinksInserted(next, free, k, b.addr, First(free, b), Joined(free, b), Last(free, b), g, start, lo, end, next');
    SizesInserted(size, free, b.addr, k, First(free, b), Joined(free, b), Last(free, b), g, lo, end, start);
    NodesDistinct(free, start, lo, end, |next|, k);
  }

  /** What the two adjacency tests of prvInsertBlockIntoFreeList find out. */
  lemma CodeTests(next: seq<nat>, size: seq<nat>, free: seq<Block>, b: Block, k: nat, walker: nat,
                  start: nat, lo: nat, end: nat)
    requires |next| == |size| && Placed(free, start, lo, end, |next|)
    requires Spells(next, size, free, start, end)
    requires Apart(free, b) && 0 < b.size && lo <= b.addr && b.End() <= end
    requires k == Position(free, b.addr) && walker == NodeAt(free, start, k)
    ensures walker < |next| && next[walker] == TargetAt(free, end, k) < |next| && walker != b.addr
    ensures walker + size[walker] == b.addr <==> First(free, b) < k
    ensures b.End() == next[walker] && next[walker] != end <==> k < Last(free, b)
    ensures Joined(free, b).addr == if First(free, b) < k then walker else b.addr
    ensures Joined(free, b).size == (if First(free, b) < k then size[walker] else 0) + b.size
                                    + (if k < Last(free, b) then size[next[walker]] else 0)
    ensures next[walker] != walker && next[walker] != b.addr
    ensures k < |free| ==> free[k].addr == next[walker]
  {
    JoinedParts(free, b);
    NodesDistinct(free, start, lo, end, |next|, k);
    hide First, Last, Joined, Apart;
    assert k < |free| ==> free[k].addr < end && NodeAt(free, start, k + 1) == free[k].addr;
  }

  /** The two adjacency tests and the header writes of prvInsertBlockIntoFreeList, behind a given node. */
  ghost predicate CodeEffect(next: seq<nat>, size: seq<nat>, walker: nat, inserted: nat, end: nat,
                             next': seq<nat>, size': seq<nat>)
    requires |next| == |size| && walker < |next| && inserted < |next| && next[walker] < |next|
  {
    var joinsPrevious := walker + size[walker] == inserted;
    var block := if joinsPrevious then walker else inserted;
    var joined := if joinsPrevious then size[walker] + size[inserted] else size[inserted];
    var after := next[walker];
    var joinsNext := block + joined == after && after != end;
    var next1 := next[block := if joinsNext then next[after] else after];
    && size' == size[block := if joinsNext then joined + size[after] else joined]
    && next' == if walker != block then next1[walker := block] else next1
  }

  /** The tests and assignments of prvInsertBlockIntoFreeList make exactly these writes. */
  lemma CodeWrites(next: seq<nat>, size: seq<nat>, free: seq<Block>, b: Block, walker: nat,
                    start: nat, lo: nat, end: nat, next': seq<nat>, size': seq<nat>)
    requires |next| == |size| && Placed(free, start, lo, end, |next|)
    requires Spells(next, size, free, start, end)
    requires Apart(free, b) && 0 < b.size && lo <= b.addr && b.End() <= end && size[b.addr] == b.size
    requires walker == NodeAt(free, start, Position(free, b.addr)) < |next| && next[walker] < |next|
    requires CodeEffect(next, size, walker, b.addr, end, next', size')
    ensures Writes(next, size, free, b, start, next', size')
  {
    hide InsertFree, Canonical, First, Last, Joined, Apart, Spells, Placed, Position, Inside;
    CodeTests(next, size, free, b, Position(free, b.addr), walker, start, lo, end);
  }

  /** Unlinking free block i from its predecessor. */
  lemma PlacedRemoved(free: seq<Block>, i: nat, start: nat, lo: nat, end: nat, limit: nat)
    requires Placed(free, start, lo, end, limit) && i < |free|
    ensures Placed(Without(free, i), start, lo, end, limit)
  {
    WithoutAt(free, i);
  }

  lemma SpellsRemoved(next: seq<nat>, size: seq<nat>, free: seq<Block>, i: nat, start: nat, lo: nat, end: nat)
    requires |next| == |size| && Placed(free, start, lo, end, |next|)
    requires Spells(next, size, free, start, end) && i < |free|
    ensures Placed(Without(free, i), start, lo, end, |next|)
    ensures NodeAt(free, start, i) < |next|
    ensures Spells(next[NodeAt(free, start, i) := next[free[i].addr]], size, Without(free, i), start, end)
  {
    hide Canonical;
    var g := Without(free, i);
    WithoutAt(free, i);
    PlacedRemoved(free, i, start, lo, end, |next|);
    NodesDistinct(free, start, lo, end, |next|, i);
    var next' := next[NodeAt(free, start, i) := next[free[i].addr]];
    assert NodeAt(free, start, i + 1) == free[i].addr;
    forall k {:trigger NodeAt(g, start, k)} | 0 <= k <= |g|
      ensures next'[NodeAt(g, start, k)] == TargetAt(g, end, k)
    {
      var k' := if k <= i then k else k + 1;
      assert NodeAt(g, start, k) == NodeAt(free, start, k');
      assert TargetAt(g, end, k) == TargetAt(free, end, if k < i then k else k + 1);
    }
  }

  lemma PositionUnique(free: seq<Block>, addr: nat, k: nat)
    requires k <= |free|
    requires forall i :: 0 <= i < k ==> free[i].addr < addr
    requires k < |free| ==> addr <= free[k].addr
    ensures k == Position(free, addr)
  {
  }

  /** The two adjacency tests of the code, and what the block becomes. */
  lemma JoinedParts(free: seq<Block>, b: Block)
    ensures var k := Position(free, b.addr);
            && Joined(free, b).addr == (if First(free, b) < k then NodeAt(free, 0, k) else b.addr)
            && (First(free, b) < k <==> 0 < k && free[k - 1].End() == b.addr)
            && (k < Last(free, b) <==> k < |free| && b.End() == free[k].addr)
            && Joined(free, b).size == (if First(free, b) < k then free[k - 1].size else 0) + b.size
                                       + (if k < Last(free, b) then free[k].size else 0)
  {
  }

  lemma SpellsInitial(next: seq<nat>, size: seq<nat>, start: nat, lo: nat, end: nat)
    requires |next| == |size| && lo < end < |next| && start < |next| && !(lo <= start <= end)
    requires next[start] == lo && size[start] == 0 && size[end] == 0 && next[end] == 0
    requires size[lo] == end - lo && next[lo] == end
    ensures Placed(Initial(lo, end).free, start, lo, end, |next|)
    ensures Spells(next, size, Initial(lo, end).free, start, end)
  {
  }

  lemma FirstFitUnique(free: seq<Block>, want: nat, i: nat)
    requires i <= |free|
    requires forall j :: 0 <= j < i ==> free[j].size < want
    requires i < |free| ==> want <= free[i].size
    ensures i == FirstFit(free, want)
  {
  }

  /** Live headers carry their size with the top bit set, and no link. */
  ghost predicate Marked(next: seq<nat>, size: seq<nat>, live: seq<Block>)
    requires |next| == |size| && forall i :: 0 <= i < |live| ==> live[i].addr < |next|
  {
    forall i :: 0 <= i < |live| ==>
      size[live[i].addr] == live[i].size + ALLOCATED_BIT && next[live[i].addr] == 0
  }

  /** Memory changed at most at xStart and at addresses of these blocks. */
  ghost predicate ChangesIn(was: seq<nat>, now: seq<nat>, blocks: seq<Block>, start: nat) {
    && |was| == |now|
    && forall a: nat :: a < |now| && now[a] != was[a] ==> a == start || Covers(blocks, a)
  }

  lemma WithinKeeps(was: seq<nat>, now: seq<nat>, free: seq<Block>, b: Block, start: nat, a: nat)
    requires OnlyWithin(was, now, free, b, start) && a < |now| && a != start && a != b.addr
    requires forall i :: 0 <= i < |free| ==> free[i].addr != a
    ensures now[a] == was[a]
  {
  }

  lemma ChangesNothing(s: seq<nat>, blocks: seq<Block>, start: nat)
    ensures ChangesIn(s, s, blocks, start)
  {
  }

  lemma ChangesCompose(s: seq<nat>, t: seq<nat>, u: seq<nat>, blocks: seq<Block>, start: nat)
    requires ChangesIn(s, t, blocks, start) && ChangesIn(t, u, blocks, start)
    ensures ChangesIn(s, u, blocks, start)
  {
  }

  lemma ChangeAt(s: seq<nat>, a: nat, x: nat, blocks: seq<Block>, start: nat)
    requires a < |s| && (a == start || Covers(blocks, a))
    ensures ChangesIn(s, s[a := x], blocks, start)
  {
  }

  /** An insertion changes memory only within the free blocks and the inserted one. */
  lemma WithinChanges(was: seq<nat>, now: seq<nat>, free: seq<Block>, b: Block, blocks: seq<Block>, start: nat)
    requires OnlyWithin(was, now, free, b, start) && Covers(blocks, b.addr)
    requires forall i :: 0 <= i < |free| ==> Covers(blocks, free[i].addr)
    ensures ChangesIn(was, now, blocks, start)
  {
  }

  /** No header and no payload byte of these blocks has changed. */
  ghost predicate Untouched(was: seq<nat>, now: seq<nat>, live: seq<Block>) {
    && |was| == |now|
    && forall i, a: nat :: 0 <= i < |live| && live[i].Has(a) && a < |now| ==> now[a] == was[a]
  }

  lemma UntouchedMarked(next: seq<nat>, size: seq<nat>, next': seq<nat>, size': seq<nat>, live: seq<Block>)
    requires |next| == |size| && AllAligned(live) && forall i :: 0 <= i < |live| ==> live[i].addr < |next|
    requires Marked(next, size, live) && Untouched(next, next', live) && Untouched(size, size', live)
    ensures Marked(next', size', live)
  {
    forall i | 0 <= i < |live|
      ensures size'[live[i].addr] == live[i].size + ALLOCATED_BIT && next'[live[i].addr] == 0
    {
      assert live[i].Has(live[i].addr);
    }
  }

  /** A header that is on no list may be rewritten. */
  lemma SpellsElsewhere(next: seq<nat>, size: seq<nat>, free: seq<Block>, start: nat, lo: nat, end: nat,
                        a: nat, x: nat, y: nat)
    requires |next| == |size| && Placed(free, start, lo, end, |next|) && a < |next|
    requires Spells(next, size, free, start, end)
    requires a != start && a != end && forall i :: 0 <= i < |free| ==> free[i].addr != a
    ensures Spells(next[a := x], size[a := y], free, start, end)
  {
  }

  lemma GrantAddress(h: Heap, request: nat)
    requires Granted(h, request)
    ensures var i := FirstFit(h.free, Rounded(request));
            i < |h.free| && Grant(h, request).addr == h.free[i].addr && 0 < Rounded(request)
  {
    RoundedExact(request);
  }

  lemma GrantBytes(h: Heap, request: nat, lo: nat, end: nat)
    requires Granted(h, request) && Tiling(h, lo, end)
    ensures Canonical(h.free) && Grant(h, request).size <= Total(h.free)
    ensures Total(FreeAfterGrant(h, request)) == Total(h.free) - Grant(h, request).size
  {
    FreeAfterGrantCovers(h, request);
  }

  lemma LivePlacedInside(h: Heap, lo: nat, end: nat)
    requires Tiling(h, lo, end)
    ensures Inside(h.live, lo, end) && AllAligned(h.live)
  {
  }

  lemma UntouchedSame(s: seq<nat>, live: seq<Block>)
    ensures Untouched(s, s, live)
  {
  }

  lemma GrantedIff(h: Heap, request: nat)
    ensures Granted(h, request) <==>
            && 0 < request < ALLOCATED_BIT && Rounded(request) <= Total(h.free)
            && FirstFit(h.free, Rounded(request)) < |h.free|
    ensures 0 < request < ALLOCATED_BIT ==> 0 < Rounded(request)
  {
    if request < ALLOCATED_BIT { RoundedExact(request); }
  }

  lemma TopBit(request: nat)
    requires request < SIZE_MODULUS
    ensures request / ALLOCATED_BIT % 2 == 0 <==> request < ALLOCATED_BIT
  {
  }

  lemma UntouchedNothing(was: seq<nat>, now: seq<nat>)
    requires |was| == |now|
    ensures Untouched(was, now, [])
  {
  }

  lemma GrantIndex(h: Heap, request: nat)
    requires Granted(h, request)
    ensures FirstFit(h.free, Rounded(request)) < |h.free|
  {
  }

  lemma PlacedCanonical(free: seq<Block>, start: nat, lo: nat, end: nat, limit: nat)
    requires Placed(free, start, lo, end, limit)
    ensures Canonical(free) && lo <= end < limit && start < limit && !(lo <= start <= end)
  {
  }

  lemma SpellsSize(next: seq<nat>, size: seq<nat>, free: seq<Block>, i: nat, start: nat, lo: nat, end: nat)
    requires |next| == |size| && Placed(free, start, lo, end, |next|) && i < |free|
    requires Spells(next, size, free, start, end)
    ensures size[free[i].addr] == free[i].size
  {
  }

  lemma UnlinkChanges(next: seq<nat>, free: seq<Block>, i: nat, start: nat, lo: nat, end: nat, previous: nat, x: nat)
    requires Placed(free, start, lo, end, |next|) && i <= |free| && previous == NodeAt(free, start, i)
    ensures previous < |next| && ChangesIn(next, next[previous := x], free, start)
  {
    if i > 0 { HasOwnAddress(free, start, lo, end, |next|, i - 1); }
  }

  /** No address inside a free block is xStart, pxEnd, or the address of another free block. */
  lemma InsideOneBlock(free: seq<Block>, i: nat, start: nat, lo: nat, end: nat, limit: nat, a: nat)
    requires Placed(free, start, lo, end, limit) && i < |free| && free[i].Has(a)
    ensures a != start && a != end && a < limit && Covers(free, a)
    ensures forall j :: 0 <= j < |Without(free, i)| ==> Without(free, i)[j].addr != a
    ensures forall j :: 0 <= j < |Without(free, i)| ==> Covers(free, Without(free, i)[j].addr)
  {
    WithoutAt(free, i);
    HolderUnique(free, i, a);
    hide Canonical;
    forall j | 0 <= j < |Without(free, i)|
      ensures Without(free, i)[j].addr != a && Covers(free, Without(free, i)[j].addr)
    {
      var j' := if j < i then j else j + 1;
      HasOwnAddress(free, start, lo, end, limit, j');
    }
  }

  lemma HasOwnAddress(free: seq<Block>, start: nat, lo: nat, end: nat, limit: nat, j: nat)
    requires Placed(free, start, lo, end, limit) && j < |free|
    ensures free[j].Has(free[j].addr) && Covers(free, free[j].addr) && free[j].addr < limit
    ensures lo <= free[j].addr && free[j].End() <= end < limit
  {
  }

  /** Writing the sizes of the two halves leaves the rest of the free list as it is. */
  lemma HalvesElsewhere(next: seq<nat>, size: seq<nat>, free: seq<Block>, i: nat, wanted: nat,
                        start: nat, lo: nat, end: nat, size': seq<nat>)
    requires |next| == |size| && Placed(free, start, lo, end, |next|) && i < |free|
    requires Placed(Without(free, i), start, lo, end, |next|)
    requires Spells(next, size, Without(free, i), start, end) && 0 < wanted < free[i].size
    requires var b := free[i];
             b.addr + wanted < |next| && size' == size[b.addr + wanted := b.size - wanted][b.addr := wanted]
    ensures Spells(next, size', Without(free, i), start, end)
    ensures ChangesIn(size, size', free, start)
    ensures forall j :: 0 <= j < |Without(free, i)| ==> Covers(free, Without(free, i)[j].addr)
    ensures Covers(free, free[i].addr + wanted)
  {
    var b, rest := free[i], Without(free, i);
    var half := b.addr + wanted;
    InsideOneBlock(free, i, start, lo, end, |next|, b.addr);
    InsideOneBlock(free, i, start, lo, end, |next|, half);
    hide Placed, Spells, ChangesIn, Covers;
    var size1 := size[half := b.size - wanted];
    assert next[half := next[half]] == next && next[b.addr := next[b.addr]] == next;
    SpellsElsewhere(next, size, rest, start, lo, end, half, next[half], b.size - wanted);
    SpellsElsewhere(next, size1, rest, start, lo, end, b.addr, next[b.addr], wanted);
    ChangeAt(size, half, b.size - wanted, free, start);
    ChangeAt(size1, b.addr, wanted, free, start);
    ChangesCompose(size, size1, size', free, start);
  }

  /** The chosen block and what is left of it, as free[FirstFit] splits. */
  lemma GrantSplits(h: Heap, request: nat)
    requires Granted(h, request) && Canonical(h.free)
    ensures var i, want := FirstFit(h.free, Rounded(request)), Rounded(request);
            var b, got := h.free[i], Grant(h, request);
            && 0 < want <= b.size && got.addr == b.addr
            && (b.size - want > MINIMUM_BLOCK_SIZE ==>
                  got.size == want
                  && Apart(Without(h.free, i), Block(b.addr + want, b.size - want))
                  && FreeAfterGrant(h, request)
                     == InsertFree(Without(h.free, i), Block(b.addr + want, b.size - want)))
            && (b.size - want <= MINIMUM_BLOCK_SIZE ==>
                  got == b && FreeAfterGrant(h, request) == Without(h.free, i))
  {
    hide Canonical, Apart, InsertFree, Rounded, FirstFit, Total;
    RoundedExact(request);
    RemainderApart(h, request);
  }

  /** After an allocation: the free list is as spelled, the new block is marked, the others untouched. */
  lemma MarkGranted(h: Heap, request: nat, next0: seq<nat>, size0: seq<nat>, next: seq<nat>, size: seq<nat>,
                    start: nat, lo: nat, end: nat, next': seq<nat>, size': seq<nat>)
    requires Tiling(h, lo, end) && Granted(h, request) && |next0| == |size0| == |next| == |size|
    requires Placed(h.free, start, lo, end, |next|)
    requires Marked(next0, size0, h.live)
    requires ChangesIn(next0, next, h.free, start) && ChangesIn(size0, size, h.free, start)
    requires Placed(FreeAfterGrant(h, request), start, lo, end, |next|)
    requires Spells(next, size, FreeAfterGrant(h, request), start, end)
    requires size[Grant(h, request).addr] == Grant(h, request).size
    requires var got := Grant(h, request);
             next' == next[got.addr := 0] && size' == size[got.addr := got.size + ALLOCATED_BIT]
    ensures Spells(next', size', FreeAfterGrant(h, request), start, end)
    ensures Marked(next', size', h.live + [Grant(h, request)])
    ensures Untouched(next0, next', h.live) && Untouched(size0, size', h.live)
  {
    hide Tiling, Granted, Grant, FreeAfterGrant, Spells, Placed, ChangesIn, Untouched, Canonical, Covers;
    var got, free' := Grant(h, request), FreeAfterGrant(h, request);
    PlacedCanonical(h.free, start, lo, end, |next|);
    GrantElsewhere(h, request, start, lo, end, |next|);
    SpellsElsewhere(next, size, free', start, lo, end, got.addr, 0, got.size + ALLOCATED_BIT);
    ChangeAt(next, got.addr, 0, h.free, start);
    ChangeAt(size, got.addr, got.size + ALLOCATED_BIT, h.free, start);
    ChangesCompose(next0, next, next', h.free, start);
    ChangesCompose(size0, size, size', h.free, start);
    FreeChangesSpareLive(h, next0, next', start, lo, end);
    FreeChangesSpareLive(h, size0, size', start, lo, end);
    LivePlaced(h, lo, end);
    UntouchedMarked(next0, size0, next', size', h.live);
  }

  lemma LivePlaced(h: Heap, lo: nat, end: nat)
    requires Tiling(h, lo, end)
    ensures AllAligned(h.live) && forall i :: 0 <= i < |h.live| ==> h.live[i].addr < end
  {
  }

  /** The address of the granted block is free before, and on no list afterwards. */
  lemma GrantElsewhere(h: Heap, request: nat, start: nat, lo: nat, end: nat, limit: nat)
    requires Tiling(h, lo, end) && Granted(h, request) && Placed(h.free, start, lo, end, limit)
    ensures var a := Grant(h, request).addr;
            && Covers(h.free, a) && a != start && a != end && a < limit
            && forall i :: 0 <= i < |FreeAfterGrant(h, request)| ==> FreeAfterGrant(h, request)[i].addr != a
  {
    hide FreeAfterGrant;
    var got := Grant(h, request);
    GrantFits(h, request);
    GrantIsFree(h, request, lo, end);
    FreeAfterGrantCovers(h, request);
    var free' := FreeAfterGrant(h, request);
    assert got.Has(got.addr);
    forall i | 0 <= i < |free'| ensures free'[i].addr != got.addr {
      assert free'[i].Has(free'[i].addr);
      assert Covers(free', free'[i].addr);
    }
  }

  /** What only changes free addresses spares every live block. */
  lemma FreeChangesSpareLive(h: Heap, was: seq<nat>, now: seq<nat>, start: nat, lo: nat, end: nat)
    requires Tiling(h, lo, end) && ChangesIn(was, now, h.free, start) && !(lo <= start <= end)
    ensures Untouched(was, now, h.live)
  {
    forall i, a: nat | 0 <= i < |h.live| && h.live[i].Has(a)
      ensures !Covers(h.free, a) && a != start
    {
      assert Covers(h.live, a);
    }
  }

  /** Clearing the mark of a live block, and then inserting it into the free list. */
  lemma LiveElsewhere(h: Heap, i: nat, start: nat, lo: nat, end: nat, limit: nat)
    requires Tiling(h, lo, end) && Placed(h.free, start, lo, end, limit) && i < |h.live|
    ensures var b := h.live[i];
            && b.addr != start && b.addr != end && b.addr < limit && lo <= b.addr && b.End() <= end && 0 < b.size
            && Apart(h.free, b) && b.size < end - lo + 1
            && (forall j :: 0 <= j < |h.free| ==> h.free[j].addr != b.addr)
            && Covers(h.free + [b], b.addr)
            && (forall j :: 0 <= j < |h.free| ==> Covers(h.free + [b], h.free[j].addr))
  {
    LiveApartFromFree(h, lo, end, i);
    var b := h.live[i];
    assert b.Has(b.addr);
    CoversAppend(h.free, b, b.addr);
    forall j | 0 <= j < |h.free| ensures Covers(h.free + [b], h.free[j].addr) {
      assert (h.free + [b])[j].Has(h.free[j].addr);
    }
  }

  /** What only changes free addresses and those of one live block spares all the other live blocks. */
  lemma FreeingSparesLive(h: Heap, i: nat, was: seq<nat>, now: seq<nat>, start: nat, lo: nat, end: nat)
    requires Tiling(h, lo, end) && i < |h.live| && !(lo <= start <= end)
    requires ChangesIn(was, now, h.free + [h.live[i]], start)
    ensures Untouched(was, now, Without(h.live, i))
  {
    var rest, b := Without(h.live, i), h.live[i];
    WithoutAt(h.live, i);
    forall j, a: nat | 0 <= j < |rest| && rest[j].Has(a)
      ensures !Covers(h.free + [b], a) && a != start
    {
      CoversAppend(h.free, b, a);
      assert h.live[if j < i then j else j + 1].Has(a);
      assert Covers(h.live, a);
      if b.Has(a) { HolderUnique(h.live, i, a); }
    }
  }

  lemma MarkedWithout(next: seq<nat>, size: seq<nat>, live: seq<Block>, i: nat)
    requires |next| == |size| && i < |live| && forall j :: 0 <= j < |live| ==> live[j].addr < |next|
    requires Marked(next, size, live)
    ensures forall j :: 0 <= j < |Without(live, i)| ==> Without(live, i)[j].addr < |next|
    ensures Marked(next, size, Without(live, i))
  {
    WithoutAt(live, i);
  }

  lemma MarkedAt(next: seq<nat>, size: seq<nat>, live: seq<Block>, i: nat)
    requires |next| == |size| && i < |live| && forall j :: 0 <= j < |live| ==> live[j].addr < |next|
    requires Marked(next, size, live)
    ensures size[live[i].addr] == live[i].size + ALLOCATED_BIT && next[live[i].addr] == 0
  {
  }

  lemma LiveOnce(h: Heap, i: nat, lo: nat, end: nat)
    requires Tiling(h, lo, end) && i < |h.live|
    ensures forall j :: 0 <= j < |h.live| && h.live[j].addr == h.live[i].addr ==> j == i
  {
    HolderUnique(h.live, i, h.live[i].addr);
    forall j | 0 <= j < |h.live| && h.live[j].addr == h.live[i].addr ensures j == i {
      assert h.live[j].Has(h.live[i].addr);
    }
  }

  lemma LiveSize(h: Heap, i: nat, lo: nat, end: nat)
    requires Tiling(h, lo, end) && i < |h.live|
    ensures h.live[i].size <= end - lo
  {
  }

  /** A payload address is on no list and is no header. */
  lemma StoreInPayload(h: Heap, i: nat, a: nat, start: nat, lo: nat, end: nat, limit: nat)
    requires Tiling(h, lo, end) && Placed(h.free, start, lo, end, limit) && i < |h.live|
    requires h.live[i].addr < a < h.live[i].End()
    ensures a != start && a != end && a < limit
    ensures forall j :: 0 <= j < |h.free| ==> h.free[j].addr != a
    ensures forall j :: 0 <= j < |h.live| ==> h.live[j].addr != a
  {
    LiveApartFromFree(h, lo, end, i);
    HolderUnique(h.live, i, a);
    forall j | 0 <= j < |h.live| ensures h.live[j].addr != a {
      assert h.live[j].addr == a ==> h.live[j].Has(a);
    }
  }

  lemma MarkedElsewhere(next: seq<nat>, size: seq<nat>, live: seq<Block>, a: nat, x: nat, y: nat)
    requires |next| == |size| && a < |next| && forall j :: 0 <= j < |live| ==> live[j].addr < |next|
    requires Marked(next, size, live) && forall j :: 0 <= j < |live| ==> live[j].addr != a
    ensures Marked(next[a := x], size[a := y], live)
  {
  }

  class Allocator {
    var next: seq<nat>         // memory: pxNextFreeBlock of the header at an address
    var size: seq<nat>         // memory: xBlockSize of the header at an address
    const heapBase: nat        // ucHeap
    const heapSize: nat        // configTOTAL_HEAP_SIZE
    const start: nat           // the address of xStart, outside the heap
    var pxEnd: nat             // 0 until the heap is initialised
    var freeBytesRemaining: nat
    var minimumEverFreeBytesRemaining: nat
    var blockAllocatedBit: nat
    ghost var heap: Heap

    ghost predicate Config()
    {
      && 0 < heapBase && 24 <= heapSize < ALLOCATED_BIT && heapBase + heapSize <= SIZE_MODULUS
      && 0 < start < SIZE_MODULUS && !(heapBase <= start < heapBase + heapSize)
    }

    /** The aligned start of the heap, and the place of the end marker. */
    ghost function Lo(): nat {
      if heapBase % ALIGNMENT == 0 then heapBase else heapBase + 7 - (heapBase + 7) % ALIGNMENT
    }

    ghost function Hi(): nat
      requires Config()
    {
      heapBase + heapSize - HEADER_SIZE - (heapBase + heapSize - HEADER_SIZE) % ALIGNMENT
    }

    ghost predicate InMemory(h: Heap)
      requires Config()
      reads this
    {
      && |next| == |size| == SIZE_MODULUS
      && Placed(h.free, start, Lo(), Hi(), SIZE_MODULUS) && Inside(h.live, Lo(), Hi())
      && AllAligned(h.live)
      && Spells(next, size, h.free, start, Hi())
      && Marked(next, size, h.live)
    }

    ghost predicate Valid()
      reads this
    {
      && Config() && |next| == |size| == SIZE_MODULUS
      && if pxEnd == 0 then
           blockAllocatedBit == freeBytesRemaining == minimumEverFreeBytesRemaining == 0
           && heap == Heap([], [], 0)
         else
           && pxEnd == Hi() && blockAllocatedBit == ALLOCATED_BIT
           && Tiling(heap, Lo(), Hi()) && InMemory(heap)
           && freeBytesRemaining == Total(heap.free) && minimumEverFreeBytesRemaining == heap.minEver
    }

    /** The heap that a call of pvPortMalloc works on: the first call initialises it. */
    ghost function Ready(): Heap
      requires Config()
      reads this
    {
      if pxEnd == 0 then Initial(Lo(), Hi()) else heap
    }

    lemma Layout()
      requires Config()
      ensures heapBase <= Lo() < Hi() && Hi() + HEADER_SIZE <= heapBase + heapSize
      ensures Lo() % ALIGNMENT == 0 && Hi() % ALIGNMENT == 0
      ensures Lo() < heapBase + 8 && heapBase + heapSize < Hi() + 16
      ensures !(Lo() <= start <= Hi())
    {
    }

    constructor (base: nat, bytes: nat, startAddress: nat)
      requires 0 < base && 24 <= bytes < ALLOCATED_BIT && base + bytes <= SIZE_MODULUS
      requires 0 < startAddress < SIZE_MODULUS && !(base <= startAddress < base + bytes)
      ensures Valid() && pxEnd == 0
      ensures heapBase == base && heapSize == bytes && start == startAddress
    {
      next, size := seq(SIZE_MODULUS, _ => 0), seq(SIZE_MODULUS, _ => 0);
      heapBase, heapSize, start := base, bytes, startAddress;
      pxEnd, freeBytesRemaining, minimumEverFreeBytesRemaining, blockAllocatedBit := 0, 0, 0, 0;
      heap := Heap([], [], 0);
    }

    /** prvHeapInit */
    method HeapInit()
      requires Valid() && pxEnd == 0
      modifies this
      ensures Valid() && pxEnd != 0 && heap == Initial(Lo(), Hi())
      ensures heapBase <= Lo() < heapBase + 8 && Lo() % 8 == 0
      ensures heapBase + heapSize - 16 < Hi() <= heapBase + heapSize - 8 && Hi() % 8 == 0
    {
      Layout();
      var totalHeapSize := heapSize;
      var address := heapBase;
      if address % ALIGNMENT != 0 {
        address := address + (ALIGNMENT - 1);
        address := address - address % ALIGNMENT;
        totalHeapSize := totalHeapSize - (address - heapBase);
      }
      var alignedHeap := address;
      assert alignedHeap == Lo();
      next := next[start := alignedHeap];
      size := size[start := 0];
      address := alignedHeap + totalHeapSize;
      address := address - HEADER_SIZE;
      address := address - address % ALIGNMENT;
      assert address == Hi();
      InitialTiling(Lo(), Hi());
      hide Lo, Hi, Tiling;
      pxEnd := address;
      size := size[pxEnd := 0];
      next := next[pxEnd := 0];
      size := size[alignedHeap := address - alignedHeap];
      next := next[alignedHeap := pxEnd];
      minimumEverFreeBytesRemaining := size[alignedHeap];
      freeBytesRemaining := size[alignedHeap];
      blockAllocatedBit := ALLOCATED_BIT;
      heap := Initial(Lo(), Hi());
      SpellsInitial(next, size, start, Lo(), Hi());
    }

    /** The search of prvInsertBlockIntoFreeList: the last node in front of the block. */
    method FindPlace(block: nat, ghost free: seq<Block>) returns (walker: nat, ghost k: nat)
      requires Config() && |next| == |size| == SIZE_MODULUS
      requires Placed(free, start, Lo(), Hi(), SIZE_MODULUS)
      requires Spells(next, size, free, start, Hi())
      requires Lo() <= block < Hi() && forall i :: 0 <= i < |free| ==> free[i].addr != block
      ensures k == Position(free, block) && walker == NodeAt(free, start, k) && walker < SIZE_MODULUS
      ensures next[walker] == TargetAt(free, Hi(), k)
    {
      hide Lo, Hi;
      ghost var nx := next;
      k := 0;
      walker := start;
      assert NodeAt(free, start, 0) == start;
      while next[walker] < block
        invariant k <= |free| && walker == NodeAt(free, start, k) && walker < SIZE_MODULUS
        invariant next[walker] == TargetAt(free, Hi(), k)
        invariant forall i :: 0 <= i < k ==> free[i].addr < block
        decreases |free| - k
      {
        walker := next[walker];
        k := k + 1;
        assert nx[NodeAt(free, start, k)] == TargetAt(free, Hi(), k);
      }
      PositionUnique(free, block, k);
    }

    /** The part of prvInsertBlockIntoFreeList behind its search loop. */
    method LinkBehind(walker: nat, inserted: nat)
      requires |next| == |size| && walker < |next| && inserted < |next| && next[walker] < |next|
      requires walker != inserted && next[walker] != walker && next[walker] != inserted
      modifies this`next, this`size
      ensures CodeEffect(old(next), old(size), walker, inserted, pxEnd, next, size)
    {
      var block := inserted;
      ghost var nx, sz := next, size;
      // Do the block and the one it is inserted behind touch?
      if walker + size[walker] == block {
        size := size[walker := size[walker] + size[block]];
        block := walker;
      }
      // Do the block and the one it is inserted in front of touch?
      if block + size[block] == next[walker] {
        if next[walker] != pxEnd {
          size := size[block := size[block] + size[next[walker]]];
          next := next[block := next[next[walker]]];
        } else {
          next := next[block := pxEnd];
        }
      } else {
        next := next[block := next[walker]];
      }
      if walker != block {
        next := next[walker := block];
      }
      assert size == sz[block := size[block]];
    }

    /** prvInsertBlockIntoFreeList */
    method InsertBlockIntoFreeList(blockToInsert: nat, ghost free: seq<Block>)
      requires Config() && |next| == |size| == SIZE_MODULUS && pxEnd == Hi()
      requires Placed(free, start, Lo(), Hi(), SIZE_MODULUS) && Spells(next, size, free, start, Hi())
      requires Lo() <= blockToInsert < Hi() && 0 < size[blockToInsert]
      requires blockToInsert + size[blockToInsert] <= Hi()
      requires Apart(free, Block(blockToInsert, size[blockToInsert]))
      modifies this`next, this`size
      ensures |next| == |size| == SIZE_MODULUS
      ensures var g := InsertFree(free, Block(blockToInsert, old(size[blockToInsert])));
              Placed(g, start, Lo(), Hi(), SIZE_MODULUS) && Spells(next, size, g, start, Hi())
      ensures var b := Block(blockToInsert, old(size[blockToInsert]));
              OnlyWithin(old(next), next, free, b, start) && OnlyWithin(old(size), size, free, b, start)
    {
      ghost var b := Block(blockToInsert, size[blockToInsert]);
      ghost var nx, sz := next, size;
      var walker, k := FindPlace(blockToInsert, free);
      CodeTests(nx, sz, free, b, k, walker, start, Lo(), Hi());
      hide Lo, Hi, InsertFree, Canonical, Apart, OnlyWithin, Spells, Placed, First, Last, Joined, Position,
        NodeAt, TargetAt, Writes, CodeEffect;
      LinkBehind(walker, blockToInsert);
      CodeWrites(nx, sz, free, b, walker, start, Lo(), Hi(), next, size);
      WritesOnlyWithin(nx, sz, free, b, start, next, size);
      SpellsInserted(nx, sz, free, b, start, Lo(), Hi(), next, size);
    }

    /** The search of pvPortMalloc: the first block that is large enough, or the end marker. */
    method FindFit(wanted: nat) returns (previous: nat, block: nat)
      requires Valid() && pxEnd != 0 && 0 < wanted
      ensures var i := FirstFit(heap.free, wanted);
              && previous == NodeAt(heap.free, start, i) < SIZE_MODULUS
              && block == TargetAt(heap.free, pxEnd, i) == next[previous]
              && (block == pxEnd <==> i == |heap.free|)
              && (i < |heap.free| ==> block == heap.free[i].addr < SIZE_MODULUS)
    {
      Layout();
      hide Tiling;
      ghost var free, i := heap.free, 0;
      assert NodeAt(free, start, 0) == start;
      previous := start;
      block := next[start];
      while size[block] < wanted && next[block] != 0
        invariant i <= |free| && previous == NodeAt(free, start, i) < SIZE_MODULUS
        invariant block == TargetAt(free, pxEnd, i) == next[previous]
        invariant forall j :: 0 <= j < i ==> free[j].size < wanted
        decreases |free| - i
      {
        previous := block;
        block := next[block];
        i := i + 1;
        assert next[NodeAt(free, start, i)] == TargetAt(free, pxEnd, i);
      }
      assert i < |free| ==> next[NodeAt(free, start, i + 1)] == TargetAt(free, pxEnd, i + 1) != 0;
      FirstFitUnique(free, wanted, i);
    }

    /** Cuts a block, no longer on the free list, down to size and puts what is left back on the list. */
    method Split(block: nat, wanted: nat, ghost free: seq<Block>, ghost i: nat)
      requires Config() && pxEnd == Hi() && |next| == |size| == SIZE_MODULUS
      requires Placed(free, start, Lo(), Hi(), SIZE_MODULUS) && i < |free|
      requires Placed(Without(free, i), start, Lo(), Hi(), SIZE_MODULUS)
      requires Spells(next, size, Without(free, i), start, Hi())
      requires block == free[i].addr < SIZE_MODULUS && size[block] == free[i].size && 0 < wanted < size[block]
      requires Apart(Without(free, i), Block(block + wanted, size[block] - wanted))
      modifies this`next, this`size
      ensures |next| == |size| == SIZE_MODULUS && size[block] == wanted
      ensures var g := InsertFree(Without(free, i), Block(block + wanted, free[i].size - wanted));
              Placed(g, start, Lo(), Hi(), SIZE_MODULUS) && Spells(next, size, g, start, Hi())
      ensures ChangesIn(old(next), next, free, start) && ChangesIn(old(size), size, free, start)
    {
      hide Lo, Hi, Placed, Spells, InsertFree, Apart, Covers, ChangesIn, OnlyWithin, Without, Canonical;
      ghost var rest, b := Without(free, i), free[i];
      ghost var nx, sz := next, size;
      HasOwnAddress(free, start, Lo(), Hi(), SIZE_MODULUS, i);
      InsideOneBlock(free, i, start, Lo(), Hi(), SIZE_MODULUS, block);
      var newBlock := block + wanted;
      ghost var half := Block(newBlock, b.size - wanted);
      size := size[newBlock := size[block] - wanted];
      size := size[block := wanted];
      ghost var sz2 := size;
      HalvesElsewhere(nx, sz, free, i, wanted, start, Lo(), Hi(), sz2);
      InsertBlockIntoFreeList(newBlock, rest);
      WithinKeeps(sz2, size, rest, half, start, block);
      WithinChanges(nx, next, rest, half, free, start);
      WithinChanges(sz2, size, rest, half, free, start);
      ChangesCompose(sz, sz2, size, free, start);
    }

    /** Takes the chosen block out of the free list and gives back what is not needed of it. */
    method Carve(previous: nat, block: nat, wanted: nat, ghost request: nat)
      requires Config() && pxEnd == Hi() && |next| == |size| == SIZE_MODULUS
      requires Placed(heap.free, start, Lo(), Hi(), SIZE_MODULUS) && Spells(next, size, heap.free, start, Hi())
      requires Granted(heap, request) && wanted == Rounded(request)
      requires var i := FirstFit(heap.free, wanted);
               previous == NodeAt(heap.free, start, i) < SIZE_MODULUS && block == heap.free[i].addr < SIZE_MODULUS
      modifies this`next, this`size
      ensures |next| == |size| == SIZE_MODULUS
      ensures var free := FreeAfterGrant(heap, request);
              Placed(free, start, Lo(), Hi(), SIZE_MODULUS) && Spells(next, size, free, start, Hi())
      ensures size[block] == Grant(heap, request).size
      ensures ChangesIn(old(next), next, heap.free, start) && ChangesIn(old(size), size, heap.free, start)
    {
      hide Lo, Hi, Placed, Spells, Granted, Grant, FreeAfterGrant, InsertFree, Apart, Rounded, Covers, ChangesIn,
        FirstFit, Without, NodeAt, Canonical;
      ghost var free, i := heap.free, FirstFit(heap.free, wanted);
      ghost var nx, sz := next, size;
      GrantIndex(heap, request);
      PlacedCanonical(free, start, Lo(), Hi(), SIZE_MODULUS);
      GrantSplits(heap, request);
      SpellsRemoved(nx, sz, free, i, start, Lo(), Hi());
      HasOwnAddress(free, start, Lo(), Hi(), SIZE_MODULUS, i);
      UnlinkChanges(nx, free, i, start, Lo(), Hi(), previous, nx[block]);
      SpellsSize(nx, sz, free, i, start, Lo(), Hi());
      next := next[previous := next[block]];
      ghost var nx1 := next;
      if size[block] - wanted > MINIMUM_BLOCK_SIZE {
        Split(block, wanted, free, i);
        ChangesCompose(nx, nx1, next, free, start);
      } else {
        ChangesNothing(sz, free, start);
      }
    }

    /** The part of pvPortMalloc that follows a successful search. */
    method Take(previous: nat, block: nat, wanted: nat, ghost request: nat) returns (pv: nat)
      requires Valid() && pxEnd != 0 && Granted(heap, request) && wanted == Rounded(request)
      requires var i := FirstFit(heap.free, wanted);
               previous == NodeAt(heap.free, start, i) < SIZE_MODULUS
               && block == heap.free[i].addr == next[previous] < SIZE_MODULUS
      modifies this
      ensures Valid() && heap == HeapModel.Malloc(old(heap), request)
      ensures pv == Grant(old(heap), request).addr + HEADER_SIZE
      ensures Untouched(old(next), next, old(heap.live)) && Untouched(old(size), size, old(heap.live))
    {
      hide Granted, Grant, FreeAfterGrant, Tiling, Placed, Spells, Marked, ChangesIn, Untouched, Rounded, FirstFit,
        Total, NodeAt, Lo, Hi, Canonical, AllAligned, Inside;
      ghost var h, nx, sz := heap, next, size;
      GrantAddress(h, request);
      GrantBytes(h, request, Lo(), Hi());
      pv := next[previous] + HEADER_SIZE;
      Carve(previous, block, wanted, request);
      freeBytesRemaining := freeBytesRemaining - size[block];
      if freeBytesRemaining < minimumEverFreeBytesRemaining {
        minimumEverFreeBytesRemaining := freeBytesRemaining;
      }
      ghost var nx1, sz1 := next, size;
      size := size[block := size[block] + blockAllocatedBit];
      next := next[block := 0];
      heap := HeapModel.Malloc(h, request);
      MarkGranted(h, request, nx, sz, nx1, sz1, start, Lo(), Hi(), next, size);
      MallocKeepsTiling(h, request, Lo(), Hi());
      LivePlacedInside(heap, Lo(), Hi());
    }

    /** The size adjustment of pvPortMalloc, in 32-bit arithmetic. */
    method Adjust(request: nat) returns (wanted: nat)
      ensures wanted == if request == 0 then 0 else Rounded(request)
      ensures 0 < request < ALLOCATED_BIT ==>
                wanted % ALIGNMENT == 0 && request + HEADER_SIZE <= wanted < request + HEADER_SIZE + ALIGNMENT
    {
      wanted := request;
      if wanted > 0 {
        wanted := (wanted + HEADER_SIZE) % SIZE_MODULUS;
        if wanted % ALIGNMENT != 0 {
          wanted := (wanted + (ALIGNMENT - wanted % ALIGNMENT)) % SIZE_MODULUS;
        }
      }
    }

    /** pvPortMalloc */
    method Malloc(request: nat) returns (pv: nat)
      requires Valid() && request < SIZE_MODULUS
      modifies this
      ensures Valid() && heap == HeapModel.Malloc(old(Ready()), request)
      ensures pv == if Granted(old(Ready()), request) then Grant(old(Ready()), request).addr + 8 else 0
      ensures Untouched(old(next), next, old(heap.live)) && Untouched(old(size), size, old(heap.live))
    {
      hide Granted, Grant, FreeAfterGrant, Tiling, Placed, Spells, Marked, Untouched, NodeAt, TargetAt, Lo, Hi,
        Canonical, Rounded, FirstFit, Total, InMemory, Initial;
      pv := 0;
      if pxEnd == 0 {
        HeapInit();
      }
      GrantedIff(heap, request);
      TopBit(request);
      UntouchedSame(next, heap.live);
      UntouchedSame(size, heap.live);
      if request / blockAllocatedBit % 2 == 0 {
        var wanted := Adjust(request);
        if wanted > 0 && wanted <= freeBytesRemaining {
          var previous, block := FindFit(wanted);
          if block != pxEnd {
            pv := Take(previous, block, wanted, request);
          }
        }
      }
      UntouchedNothing(old(next), next);
      UntouchedNothing(old(size), size);
    }

    /** The header test of vPortFree: marked as allocated, and not linked. */
    predicate LooksAllocated(link: nat)
      requires link < |size| && |next| == |size|
      reads this
    {
      size[link] / ALLOCATED_BIT % 2 != 0 && next[link] == 0
    }

    ghost predicate IsLive(link: nat)
      reads this
    {
      exists i :: 0 <= i < |heap.live| && heap.live[i].addr == link
    }

    /** Returns the i-th live block to the free list. */
    method Release(link: nat, ghost i: nat)
      requires Valid() && pxEnd != 0 && i < |heap.live| && heap.live[i].addr == link
      modifies this
      ensures Valid() && heap == HeapModel.Free(old(heap), i) && pxEnd == old(pxEnd)
      ensures Untouched(old(next), next, heap.live) && Untouched(old(size), size, heap.live)
    {
      hide Tiling, Placed, Spells, Marked, ChangesIn, OnlyWithin, Untouched, Apart, Total, Lo, Hi, Canonical,
        AllAligned,
        Inside, InsertFree, Covers;
      ghost var h, nx, sz, b := heap, next, size, heap.live[i];
      PlacedCanonical(h.free, start, Lo(), Hi(), SIZE_MODULUS);
      LiveElsewhere(h, i, start, Lo(), Hi(), SIZE_MODULUS);
      LivePlaced(h, Lo(), Hi());
      MarkedAt(nx, sz, h.live, i);
      size := size[link := size[link] - blockAllocatedBit];
      ghost var sz1 := size;
      SpellsElsewhere(nx, sz, h.free, start, Lo(), Hi(), link, nx[link], b.size);
      assert nx[link := nx[link]] == nx;
      ChangeAt(sz, link, b.size, h.free + [b], start);
      freeBytesRemaining := freeBytesRemaining + size[link];
      InsertBlockIntoFreeList(link, h.free);
      WithinChanges(nx, next, h.free, b, h.free + [b], start);
      WithinChanges(sz1, size, h.free, b, h.free + [b], start);
      ChangesCompose(sz, sz1, size, h.free + [b], start);
      FreeingSparesLive(h, i, nx, next, start, Lo(), Hi());
      FreeingSparesLive(h, i, sz, size, start, Lo(), Hi());
      MarkedWithout(nx, sz, h.live, i);
      heap := HeapModel.Free(h, i);
      FreeKeepsTiling(h, i, Lo(), Hi());
      InsertFreeTotal(h.free, b);
      LivePlaced(heap, Lo(), Hi());
      LivePlacedInside(heap, Lo(), Hi());
      UntouchedMarked(nx, sz, next, size, heap.live);
    }

    /**
     vPortFree. Of a pointer that is not live, all the source demands is that its header does not look
     allocated; then the call changes nothing.
     */
    method Free(pv: nat)
      requires Valid()
      requires pv != 0 ==> HEADER_SIZE <= pv < SIZE_MODULUS + HEADER_SIZE
      requires pv != 0 && LooksAllocated(pv - HEADER_SIZE) ==> IsLive(pv - HEADER_SIZE)
      modifies this
      ensures Valid()
      ensures pv != 0 && old(IsLive(pv - HEADER_SIZE)) ==>
                forall i :: 0 <= i < |old(heap).live| && old(heap).live[i].addr == pv - HEADER_SIZE ==>
                  heap == HeapModel.Free(old(heap), i)
      ensures pv == 0 || !old(IsLive(pv - HEADER_SIZE)) ==>
                heap == old(heap) && next == old(next) && size == old(size)
      ensures Untouched(old(next), next, heap.live) && Untouched(old(size), size, heap.live)
    {
      hide Tiling, Placed, Spells, Marked, Untouched, Lo, Hi, Total, HeapModel.Free;
      UntouchedSame(next, heap.live);
      UntouchedSame(size, heap.live);
      if pv != 0 {
        var link := pv - HEADER_SIZE;
        if IsLive(link) { LiveLooksAllocated(link); }
        if size[link] / ALLOCATED_BIT % 2 != 0 {
          if next[link] == 0 {
            ghost var i :| 0 <= i < |heap.live| && heap.live[i].addr == link;
            LiveOnce(heap, i, Lo(), Hi());
            Release(link, i);
          }
        }
      }
    }

    lemma LiveLooksAllocated(link: nat)
      requires Valid() && link < SIZE_MODULUS && IsLive(link)
      ensures LooksAllocated(link) && pxEnd != 0
    {
      hide Spells, Links, Sizes, Tiling, Placed, Total;
      var i :| 0 <= i < |heap.live| && heap.live[i].addr == link;
      LivePlaced(heap, Lo(), Hi());
      MarkedAt(next, size, heap.live, i);
      LiveSize(heap, i, Lo(), Hi());
    }

    /** The application stores into its own block: nothing the allocator relies on changes. */
    method Store(a: nat, ghost i: nat, link: nat, value: nat)
      requires Valid() && i < |heap.live| && a % ALIGNMENT == 0
      requires heap.live[i].addr + HEADER_SIZE <= a < heap.live[i].End()
      modifies this
      ensures Valid() && heap == old(heap) && pxEnd == old(pxEnd)
      ensures next == old(next)[a := link] && size == old(size)[a := value]
    {
      StoreInPayload(heap, i, a, start, Lo(), Hi(), SIZE_MODULUS);
      hide Tiling, Placed, Spells, Marked, Lo, Hi, Total;
      SpellsElsewhere(next, size, heap.free, start, Lo(), Hi(), a, link, value);
      LivePlaced(heap, Lo(), Hi());
      MarkedElsewhere(next, size, heap.live, a, link, value);
      next := next[a := link];
      size := size[a := value];
    }
  }
}
