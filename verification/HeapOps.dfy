/** What `malloc` and `free` of kernel/src/liballoc.c do to the heap, and the
    invariant both keep. */
module HeapOps {
  import opened Words
  import opened Headers
  import opened HeapModel

  /** The largest request whose region stays below 2^31 bytes. */
  const MAX_REQUEST: int := 0x7FFF_EFE0

  // ---------- size classes ----------

  function Log2(n: int): (e: nat)
    decreases n
  {
    if n < 2 then 0 else 1 + Log2(n / 2)
  }

  /** -1 below 2^MINEXP, otherwise the e with 2^e <= size < 2^(e+1). */
  function Exponent(size: int): int {
    if size < 256 then -1 else Log2(size)
  }

  lemma {:induction false} Log2Bounds(n: int)
    requires n >= 1
    ensures Pow2(Log2(n)) <= n < Pow2(Log2(n) + 1)
    decreases n
  {
    if n < 2 {
    } else {
      Log2Bounds(n / 2);
    }
  }

  lemma {:induction false} Log2Unique(n: int, e: nat)
    requires Pow2(e) <= n < Pow2(e + 1)
    ensures Log2(n) == e
    decreases e
  {
    Pow2Monotone(0, e);
    if e == 0 {
    } else {
      Log2Unique(n / 2, e - 1);
    }
  }

  lemma ExponentRange(size: int)
    ensures size < WORD_LIMIT ==> Exponent(size) < MAXEXP
  {
    if 256 <= size < WORD_LIMIT {
      Log2Bounds(size);
      assert Pow2(8) == 256 && Pow2(16) == 0x1_0000 && Pow2(24) == 0x100_0000 && Pow2(32) == 0x1_0000_0000;
      if Log2(size) >= 32 { Pow2Monotone(32, Log2(size)); }
    }
  }

  /** The free list for blocks with `size` bytes of room. */
  function ListIndex(size: int): (i: int)
    ensures MINEXP <= i && (size < WORD_LIMIT ==> i < MAXEXP)
  {
    ExponentRange(size);
    var e := Exponent(size);
    if e < MINEXP then MINEXP else e
  }

  // ---------- malloc ----------

  predicate Fits(h: Heap, a: int, size: int) {
    a in h.blocks && h.blocks[a].realSize - HEADER >= size + HEADER
  }

  /** The first block of `s` that can hold `size` bytes and another header, or NULL. */
  function FirstFit(h: Heap, s: seq<int>, size: int): (r: int)
    ensures r == 0 || (r in s && Fits(h, r, size))
    ensures r == 0 && 0 !in s ==> forall a :: a in s ==> !Fits(h, a, size)
  {
    if s == [] then 0
    else if Fits(h, s[0], size) then s[0]
    else
      assert forall a :: a in s ==> a == s[0] || a in s[1..];
      FirstFit(h, s[1..], size)
  }

  function PagesFor(size: int): int {
    var usage := size + HEADER;
    var pages := usage / 4096 + (if usage % 4096 != 0 then 1 else 0);
    if pages < MIN_PAGES then MIN_PAGES else pages
  }

  /** The least number of pages, but no less than sixteen, that hold the request
      and its header. */
  lemma PagesForIsLeast(size: int, n: int)
    requires 0 <= size
    ensures MIN_PAGES <= PagesFor(size) && size + HEADER <= PagesFor(size) * 4096
    ensures MIN_PAGES <= n && size + HEADER <= n * 4096 ==> PagesFor(size) <= n
  {
  }

  /** Take a free block off its list. */
  ghost function Take(h: Heap, a: int): Heap
    requires a in h.blocks && 0 <= h.blocks[a].index < |h.lists| <= |h.complete|
  {
    var i := h.blocks[a].index;
    var h1 := Unlist(h, a);
    if Whole(h, a) then h1.(complete := h1.complete[i := h1.complete[i] - 1]) else h1
  }

  /** Cut off what block `a` does not need for `size` bytes, if that can hold a
      header and at least 256 bytes. */
  ghost function Trim(h: Heap, a: int, size: int): Heap
    requires a in h.blocks && |h.lists| == MAXEXP && h.blocks[a].realSize - size - 2 * HEADER < WORD_LIMIT && size >= 0
  {
    var rest := h.blocks[a].realSize - size - 2 * HEADER;
    var n := a + HEADER + size;
    if rest >= 256 then Enlist(Split(h, a, n), n, ListIndex(rest)) else h
  }

  /** Hand the unlisted block `a` to a caller who asked for `size` bytes. */
  ghost function Place(h: Heap, a: int, size: int): Heap
    requires a in h.blocks && |h.lists| == MAXEXP && h.blocks[a].realSize - size - 2 * HEADER < WORD_LIMIT && size >= 0
  {
    Trim(h.(live := h.live[a := size]), a, size)
  }

  // ---------- free ----------

  /** The free block that ends where `a` starts, in the same region, or NULL. */
  ghost function FreeLeft(h: Heap, a: int): (l: int)
    ensures l != 0 ==> IsNext(h, l, a) && h.blocks[l].index >= 0
  {
    if exists l :: IsNext(h, l, a) && h.blocks[l].index >= 0
    then var l :| IsNext(h, l, a) && h.blocks[l].index >= 0; l
    else 0
  }

  /** The free block that follows `a` in the same region, or NULL. */
  ghost function FreeRight(h: Heap, a: int): (r: int)
    requires a in h.blocks
    ensures r != 0 ==> IsNext(h, a, r) && h.blocks[r].index >= 0
  {
    var e := a + h.blocks[a].realSize;
    if IsNext(h, a, e) && h.blocks[e].index >= 0 then e else 0
  }

  ghost function Release(h: Heap, a: int): Heap {
    h.(live := h.live - {a})
  }

  /** Block `a` joins its left neighbour `l`, which leaves its list. */
  ghost function JoinLeft(h: Heap, l: int, a: int): Heap
    requires l in h.blocks && a in h.blocks && l != a && 0 <= h.blocks[l].index < |h.lists|
  {
    Unlist(Merge(h, l, a), l)
  }

  /** The right neighbour `r` leaves its list and joins block `a`. */
  ghost function JoinRight(h: Heap, a: int, r: int): Heap
    requires a in h.blocks && r in h.blocks && 0 <= h.blocks[r].index < |h.lists|
  {
    Merge(Unlist(h, r), a, r)
  }

  /** A whole region goes back to the page allocator when enough wait already. */
  ghost predicate Surplus(h: Heap, a: int)
    requires a in h.blocks
  {
    var i := ListIndex(h.blocks[a].realSize - HEADER);
    Whole(h, a) && i < |h.complete| && h.complete[i] == MAX_COMPLETE
  }

  /** Put the coalesced block `a` away. */
  ghost function Retire(h: Heap, a: int): Heap
    requires a in h.blocks && |h.lists| == MAXEXP == |h.complete| && h.blocks[a].realSize <= WORD_LIMIT
  {
    var i := ListIndex(h.blocks[a].realSize - HEADER);
    if Surplus(h, a) then DropRegion(h, a)
    else if Whole(h, a) then Enlist(h.(complete := h.complete[i := h.complete[i] + 1]), a, i)
    else Enlist(h, a, i)
  }

  // ---------- the invariant ----------

  ghost function WholeFree(h: Heap, i: int): set<int> {
    set a | a in h.blocks && h.blocks[a].index == i && Whole(h, a)
  }

  /** A free block waits in the list for its size. */
  ghost predicate Filed(h: Heap) {
    forall a {:trigger InPlace(h, a)} :: a in h.blocks ==> InPlace(h, a)
  }

  ghost predicate InPlace(h: Heap, a: int)
    requires a in h.blocks
  {
    h.blocks[a].index >= 0 ==> h.blocks[a].index == ListIndex(h.blocks[a].realSize - HEADER)
  }

  ghost predicate NoFreePair(h: Heap) {
    forall a, c {:trigger IsNext(h, a, c)} :: IsNext(h, a, c) ==> h.blocks[a].index == -1 || h.blocks[c].index == -1
  }

  /** No block is 288 bytes larger than its header and request need. */
  ghost predicate Tight(h: Heap) {
    forall a :: a in h.live && a in h.blocks ==> h.blocks[a].realSize < h.live[a] + 320
  }

  ghost predicate CountsOk(h: Heap) {
    && |h.complete| == MAXEXP
    && forall i :: 0 <= i < MAXEXP ==> h.complete[i] == |WholeFree(h, i)| <= MAX_COMPLETE
  }

  /** Everything holds, except that block `f` is neither free nor in use. */
  ghost predicate Loose(h: Heap, f: int) {
    && CoreOk(h) && Filed(h) && NoFreePair(h) && Tight(h) && CountsOk(h)
    && f in h.blocks && h.blocks[f].index == -1 && f !in h.live && OthersLive(h, f)
  }

  ghost predicate HeapOk(h: Heap) {
    && CoreOk(h) && Filed(h) && NoFreePair(h) && Tight(h) && CountsOk(h)
    && forall a :: a in h.blocks && h.blocks[a].index == -1 ==> a in h.live
  }

  ghost predicate LeftClosed(h: Heap, f: int) {
    forall l {:trigger IsNext(h, l, f)} :: IsNext(h, l, f) ==> h.blocks[l].index == -1
  }

  ghost predicate RightClosed(h: Heap, f: int) {
    forall r {:trigger IsNext(h, f, r)} :: IsNext(h, f, r) ==> h.blocks[r].index == -1
  }

  // ---------- each part of an operation keeps it ----------

  /** Every block but the unlisted `f` is as before, and so are the requests. */
  ghost predicate AgreesBut(h: Heap, h': Heap, f: int) {
    && h'.live == h.live && f in h'.blocks && h'.blocks[f].index == -1 && f !in h.live
    && forall c :: c in h'.blocks && c != f ==>
         c in h.blocks && h'.blocks[c].realSize == h.blocks[c].realSize && h'.blocks[c].index == h.blocks[c].index
  }

  /** Every block that is on no list is in use, except `f`. */
  ghost predicate OthersLive(h: Heap, f: int) {
    forall a :: a in h.blocks && h.blocks[a].index == -1 && a != f ==> a in h.live
  }

  lemma AgreeingLabels(h: Heap, h': Heap, g: int, f: int)
    requires Filed(h) && Tight(h) && OthersLive(h, g) && AgreesBut(h, h', f) && (g == f || g !in h'.blocks)
    ensures Filed(h') && Tight(h') && OthersLive(h', f)
  {
    forall c | c in h'.blocks ensures InPlace(h', c) { assert c != f ==> InPlace(h, c); }
  }

  lemma TakeWholeFree(h: Heap, a: int, k: int)
    requires ListsOk(h) && |h.complete| == MAXEXP && a in h.blocks && h.blocks[a].index >= 0 && 0 <= k
    ensures WholeFree(Take(h, a), k) == if k == h.blocks[a].index then WholeFree(h, k) - {a} else WholeFree(h, k)
  {
  }

  lemma TakeCounts(h: Heap, a: int)
    requires ListsOk(h) && CountsOk(h) && a in h.blocks && h.blocks[a].index >= 0
    ensures CountsOk(Take(h, a))
  {
    hide Whole;
    var h', i := Take(h, a), h.blocks[a].index;
    assert a in WholeFree(h, i) <==> Whole(h, a);
    forall k | 0 <= k < MAXEXP ensures h'.complete[k] == |WholeFree(h', k)| <= MAX_COMPLETE {
      TakeWholeFree(h, a, k);
    }
  }

  lemma TakeKeepsNeighbours(h: Heap, a: int)
    requires NoFreePair(h) && ListsOk(h) && |h.complete| == MAXEXP && a in h.blocks && h.blocks[a].index >= 0
    ensures NoFreePair(Take(h, a)) && LeftClosed(Take(h, a), a) && RightClosed(Take(h, a), a)
  {
    var h' := Take(h, a);
    forall c, d | IsNext(h', c, d) ensures IsNext(h, c, d) {}
  }

  /** The counters play no part in the core invariant. */
  lemma CompleteKeepsCore(h: Heap, complete: seq<int>)
    requires CoreOk(h)
    ensures CoreOk(h.(complete := complete))
  {
    SameTilingKeepsSpace(h, h.(complete := complete));
  }

  lemma TakeLoosens(h: Heap, a: int)
    requires HeapOk(h) && a in h.blocks && h.blocks[a].index >= 0
    ensures Loose(Take(h, a), a) && LeftClosed(Take(h, a), a) && RightClosed(Take(h, a), a)
  {
    var h' := Take(h, a);
    UnlistKeepsCore(h, a);
    CompleteKeepsCore(Unlist(h, a), h'.complete);
    TakeCounts(h, a);
    TakeKeepsNeighbours(h, a);
    assert AgreesBut(h, h', a);
    AgreeingLabels(h, h', a, a);
  }

  lemma ReleaseKeepsCore(h: Heap, a: int)
    requires CoreOk(h)
    ensures CoreOk(Release(h, a))
  {
    SameTilingKeepsSpace(h, Release(h, a));
  }

  lemma ReleaseKeepsLabels(h: Heap, a: int)
    requires Filed(h) && Tight(h) && CountsOk(h) && NoFreePair(h) && OthersLive(h, a)
    ensures var h' := Release(h, a); Filed(h') && Tight(h') && CountsOk(h') && NoFreePair(h') && OthersLive(h', a)
  {
    var h' := Release(h, a);
    forall c | c in h.blocks ensures InPlace(h', c) { assert InPlace(h, c); }
    forall i ensures WholeFree(h', i) == WholeFree(h, i) {}
    forall c, d | IsNext(h', c, d) ensures IsNext(h, c, d) {}
  }

  lemma ReleaseLoosens(h: Heap, a: int)
    requires HeapOk(h) && a in h.live
    ensures Loose(Release(h, a), a)
  {
    ReleaseKeepsCore(h, a);
    ReleaseKeepsLabels(h, a);
  }

  lemma NewRegionCounts(h: Heap, b: int, pages: int)
    requires CountsOk(h) && b !in h.blocks
    ensures CountsOk(AddRegion(h, b, pages))
  {
    forall i | 0 <= i < MAXEXP ensures WholeFree(AddRegion(h, b, pages), i) == WholeFree(h, i) {}
  }

  lemma NewRegionNeighbours(h: Heap, b: int, pages: int)
    requires CoreOk(h) && NoFreePair(h) && FreshRange(h, b, pages) && b !in h.blocks && b !in h.regions
    ensures var h' := AddRegion(h, b, pages); NoFreePair(h') && LeftClosed(h', b) && RightClosed(h', b)
  {
    var h' := AddRegion(h, b, pages);
    forall c, d | IsNext(h', c, d) ensures IsNext(h, c, d) {}
  }

  lemma NewRegionIsLoose(h: Heap, b: int, pages: int)
    requires HeapOk(h) && FreshRange(h, b, pages)
    ensures b !in h.blocks
    ensures var h' := AddRegion(h, b, pages); Loose(h', b) && LeftClosed(h', b) && RightClosed(h', b)
  {
    var h' := AddRegion(h, b, pages);
    AddRegionKeepsCore(h, b, pages);
    NewRegionCounts(h, b, pages);
    NewRegionNeighbours(h, b, pages);
    assert AgreesBut(h, h', b);
    AgreeingLabels(h, h', b, b);
  }

  /** A block with a neighbour in its region is not a whole region. */
  lemma NeighboursAreNotWhole(h: Heap, l: int, a: int)
    requires SpaceOk(h) && IsNext(h, l, a)
    ensures !Whole(h, l) && !Whole(h, a)
  {
    if l in h.regions { assert HasBase(h, l); }
    assert a in h.regions ==> HasBase(h, a);
  }

  lemma JoinLeftCounts(h: Heap, l: int, a: int)
    requires Loose(h, a) && IsNext(h, l, a) && h.blocks[l].index >= 0
    ensures CountsOk(JoinLeft(h, l, a))
  {
    var h' := JoinLeft(h, l, a);
    NeighboursAreNotWhole(h, l, a);
    forall k | 0 <= k < MAXEXP ensures WholeFree(h', k) == WholeFree(h, k) {}
  }

  lemma JoinLeftNeighbours(h: Heap, l: int, a: int)
    requires Loose(h, a) && IsNext(h, l, a) && h.blocks[l].index >= 0
    ensures NoFreePair(JoinLeft(h, l, a)) && LeftClosed(JoinLeft(h, l, a), l)
  {
    var h' := JoinLeft(h, l, a);
    forall c, d | IsNext(h', c, d) ensures c == l || IsNext(h, c, d) {}
  }

  lemma JoinLeftIsLoose(h: Heap, l: int, a: int)
    requires Loose(h, a) && IsNext(h, l, a) && h.blocks[l].index >= 0
    ensures Loose(JoinLeft(h, l, a), l) && LeftClosed(JoinLeft(h, l, a), l)
  {
    var h' := JoinLeft(h, l, a);
    MergeKeepsCore(h, l, a);
    UnlistKeepsCore(Merge(h, l, a), l);
    JoinLeftCounts(h, l, a);
    JoinLeftNeighbours(h, l, a);
    assert AgreesBut(h, h', l);
    AgreeingLabels(h, h', a, l);
  }

  lemma JoinRightCounts(h: Heap, a: int, r: int)
    requires Loose(h, a) && IsNext(h, a, r) && h.blocks[r].index >= 0
    ensures CountsOk(JoinRight(h, a, r))
  {
    var h' := JoinRight(h, a, r);
    NeighboursAreNotWhole(h, a, r);
    forall k | 0 <= k < MAXEXP ensures WholeFree(h', k) == WholeFree(h, k) {}
  }

  lemma JoinRightNeighbours(h: Heap, a: int, r: int)
    requires Loose(h, a) && IsNext(h, a, r) && h.blocks[r].index >= 0
    ensures NoFreePair(JoinRight(h, a, r)) && RightClosed(JoinRight(h, a, r), a)
    ensures LeftClosed(h, a) ==> LeftClosed(JoinRight(h, a, r), a)
  {
    var h' := JoinRight(h, a, r);
    forall c, d | IsNext(h', c, d) ensures if c == a then IsNext(h, r, d) else IsNext(h, c, d) {}
  }

  lemma JoinRightIsLoose(h: Heap, a: int, r: int)
    requires Loose(h, a) && IsNext(h, a, r) && h.blocks[r].index >= 0
    ensures Loose(JoinRight(h, a, r), a) && RightClosed(JoinRight(h, a, r), a)
    ensures LeftClosed(h, a) ==> LeftClosed(JoinRight(h, a, r), a)
  {
    var h' := JoinRight(h, a, r);
    UnlistKeepsCore(h, r);
    MergeKeepsCore(Unlist(h, r), a, r);
    JoinRightCounts(h, a, r);
    JoinRightNeighbours(h, a, r);
    assert AgreesBut(h, h', a);
    AgreeingLabels(h, h', a, a);
  }

  lemma PlaceCounts(h: Heap, a: int, size: int)
    requires Loose(h, a) && 0 <= size && size + HEADER <= h.blocks[a].realSize
    ensures CountsOk(Place(h, a, size))
  {
    var h' := Place(h, a, size);
    var n := a + HEADER + size;
    if h.blocks[a].realSize - size - 2 * HEADER >= 256 {
      assert Apart(h, a, n);
      assert n in h.regions ==> HasBase(h, n);
    }
    forall k | 0 <= k < MAXEXP ensures WholeFree(h', k) == WholeFree(h, k) {}
  }

  lemma PlaceNeighbours(h: Heap, a: int, size: int)
    requires Loose(h, a) && LeftClosed(h, a) && RightClosed(h, a)
    requires 0 <= size && size + HEADER <= h.blocks[a].realSize
    ensures NoFreePair(Place(h, a, size))
  {
    var h' := Place(h, a, size);
    var n := a + HEADER + size;
    if h.blocks[a].realSize - size - 2 * HEADER >= 256 {
      assert Apart(h, a, n);
      forall c, d | IsNext(h', c, d) ensures h'.blocks[c].index == -1 || h'.blocks[d].index == -1 {
        assert c != n && d != n ==> c == a || IsNext(h, c, d);
        assert c == n ==> IsNext(h, a, d);
        assert d == n ==> Apart(h, a, c) && Apart(h, c, a);
      }
    } else {
      forall c, d | IsNext(h', c, d) ensures IsNext(h, c, d) {}
    }
  }

  lemma LiveKeepsCore(h: Heap, a: int, size: int)
    requires CoreOk(h) && a in h.blocks && h.blocks[a].index == -1
    requires 0 <= size && size + HEADER <= h.blocks[a].realSize
    ensures CoreOk(h.(live := h.live[a := size]))
  {
    SameTilingKeepsSpace(h, h.(live := h.live[a := size]));
  }

  lemma PlaceBounds(h: Heap, a: int)
    requires CoreOk(h) && a in h.blocks
    ensures h.blocks[a].realSize <= WORD_LIMIT && |h.lists| == MAXEXP && forall c :: c in h.live ==> c in h.blocks
  {
  }

  lemma PlaceKeepsCore(h: Heap, a: int, size: int)
    requires CoreOk(h) && a in h.blocks && h.blocks[a].index == -1
    requires 0 <= size && size + HEADER <= h.blocks[a].realSize
    ensures CoreOk(Place(h, a, size))
  {
    hide CoreOk, ListIndex, Enlist;
    PlaceBounds(h, a);
    var rest := h.blocks[a].realSize - size - 2 * HEADER;
    var n := a + HEADER + size;
    var h1 := h.(live := h.live[a := size]);
    LiveKeepsCore(h, a, size);
    if rest >= 256 {
      SplitKeepsCore(h1, a, n);
      EnlistKeepsCore(Split(h1, a, n), n, ListIndex(rest));
    }
  }

  lemma PlaceLabels(h: Heap, a: int, size: int)
    requires Loose(h, a) && 0 <= size && size + HEADER <= h.blocks[a].realSize
    ensures var h' := Place(h, a, size);
      && Filed(h') && Tight(h') && forall c :: c in h'.blocks && h'.blocks[c].index == -1 ==> c in h'.live
  {
    var h' := Place(h, a, size);
    var n := a + HEADER + size;
    if n in h.blocks { assert Apart(h, a, n); }
    forall c | c in h'.blocks ensures InPlace(h', c) { assert c in h.blocks ==> InPlace(h, c); }
  }

  lemma PlaceCompletes(h: Heap, a: int, size: int)
    requires Loose(h, a) && LeftClosed(h, a) && RightClosed(h, a)
    requires 0 <= size && size + HEADER <= h.blocks[a].realSize
    ensures HeapOk(Place(h, a, size))
  {
    PlaceKeepsCore(h, a, size);
    PlaceCounts(h, a, size);
    PlaceNeighbours(h, a, size);
    PlaceLabels(h, a, size);
  }

  lemma EnlistCounts(h: Heap, a: int, i: int, k: int)
    requires a in h.blocks && h.blocks[a].index == -1 && 0 <= i < |h.lists| && 0 <= k
    ensures WholeFree(Enlist(h, a, i), k) == WholeFree(h, k) + (if k == i && Whole(h, a) then {a} else {})
  {
  }

  lemma DropCounts(h: Heap, a: int, k: int)
    requires a in h.blocks && h.blocks[a].index == -1 && 0 <= k
    ensures WholeFree(DropRegion(h, a), k) == WholeFree(h, k)
  {
  }

  lemma RetireCounts(h: Heap, a: int)
    requires CountsOk(h) && |h.lists| == MAXEXP
    requires a in h.blocks && h.blocks[a].index == -1 && h.blocks[a].realSize <= WORD_LIMIT
    ensures CountsOk(Retire(h, a))
  {
    var h' := Retire(h, a);
    var i := ListIndex(h.blocks[a].realSize - HEADER);
    forall k | 0 <= k < MAXEXP ensures h'.complete[k] == |WholeFree(h', k)| <= MAX_COMPLETE {
      if Surplus(h, a) {
        DropCounts(h, a, k);
      } else {
        EnlistCounts(h, a, i, k);
        assert WholeFree(h', k) == WholeFree(Enlist(h, a, i), k);
      }
    }
  }

  lemma RetireKeepsNeighbours(h: Heap, a: int)
    requires NoFreePair(h) && LeftClosed(h, a) && RightClosed(h, a) && BlocksOk(h)
    requires a in h.blocks && |h.lists| == MAXEXP == |h.complete| && h.blocks[a].realSize <= WORD_LIMIT
    ensures NoFreePair(Retire(h, a))
  {
    var h' := Retire(h, a);
    forall c, d | IsNext(h', c, d) ensures IsNext(h, c, d) {}
  }

  lemma RetireIndex(h: Heap, a: int)
    requires SpaceOk(h) && a in h.blocks
    ensures h.blocks[a].realSize <= WORD_LIMIT && 0 <= ListIndex(h.blocks[a].realSize - HEADER) < MAXEXP
  {
  }

  lemma RetireKeepsCore(h: Heap, a: int)
    requires CoreOk(h) && |h.complete| == MAXEXP && a in h.blocks && h.blocks[a].index == -1 && a !in h.live
    ensures h.blocks[a].realSize <= WORD_LIMIT && CoreOk(Retire(h, a))
  {
    hide RegionsOk, BlocksOk, TilesOk, LiveOk, ListIndex;
    RetireIndex(h, a);
    var i := ListIndex(h.blocks[a].realSize - HEADER);
    if Surplus(h, a) {
      DropRegionKeepsCore(h, a);
    } else {
      EnlistKeepsCore(h, a, i);
      CompleteKeepsCore(Enlist(h, a, i), Retire(h, a).complete);
    }
  }

  lemma RetireLabels(h: Heap, a: int)
    requires Loose(h, a)
    ensures var h' := Retire(h, a);
      && Filed(h') && Tight(h') && forall c :: c in h'.blocks && h'.blocks[c].index == -1 ==> c in h'.live
  {
    var h' := Retire(h, a);
    forall c | c in h'.blocks ensures InPlace(h', c) { assert InPlace(h, c); }
  }

  lemma RetireCompletes(h: Heap, a: int)
    requires Loose(h, a) && LeftClosed(h, a) && RightClosed(h, a)
    ensures HeapOk(Retire(h, a))
  {
    RetireKeepsCore(h, a);
    RetireCounts(h, a);
    RetireKeepsNeighbours(h, a);
    RetireLabels(h, a);
  }
}
