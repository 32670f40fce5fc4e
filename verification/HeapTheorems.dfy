/** What the heap invariant means, and what every run of `malloc` and `free` does. */
module HeapTheorems {
  import opened Words
  import opened Headers
  import opened HeapModel
  import opened HeapOps
  import opened HeapRuns

  // ---------- tiling ----------

  /** The blocks met by following the split links rightwards from `a`. */
  ghost function Chain(h: Heap, a: int): seq<int>
    requires SpaceOk(h) && a in h.blocks
    decreases RegionEnd(h, h.blocks[a].home) - a
  {
    var e := a + h.blocks[a].realSize;
    assert HasNext(h, a);
    if e == RegionEnd(h, h.blocks[a].home) then [a] else [a] + Chain(h, e)
  }

  ghost function TotalSize(h: Heap, s: seq<int>): int {
    if s == [] then 0
    else (if s[0] in h.blocks then h.blocks[s[0]].realSize else 0) + TotalSize(h, s[1..])
  }

  lemma {:induction false} ChainCovers(h: Heap, a: int)
    requires SpaceOk(h) && a in h.blocks
    ensures forall c :: c in Chain(h, a) <==> c in h.blocks && h.blocks[c].home == h.blocks[a].home && a <= c
    decreases RegionEnd(h, h.blocks[a].home) - a
  {
    var e := a + h.blocks[a].realSize;
    assert HasNext(h, a);
    forall c | c in h.blocks && h.blocks[c].home == h.blocks[a].home && a < c ensures e <= c { assert Apart(h, a, c); }
    if e == RegionEnd(h, h.blocks[a].home) {
    } else {
      ChainCovers(h, e);
    }
  }

  lemma {:induction false} ChainTiles(h: Heap, a: int)
    requires SpaceOk(h) && a in h.blocks
    ensures Chain(h, a)[0] == a && a + TotalSize(h, Chain(h, a)) == RegionEnd(h, h.blocks[a].home)
    ensures forall i :: 0 <= i < |Chain(h, a)| - 1 ==> IsNext(h, Chain(h, a)[i], Chain(h, a)[i + 1])
    decreases RegionEnd(h, h.blocks[a].home) - a
  {
    var e := a + h.blocks[a].realSize;
    assert HasNext(h, a);
    if e == RegionEnd(h, h.blocks[a].home) {
    } else {
      ChainTiles(h, e);
      assert Chain(h, a)[1..] == Chain(h, e);
    }
  }

  /** Every region held is cut into blocks without gap or overlap, and their
      sizes add up to the pages obtained. */
  lemma RegionIsTiled(h: Heap, b: int)
    requires HeapOk(h) && b in h.regions
    ensures b in h.blocks && Chain(h, b)[0] == b
    ensures TotalSize(h, Chain(h, b)) == h.regions[b] * 4096
    ensures forall c :: c in Chain(h, b) <==> c in h.blocks && h.blocks[c].home == b
    ensures forall i :: 0 <= i < |Chain(h, b)| - 1 ==> IsNext(h, Chain(h, b)[i], Chain(h, b)[i + 1])
  {
    assert HasBase(h, b);
    ChainCovers(h, b);
    ChainTiles(h, b);
  }

  /** Block `a` of a chain that starts at `x` is a region base or has a left neighbour. */
  lemma {:induction false} LeftExists(h: Heap, a: int, x: int) returns (l: int)
    requires SpaceOk(h) && a in h.blocks && x in h.blocks
    requires h.blocks[x].home == h.blocks[a].home && x < a
    ensures IsNext(h, l, a)
    decreases a - x
  {
    assert HasNext(h, x) && Apart(h, x, a);
    var e := x + h.blocks[x].realSize;
    if e == a { l := x; } else { l := LeftExists(h, a, e); }
  }

  /** A block without a left neighbour begins its region: a tag with two null split
      links is at the address that the page allocator gave out. */
  lemma LeftmostIsBase(h: Heap, a: int)
    requires HeapOk(h) && a in h.blocks
    ensures (forall l :: !IsNext(h, l, a)) <==> a in h.regions
  {
    var b := h.blocks[a].home;
    assert HasBase(h, b);
    if a == b {
      forall l ensures !IsNext(h, l, a) {}
    } else {
      var l := LeftExists(h, a, b);
      assert a in h.regions ==> HasBase(h, a);
    }
  }

  // ---------- runs ----------

  /** No two free blocks are neighbours; each counter is the number of free whole
      regions in its list, at most five; and block `a` is either in use with less
      than 320 bytes to spare, or in the list for its size class. */
  ghost predicate SoundAt(h: Heap, a: int) {
    && NoFreePair(h)
    && |h.complete| == MAXEXP == |h.lists|
    && (forall i :: 0 <= i < MAXEXP ==> h.complete[i] == |WholeFree(h, i)| <= MAX_COMPLETE)
    && (a in h.blocks && h.blocks[a].index == -1 ==>
          a in h.live && 0 <= h.live[a] && h.live[a] + HEADER <= h.blocks[a].realSize < h.live[a] + 320)
    && (a in h.blocks && h.blocks[a].index != -1 ==>
          InClass(h.blocks[a].realSize - HEADER, h.blocks[a].index) && a !in h.live && a in h.lists[h.blocks[a].index])
  }

  lemma HeapIsSound(h: Heap, a: int)
    requires HeapOk(h)
    ensures SoundAt(h, a)
  {
    hide RegionsOk, BlocksOk, TilesOk, InClass, NoFreePair;
    if a in h.blocks && h.blocks[a].index != -1 { FreeBlockInClass(h, a); }
  }

  /** Every run keeps all of that. */
  lemma RunIsSound(h: Heap, cs: seq<Call>, a: int)
    requires HeapOk(h) && AllowedRun(h, cs)
    ensures SoundAt(Run(h, cs), a)
  {
    hide *;
    HeapIsSound(Run(h, cs), a);
  }

  lemma FreeBlockInClass(h: Heap, a: int)
    requires SpaceOk(h) && Filed(h) && a in h.blocks && h.blocks[a].index >= 0
    ensures InClass(h.blocks[a].realSize - HEADER, h.blocks[a].index)
  {
    assert InPlace(h, a);
    ClassOfRoom(h.blocks[a].realSize - HEADER);
  }

  /** Room for `2^i` up to `2^(i+1)` bytes, or less than 512 in the lowest class. */
  ghost predicate InClass(room: int, i: int) {
    MINEXP <= i < MAXEXP && room < Pow2(i + 1) && (i > MINEXP ==> Pow2(i) <= room)
  }

  lemma ClassOfRoom(room: int)
    requires 0 <= room < WORD_LIMIT
    ensures InClass(room, ListIndex(room))
  {
    assert Pow2(4) == 16 && Pow2(9) == 512;
    if room >= 256 { Log2Bounds(room); }
  }

  // ---------- payloads ----------

  /** Byte `x` is one that the caller who owns block `a` asked for. */
  predicate InPayload(h: Heap, a: int, x: int) {
    a in h.live && a + HEADER <= x < a + HEADER + h.live[a]
  }

  predicate InBlockHeader(h: Heap, c: int, x: int) {
    c in h.blocks && c <= x < c + HEADER
  }

  /** No byte belongs to two callers, and none to a caller and to a header. */
  lemma PayloadsAreDisjoint(h: Heap, a: int, c: int, x: int)
    requires HeapOk(h) && InPayload(h, a, x)
    ensures InPayload(h, c, x) ==> c == a
    ensures !InBlockHeader(h, c, x)
  {
    assert Apart(h, a, c) && Apart(h, c, a);
  }

  /** The payloads of two callers lie apart. */
  lemma PayloadsApart(h: Heap, a: int, b: int)
    requires HeapOk(h) && a in h.live && b in h.live && a != b
    ensures 0 <= h.live[a] && 0 <= h.live[b]
    ensures a + HEADER + h.live[a] <= b || b + HEADER + h.live[b] <= a
  {
    assert Apart(h, a, b) && Apart(h, b, a);
  }

  /** No byte that a caller asked for changed. */
  ghost predicate BytesKept(h: Heap, m: Memory, m': Memory) {
    forall a, x :: InPayload(h, a, x) ==> m'(x) == m(x)
  }

  /** `n` bytes at `d` are what was at `s` in memory `m`. */
  ghost predicate Copied(m: Memory, s: int, m': Memory, d: int, n: int) {
    forall x {:trigger m'(x)} :: d <= x < d + n ==> m'(x) == m(x - d + s)
  }

  lemma PayloadsKept(h: Heap, m: Memory, m': Memory)
    requires HeapOk(h) && OnlyHeaders(m, m', h.blocks.Keys)
    ensures BytesKept(h, m, m')
  {
    forall a, x | InPayload(h, a, x) ensures m'(x) == m(x) {
      if InHeaders(h.blocks.Keys, x) {
        var c :| c in h.blocks.Keys && c <= x < c + HEADER;
        PayloadsAreDisjoint(h, a, c, x);
      }
    }
  }

  predicate LiveIn(h: Heap, h': Heap) {
    forall a :: a in h.live ==> a in h'.live && h'.live[a] == h.live[a]
  }

  /** Header writes spare the callers of the earlier heap too. */
  lemma EarlierPayloadsKept(h: Heap, h': Heap, m: Memory, m': Memory)
    requires HeapOk(h') && OnlyHeaders(m, m', h'.blocks.Keys) && LiveIn(h, h')
    ensures BytesKept(h, m, m')
  {
    PayloadsKept(h', m, m');
    forall a, x | InPayload(h, a, x) ensures m'(x) == m(x) { assert InPayload(h', a, x); }
  }

  lemma KeptThenKept(h: Heap, h1: Heap, m0: Memory, m1: Memory, m2: Memory)
    requires BytesKept(h, m0, m1) && BytesKept(h1, m1, m2) && LiveIn(h, h1)
    ensures BytesKept(h, m0, m2)
  {
    forall a, x | InPayload(h, a, x) ensures m2(x) == m0(x) { assert InPayload(h1, a, x); }
  }

  lemma CopiedFromKept(h: Heap, a: int, m0: Memory, m1: Memory, m2: Memory, d: int, n: int)
    requires BytesKept(h, m0, m1) && Copied(m1, a + HEADER, m2, d, n) && a in h.live && n <= h.live[a]
    ensures Copied(m0, a + HEADER, m2, d, n)
  {
    forall x | d <= x < d + n ensures m2(x) == m0(x - d + (a + HEADER)) {
      assert InPayload(h, a, x - d + (a + HEADER));
    }
  }

  lemma CopiedThenKept(h: Heap, a: int, m0: Memory, s: int, m1: Memory, m2: Memory, n: int)
    requires Copied(m0, s, m1, a + HEADER, n) && BytesKept(h, m1, m2) && a in h.live && n <= h.live[a]
    ensures Copied(m0, s, m2, a + HEADER, n)
  {
    forall x | a + HEADER <= x < a + HEADER + n ensures m2(x) == m0(x - (a + HEADER) + s) {
      assert InPayload(h, a, x);
    }
  }

  /** The memory before and after a call. */
  datatype Passage = Passage(before: Memory, after: Memory)

  /** Each call of a run spares the payloads it finds; between the calls anything may
      be stored outside the payload of block `a`. */
  ghost predicate KeptAlong(h: Heap, cs: seq<Call>, ps: seq<Passage>, a: int)
    requires HeapOk(h) && AllowedRun(h, cs)
    decreases |cs|
  {
    && |ps| == |cs|
    && (|cs| >= 1 ==> BytesKept(h, ps[0].before, ps[0].after) && KeptAlong(Step(h, cs[0]), cs[1..], ps[1..], a))
    && (|cs| >= 2 ==> forall x :: InPayload(h, a, x) ==> ps[1].before(x) == ps[0].after(x))
  }

  /** Until its owner frees it or stores into it, a block keeps every byte through any
      run of calls, whatever the owners of other blocks store in the meantime. */
  lemma {:induction false} BytesSurviveRun(h: Heap, cs: seq<Call>, ps: seq<Passage>, a: int, x: int)
    requires HeapOk(h) && AllowedRun(h, cs) && KeptAlong(h, cs, ps, a)
    requires InPayload(h, a, x) && Free(a) !in cs
    ensures InPayload(Run(h, cs), a, x)
    ensures |ps| > 0 ==> ps[|ps| - 1].after(x) == ps[0].before(x)
    decreases |cs|
  {
    hide HeapOk, AfterMalloc, AfterFree;
    if cs == [] {
    } else {
      assert cs[0] != Free(a);
      var h1 := Step(h, cs[0]);
      assert InPayload(h1, a, x);
      BytesSurviveRun(h1, cs[1..], ps[1..], a, x);
    }
  }

  // ---------- malloc then free ----------

  ghost predicate SameUpToListOrder(h: Heap, h': Heap) {
    && h'.regions == h.regions && h'.blocks == h.blocks && h'.live == h.live && h'.complete == h.complete
    && |h'.lists| == |h.lists|
    && forall i :: 0 <= i < |h.lists| ==> multiset(h'.lists[i]) == multiset(h.lists[i])
  }

  /** Undoing `Place`: the block's own remainder is the only thing to merge with. */
  lemma PlaceThenJoin(h: Heap, a: int, size: int)
    requires Loose(h, a) && LeftClosed(h, a) && RightClosed(h, a)
    requires 0 <= size && size + HEADER <= h.blocks[a].realSize
    ensures Loose(Release(Place(h, a, size), a), a) && FreeLeft(Release(Place(h, a, size), a), a) == 0
    ensures Coalesced(Release(Place(h, a, size), a), a) == (h, a)
  {
    var h1 := Release(Place(h, a, size), a);
    PlaceCompletes(h, a, size);
    ReleaseLoosens(Place(h, a, size), a);
    PlaceLeavesLeft(h, a, size);
    PlaceThenRight(h, a, size);
  }

  lemma PlaceLeavesLeft(h: Heap, a: int, size: int)
    requires Loose(h, a) && LeftClosed(h, a)
    requires 0 <= size && size + HEADER <= h.blocks[a].realSize
    ensures FreeLeft(Release(Place(h, a, size), a), a) == 0
  {
    var h1 := Release(Place(h, a, size), a);
    var n := a + HEADER + size;
    forall l | IsNext(h1, l, a) ensures h1.blocks[l].index == -1 {
      assert l != a && l != n;
      assert IsNext(h, l, a);
    }
  }

  lemma RejoinRest(h: Heap, a: int, size: int)
    requires a in h.blocks && h.blocks[a].index == -1 && a !in h.live && |h.lists| == MAXEXP
    requires 0 <= size && 256 <= h.blocks[a].realSize - size - 2 * HEADER < WORD_LIMIT
    requires a + HEADER + size !in h.blocks
    ensures JoinRight(Release(Place(h, a, size), a), a, a + HEADER + size) == h
  {
    var rest, n := h.blocks[a].realSize - size - 2 * HEADER, a + HEADER + size;
    var h1 := Release(Place(h, a, size), a);
    assert h1.lists == h.lists[ListIndex(rest) := [n] + h.lists[ListIndex(rest)]];
    var h2 := JoinRight(h1, a, n);
    assert h2.blocks == h.blocks && h2.lists == h.lists && h2.live == h.live;
  }

  /** Without a remainder the heap is as it was. */
  lemma PlaceWhole(h: Heap, a: int, size: int)
    requires a in h.blocks && |h.lists| == MAXEXP && a !in h.live && 0 <= size
    requires h.blocks[a].realSize - size - 2 * HEADER < 256
    ensures Release(Place(h, a, size), a) == h
  {
    assert Release(Place(h, a, size), a).live == h.live;
  }

  lemma PlaceThenRight(h: Heap, a: int, size: int)
    requires Loose(h, a) && RightClosed(h, a)
    requires 0 <= size && size + HEADER <= h.blocks[a].realSize
    ensures var h1 := Release(Place(h, a, size), a);
      var r := FreeRight(h1, a);
      (if r != 0 then JoinRight(h1, a, r) else h1) == h
  {
    hide TilesOk, LiveOk, Filed, NoFreePair, Tight, CountsOk;
    var n := a + HEADER + size;
    if h.blocks[a].realSize - size - 2 * HEADER >= 256 {
      assert Apart(h, a, n);
      RestFollows(h, a, size);
      RejoinRest(h, a, size);
    } else {
      PlaceWhole(h, a, size);
      var r := FreeRight(h, a);
      assert r != 0 ==> IsNext(h, a, r);
    }
  }

  /** The remainder is the free block to the right. */
  lemma RestFollows(h: Heap, a: int, size: int)
    requires a in h.blocks && |h.lists| == MAXEXP && 0 < a && 0 <= size
    requires 256 <= h.blocks[a].realSize - size - 2 * HEADER < WORD_LIMIT
    ensures a in Release(Place(h, a, size), a).blocks
    ensures FreeRight(Release(Place(h, a, size), a), a) == a + HEADER + size
  {
    assert IsNext(Release(Place(h, a, size), a), a, a + HEADER + size);
  }

  lemma {:induction false} WithoutMultiset(s: seq<int>, a: int)
    requires a in s
    ensures multiset(s) == multiset([a] + Without(s, a))
  {
    assert s == [s[0]] + s[1..];
    if s[0] == a {
    } else {
      WithoutMultiset(s[1..], a);
      assert Without(s, a) == [s[0]] + Without(s[1..], a);
      assert multiset([a] + Without(s, a)) == multiset([s[0]]) + multiset([a] + Without(s[1..], a));
    }
  }

  /** Taking a block off its list and retiring it again. */
  lemma TakeThenRetire(h: Heap, a: int)
    requires CountsOk(h) && Filed(h) && a in h.blocks && 0 <= h.blocks[a].index < MAXEXP == |h.lists|
    requires a in h.lists[h.blocks[a].index] && h.blocks[a].realSize <= WORD_LIMIT
    ensures !Surplus(Take(h, a), a) && SameUpToListOrder(h, Retire(Take(h, a), a))
  {
    var i := h.blocks[a].index;
    var h2 := Retire(Take(h, a), a);
    assert h.complete[i] <= MAX_COMPLETE && InPlace(h, a);
    assert h2.blocks == h.blocks && h2.complete == h.complete;
    WithoutMultiset(h.lists[i], a);
  }

  lemma FreeUndoesPlace(h: Heap, a: int, size: int)
    requires Loose(h, a) && LeftClosed(h, a) && RightClosed(h, a)
    requires 0 <= size && size + HEADER <= h.blocks[a].realSize
    ensures HeapOk(Place(h, a, size)) && a in Place(h, a, size).live
    ensures AfterFree(Place(h, a, size), a) == Retire(h, a)
  {
    PlaceCompletes(h, a, size);
    PlaceThenJoin(h, a, size);
  }

  lemma FreeUndoesFromList(h: Heap, a: int, size: int)
    requires HeapOk(h) && a in h.blocks && h.blocks[a].index >= 0 && 0 <= size && Fits(h, a, size)
    ensures var h1 := FromList(h, a, size); a in h1.live && SameUpToListOrder(h, AfterFree(h1, a))
  {
    FromListSpares(h, a, size);
    assert h.blocks[a].index < MAXEXP == |h.lists| && a in h.lists[h.blocks[a].index];
    assert h.blocks[a].realSize <= WORD_LIMIT;
    FreeUndoesPlace(Take(h, a), a, size);
    TakeThenRetire(h, a);
  }

  /** A `malloc` served from a free list is undone by `free`: same regions, same
      blocks, same lists up to order, same counters, and no page is given back. */
  lemma MallocThenFree(h: Heap, size: int, grant: int)
    requires HeapOk(h) && 0 <= size <= MAX_REQUEST && Grants(h, size, grant)
    requires Candidate(h, size) != 0
    ensures var (h1, p) := AfterMalloc(h, size, grant);
      && p - HEADER in h1.live
      && SameUpToListOrder(h, AfterFree(h1, p - HEADER))
  {
    hide HeapOk, Candidate, FromList, FromPages, AfterFree, SameUpToListOrder, Grants;
    FreeUndoesFromList(h, Candidate(h, size), size);
  }
}
