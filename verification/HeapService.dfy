/** Which requests `malloc` serves from where, how it cuts what it takes, and where
    `free` puts it: the choices of kernel/src/liballoc.c in terms of sizes, list
    places and addresses. */
module HeapService {
  import opened Words
  import opened Headers
  import opened HeapModel
  import opened HeapOps
  import opened HeapRuns
  import opened HeapTheorems

  // ---------- which block serves a request ----------

  /** Block `a` waits in list `i` and has room for the request and another header. */
  predicate CanServe(h: Heap, i: int, a: int, size: int) {
    a in h.blocks && h.blocks[a].index == i && h.blocks[a].realSize >= size + 64
  }

  lemma ClassIsUnique(size: int, i: int)
    requires 0 <= size < WORD_LIMIT && InClass(size, i)
    ensures ListIndex(size) == i
  {
    assert Pow2(4) == 16 && Pow2(8) == 256 && Pow2(9) == 512;
    if i > MINEXP {
      Log2Unique(size, i);
      Pow2Monotone(9, i);
    } else if size >= 256 {
      Log2Unique(size, 8);
    }
  }

  /** The place in `s` of the block that serves the request. */
  lemma {:induction false} FirstFitAt(h: Heap, s: seq<int>, size: int) returns (k: nat)
    requires FirstFit(h, s, size) != 0
    ensures k < |s| && s[k] == FirstFit(h, s, size) && Fits(h, s[k], size)
    ensures forall j :: 0 <= j < k ==> !Fits(h, s[j], size)
  {
    if Fits(h, s[0], size) {
      k := 0;
    } else {
      var r := FirstFitAt(h, s[1..], size);
      k := r + 1;
      forall j | 0 <= j < k ensures !Fits(h, s[j], size) { assert j > 0 ==> s[j] == s[1..][j - 1]; }
    }
  }

  /** The candidate is the front-most block of the request's class that can serve it,
      and there is none only if no block of that class can. */
  lemma CandidateIs(h: Heap, size: int, i: int)
    requires HeapOk(h) && 0 <= size <= MAX_REQUEST && InClass(size, i)
    ensures |h.lists| == MAXEXP
    ensures (exists a :: CanServe(h, i, a, size)) <==> Candidate(h, size) != 0
    ensures Candidate(h, size) != 0 ==> FrontMost(h, i, Candidate(h, size), size)
  {
    ClassIsUnique(size, i);
    hide RegionsOk, TilesOk, LiveOk, Filed, NoFreePair, Tight, CountsOk, ListIndex, InClass;
    var a := Candidate(h, size);
    if a != 0 {
      var k := FirstFitAt(h, h.lists[i], size);
      assert CanServe(h, i, a, size) && ServedAt(h, i, k, a, size);
    } else {
      forall c | CanServe(h, i, c, size) ensures false {
        assert c in h.lists[i] && Fits(h, c, size);
        NullIsNoBlock(h);
      }
    }
  }

  lemma NullIsNoBlock(h: Heap)
    requires SpaceOk(h)
    ensures 0 !in h.blocks
  {
  }

  /** Block `a` stands at place `k` of list `i`, can serve the request, and nothing in
      front of it can. */
  ghost predicate ServedAt(h: Heap, i: int, k: int, a: int, size: int) {
    && 0 <= i < |h.lists| && 0 <= k < |h.lists[i]| && h.lists[i][k] == a && CanServe(h, i, a, size)
    && forall j :: 0 <= j < k ==> !CanServe(h, i, h.lists[i][j], size)
  }

  ghost predicate FrontMost(h: Heap, i: int, a: int, size: int) {
    exists k :: ServedAt(h, i, k, a, size)
  }

  /** `malloc` succeeds without new pages exactly when a free block of the request's
      own class has room, and then takes the front-most one of that list. Otherwise
      the page allocator decides: its answer becomes the block, and NULL is NULL. */
  lemma MallocServes(h: Heap, size: int, grant: int, i: int)
    requires HeapOk(h) && 0 <= size <= MAX_REQUEST && Grants(h, size, grant) && InClass(size, i)
    ensures var (h', p) := AfterMalloc(h, size, grant);
      if exists a :: CanServe(h, i, a, size) then
        && p != 0 && h'.regions == h.regions
        && FrontMost(h, i, p - 32, size)
      else if grant == 0 then p == 0 && h' == h
      else
        && p == grant + 32 && grant !in h.regions
        && h'.regions.Keys == h.regions.Keys + {grant}
        && forall b :: b in h.regions ==> h'.regions[b] == h.regions[b]
  {
    hide HeapOk, Candidate, CanServe, FrontMost, InClass, FromList, FromPages;
    CandidateIs(h, size, i);
    ServedIsPositive(h, size);
  }

  lemma ServedIsPositive(h: Heap, size: int)
    requires HeapOk(h) && 0 <= size <= MAX_REQUEST
    ensures Candidate(h, size) >= 0
  {
  }

  // ---------- how the block is cut ----------

  lemma PlaceCuts(h: Heap, a: int, size: int)
    requires a in h.blocks && |h.lists| == MAXEXP && 0 <= size
    requires h.blocks[a].realSize - size - 2 * HEADER < WORD_LIMIT
    ensures var h', r := Place(h, a, size), h.blocks[a].realSize;
      if r >= size + 320 then
        && h'.blocks.Keys == h.blocks.Keys + {a + 32 + size}
        && h'.blocks[a].realSize == size + 32 && h'.blocks[a + 32 + size].realSize == r - size - 32
        && h'.blocks[a + 32 + size].index >= 0
      else h'.blocks == h.blocks
  {
  }

  /** Block `a`, of `r` bytes, has been cut for the request: with 288 bytes or more to
      spare it ends right behind the payload and a free block holds the rest; otherwise
      it is as it was. */
  ghost predicate CutFor(h: Heap, h': Heap, a: int, r: int, size: int) {
    a in h'.blocks &&
    if r >= size + 320 then
      && h'.blocks.Keys == h.blocks.Keys + {a, a + 32 + size}
      && h'.blocks[a].realSize == size + 32 && h'.blocks[a + 32 + size].realSize == r - size - 32
      && h'.blocks[a + 32 + size].index >= 0
    else h'.blocks.Keys == h.blocks.Keys + {a} && h'.blocks[a].realSize == r
  }

  lemma FromListCuts(h: Heap, a: int, size: int)
    requires HeapOk(h) && a in h.blocks && h.blocks[a].index >= 0 && 0 <= size && Fits(h, a, size)
    ensures CutFor(h, FromList(h, a, size), a, h.blocks[a].realSize, size)
  {
    hide TilesOk, LiveOk, BlocksOk, Filed, NoFreePair, Tight, OthersLive, Place;
    FromListSpares(h, a, size);
    PlaceSpares(Take(h, a), a, size);
    PlaceCuts(Take(h, a), a, size);
  }

  lemma FromPagesCuts(h: Heap, b: int, size: int)
    requires HeapOk(h) && 0 <= size && FreshRange(h, b, PagesFor(size))
    ensures b !in h.blocks && CutFor(h, FromPages(h, b, size), b, PagesFor(size) * 4096, size)
  {
    hide HeapOk, Loose, Place, FreshRange;
    NewRegionIsLoose(h, b, PagesFor(size));
    PagesForIsLeast(size, 16);
    PlaceSpares(AddRegion(h, b, PagesFor(size)), b, size);
    PlaceCuts(AddRegion(h, b, PagesFor(size)), b, size);
  }

  /** Every block handed out is cut so. Fresh pages are as few as possible, from
      sixteen up. */
  lemma MallocCuts(h: Heap, size: int, grant: int)
    requires HeapOk(h) && 0 <= size <= MAX_REQUEST && Grants(h, size, grant) && Served(h, size, grant)
    ensures var (h', p) := AfterMalloc(h, size, grant);
      var a := p - 32;
      if a in h.blocks then CutFor(h, h', a, h.blocks[a].realSize, size)
      else a == grant && a in h'.regions && IsLeast(h'.regions[a], size) && CutFor(h, h', a, h'.regions[a] * 4096, size)
  {
    hide HeapOk, Candidate, FromList, FromPages, IsLeast, CutFor, PagesFor;
    var a := Candidate(h, size);
    if a != 0 {
      FromListCuts(h, a, size);
    } else {
      FromPagesCuts(h, grant, size);
      RegionIsLeast(size);
    }
  }

  /** The fewest pages, from sixteen up, for the request and its header. */
  ghost predicate IsLeast(pages: int, size: int) {
    && 16 <= pages && size + 32 <= pages * 4096
    && forall m :: 16 <= m && Enough(m, size) ==> pages <= m
  }

  predicate Enough(pages: int, size: int) {
    size + 32 <= pages * 4096
  }

  lemma RegionIsLeast(size: int)
    requires 0 <= size
    ensures IsLeast(PagesFor(size), size)
  {
    PagesForIsLeast(size, 16);
    forall m | 16 <= m && Enough(m, size) ensures PagesFor(size) <= m { PagesForIsLeast(size, m); }
  }

  // ---------- where free puts a block ----------

  lemma CoalescedSpan(h: Heap, a: int)
    requires Loose(h, a)
    ensures var (h', t) := Coalesced(h, a);
      t <= a && t in h'.blocks && a + h.blocks[a].realSize <= t + h'.blocks[t].realSize
  {
    hide TilesOk, Filed, NoFreePair, Tight, CountsOk, LeftClosed, RightClosed, OthersLive;
    var l := FreeLeft(h, a);
    if l != 0 { JoinLeftIsLoose(h, l, a); }
  }

  /** The freed block ends up in a block `t` that covers it. That one is at the front of
      its list, or it was a whole region of a class of which five wait already, and
      exactly then its pages go back. */
  lemma FreeFilesFirst(h: Heap, a: int) returns (t: int)
    requires HeapOk(h) && a in h.live
    ensures t <= a && a in h.blocks
    ensures var r := AfterFree(h, a);
      if t in r.blocks then
        && a + h.blocks[a].realSize <= t + r.blocks[t].realSize && r.regions == h.regions
        && var i := r.blocks[t].index; 0 <= i < |r.lists| && |r.lists[i]| > 0 && r.lists[i][0] == t
      else
        && t in h.regions && r.regions == h.regions - {t} && a < RegionEnd(h, t)
        && exists i :: InClass(h.regions[t] * 4096 - 32, i) && 0 <= i < |h.complete| && h.complete[i] == 5
  {
    hide CoreOk, Filed, NoFreePair, Tight, CountsOk, OthersLive, Coalesced, AfterFree, PageCalls;
    LiveIsBlock(h, a);
    FreeInSteps(h, a);
    var (h1, t1) := Coalesced(Release(h, a), a);
    t := t1;
    CoalescedSpan(Release(h, a), a);
    RetireFilesFirst(h1, t);
  }

  lemma LiveIsBlock(h: Heap, a: int)
    requires HeapOk(h) && a in h.live
    ensures a in h.blocks && h.blocks[a].realSize > 0
  {
  }

  lemma RetireFilesFirst(h: Heap, t: int)
    requires Loose(h, t)
    ensures h.blocks[t].realSize <= WORD_LIMIT && |h.lists| == MAXEXP == |h.complete|
    ensures var r := Retire(h, t);
      if t in r.blocks then
        && r.blocks[t].realSize == h.blocks[t].realSize && r.regions == h.regions
        && var i := r.blocks[t].index; 0 <= i < |r.lists| && |r.lists[i]| > 0 && r.lists[i][0] == t
      else
        && t in h.regions && r.regions == h.regions - {t} && h.blocks[t].realSize == h.regions[t] * 4096
        && exists i :: InClass(h.regions[t] * 4096 - 32, i) && 0 <= i < |h.complete| && h.complete[i] == 5
  {
    hide TilesOk, LiveOk, Filed, NoFreePair, Tight, OthersLive, InClass, Log2, Exponent;
    RetireIndex(h, t);
    ClassOfRoom(h.blocks[t].realSize - HEADER);
  }

  // ---------- what realloc does ----------

  /** `realloc(p, size)` took `h` to `r` and answered `q`. It never resizes in place:
      a block handed out is none of those in use before, the old one has ended, and no
      other block in use is touched. */
  ghost predicate ReallocTook(h: Heap, r: Heap, p: int, size: int, q: int) {
    var served := if q == 0 then h.live else h.live[q - 32 := size];
    && (size == 0 ==> q == 0) && (q != 0 ==> q - 32 !in h.live)
    && r.live == (if p == 0 then served else served - {p - 32})
    && forall c :: c in h.live && c != p - 32 ==> c in h.blocks && c in r.blocks && r.blocks[c] == h.blocks[c]
  }

  lemma ReallocEffect(h: Heap, p: int, size: int, grant: int)
    requires HeapOk(h) && 0 <= size <= MAX_REQUEST && Grants(h, size, grant) && (p == 0 || p - 32 in h.live)
    ensures var (r, q) := Reallocated(h, p, size, grant);
      ReallocTook(h, r, p, size, q) && (size != 0 ==> q == AfterMalloc(h, size, grant).1)
  {
    hide HeapOk, AfterMalloc, AfterFree;
    forall c | c in h.live ensures c in h.blocks { LiveIsBlock(h, c); }
  }

  // ---------- pages, then free ----------

  /** A block on fresh pages that is freed at once: with five regions of its class
      waiting the heap is as it was before, otherwise the region waits in front of its
      list and is counted. */
  lemma PagesThenFree(h: Heap, size: int, grant: int, c: int, n: int, i: int)
    requires HeapOk(h) && 0 <= size <= MAX_REQUEST && Grants(h, size, grant) && grant != 0
    requires InClass(size, c) && !(exists a :: CanServe(h, c, a, size))
    requires IsLeast(n, size) && InClass(n * 4096 - 32, i)
    ensures |h.complete| == MAXEXP == |h.lists| && AfterMalloc(h, size, grant).1 == grant + 32
    ensures var h' := AfterFree(AfterMalloc(h, size, grant).0, grant);
      if h.complete[i] == 5 then h' == h
      else
        && h'.regions == h.regions[grant := n] && h'.blocks == h.blocks[grant := Block(grant, n * 4096, i)]
        && h'.live == h.live && h'.complete == h.complete[i := h.complete[i] + 1]
        && h'.lists == h.lists[i := [grant] + h.lists[i]]
  {
    hide CoreOk, Filed, NoFreePair, Tight, CountsOk, OthersLive, Place, AfterFree, Retire, InClass, ListIndex,
      CanServe;
    CandidateIs(h, size, c);
    RegionIsLeast(size);
    assert n == PagesFor(size) by { assert Enough(n, size) && Enough(PagesFor(size), size); }
    NewRegionIsLoose(h, grant, n);
    FreeUndoesPlace(AddRegion(h, grant, n), grant, size);
    RetireFresh(h, grant, n, i);
  }

  lemma RetireFresh(h: Heap, b: int, n: int, i: int)
    requires HeapOk(h) && FreshRange(h, b, n) && InClass(n * 4096 - 32, i)
    ensures |h.complete| == MAXEXP == |h.lists| && 0 <= i < MAXEXP
    ensures var h' := Retire(AddRegion(h, b, n), b);
      if h.complete[i] == 5 then h' == h
      else
        && h'.regions == h.regions[b := n] && h'.blocks == h.blocks[b := Block(b, n * 4096, i)]
        && h'.live == h.live && h'.complete == h.complete[i := h.complete[i] + 1]
        && h'.lists == h.lists[i := [b] + h.lists[i]]
  {
    hide TilesOk, LiveOk, Filed, NoFreePair, Tight, ListIndex, InClass;
    AddRegionIsApart(h, b, n);
    ClassIsUnique(n * 4096 - 32, i);
    var h1 := AddRegion(h, b, n);
    assert b !in h.blocks && b !in h.regions;
    assert h1.blocks - {b} == h.blocks && h1.regions - {b} == h.regions;
  }
}
