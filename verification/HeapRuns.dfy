/** Whole calls of `malloc` and `free`, and what holds in every run of them. */
module HeapRuns {
  import opened Words
  import opened Headers
  import opened HeapModel
  import opened HeapOps

  // ---------- the two calls ----------

  /** Taking and placing block `a` ends with the heap in order and other live blocks
      as they were. */
  lemma FromListSpares(h: Heap, a: int, size: int)
    requires HeapOk(h) && a in h.blocks && h.blocks[a].index >= 0 && 0 <= size && Fits(h, a, size)
    ensures Loose(Take(h, a), a) && LeftClosed(Take(h, a), a) && RightClosed(Take(h, a), a)
    ensures Take(h, a).live == h.live && Take(h, a).regions == h.regions
    ensures Take(h, a).blocks == h.blocks[a := h.blocks[a].(index := -1)]
    ensures a !in h.live && forall c :: c in h.live ==> c in h.blocks
  {
    TakeLoosens(h, a);
  }

  /** Placing block `a` spares the blocks that are live already. */
  lemma PlaceSpares(h: Heap, a: int, size: int)
    requires Loose(h, a) && 0 <= size && size + HEADER <= h.blocks[a].realSize
    ensures h.blocks[a].realSize - size - 2 * HEADER < WORD_LIMIT && |h.lists| == MAXEXP
    ensures var r := Place(h, a, size);
      && r.live == h.live[a := size] && r.regions == h.regions
      && forall c :: c in h.live ==> c in r.blocks && r.blocks[c] == h.blocks[c]
  {
    var n := a + HEADER + size;
    if n in h.blocks { assert Apart(h, a, n); }
  }

  /** The free block that serves a request, or NULL. */
  ghost function Candidate(h: Heap, size: int): (a: int)
    requires HeapOk(h) && 0 <= size <= MAX_REQUEST
    ensures a != 0 ==> a in h.blocks && h.blocks[a].index >= 0 && Fits(h, a, size)
  {
    FirstFit(h, h.lists[ListIndex(size)], size)
  }

  /** A request served by free block `a`. */
  ghost function FromList(h: Heap, a: int, size: int): (r: Heap)
    requires HeapOk(h) && a in h.blocks && h.blocks[a].index >= 0 && 0 <= size && Fits(h, a, size)
    ensures HeapOk(r) && a !in h.live && r.live == h.live[a := size] && r.regions == h.regions
    ensures forall c :: c in h.live ==> c in r.blocks && r.blocks[c] == h.blocks[c]
  {
    FromListSpares(h, a, size);
    PlaceCompletes(Take(h, a), a, size);
    PlaceSpares(Take(h, a), a, size);
    Place(Take(h, a), a, size)
  }

  /** A request served by the fresh page range at `b`. */
  ghost function FromPages(h: Heap, b: int, size: int): (r: Heap)
    requires HeapOk(h) && 0 <= size && FreshRange(h, b, PagesFor(size))
    ensures HeapOk(r) && b !in h.live && r.live == h.live[b := size]
    ensures b !in h.regions && r.regions == h.regions[b := PagesFor(size)]
    ensures forall c :: c in h.live ==> c in r.blocks && r.blocks[c] == h.blocks[c]
  {
    NewRegionIsLoose(h, b, PagesFor(size));
    AddRegionKeepsCore(h, b, PagesFor(size));
    assert forall c :: c in h.live ==> c in h.blocks;
    PlaceCompletes(AddRegion(h, b, PagesFor(size)), b, size);
    PlaceSpares(AddRegion(h, b, PagesFor(size)), b, size);
    Place(AddRegion(h, b, PagesFor(size)), b, size)
  }

  /** The heap and the pointer after `malloc(size)`, if the page allocator would
      answer `grant` (an address or NULL) when asked. */
  ghost function AfterMalloc(h: Heap, size: int, grant: int): (r: (Heap, int))
    requires HeapOk(h) && 0 <= size <= MAX_REQUEST && Grants(h, size, grant)
    ensures HeapOk(r.0) && (r.1 == 0 ==> r.0 == h)
    ensures r.1 != 0 ==> r.1 - HEADER !in h.live && r.0.live == h.live[r.1 - HEADER := size]
    ensures forall c :: c in h.live ==> c in r.0.blocks && r.0.blocks[c] == h.blocks[c]
  {
    var a := Candidate(h, size);
    if a != 0 then (FromList(h, a, size), a + HEADER)
    else if grant == 0 then (h, 0)
    else (FromPages(h, grant, size), grant + HEADER)
  }

  /** What the page allocator may answer to a request for `PagesFor(size)` pages. */
  ghost predicate Grants(h: Heap, size: int, grant: int) {
    grant == 0 || FreshRange(h, grant, PagesFor(size))
  }

  /** The block that `free` ends up with after merging, and the heap around it. */
  ghost function Coalesced(h: Heap, a: int): (r: (Heap, int))
    requires Loose(h, a)
    ensures Loose(r.0, r.1) && LeftClosed(r.0, r.1) && RightClosed(r.0, r.1)
    ensures r.0.regions == h.regions && r.0.live == h.live && r.0.complete == h.complete
    ensures forall c :: c in h.live ==> r.0.blocks[c] == h.blocks[c]
  {
    var l := FreeLeft(h, a);
    if l != 0 then
      JoinLeftIsLoose(h, l, a);
      CoalescedRight(JoinLeft(h, l, a), l)
    else CoalescedRight(h, a)
  }

  ghost function CoalescedRight(h: Heap, a: int): (r: (Heap, int))
    requires Loose(h, a) && LeftClosed(h, a)
    ensures Loose(r.0, r.1) && LeftClosed(r.0, r.1) && RightClosed(r.0, r.1)
    ensures r.0.regions == h.regions && r.0.live == h.live && r.0.complete == h.complete
    ensures forall c :: c in h.live ==> r.0.blocks[c] == h.blocks[c]
  {
    var r := FreeRight(h, a);
    if r != 0 then
      JoinRightIsLoose(h, a, r);
      (JoinRight(h, a, r), a)
    else (h, a)
  }

  ghost function AfterFree(h: Heap, a: int): (r: Heap)
    requires HeapOk(h) && a in h.live
    ensures HeapOk(r) && r.live == h.live - {a}
    ensures forall c :: c in h.live && c != a ==> c in r.blocks && r.blocks[c] == h.blocks[c]
  {
    ReleaseLoosens(h, a);
    var (h1, t) := Coalesced(Release(h, a), a);
    RetireCompletes(h1, t);
    Retire(h1, t)
  }

  /** `realloc` of block `a`: a new block, then the old one freed. */
  ghost function AfterRealloc(h: Heap, a: int, size: int, grant: int): (r: (Heap, int))
    requires HeapOk(h) && 0 <= size <= MAX_REQUEST && Grants(h, size, grant) && a in h.live
    ensures HeapOk(r.0)
  {
    var (h1, q) := AfterMalloc(h, size, grant);
    (AfterFree(h1, a), q)
  }

  /** A free list or the page allocator can serve the request. */
  ghost predicate Served(h: Heap, size: int, grant: int)
    requires HeapOk(h) && 0 <= size <= MAX_REQUEST && Grants(h, size, grant)
  {
    AfterMalloc(h, size, grant).1 != 0
  }

  /** The heap and the pointer after `realloc(p, size)`. */
  ghost function Reallocated(h: Heap, p: int, size: int, grant: int): (r: (Heap, int))
    requires HeapOk(h) && 0 <= size <= MAX_REQUEST && Grants(h, size, grant) && (p == 0 || p - HEADER in h.live)
    ensures HeapOk(r.0)
  {
    if size == 0 then (if p == 0 then h else AfterFree(h, p - HEADER), 0)
    else if p == 0 then AfterMalloc(h, size, grant)
    else AfterRealloc(h, p - HEADER, size, grant)
  }

  // ---------- runs ----------

  datatype Call = Malloc(size: int, grant: int) | Free(block: int)

  ghost predicate Allowed(h: Heap, c: Call) {
    match c
    case Malloc(size, grant) => 0 <= size <= MAX_REQUEST && Grants(h, size, grant)
    case Free(block) => block in h.live
  }

  ghost function Step(h: Heap, c: Call): (r: Heap)
    requires HeapOk(h) && Allowed(h, c)
    ensures HeapOk(r)
  {
    match c
    case Malloc(size, grant) => AfterMalloc(h, size, grant).0
    case Free(block) => AfterFree(h, block)
  }

  ghost predicate AllowedRun(h: Heap, cs: seq<Call>)
    requires HeapOk(h)
    decreases |cs|
  {
    cs == [] || (Allowed(h, cs[0]) && AllowedRun(Step(h, cs[0]), cs[1..]))
  }

  ghost function Run(h: Heap, cs: seq<Call>): (r: Heap)
    requires HeapOk(h) && AllowedRun(h, cs)
    ensures HeapOk(r)
    decreases |cs|
  {
    if cs == [] then h else Run(Step(h, cs[0]), cs[1..])
  }

  function EmptyHeap(): Heap {
    Heap(map[], map[], seq(MAXEXP, _ => []), seq(MAXEXP, _ => 0), map[])
  }

  lemma EmptyCoreOk()
    ensures CoreOk(EmptyHeap())
  {
  }

  lemma EmptyHeapOk()
    ensures HeapOk(EmptyHeap())
  {
    hide CoreOk;
    EmptyCoreOk();
    forall i | 0 <= i < MAXEXP ensures WholeFree(EmptyHeap(), i) == {} {}
  }

  /** A block that no call frees keeps its address, its size and its room. */
  lemma {:induction false} LiveBlockSurvives(h: Heap, cs: seq<Call>, a: int)
    requires HeapOk(h) && AllowedRun(h, cs) && a in h.live && Free(a) !in cs
    ensures var r := Run(h, cs);
      && a in r.live && r.live[a] == h.live[a] && r.blocks[a] == h.blocks[a]
      && h.live[a] + HEADER <= r.blocks[a].realSize < h.live[a] + 320
    decreases |cs|
  {
    hide AfterMalloc, AfterFree, RegionsOk, TilesOk, ListsOk, Filed, NoFreePair, CountsOk;
    if cs == [] {
    } else {
      assert cs[0] != Free(a);
      LiveBlockSurvives(Step(h, cs[0]), cs[1..], a);
    }
  }

  /** The calls that `realloc(p, size)` makes. */
  function ReallocCalls(p: int, size: int, grant: int): seq<Call> {
    (if size == 0 then [] else [Malloc(size, grant)]) + (if p == 0 then [] else [Free(p - HEADER)])
  }

  /** So what holds of all runs of `malloc` and `free` holds with `realloc` among them. */
  lemma ReallocIsARun(h: Heap, p: int, size: int, grant: int)
    requires HeapOk(h) && 0 <= size <= MAX_REQUEST && Grants(h, size, grant) && (p == 0 || p - HEADER in h.live)
    ensures AllowedRun(h, ReallocCalls(p, size, grant))
    ensures Run(h, ReallocCalls(p, size, grant)) == Reallocated(h, p, size, grant).0
  {
    hide HeapOk, AfterMalloc, AfterFree;
    if size == 0 {
      if p != 0 { RunOfOne(h, Free(p - HEADER)); }
    } else if p == 0 {
      RunOfOne(h, Malloc(size, grant));
    } else {
      RunOfTwo(h, Malloc(size, grant), Free(p - HEADER));
      assert ReallocCalls(p, size, grant) == [Malloc(size, grant), Free(p - HEADER)];
    }
  }

  lemma RunOfOne(h: Heap, c: Call)
    requires HeapOk(h) && Allowed(h, c)
    ensures AllowedRun(h, [c]) && Run(h, [c]) == Step(h, c)
  {
    hide HeapOk, Allowed, Step;
    assert [c][1..] == [];
  }

  lemma RunOfTwo(h: Heap, c: Call, d: Call)
    requires HeapOk(h) && Allowed(h, c) && Allowed(Step(h, c), d)
    ensures AllowedRun(h, [c, d]) && Run(h, [c, d]) == Step(Step(h, c), d)
  {
    hide HeapOk, Allowed, Step;
    assert [c, d][1..] == [d];
    RunOfOne(Step(h, c), d);
  }

  // ---------- pages ----------

  datatype PageCall = Obtain(base: int, pages: int) | GiveBack(base: int, pages: int)

  /** The page count `free` computes for a region it returns. */
  function PagesToReturn(realSize: int): int {
    var pages := realSize / 4096 + (if realSize % 4096 != 0 then 1 else 0);
    if pages < MIN_PAGES then MIN_PAGES else pages
  }

  /** The calls to the page allocator that succeed during one call. */
  ghost function PageCalls(h: Heap, c: Call): seq<PageCall>
    requires HeapOk(h) && Allowed(h, c)
  {
    match c
    case Malloc(size, grant) =>
      if Candidate(h, size) == 0 && grant != 0 then [Obtain(grant, PagesFor(size))] else []
    case Free(block) =>
      ReleaseLoosens(h, block);
      var (h1, t) := Coalesced(Release(h, block), block);
      if Surplus(h1, t) then [GiveBack(t, PagesToReturn(h1.blocks[t].realSize))] else []
  }

  ghost function PageLog(h: Heap, cs: seq<Call>): seq<PageCall>
    requires HeapOk(h) && AllowedRun(h, cs)
    decreases |cs|
  {
    if cs == [] then [] else PageCalls(h, cs[0]) + PageLog(Step(h, cs[0]), cs[1..])
  }

  /** Every return names a range that is held, with the page count it was obtained with. */
  predicate Balanced(held: map<int, int>, log: seq<PageCall>)
    decreases |log|
  {
    log == [] ||
    match log[0]
    case Obtain(b, p) => b !in held && Balanced(held[b := p], log[1..])
    case GiveBack(b, p) => b in held && held[b] == p && Balanced(held - {b}, log[1..])
  }

  function Held(held: map<int, int>, log: seq<PageCall>): map<int, int>
    decreases |log|
  {
    if log == [] then held
    else match log[0]
      case Obtain(b, p) => Held(held[b := p], log[1..])
      case GiveBack(b, p) => Held(held - {b}, log[1..])
  }

  /** Pages obtained minus pages given back. */
  function NetPages(log: seq<PageCall>): int {
    if log == [] then 0
    else (match log[0] case Obtain(_, p) => p case GiveBack(_, p) => -p) + NetPages(log[1..])
  }

  ghost function Pick<T>(s: set<T>): (x: T)
    requires s != {}
    ensures x in s
  {
    var x :| x in s; x
  }

  ghost function PagesIn(held: map<int, int>): int
    decreases |held|
  {
    if held.Keys == {} then 0
    else held[Pick(held.Keys)] + PagesIn(held - {Pick(held.Keys)})
  }

  lemma {:induction false} PagesInWithout(held: map<int, int>, b: int)
    requires b in held
    ensures PagesIn(held) == held[b] + PagesIn(held - {b})
    decreases |held|
  {
    var c := Pick(held.Keys);
    if c == b {
    } else {
      PagesInWithout(held - {c}, b);
      PagesInWithout(held - {b}, c);
      assert held - {c} - {b} == held - {b} - {c};
    }
  }

  /** `free` in two halves: merge, then file or return. */
  lemma FreeInSteps(h: Heap, a: int)
    requires HeapOk(h) && a in h.live
    ensures Loose(Release(h, a), a)
    ensures var (h1, t) := Coalesced(Release(h, a), a);
      && AfterFree(h, a) == Retire(h1, t)
      && PageCalls(h, Free(a)) == if Surplus(h1, t) then [GiveBack(t, PagesToReturn(h1.blocks[t].realSize))] else []
  {
    ReleaseLoosens(h, a);
  }

  /** The page ranges held go from `held` to `held'` by at most one page call. */
  predicate Effect(held: map<int, int>, calls: seq<PageCall>, held': map<int, int>) {
    if calls == [] then held' == held
    else |calls| == 1 && match calls[0]
      case Obtain(b, p) => b !in held && held' == held[b := p]
      case GiveBack(b, p) => b in held && held[b] == p && held' == held - {b}
  }

  lemma EffectExtends(held: map<int, int>, calls: seq<PageCall>, held': map<int, int>, rest: seq<PageCall>)
    requires Effect(held, calls, held') && Balanced(held', rest)
    ensures Balanced(held, calls + rest) && Held(held, calls + rest) == Held(held', rest)
    ensures NetPages(calls + rest) == PagesIn(held') - PagesIn(held) + NetPages(rest)
  {
    if calls == [] {
      assert calls + rest == rest;
    } else {
      assert (calls + rest)[1..] == rest;
      match calls[0]
      case Obtain(b, p) => PagesInWithout(held', b); assert held' - {b} == held;
      case GiveBack(b, p) => PagesInWithout(held, b);
    }
  }

  lemma MallocEffect(h: Heap, size: int, grant: int)
    requires HeapOk(h) && Allowed(h, Malloc(size, grant))
    ensures Effect(h.regions, PageCalls(h, Malloc(size, grant)), AfterMalloc(h, size, grant).0.regions)
  {
    hide HeapOk, Candidate, FromList, FromPages, Grants;
  }

  lemma WholePages(h: Heap, t: int)
    requires RegionsOk(h) && Whole(h, t)
    ensures PagesToReturn(h.blocks[t].realSize) == h.regions[t]
  {
  }

  lemma FreeEffect(h: Heap, a: int)
    requires HeapOk(h) && a in h.live
    ensures Effect(h.regions, PageCalls(h, Free(a)), AfterFree(h, a).regions)
  {
    FreeInSteps(h, a);
    var (h1, t) := Coalesced(Release(h, a), a);
    if Surplus(h1, t) { WholePages(h1, t); }
  }

  /** Over any run, the page ranges returned are exactly ranges obtained before,
      the ranges still held are the heap's regions, and their pages are those
      obtained less those returned. */
  lemma {:induction false} RunPages(h: Heap, cs: seq<Call>)
    requires HeapOk(h) && AllowedRun(h, cs)
    ensures Balanced(h.regions, PageLog(h, cs))
    ensures Held(h.regions, PageLog(h, cs)) == Run(h, cs).regions
    ensures PagesIn(Run(h, cs).regions) == PagesIn(h.regions) + NetPages(PageLog(h, cs))
    decreases |cs|
  {
    if cs == [] {
    } else {
      var h1 := Step(h, cs[0]);
      RunPages(h1, cs[1..]);
      if cs[0].Malloc? { MallocEffect(h, cs[0].size, cs[0].grant); } else { FreeEffect(h, cs[0].block); }
      EffectExtends(h.regions, PageCalls(h, cs[0]), h1.regions, PageLog(h1, cs[1..]));
    }
  }
}
