/** liballoc over the physical page allocator, as kernel/src/malloc.c wires them:
    `liballoc_alloc` is `allocPage` and `liballoc_free` is `freePage`. */
module KernelHeap {
  import opened Words
  import opened Headers
  import opened HeapModel
  import opened HeapOps
  import opened HeapRuns
  import opened HeapTheorems
  import opened Options
  import Pmm

  datatype System = System(heap: Heap, pool: Pmm.Pool)

  /** The page allocator has every region of the heap on its books. */
  ghost predicate Backed(h: Heap, s: Pmm.Pool) {
    forall b {:trigger b in h.regions} :: b in h.regions ==> Pmm.Range(b, h.regions[b]) in s.live
  }

  ghost predicate SystemOk(lo: int, hi: int, used0: int, y: System) {
    HeapOk(y.heap) && Pmm.PoolOk(lo, hi, used0, y.pool) && Backed(y.heap, y.pool)
  }

  /** `MallocCall` and `FreeCall` are calls into liballoc; `PageUser` is any other
      kernel code that takes or returns pages of its own. */
  datatype Event = MallocCall(size: int) | FreeCall(block: int) | PageUser(call: Pmm.Call)

  function IndexOf(live: seq<Pmm.Range>, r: Pmm.Range): (i: nat)
    requires r in live
    ensures i < |live| && live[i] == r
  {
    if live[0] == r then 0 else 1 + IndexOf(live[1..], r)
  }

  /** The page allocator's answer meets what the heap needs from it. */
  lemma AnswerIsFresh(lo: int, hi: int, used0: int, y: System, size: int)
    requires SystemOk(lo, hi, used0, y) && 0 <= size <= MAX_REQUEST
    requires Pmm.Allowed(y.pool, Pmm.Alloc(PagesFor(size)))
    ensures Grants(y.heap, size, y.pool.start)
  {
    var n, s := PagesFor(size), y.pool.start;
    if s != 0 {
      forall c | c in y.heap.regions ensures RegionEnd(y.heap, c) <= s || s + n * 4096 <= c {
        var i := IndexOf(y.pool.live, Pmm.Range(c, y.heap.regions[c]));
        assert Pmm.Disjoint(y.pool.live[i], Pmm.Range(s, y.pool.count));
      }
    }
  }

  /** Whether `malloc(size)` asks for pages. */
  ghost predicate AsksPages(h: Heap, size: int)
    requires HeapOk(h) && 0 <= size <= MAX_REQUEST
  {
    Candidate(h, size) == 0
  }

  ghost function GivenBack(c: PageCall): Pmm.Range {
    Pmm.Range(c.base, c.pages)
  }

  ghost function Return(y: System, c: PageCall): Pmm.Call
    requires GivenBack(c) in y.pool.live
  {
    Pmm.Free(IndexOf(y.pool.live, GivenBack(c)))
  }

  /** What `free` returns to the page allocator is on its books. */
  lemma ReturnIsBooked(lo: int, hi: int, used0: int, y: System, block: int)
    requires SystemOk(lo, hi, used0, y) && block in y.heap.live && PageCalls(y.heap, Free(block)) != []
    ensures GivenBack(PageCalls(y.heap, Free(block))[0]) in y.pool.live
  {
    hide HeapOk, PageCalls, AfterFree;
    FreeEffect(y.heap, block);
    ReturnsOnly(y.heap, block);
    var c := PageCalls(y.heap, Free(block))[0];
    assert c in PageCalls(y.heap, Free(block)) && c.base in y.heap.regions;
  }

  lemma ReturnsOnly(h: Heap, block: int)
    requires HeapOk(h) && block in h.live
    ensures forall c :: c in PageCalls(h, Free(block)) ==> c.GiveBack?
  {
    hide AfterFree, Coalesced, CoreOk, Filed, NoFreePair, Tight, CountsOk;
  }

  /** Requests are in range, frees name live blocks, others free only what is
      theirs, and the page calls made are ones that return. */
  ghost predicate Allows(lo: int, hi: int, used0: int, y: System, e: Event)
    requires SystemOk(lo, hi, used0, y)
  {
    match e
    case MallocCall(size) =>
      0 <= size <= MAX_REQUEST
      && (AsksPages(y.heap, size) ==> Pmm.Allowed(y.pool, Pmm.Alloc(PagesFor(size))))
    case FreeCall(block) =>
      block in y.heap.live
      && var calls := PageCalls(y.heap, Free(block));
         calls != [] ==> (ReturnIsBooked(lo, hi, used0, y, block); Pmm.Allowed(y.pool, Return(y, calls[0])))
    case PageUser(c) =>
      Pmm.Allowed(y.pool, c) && (c.Free? ==> y.pool.live[c.which].addr !in y.heap.regions)
  }

  ghost function After(lo: int, hi: int, used0: int, y: System, e: Event): System
    requires SystemOk(lo, hi, used0, y) && Allows(lo, hi, used0, y, e)
  {
    match e
    case MallocCall(size) =>
      if AsksPages(y.heap, size) then
        AnswerIsFresh(lo, hi, used0, y, size);
        System(AfterMalloc(y.heap, size, y.pool.start).0, Pmm.Step(y.pool, Pmm.Alloc(PagesFor(size))))
      else System(AfterMalloc(y.heap, size, 0).0, y.pool)
    case FreeCall(block) =>
      var calls := PageCalls(y.heap, Free(block));
      if calls == [] then System(AfterFree(y.heap, block), y.pool)
      else
        ReturnIsBooked(lo, hi, used0, y, block);
        System(AfterFree(y.heap, block), Pmm.Step(y.pool, Return(y, calls[0])))
    case PageUser(c) => System(y.heap, Pmm.Step(y.pool, c))
  }

  // ---------- every event keeps the whole ----------

  lemma RemovedKeeps(live: seq<Pmm.Range>, i: nat, r: Pmm.Range)
    requires i < |live| && r in live && live[i] != r
    ensures r in Pmm.Removed(live, i)
  {
    var j := IndexOf(live, r);
    assert Pmm.Removed(live, i)[if j < i then j else j - 1] == r;
  }

  lemma MallocKeepsSystem(lo: int, hi: int, used0: int, y: System, size: int)
    requires SystemOk(lo, hi, used0, y) && Allows(lo, hi, used0, y, MallocCall(size))
    ensures SystemOk(lo, hi, used0, After(lo, hi, used0, y, MallocCall(size)))
  {
    var h, s := y.heap, y.pool;
    if AsksPages(h, size) {
      AnswerIsFresh(lo, hi, used0, y, size);
      Pmm.StepKeepsPool(lo, hi, used0, s, Pmm.Alloc(PagesFor(size)));
    }
  }

  lemma FreeKeepsSystem(lo: int, hi: int, used0: int, y: System, block: int)
    requires SystemOk(lo, hi, used0, y) && Allows(lo, hi, used0, y, FreeCall(block))
    ensures SystemOk(lo, hi, used0, After(lo, hi, used0, y, FreeCall(block)))
  {
    hide HeapOk, PageCalls, AfterFree, Pmm.PoolOk, Pmm.Allowed;
    var calls := PageCalls(y.heap, Free(block));
    FreeEffect(y.heap, block);
    ReturnsOnly(y.heap, block);
    if calls != [] {
      ReturnIsBooked(lo, hi, used0, y, block);
      var c := Return(y, calls[0]);
      Pmm.StepKeepsPool(lo, hi, used0, y.pool, c);
      var r := AfterFree(y.heap, block).regions;
      assert calls[0] in calls && calls[0].base !in r;
      forall b | b in r ensures Pmm.Range(b, r[b]) in Pmm.Removed(y.pool.live, c.which) {
        RemovedKeeps(y.pool.live, c.which, Pmm.Range(b, r[b]));
      }
    }
  }

  lemma PageUserKeepsSystem(lo: int, hi: int, used0: int, y: System, c: Pmm.Call)
    requires SystemOk(lo, hi, used0, y) && Allows(lo, hi, used0, y, PageUser(c))
    ensures SystemOk(lo, hi, used0, After(lo, hi, used0, y, PageUser(c)))
  {
    hide HeapOk, Pmm.PoolOk;
    Pmm.StepKeepsPool(lo, hi, used0, y.pool, c);
    if c.Free? {
      forall b | b in y.heap.regions ensures Pmm.Range(b, y.heap.regions[b]) in Pmm.Removed(y.pool.live, c.which) {
        RemovedKeeps(y.pool.live, c.which, Pmm.Range(b, y.heap.regions[b]));
      }
    }
  }

  lemma EventKeepsSystem(lo: int, hi: int, used0: int, y: System, e: Event)
    requires SystemOk(lo, hi, used0, y) && Allows(lo, hi, used0, y, e)
    ensures SystemOk(lo, hi, used0, After(lo, hi, used0, y, e))
  {
    hide *;
    match e
    case MallocCall(size) => MallocKeepsSystem(lo, hi, used0, y, size);
    case FreeCall(block) => FreeKeepsSystem(lo, hi, used0, y, block);
    case PageUser(c) => PageUserKeepsSystem(lo, hi, used0, y, c);
  }

  ghost predicate AllowsRun(lo: int, hi: int, used0: int, y: System, es: seq<Event>)
    requires SystemOk(lo, hi, used0, y)
    decreases |es|
  {
    es == [] ||
    (Allows(lo, hi, used0, y, es[0])
     && (EventKeepsSystem(lo, hi, used0, y, es[0]); AllowsRun(lo, hi, used0, After(lo, hi, used0, y, es[0]), es[1..])))
  }

  ghost function RunAll(lo: int, hi: int, used0: int, y: System, es: seq<Event>): (r: System)
    requires SystemOk(lo, hi, used0, y) && AllowsRun(lo, hi, used0, y, es)
    ensures SystemOk(lo, hi, used0, r)
    decreases |es|
  {
    if es == [] then y
    else
      EventKeepsSystem(lo, hi, used0, y, es[0]);
      RunAll(lo, hi, used0, After(lo, hi, used0, y, es[0]), es[1..])
  }

  /** In every run of the two allocators together, whatever pages others take or
      return: a byte that a caller of `malloc` owns lies in the arena, in no other
      caller's block, in no header, in no page that another took, and in no page
      of the free chunk. */
  lemma PayloadIsExclusive(lo: int, hi: int, used0: int, y: System, es: seq<Event>, a: int, c: int, j: nat, x: int)
    requires SystemOk(lo, hi, used0, y) && AllowsRun(lo, hi, used0, y, es)
    requires InPayload(RunAll(lo, hi, used0, y, es).heap, a, x)
    ensures var r := RunAll(lo, hi, used0, y, es);
      && lo <= x < hi
      && (InPayload(r.heap, c, x) ==> c == a) && !InBlockHeader(r.heap, c, x)
      && (j < |r.pool.live| && r.pool.live[j].addr !in r.heap.regions ==>
            !(r.pool.live[j].addr <= x < Pmm.End(r.pool.live[j])))
      && (r.pool.start != 0 ==> !(r.pool.start <= x < r.pool.start + 4096 * r.pool.count))
  {
    var r := RunAll(lo, hi, used0, y, es);
    PayloadsAreDisjoint(r.heap, a, c, x);
    var b := r.heap.blocks[a].home;
    var i := IndexOf(r.pool.live, Pmm.Range(b, r.heap.regions[b]));
    assert Pmm.Inside(lo, hi, r.pool.live[i]);
    if j < |r.pool.live| && j != i {
      assert if i < j then Pmm.Disjoint(r.pool.live[i], r.pool.live[j])
        else Pmm.Disjoint(r.pool.live[j], r.pool.live[i]);
    }
    assert r.pool.start != 0 ==> Pmm.Disjoint(r.pool.live[i], Pmm.Range(r.pool.start, r.pool.count));
  }

  // ---------- the headers the page allocator writes ----------

  /** Byte `x` belongs to no caller of `malloc` and to no tag. */
  ghost predicate Spared(h: Heap, x: int) {
    forall a :: !InPayload(h, a, x) && !InBlockHeader(h, a, x)
  }

  lemma OtherPagesSpared(lo: int, hi: int, used0: int, y: System, r: Pmm.Range, x: int)
    requires SystemOk(lo, hi, used0, y) && r.addr <= x < Pmm.End(r)
    requires forall i :: 0 <= i < |y.pool.live| ==> Pmm.Disjoint(y.pool.live[i], r)
    ensures Spared(y.heap, x)
  {
    hide Pmm.PoolOk, ListsOk, LiveOk, Filed, NoFreePair, Tight, CountsOk;
    forall a | a in y.heap.blocks ensures !(a <= x < a + y.heap.blocks[a].realSize) {
      var b := y.heap.blocks[a].home;
      var i := IndexOf(y.pool.live, Pmm.Range(b, y.heap.regions[b]));
      assert Pmm.Disjoint(y.pool.live[i], r);
    }
    assert LiveOk(y.heap);
    forall a ensures !InPayload(y.heap, a, x) && !InBlockHeader(y.heap, a, x) { PayloadInBlock(y.heap, a, x); }
  }

  lemma PayloadInBlock(h: Heap, a: int, x: int)
    requires LiveOk(h) && BlocksOk(h)
    ensures InPayload(h, a, x) || InBlockHeader(h, a, x) ==> a in h.blocks && a <= x < a + h.blocks[a].realSize
  {
  }

  lemma FreeChunkSpared(lo: int, hi: int, used0: int, y: System, x: int)
    requires SystemOk(lo, hi, used0, y)
    requires y.pool.start != 0 && y.pool.start <= x < y.pool.start + 4096 * y.pool.count
    ensures Spared(y.heap, x)
  {
    OtherPagesSpared(lo, hi, used0, y, Pmm.Range(y.pool.start, y.pool.count), x);
  }

  /** The call into the page allocator that the event makes, if any. */
  ghost function PageCallOf(lo: int, hi: int, used0: int, y: System, e: Event): Option<Pmm.Call>
    requires SystemOk(lo, hi, used0, y) && Allows(lo, hi, used0, y, e)
  {
    match e
    case MallocCall(size) => if AsksPages(y.heap, size) then Some(Pmm.Alloc(PagesFor(size))) else None
    case FreeCall(block) =>
      var calls := PageCalls(y.heap, Free(block));
      if calls == [] then None else ReturnIsBooked(lo, hi, used0, y, block); Some(Return(y, calls[0]))
    case PageUser(c) => Some(c)
  }

  /** The three words of a chunk header that the page allocator writes during an
      event lie in no payload, before or after, and in no tag in use afterwards. */
  lemma ChunkHeaderSpared(lo: int, hi: int, used0: int, y: System, e: Event, x: int)
    requires SystemOk(lo, hi, used0, y) && Allows(lo, hi, used0, y, e)
    requires var c := PageCallOf(lo, hi, used0, y, e);
      c.Some? && var w := Pmm.WrittenAt(y.pool, c.value); w != 0 && w <= x < w + 12
    ensures Spared(After(lo, hi, used0, y, e).heap, x)
    ensures forall a :: !InPayload(y.heap, a, x)
  {
    var c := PageCallOf(lo, hi, used0, y, e).value;
    var y' := After(lo, hi, used0, y, e);
    EventKeepsSystem(lo, hi, used0, y, e);
    assert y'.pool == Pmm.Step(y.pool, c) && Pmm.Allowed(y.pool, c);
    match c
    case Alloc(n) =>
      FreeChunkSpared(lo, hi, used0, y, x);
      FreeChunkSpared(lo, hi, used0, y', x);
    case Free(k) =>
      FreedSpared(lo, hi, used0, y, y', k, x);
      if e.FreeCall? { BaseIsHeader(lo, hi, used0, y, e.block, x); }
  }

  lemma FreedSpared(lo: int, hi: int, used0: int, y: System, y': System, k: nat, x: int)
    requires SystemOk(lo, hi, used0, y) && SystemOk(lo, hi, used0, y')
    requires Pmm.Allowed(y.pool, Pmm.Free(k)) && y'.pool == Pmm.Step(y.pool, Pmm.Free(k))
    requires y.pool.live[k].addr <= x < Pmm.End(y.pool.live[k])
    ensures Spared(y'.heap, x)
  {
    Pmm.RemovedStaysDisjoint(lo, hi, used0, y.pool, k);
    assert y'.pool.live == Pmm.Removed(y.pool.live, k);
    OtherPagesSpared(lo, hi, used0, y', y.pool.live[k], x);
  }

  /** A region that `free` gives back begins with a tag. */
  lemma BaseIsHeader(lo: int, hi: int, used0: int, y: System, block: int, x: int)
    requires SystemOk(lo, hi, used0, y) && block in y.heap.live
    requires var calls := PageCalls(y.heap, Free(block)); calls != [] && calls[0].base <= x < calls[0].base + HEADER
    ensures forall a :: !InPayload(y.heap, a, x)
  {
    var b := PageCalls(y.heap, Free(block))[0].base;
    ReturnsOnly(y.heap, block);
    FreeEffect(y.heap, block);
    assert PageCalls(y.heap, Free(block))[0] in PageCalls(y.heap, Free(block)) && b in y.heap.regions;
    assert HasBase(y.heap, b) && InBlockHeader(y.heap, b, x);
    forall a ensures !InPayload(y.heap, a, x) {
      if InPayload(y.heap, a, x) { PayloadsAreDisjoint(y.heap, a, b, x); }
    }
  }
}
