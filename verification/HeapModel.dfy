/** The heap that liballoc manages, without its pointers: page regions, the
    blocks that tile them, the free lists and their counters, and the requested
    size of every live block. The steps below are the primitive moves of
    kernel/src/liballoc.c. */
module HeapModel {
  import opened Words
  import opened Headers

  const MIN_PAGES: int := 16
  const MINEXP: int := 8
  const MAXEXP: int := 32
  const MAX_COMPLETE: int := 5
  const SIZE_LIMIT: int := 0x8000_0000

  /** `home` is the base of the block's region; `index` is the free list that
      holds the block, or -1. */
  datatype Block = Block(home: int, realSize: int, index: int)

  datatype Heap = Heap(
    regions: map<int, int>,     // base address -> number of pages
    blocks: map<int, Block>,    // header address -> block
    lists: seq<seq<int>>,       // the free lists, front first
    complete: seq<int>,         // the counters of unsplit free regions
    live: map<int, int>)        // header address -> requested size

  // ---------- invariants every primitive step keeps ----------

  function RegionEnd(h: Heap, b: int): int
    requires b in h.regions
  {
    b + h.regions[b] * 4096
  }

  ghost predicate RegionsOk(h: Heap) {
    && (forall b :: b in h.regions ==>
          0 < b && MIN_PAGES <= h.regions[b] && h.regions[b] * 4096 < SIZE_LIMIT && RegionEnd(h, b) <= WORD_LIMIT)
    && (forall b, c {:trigger RegionsApart(h, b, c)} :: RegionsApart(h, b, c))
  }

  ghost predicate RegionsApart(h: Heap, b: int, c: int) {
    b in h.regions && c in h.regions && b < c ==> RegionEnd(h, b) <= c
  }

  ghost predicate BlocksOk(h: Heap) {
    && (forall a :: a in h.blocks ==>
          var b := h.blocks[a];
          b.home in h.regions && b.home <= a && HEADER <= b.realSize && a + b.realSize <= RegionEnd(h, b.home))
    && (forall a, c {:trigger Apart(h, a, c)} :: Apart(h, a, c))
    && (forall b {:trigger HasBase(h, b)} :: b in h.regions ==> HasBase(h, b))
  }

  /** Block `a` ends before block `c` begins. */
  ghost predicate Apart(h: Heap, a: int, c: int) {
    a in h.blocks && c in h.blocks && a < c ==> a + h.blocks[a].realSize <= c
  }

  /** A block starts at the region's base. */
  ghost predicate HasBase(h: Heap, b: int) {
    b in h.blocks && h.blocks[b].home == b
  }

  /** `c` starts where `a` ends, in the same region. */
  ghost predicate IsNext(h: Heap, a: int, c: int) {
    && a in h.blocks && c in h.blocks
    && a + h.blocks[a].realSize == c
    && h.blocks[a].home == h.blocks[c].home
  }

  /** The block at `a` ends its region, or another block of the region follows. */
  ghost predicate HasNext(h: Heap, a: int)
    requires a in h.blocks && h.blocks[a].home in h.regions
  {
    var e := a + h.blocks[a].realSize;
    e == RegionEnd(h, h.blocks[a].home) || IsNext(h, a, e)
  }

  /** No gap: with `BlocksOk`, the blocks of a region tile it. */
  ghost predicate TilesOk(h: Heap)
    requires BlocksOk(h)
  {
    forall a {:trigger HasNext(h, a)} :: a in h.blocks ==> HasNext(h, a)
  }

  ghost predicate NoDup<T(!new)>(s: seq<T>) {
    forall i, j :: 0 <= i < j < |s| ==> s[i] != s[j]
  }

  /** List `i` holds exactly the blocks with index `i`, each once. */
  ghost predicate ListsOk(h: Heap) {
    && |h.lists| == MAXEXP
    && (forall i :: 0 <= i < MAXEXP ==> NoDup(h.lists[i]))
    && (forall a :: a in h.blocks ==> -1 <= h.blocks[a].index < MAXEXP)
    && (forall a :: a in h.blocks && h.blocks[a].index >= 0 ==> a in h.lists[h.blocks[a].index])
    && (forall i, a :: 0 <= i < MAXEXP && a in h.lists[i] ==> a in h.blocks && h.blocks[a].index == i)
  }

  ghost predicate LiveOk(h: Heap) {
    forall a :: a in h.live ==>
      && a in h.blocks && h.blocks[a].index == -1
      && 0 <= h.live[a] && h.live[a] + HEADER <= h.blocks[a].realSize
  }

  ghost predicate CoreOk(h: Heap) {
    RegionsOk(h) && BlocksOk(h) && TilesOk(h) && ListsOk(h) && LiveOk(h)
  }

  // ---------- the primitive steps ----------

  /** `s` without the first occurrence of `a`. */
  function Without(s: seq<int>, a: int): (r: seq<int>)
    ensures forall x :: x in r ==> x in s
    ensures forall x :: x in s && x != a ==> x in r
  {
    if s == [] then []
    else if s[0] == a then s[1..]
    else
      var r := [s[0]] + Without(s[1..], a);
      assert forall x :: x in s ==> x == s[0] || x in s[1..];
      r
  }

  lemma {:induction false} WithoutAt(s: seq<int>, j: nat)
    requires NoDup(s) && j < |s|
    ensures Without(s, s[j]) == s[..j] + s[j + 1..]
  {
    if j == 0 {
    } else {
      assert s[0] != s[j];
      assert NoDup(s[1..]);
      assert s[1..][j - 1] == s[j];
      WithoutAt(s[1..], j - 1);
      assert s[..j] + s[j + 1..] == [s[0]] + (s[1..][..j - 1] + s[1..][j..]);
    }
  }

  /** Take a listed block off its free list. */
  ghost function Unlist(h: Heap, a: int): Heap
    requires a in h.blocks && 0 <= h.blocks[a].index < |h.lists|
  {
    var i := h.blocks[a].index;
    h.(blocks := h.blocks[a := h.blocks[a].(index := -1)],
       lists := h.lists[i := Without(h.lists[i], a)])
  }

  /** Put an unlisted block at the front of free list `i`. */
  ghost function Enlist(h: Heap, a: int, i: int): Heap
    requires a in h.blocks && 0 <= i < |h.lists|
  {
    h.(blocks := h.blocks[a := h.blocks[a].(index := i)],
       lists := h.lists[i := [a] + h.lists[i]])
  }

  /** Block `l` swallows the block `a` that follows it. */
  ghost function Merge(h: Heap, l: int, a: int): Heap
    requires l in h.blocks && a in h.blocks
  {
    h.(blocks := (h.blocks - {a})[l := h.blocks[l].(realSize := h.blocks[l].realSize + h.blocks[a].realSize)])
  }

  /** Block `a` is cut at address `n`; the new block is unlisted. */
  ghost function Split(h: Heap, a: int, n: int): Heap
    requires a in h.blocks
  {
    var b := h.blocks[a];
    h.(blocks := h.blocks[a := b.(realSize := n - a)][n := Block(b.home, a + b.realSize - n, -1)])
  }

  ghost function AddRegion(h: Heap, b: int, pages: int): Heap {
    h.(regions := h.regions[b := pages], blocks := h.blocks[b := Block(b, pages * 4096, -1)])
  }

  ghost function DropRegion(h: Heap, b: int): Heap {
    h.(regions := h.regions - {b}, blocks := h.blocks - {b})
  }

  // ---------- each step keeps the core invariant ----------

  ghost predicate SpaceOk(h: Heap) {
    RegionsOk(h) && BlocksOk(h) && TilesOk(h)
  }

  /** The same regions cut into the same blocks. */
  ghost predicate SameTiling(h: Heap, h': Heap) {
    && h'.regions == h.regions
    && h'.blocks.Keys == h.blocks.Keys
    && forall a :: a in h.blocks ==>
         h'.blocks[a].home == h.blocks[a].home && h'.blocks[a].realSize == h.blocks[a].realSize
  }

  lemma SameTilingKeepsSpace(h: Heap, h': Heap)
    requires SpaceOk(h) && SameTiling(h, h')
    ensures SpaceOk(h')
  {
    assert RegionsOk(h') by {
      forall b, c ensures RegionsApart(h', b, c) { assert RegionsApart(h, b, c); }
    }
    forall c, d ensures Apart(h', c, d) { assert Apart(h, c, d); }
    forall b | b in h'.regions ensures HasBase(h', b) { assert HasBase(h, b); }
    forall c | c in h'.blocks ensures HasNext(h', c) { assert HasNext(h, c); }
  }

  lemma UnlistKeepsLists(h: Heap, a: int)
    requires ListsOk(h) && a in h.blocks && h.blocks[a].index >= 0
    ensures ListsOk(Unlist(h, a))
  {
    var h' := Unlist(h, a);
    var i := h.blocks[a].index;
    var s := h.lists[i];
    var j :| 0 <= j < |s| && s[j] == a;
    WithoutAt(s, j);
    assert a !in Without(s, a);
    assert NoDup(Without(s, a));
    forall k, c | 0 <= k < MAXEXP && c in h'.lists[k]
      ensures c in h'.blocks && h'.blocks[c].index == k
    {
      assert c in h.lists[k];
    }
  }

  lemma UnlistKeepsCore(h: Heap, a: int)
    requires CoreOk(h) && a in h.blocks && h.blocks[a].index >= 0
    ensures CoreOk(Unlist(h, a))
  {
    SameTilingKeepsSpace(h, Unlist(h, a));
    UnlistKeepsLists(h, a);
  }

  lemma EnlistKeepsLists(h: Heap, a: int, i: int)
    requires ListsOk(h) && a in h.blocks && h.blocks[a].index == -1 && 0 <= i < MAXEXP
    ensures ListsOk(Enlist(h, a, i))
  {
    var h' := Enlist(h, a, i);
    assert a !in h.lists[i];
    forall k, c | 0 <= k < MAXEXP && c in h'.lists[k]
      ensures c in h'.blocks && h'.blocks[c].index == k
    {
      assert c == a || c in h.lists[k];
    }
  }

  lemma EnlistKeepsCore(h: Heap, a: int, i: int)
    requires CoreOk(h) && a in h.blocks && h.blocks[a].index == -1 && a !in h.live && 0 <= i < MAXEXP
    ensures CoreOk(Enlist(h, a, i))
  {
    SameTilingKeepsSpace(h, Enlist(h, a, i));
    EnlistKeepsLists(h, a, i);
  }

  lemma MergeKeepsSpace(h: Heap, l: int, a: int)
    requires SpaceOk(h) && IsNext(h, l, a)
    ensures SpaceOk(Merge(h, l, a))
  {
    var h' := Merge(h, l, a);
    assert RegionsOk(h') by {
      forall b, c ensures RegionsApart(h', b, c) { assert RegionsApart(h, b, c); }
    }
    forall c, d ensures Apart(h', c, d) { assert Apart(h, c, d) && Apart(h, a, d); }
    forall b | b in h'.regions ensures HasBase(h', b) { assert HasBase(h, b); }
    assert HasNext(h, a);
    forall c | c in h'.blocks ensures HasNext(h', c) { assert HasNext(h, c) && Apart(h, c, l) && Apart(h, l, c); }
  }

  lemma MergeKeepsCore(h: Heap, l: int, a: int)
    requires CoreOk(h) && IsNext(h, l, a)
    requires h.blocks[a].index == -1 && a !in h.live
    ensures CoreOk(Merge(h, l, a))
  {
    MergeKeepsSpace(h, l, a);
  }

  lemma SplitKeepsBlocks(h: Heap, a: int, n: int)
    requires SpaceOk(h) && a in h.blocks
    requires a + HEADER <= n <= a + h.blocks[a].realSize - HEADER
    ensures n !in h.blocks
    ensures var h' := Split(h, a, n); RegionsOk(h') && BlocksOk(h')
  {
    var h' := Split(h, a, n);
    assert Apart(h, a, n);
    assert RegionsOk(h') by {
      forall b, c ensures RegionsApart(h', b, c) { assert RegionsApart(h, b, c); }
    }
    forall c, d ensures Apart(h', c, d) {
      assert Apart(h, c, d) && Apart(h, a, d) && Apart(h, c, a) && Apart(h, a, c);
    }
    forall b | b in h'.regions ensures HasBase(h', b) { assert HasBase(h, b); }
  }

  lemma SplitKeepsSpace(h: Heap, a: int, n: int)
    requires SpaceOk(h) && a in h.blocks
    requires a + HEADER <= n <= a + h.blocks[a].realSize - HEADER
    ensures n !in h.blocks
    ensures SpaceOk(Split(h, a, n))
  {
    var h' := Split(h, a, n);
    SplitKeepsBlocks(h, a, n);
    assert HasNext(h, a);
    forall c | c in h'.blocks ensures HasNext(h', c) { assert c != n ==> HasNext(h, c); }
  }

  lemma SplitKeepsCore(h: Heap, a: int, n: int)
    requires CoreOk(h) && a in h.blocks
    requires a + HEADER <= n <= a + h.blocks[a].realSize - HEADER
    requires a in h.live ==> a + HEADER + h.live[a] <= n
    ensures n !in h.blocks
    ensures CoreOk(Split(h, a, n))
  {
    SplitKeepsSpace(h, a, n);
  }

  /** A page range that overlaps no region held. */
  ghost predicate FreshRange(h: Heap, b: int, pages: int) {
    && 0 < b && MIN_PAGES <= pages && pages * 4096 < SIZE_LIMIT && b + pages * 4096 <= WORD_LIMIT
    && forall c :: c in h.regions ==> RegionEnd(h, c) <= b || b + pages * 4096 <= c
  }

  lemma AddRegionIsApart(h: Heap, b: int, pages: int)
    requires SpaceOk(h) && FreshRange(h, b, pages)
    ensures b !in h.regions && forall c :: c in h.blocks ==> c + h.blocks[c].realSize <= b || b + pages * 4096 <= c
  {
    forall c | c in h.blocks ensures c + h.blocks[c].realSize <= b || b + pages * 4096 <= c {
      assert RegionEnd(h, h.blocks[c].home) <= b || b + pages * 4096 <= h.blocks[c].home;
    }
  }

  lemma AddRegionKeepsBlocks(h: Heap, b: int, pages: int)
    requires SpaceOk(h) && FreshRange(h, b, pages)
    ensures var h' := AddRegion(h, b, pages); RegionsOk(h') && BlocksOk(h')
  {
    var h' := AddRegion(h, b, pages);
    AddRegionIsApart(h, b, pages);
    assert RegionsOk(h') by {
      forall c, d ensures RegionsApart(h', c, d) { assert RegionsApart(h, c, d); }
    }
    forall c, d ensures Apart(h', c, d) { assert Apart(h, c, d); }
    forall c | c in h'.regions ensures HasBase(h', c) { assert c != b ==> HasBase(h, c); }
  }

  lemma AddRegionKeepsSpace(h: Heap, b: int, pages: int)
    requires SpaceOk(h) && FreshRange(h, b, pages)
    ensures b !in h.blocks && b !in h.regions
    ensures SpaceOk(AddRegion(h, b, pages))
  {
    var h' := AddRegion(h, b, pages);
    AddRegionIsApart(h, b, pages);
    AddRegionKeepsBlocks(h, b, pages);
    forall c | c in h'.blocks ensures HasNext(h', c) { assert c != b ==> HasNext(h, c); }
  }

  lemma AddRegionKeepsCore(h: Heap, b: int, pages: int)
    requires CoreOk(h) && FreshRange(h, b, pages)
    ensures b !in h.blocks && b !in h.regions
    ensures CoreOk(AddRegion(h, b, pages))
  {
    AddRegionKeepsSpace(h, b, pages);
  }

  /** The block at `a` is a whole region. */
  ghost predicate Whole(h: Heap, a: int)
  {
    a in h.blocks && a in h.regions && h.blocks[a].realSize == h.regions[a] * 4096
  }

  lemma DropRegionKeepsSpace(h: Heap, b: int)
    requires SpaceOk(h) && Whole(h, b)
    ensures h.blocks[b].home == b && forall c :: c in h.blocks && c != b ==> h.blocks[c].home != b
    ensures SpaceOk(DropRegion(h, b))
  {
    var h' := DropRegion(h, b);
    assert HasBase(h, b);
    forall c | c in h'.blocks ensures h.blocks[c].home != b { assert Apart(h, b, c); }
    assert RegionsOk(h') by {
      forall c, d ensures RegionsApart(h', c, d) { assert RegionsApart(h, c, d); }
    }
    forall c, d ensures Apart(h', c, d) { assert Apart(h, c, d); }
    forall c | c in h'.regions ensures HasBase(h', c) { assert HasBase(h, c); }
    forall c | c in h'.blocks ensures HasNext(h', c) { assert HasNext(h, c); }
  }

  lemma DropRegionKeepsCore(h: Heap, b: int)
    requires CoreOk(h) && Whole(h, b) && h.blocks[b].index == -1 && b !in h.live
    ensures h.blocks[b].home == b && forall c :: c in h.blocks && c != b ==> h.blocks[c].home != b
    ensures CoreOk(DropRegion(h, b))
  {
    DropRegionKeepsSpace(h, b);
  }
}
