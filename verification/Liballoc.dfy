/** The allocator of kernel/src/liballoc.c. Headers live in the same byte memory
    as the payloads; `tags` is the ghost record of the headers in use, and
    `heap` the heap they represent. */
module Liballoc {
  import opened Words
  import opened Headers
  import opened HeapModel
  import opened HeapLinks
  import opened HeapOps
  import opened HeapRuns
  import opened HeapTheorems

  class Allocator {
    var mem: Memory
    const freePages: array<Word>
    const completePages: array<int>
    var initialized: bool
    ghost var tags: map<int, Tag>
    ghost var heap: Heap

    ghost predicate Shaped()
      reads this
    {
      freePages.Length == MAXEXP && completePages.Length == MAXEXP && freePages as object != completePages
    }

    /** The two link structures and the byte memory agree with `heap`. */
    ghost predicate Core()
      reads this, freePages
    {
      Shaped() && initialized && Coupled(mem, tags) && Linked(tags, freePages[..], heap)
    }

    ghost predicate Valid()
      reads this, freePages, completePages
    {
      && Shaped() && HeapOk(heap) && Coupled(mem, tags)
      && if initialized then Linked(tags, freePages[..], heap) && completePages[..] == heap.complete
         else heap == EmptyHeap() && tags == map[]
    }

    constructor (memory: Memory)
      ensures Valid() && mem == memory && heap == EmptyHeap()
      ensures fresh(freePages) && fresh(completePages)
    {
      mem, initialized := memory, false;
      freePages, completePages := new Word[32], new int[32];
      tags, heap := map[], EmptyHeap();
      EmptyHeapOk();
    }

    // ---------- header fields ----------

    method Get(a: int, f: Field) returns (v: int)
      requires Coupled(mem, tags) && a in tags
      ensures v == FieldOf(tags[a], f)
    {
      assert TagAt(mem, a) == tags[a];
      v := Load32(mem, a + Offset(f));
      if f == Index { v := Signed(v); }
    }

    method Put(a: int, f: Field, v: int)
      requires Coupled(mem, tags) && Separate(tags.Keys) && a in tags && Storable(f, v)
      modifies this`mem, this`tags
      ensures Coupled(mem, tags) && tags == Upd(old(tags), a, f, v) && Separate(tags.Keys)
      ensures forall x :: x < a || a + HEADER <= x ==> mem(x) == old(mem)(x)
    {
      StoreKeepsCoupling(mem, tags, a, f, v);
      mem := Store32(mem, a + Offset(f), Encode(v));
      tags := Upd(tags, a, f, v);
    }

    /** Start treating the 32 bytes at `n` as a header. */
    ghost method Adopt(n: int) returns (g: Tag)
      requires Coupled(mem, tags) && n !in tags && Separate(tags.Keys + {n})
      modifies this`tags
      ensures Coupled(mem, tags) && tags == old(tags)[n := g] && Separate(tags.Keys)
    {
      g := TagAt(mem, n);
      tags := tags[n := g];
      assert tags.Keys == old(tags.Keys) + {n};
    }

    // ---------- helpers of the source ----------

    static method GetExp(size: Word) returns (e: int)
      ensures e == Exponent(size)
    {
      if size < Pow2(MINEXP) { return -1; }
      var shift := MINEXP;
      while shift < MAXEXP
        invariant MINEXP <= shift <= MAXEXP
        invariant Pow2(shift - 1) <= size && (shift == MINEXP ==> Pow2(shift) <= size)
      {
        if Pow2(shift) > size { break; }
        shift := shift + 1;
      }
      assert Pow2(8) == 256 && Pow2(16) == 0x1_0000 && Pow2(24) == 0x100_0000 && Pow2(32) == 0x1_0000_0000;
      Log2Unique(size, shift - 1);
      return shift - 1;
    }

    /** `getexp`, raised to MINEXP: the list for `size` bytes of room. */
    static method ListFor(size: Word) returns (i: int)
      ensures i == ListIndex(size)
    {
      i := GetExp(size);
      if i < MINEXP { i := MINEXP; }
    }

    method FileIndex(tag: int) returns (i: int)
      requires Coupled(mem, tags) && tag in tags && HEADER <= tags[tag].realSize < WORD_LIMIT
      ensures i == ListIndex(tags[tag].realSize - HEADER)
    {
      var realSize := Get(tag, RealSize);
      i := ListFor(realSize - HEADER);
    }

    /** The link updates of `insert_tag`. */
    method PushTag(tag: int, i: int)
      requires Shaped() && Coupled(mem, tags) && Separate(tags.Keys)
      requires tag in tags && 0 < tag < WORD_LIMIT && 0 <= i < MAXEXP && 0 !in tags
      requires freePages[i] != tag && (freePages[i] != 0 ==> freePages[i] in tags)
      modifies this`mem, this`tags, freePages
      ensures Coupled(mem, tags) && tags == Inserted(old(tags), tag, i, old(freePages[i]))
      ensures freePages[..] == old(freePages[..])[i := tag]
      ensures OnlyHeaders(old(mem), mem, old(tags.Keys))
    {
      Put(tag, Index, i);
      if freePages[i] != 0 {
        Put(freePages[i], Prev, tag);
        Put(tag, Next, freePages[i]);
      }
      freePages[i] := tag;
    }

    /** File the unlisted block `tag`, whose index word may be stale, under list `i`. */
    method InsertAt(tag: int, i: int)
      requires Shaped() && initialized && Coupled(mem, tags) && tag in tags
      requires Linked(tags[tag := tags[tag].(index := -1)], freePages[..], heap)
      requires tag in heap.blocks && heap.blocks[tag].index == -1 && tag !in heap.live && 0 <= i < MAXEXP
      modifies this`mem, this`tags, this`heap, freePages
      ensures Core() && heap == Enlist(old(heap), tag, i)
      ensures tags.Keys == old(tags.Keys) && OnlyHeaders(old(mem), mem, tags.Keys)
    {
      hide Linked, Coupled, Enlist, Inserted, OnlyHeaders;
      LinkedSeparate(tags[tag := tags[tag].(index := -1)], freePages[..], heap);
      InsertFreshIndex(tags, freePages[..], heap, tag, i);
      InsertedFrame(tags, tag, i, freePages[i]);
      PushTag(tag, i);
      heap := Enlist(heap, tag, i);
    }

    method InsertTag(tag: int, index: int)
      requires Shaped() && initialized && Coupled(mem, tags) && tag in tags
      requires Linked(tags[tag := tags[tag].(index := -1)], freePages[..], heap)
      requires tag in heap.blocks && heap.blocks[tag].index == -1 && tag !in heap.live && index < MAXEXP
      modifies this`mem, this`tags, this`heap, freePages
      ensures Core()
      ensures heap == Enlist(old(heap), tag,
        if index < 0 then ListIndex(old(heap).blocks[tag].realSize - HEADER) else index)
      ensures tags.Keys == old(tags.Keys) && OnlyHeaders(old(mem), mem, tags.Keys)
    {
      hide Linked, Coupled, Enlist, OnlyHeaders, ListIndex;
      var realIndex := index;
      if index < 0 {
        LinkedHeader(tags[tag := tags[tag].(index := -1)], freePages[..], heap, tag);
        realIndex := FileIndex(tag);
      }
      InsertAt(tag, realIndex);
    }

    /** The link updates of `remove_tag`. */
    method UnlinkTag(tag: int)
      requires Shaped() && Coupled(mem, tags) && Separate(tags.Keys) && tag in tags && 0 !in tags
      requires 0 <= tags[tag].index < MAXEXP && tags[tag].next != tag && tags[tag].prev != tag
      requires 0 <= tags[tag].next < WORD_LIMIT && (tags[tag].next != 0 ==> tags[tag].next in tags)
      requires 0 <= tags[tag].prev < WORD_LIMIT && (tags[tag].prev != 0 ==> tags[tag].prev in tags)
      modifies this`mem, this`tags, freePages
      ensures Coupled(mem, tags) && tags == Unlinked(old(tags), tag)
      ensures freePages[..] == (var i := old(tags)[tag].index;
        if old(freePages[i]) == tag then old(freePages[..])[i := old(tags)[tag].next] else old(freePages[..]))
      ensures OnlyHeaders(old(mem), mem, old(tags.Keys))
    {
      var index := Get(tag, Index);
      var next := Get(tag, Next);
      var prev := Get(tag, Prev);
      if freePages[index] == tag { freePages[index] := next; }
      if prev != 0 { Put(prev, Next, next); }
      if next != 0 { Put(next, Prev, prev); }
      Put(tag, Next, 0);
      Put(tag, Prev, 0);
      Put(tag, Index, -1);
    }

    method RemoveTag(tag: int)
      requires Core() && tag in heap.blocks && heap.blocks[tag].index >= 0
      modifies this`mem, this`tags, this`heap, freePages
      ensures Core() && heap == Unlist(old(heap), tag)
      ensures tags.Keys == old(tags.Keys) && tags[tag].size == old(tags)[tag].size
      ensures OnlyHeaders(old(mem), mem, old(tags.Keys))
    {
      hide RegionsOk, BlocksOk, TilesOk, LiveOk, ChainsOk, Coupled, OnlyHeaders;
      ghost var i := heap.blocks[tag].index;
      LinkedSeparate(tags, freePages[..], heap);
      ListedLinks(tags, freePages[..], heap, tag, i);
      RemoveKeepsLinks(tags, freePages[..], heap, tag, i);
      UnlinkedFrame(tags, tag);
      UnlinkTag(tag);
      heap := Unlist(heap, tag);
    }

    /** What `melt_left` and `absorb_right` have in common: `l` takes over its
        right neighbour `a`, whose header is not used again. */
    method Swallow(l: int, a: int)
      requires Shaped() && Coupled(mem, tags) && Separate(tags.Keys) && l in tags && a in tags && l != a && 0 !in tags
      requires 0 <= l < WORD_LIMIT && 0 <= tags[l].realSize && 0 <= tags[a].realSize
      requires tags[l].realSize + tags[a].realSize < WORD_LIMIT
      requires 0 <= tags[a].splitRight < WORD_LIMIT && tags[a].splitRight != a
      requires tags[a].splitRight != 0 ==> tags[a].splitRight in tags
      modifies this`mem, this`tags
      ensures Coupled(mem, tags) && tags == Merged(old(tags), l, a)
      ensures OnlyHeaders(old(mem), mem, old(tags.Keys))
    {
      var lSize := Get(l, RealSize);
      var aSize := Get(a, RealSize);
      var right := Get(a, SplitRight);
      Put(l, RealSize, Wrap(lSize + aSize));
      Put(l, SplitRight, right);
      if right != 0 { Put(right, SplitLeft, l); }
      tags := tags - {a};
    }

    method MeltLeft(tag: int) returns (left: int)
      requires Core() && tag in tags && tags[tag].splitLeft != 0
      requires tag in heap.blocks && heap.blocks[tag].index == -1 && tag !in heap.live
      modifies this`mem, this`tags, this`heap
      ensures Core() && left == old(tags)[tag].splitLeft && IsNext(old(heap), left, tag)
      ensures heap == Merge(old(heap), left, tag)
      ensures tags.Keys == old(tags.Keys) - {tag} && OnlyHeaders(old(mem), mem, old(tags.Keys))
    {
      hide Linked, Coupled, HeaderOk, Merge, Merged, OnlyHeaders;
      LinkedHeader(tags, freePages[..], heap, tag);
      LinkedSeparate(tags, freePages[..], heap);
      left := Get(tag, SplitLeft);
      NeighbourLinks(tags, freePages[..], heap, left, tag);
      MergeKeepsLinks(tags, freePages[..], heap, left, tag);
      MergedFrame(tags, left, tag);
      Swallow(left, tag);
      heap := Merge(heap, left, tag);
    }

    /** The part of `absorb_right` after it took the right neighbour off its list. */
    method TakeOver(tag: int, right: int)
      requires Core() && IsNext(heap, tag, right) && heap.blocks[right].index == -1 && right !in heap.live
      modifies this`mem, this`tags, this`heap
      ensures Core() && heap == Merge(old(heap), tag, right)
      ensures tags.Keys == old(tags.Keys) - {right} && OnlyHeaders(old(mem), mem, old(tags.Keys))
    {
      hide Linked, Coupled, HeaderOk, Merge, Merged, OnlyHeaders;
      LinkedSeparate(tags, freePages[..], heap);
      NeighbourLinks(tags, freePages[..], heap, tag, right);
      MergeKeepsLinks(tags, freePages[..], heap, tag, right);
      MergedFrame(tags, tag, right);
      Swallow(tag, right);
      heap := Merge(heap, tag, right);
    }

    method AbsorbRight(tag: int)
      requires Core() && tag in heap.blocks && FreeRight(heap, tag) != 0
      modifies this`mem, this`tags, this`heap, freePages
      ensures Core() && heap == JoinRight(old(heap), tag, FreeRight(old(heap), tag))
      ensures tags.Keys <= old(tags.Keys) && OnlyHeaders(old(mem), mem, old(tags.Keys))
    {
      ghost var m, keys := mem, tags.Keys;
      FreeRightIs(tags, freePages[..], heap, tag);
      var right := Get(tag, SplitRight);
      RemoveTag(right);
      ghost var m1 := mem;
      TakeOver(tag, right);
      OnlyHeadersTransitive(m, m1, mem, keys, keys, keys);
    }

    /** The header `split_tag` writes at `n`; its size and index words keep what
        the memory held. */
    method WriteNewTag(n: int, realSize: int, left: int, right: int) returns (ghost g: Tag)
      requires Coupled(mem, tags) && n !in tags && Separate(tags.Keys + {n})
      requires 0 <= realSize < WORD_LIMIT && 0 <= left < WORD_LIMIT && 0 <= right < WORD_LIMIT
      modifies this`mem, this`tags
      ensures Coupled(mem, tags) && tags == Fresh(old(tags)[n := g], n, realSize, left, right)
      ensures tags.Keys == old(tags.Keys) + {n} && Separate(tags.Keys)
      ensures forall x :: x < n || n + HEADER <= x ==> mem(x) == old(mem)(x)
    {
      hide Coupled, TagAt;
      g := Adopt(n);
      Put(n, Magic, MAGIC);
      Put(n, RealSize, realSize);
      Put(n, Next, 0);
      Put(n, Prev, 0);
      Put(n, SplitLeft, left);
      Put(n, SplitRight, right);
    }

    /** The last three writes of `split_tag`. */
    method Relink(tag: int, n: int, right: int, realSize: int)
      requires Coupled(mem, tags) && Separate(tags.Keys) && tag in tags && 0 !in tags
      requires 0 <= n < WORD_LIMIT && 0 <= realSize < WORD_LIMIT && (right != 0 ==> right in tags)
      modifies this`mem, this`tags
      ensures Coupled(mem, tags) && tags == Relinked(old(tags), tag, n, right, realSize)
      ensures OnlyHeaders(old(mem), mem, old(tags.Keys)) && tags.Keys == old(tags.Keys)
    {
      hide Coupled;
      if right != 0 { Put(right, SplitLeft, n); }
      Put(tag, SplitRight, n);
      Put(tag, RealSize, realSize);
    }

    /** The writes of `split_tag` before it files the new block. */
    method CutTag(tag: int) returns (n: int, ghost g: Tag)
      requires Coupled(mem, tags) && tag in tags && 0 !in tags
      requires 0 < tag && 0 <= tags[tag].size && tags[tag].size + 2 * HEADER <= tags[tag].realSize
      requires tag + tags[tag].realSize <= WORD_LIMIT
      requires 0 <= tags[tag].splitRight < WORD_LIMIT && (tags[tag].splitRight != 0 ==> tags[tag].splitRight in tags)
      requires tag + HEADER + tags[tag].size !in tags && Separate(tags.Keys + {tag + HEADER + tags[tag].size})
      modifies this`mem, this`tags
      ensures Coupled(mem, tags) && n == tag + HEADER + old(tags)[tag].size
      ensures tags == CutFrom(old(tags), tag, n, g)
      ensures OnlyHeaders(old(mem), mem, old(tags.Keys) + {n})
    {
      hide Fresh, Coupled, Wrap, Relinked;
      var realSize := Get(tag, RealSize);
      var size := Get(tag, Size);
      var right := Get(tag, SplitRight);
      var remainder := Wrap(realSize - HEADER - size);
      n := Wrap(tag + HEADER + size);
      assert remainder == tag + realSize - n && Wrap(realSize - remainder) == n - tag;
      g := WriteNewTag(n, remainder, tag, right);
      Relink(tag, n, right, Wrap(realSize - remainder));
    }

    /** The part of `split_tag` before it files the new block. */
    method CutOff(tag: int) returns (n: int)
      requires Core() && tag in heap.live && tag in heap.blocks
      requires heap.live[tag] + 2 * HEADER <= heap.blocks[tag].realSize
      modifies this`mem, this`tags, this`heap
      ensures Coupled(mem, tags) && n == tag + HEADER + old(heap).live[tag] && n !in old(heap).blocks
      ensures heap == Split(old(heap), tag, n) && |heap.lists| == MAXEXP
      ensures n in tags && Linked(tags[n := tags[n].(index := -1)], freePages[..], heap) && n !in heap.live
      ensures heap.blocks[n].realSize - HEADER == old(heap).blocks[tag].realSize - old(heap).live[tag] - 2 * HEADER
      ensures tags.Keys == old(tags.Keys) + {n} && OnlyHeaders(old(mem), mem, tags.Keys)
    {
      hide Linked, Coupled, CutFrom, OnlyHeaders;
      ghost var t := tags;
      CutReady(tags, freePages[..], heap, tag, tag + HEADER + heap.live[tag]);
      ghost var g;
      n, g := CutTag(tag);
      CutFromKeepsLinks(t, freePages[..], heap, tag, n, g);
      heap := Split(heap, tag, n);
    }

    method SplitTag(tag: int) returns (n: int)
      requires Core() && tag in heap.live && tag in heap.blocks
      requires heap.live[tag] + 2 * HEADER <= heap.blocks[tag].realSize
      modifies this`mem, this`tags, this`heap, freePages
      ensures Core() && n == tag + HEADER + old(heap).live[tag]
      ensures n !in old(heap).blocks
      ensures heap == Enlist(Split(old(heap), tag, n), n,
        ListIndex(old(heap).blocks[tag].realSize - old(heap).live[tag] - 2 * HEADER))
      ensures tags.Keys == old(tags.Keys) + {n} && OnlyHeaders(old(mem), mem, tags.Keys)
    {
      hide Linked, Coupled, Enlist, ListIndex, OnlyHeaders;
      ghost var m := mem;
      n := CutOff(tag);
      ghost var m1 := mem;
      InsertTag(n, -1);
      OnlyHeadersTransitive(m, m1, mem, tags.Keys, tags.Keys, tags.Keys);
    }

    method WriteRegionTag(b: int, size: int, realSize: int) returns (ghost g: Tag)
      requires Coupled(mem, tags) && b !in tags && Separate(tags.Keys + {b})
      requires 0 <= realSize < WORD_LIMIT && 0 <= size < WORD_LIMIT
      modifies this`mem, this`tags
      ensures Coupled(mem, tags) && tags == RegionTag(old(tags)[b := g], b, size, realSize)
      ensures tags.Keys == old(tags.Keys) + {b}
      ensures forall x :: x < b || b + HEADER <= x ==> mem(x) == old(mem)(x)
    {
      hide Coupled, TagAt;
      g := Adopt(b);
      Put(b, Magic, MAGIC);
      Put(b, Size, size);
      Put(b, RealSize, realSize);
      Put(b, Index, -1);
      Put(b, Next, 0);
      Put(b, Prev, 0);
      Put(b, SplitLeft, 0);
      Put(b, SplitRight, 0);
    }

    /** `grant` is what the page allocator answers: an address, or NULL. */
    method AllocateNewTag(size: int, grant: int) returns (tag: int)
      requires Core() && 0 <= size <= MAX_REQUEST && Grants(heap, size, grant)
      modifies this`mem, this`tags, this`heap
      ensures Core() && tag == grant
      ensures if grant == 0 then unchanged(this) else heap == AddRegion(old(heap), grant, PagesFor(size))
      ensures old(tags.Keys) <= tags.Keys && OnlyHeaders(old(mem), mem, tags.Keys)
    {
      hide Linked, Coupled, AddRegion, RegionTag, FreshRange;
      var usage := Wrap(size + HEADER);
      var pages := usage / 4096;
      if usage % 4096 != 0 { pages := pages + 1; }
      if pages < MIN_PAGES { pages := MIN_PAGES; }
      assert pages == PagesFor(size);
      tag := grant;
      if tag == 0 { return; }
      RegionReady(tags, freePages[..], heap, tag, pages);
      ghost var t := tags;
      ghost var g := WriteRegionTag(tag, size, pages * 4096);
      RegionTagKeepsLinks(t, freePages[..], heap, tag, pages, size, g);
      heap := AddRegion(heap, tag, pages);
    }

    // ---------- malloc ----------

    ghost predicate Counted()
      reads this, completePages
    {
      completePages.Length == MAXEXP && completePages[..] == heap.complete
    }

    /** Walk free list `index` to the first block large enough. */
    method FindFit(index: int, size: int) returns (tag: int)
      requires Core() && 0 <= index < MAXEXP && 0 <= size
      ensures tag == FirstFit(heap, heap.lists[index], size)
    {
      tag := freePages[index];
      ghost var s, k := heap.lists[index], 0;
      while tag != 0
        invariant 0 <= k <= |s| && tag == At(s, k)
        invariant FirstFit(heap, s, size) == FirstFit(heap, s[k..], size)
        decreases |s| - k
      {
        assert NodeOk(tags, s, k) && s[k] in s && HeaderOk(tags, heap, tag);
        var realSize := Get(tag, RealSize);
        if realSize - HEADER >= size + HEADER { return; }
        tag := Get(tag, Next);
        k := k + 1;
      }
      if k < |s| { BlockBounds(heap, s[k]); }
    }

    /** Take a block that `FindFit` found off its list. */
    method TakeListed(tag: int, index: int)
      requires Core() && Counted() && tag in heap.blocks && heap.blocks[tag].index == index >= 0
      modifies this`mem, this`tags, this`heap, freePages, completePages
      ensures Core() && Counted() && heap == Take(old(heap), tag)
      ensures tags.Keys == old(tags.Keys) && OnlyHeaders(old(mem), mem, old(tags.Keys))
    {
      hide Linked, Coupled, OnlyHeaders, Without;
      ListedLinks(tags, freePages[..], heap, tag, index);
      RemoveTag(tag);
      WholeLinks(tags, freePages[..], heap, tag);
      var left := Get(tag, SplitLeft);
      var right := Get(tag, SplitRight);
      if left == 0 && right == 0 {
        completePages[index] := completePages[index] - 1;
        LabelsKeepLinks(tags, freePages[..], heap, heap.(complete := completePages[..]));
        heap := heap.(complete := completePages[..]);
      }
    }

    /** The test for a remainder worth keeping: an unsigned difference, read as a
        signed int, that has an exponent. */
    static method Splittable(realSize: int, size: int) returns (b: bool)
      requires 0 <= size && size + HEADER <= realSize < SIZE_LIMIT
      ensures b <==> realSize - size - 2 * HEADER >= 256
    {
      var remainder := Wrap(realSize - size - 2 * HEADER);
      b := false;
      if Signed(remainder) > 0 {
        var childIndex := GetExp(remainder);
        b := childIndex >= 0;
      }
    }

    method RecordSize(tag: int, size: int)
      requires Core() && tag in heap.blocks && heap.blocks[tag].index == -1
      requires 0 <= size && size + HEADER <= heap.blocks[tag].realSize
      modifies this`mem, this`tags, this`heap
      ensures Core() && heap == old(heap).(live := old(heap).live[tag := size])
      ensures tags.Keys == old(tags.Keys) && OnlyHeaders(old(mem), mem, old(tags.Keys))
    {
      LinkedSeparate(tags, freePages[..], heap);
      BlockBounds(heap, tag);
      SizeKeepsLinks(tags, freePages[..], heap, tag, size);
      Put(tag, Size, size);
      heap := heap.(live := heap.live[tag := size]);
    }

    /** Give back what block `tag` does not need. */
    method TrimTag(tag: int, size: int)
      requires Core() && tag in heap.blocks && tag in heap.live && heap.live[tag] == size
      modifies this`mem, this`tags, this`heap, freePages
      ensures Core() && heap == Trim(old(heap), tag, size)
      ensures old(tags.Keys) <= tags.Keys && OnlyHeaders(old(mem), mem, tags.Keys)
    {
      hide Linked, Coupled, Trim, Enlist, Split, ListIndex;
      TrimReady(tags, freePages[..], heap, tag);
      var realSize := Get(tag, RealSize);
      var split := Splittable(realSize, size);
      if split {
        var n := SplitTag(tag);
      }
    }

    /** Record the request in the header and give back what is left over. */
    method Settle(tag: int, size: int)
      requires Core() && tag in heap.blocks && heap.blocks[tag].index == -1
      requires 0 <= size && size + HEADER <= heap.blocks[tag].realSize
      modifies this`mem, this`tags, this`heap, freePages
      ensures Core() && heap == Place(old(heap), tag, size)
      ensures old(tags.Keys) <= tags.Keys && OnlyHeaders(old(mem), mem, tags.Keys)
    {
      ghost var m, keys := mem, tags.Keys;
      RecordSize(tag, size);
      ghost var m1 := mem;
      TrimTag(tag, size);
      OnlyHeadersTransitive(m, m1, mem, tags.Keys, keys, tags.Keys);
    }

    /** Empty lists and zero counters, on the first call. */
    method Initialize()
      requires Valid() && !initialized
      modifies this`initialized, freePages, completePages
      ensures Valid() && initialized
    {
      var index := 0;
      while index < MAXEXP
        invariant 0 <= index <= MAXEXP
        invariant forall i :: 0 <= i < index ==> freePages[i] == 0 && completePages[i] == 0
      {
        freePages[index] := 0;
        completePages[index] := 0;
        index := index + 1;
      }
      initialized := true;
      EmptyLinked(freePages[..]);
      assert completePages[..] == heap.complete;
    }

    lemma EmptyLinked(heads: seq<Word>)
      requires |heads| == MAXEXP && forall i :: 0 <= i < MAXEXP ==> heads[i] == 0
      ensures Linked(map[], heads, EmptyHeap())
    {
      EmptyHeapOk();
    }

    method ServeFromList(tag: int, index: int, size: int)
      requires Core() && Counted() && HeapOk(heap) && 0 <= size
      requires tag in heap.blocks && heap.blocks[tag].index == index >= 0 && Fits(heap, tag, size)
      modifies this`mem, this`tags, this`heap, freePages, completePages
      ensures Core() && Counted() && heap == FromList(old(heap), tag, size)
      ensures OnlyHeaders(old(mem), mem, tags.Keys)
    {
      ghost var m := mem;
      TakeLoosens(heap, tag);
      TakeListed(tag, index);
      ghost var m1, keys := mem, tags.Keys;
      Settle(tag, size);
      OnlyHeadersTransitive(m, m1, mem, tags.Keys, keys, tags.Keys);
    }

    method ServeFromPages(size: int, grant: int) returns (got: int)
      requires Core() && Counted() && HeapOk(heap) && 0 <= size <= MAX_REQUEST && Grants(heap, size, grant)
      modifies this`mem, this`tags, this`heap, freePages
      ensures Core() && Counted() && got == grant
      ensures heap == if grant == 0 then old(heap) else FromPages(old(heap), grant, size)
      ensures OnlyHeaders(old(mem), mem, tags.Keys)
    {
      ghost var m, h := mem, heap;
      got := AllocateNewTag(size, grant);
      if got == 0 { return; }
      NewRegionIsLoose(h, grant, PagesFor(size));
      ghost var m1, keys := mem, tags.Keys;
      Settle(got, size);
      OnlyHeadersTransitive(m, m1, mem, tags.Keys, keys, tags.Keys);
    }

    /** The call once the tables are set up. */
    method Serve(size: int, grant: int) returns (ptr: int)
      requires Core() && Counted() && HeapOk(heap) && 0 <= size <= MAX_REQUEST && Grants(heap, size, grant)
      modifies this`mem, this`tags, this`heap, freePages, completePages
      ensures Core() && Counted() && (heap, ptr) == AfterMalloc(old(heap), size, grant)
      ensures OnlyHeaders(old(mem), mem, tags.Keys)
    {
      hide HeapOk, Coupled, ChainsOk, OnlyHeaders, FromList, FromPages;
      var index := ListFor(size);
      var tag := FindFit(index, size);
      if tag == 0 {
        tag := ServeFromPages(size, grant);
        ptr := if tag == 0 then 0 else tag + HEADER;
      } else {
        ServeFromList(tag, index, size);
        ptr := tag + HEADER;
      }
    }

    /** The bytes asked for, or NULL. `grant` is what the page allocator would answer. */
    method Malloc(size: int, grant: int) returns (ptr: int)
      requires Valid() && 0 <= size <= MAX_REQUEST && Grants(heap, size, grant)
      modifies this`mem, this`tags, this`heap, this`initialized, freePages, completePages
      ensures Valid() && (heap, ptr) == AfterMalloc(old(heap), size, grant)
      ensures BytesKept(old(heap), old(mem), mem)
    {
      hide HeapOk, Coupled, ChainsOk, AfterMalloc, BytesKept, OnlyHeaders;
      if !initialized { Initialize(); }
      ptr := Serve(size, grant);
      EarlierPayloadsKept(old(heap), heap, old(mem), mem);
    }

    // ---------- free ----------

    method FreeNeighbour(p: int) returns (b: bool)
      requires Coupled(mem, tags) && (p != 0 ==> p in tags)
      ensures b <==> p != 0 && tags[p].index >= 0
    {
      if p == 0 { return false; }
      var index := Get(p, Index);
      b := index >= 0;
    }

    /** One round of the loop that melts `tag` into its free left neighbour. */
    method MeltStep(tag: int) returns (left: int)
      requires Core() && Loose(heap, tag) && FreeLeft(heap, tag) != 0
      modifies this`mem, this`tags, this`heap, freePages
      ensures Core() && left == FreeLeft(old(heap), tag) && heap == JoinLeft(old(heap), left, tag)
      ensures tags.Keys <= old(tags.Keys) && OnlyHeaders(old(mem), mem, old(tags.Keys))
    {
      ghost var m, keys := mem, tags.Keys;
      FreeLeftIs(tags, freePages[..], heap, tag);
      left := MeltLeft(tag);
      ghost var m1, keys1 := mem, tags.Keys;
      RemoveTag(left);
      OnlyHeadersTransitive(m, m1, mem, keys, keys, keys1);
    }

    /** The loop runs at most once. */
    method MeltAll(tag: int) returns (t: int, ghost rounds: nat)
      requires Core() && Loose(heap, tag)
      modifies this`mem, this`tags, this`heap, freePages
      ensures Core() && Loose(heap, t) && LeftClosed(heap, t) && rounds <= 1
      ensures var l := FreeLeft(old(heap), tag);
        (heap, t) == if l != 0 then (JoinLeft(old(heap), l, tag), l) else (old(heap), tag)
      ensures tags.Keys <= old(tags.Keys) && OnlyHeaders(old(mem), mem, old(tags.Keys))
    {
      t := tag;
      FreeLeftIs(tags, freePages[..], heap, t);
      var left := Get(t, SplitLeft);
      var more := FreeNeighbour(left);
      rounds := 0;
      while more
        invariant Core() && Loose(heap, t) && (more <==> FreeLeft(heap, t) != 0) && 0 <= rounds <= 1
        invariant rounds == 0 ==> t == tag && heap == old(heap) && mem == old(mem) && tags == old(tags)
        invariant rounds == 1 ==> FreeLeft(old(heap), tag) != 0 && t == FreeLeft(old(heap), tag)
        invariant rounds == 1 ==> heap == JoinLeft(old(heap), t, tag)
        invariant rounds == 1 ==> FreeLeft(heap, t) == 0
        invariant tags.Keys <= old(tags.Keys) && OnlyHeaders(old(mem), mem, old(tags.Keys))
        decreases 1 - rounds
      {
        JoinLeftIsLoose(heap, FreeLeft(heap, t), t);
        t := MeltStep(t);
        FreeLeftIs(tags, freePages[..], heap, t);
        left := Get(t, SplitLeft);
        more := FreeNeighbour(left);
        rounds := rounds + 1;
      }
      FreeLeftIs(tags, freePages[..], heap, t);
    }

    /** The loop runs at most once. */
    method AbsorbAll(tag: int) returns (ghost rounds: nat)
      requires Core() && Loose(heap, tag) && LeftClosed(heap, tag)
      modifies this`mem, this`tags, this`heap, freePages
      ensures Core() && (heap, tag) == CoalescedRight(old(heap), tag) && rounds <= 1
      ensures tags.Keys <= old(tags.Keys) && OnlyHeaders(old(mem), mem, old(tags.Keys))
    {
      FreeRightIs(tags, freePages[..], heap, tag);
      var right := Get(tag, SplitRight);
      var more := FreeNeighbour(right);
      rounds := 0;
      while more
        invariant Core() && Loose(heap, tag) && (more <==> FreeRight(heap, tag) != 0) && 0 <= rounds <= 1
        invariant rounds == 0 ==> heap == old(heap) && mem == old(mem) && tags == old(tags)
        invariant rounds == 1 ==> FreeRight(heap, tag) == 0 && FreeRight(old(heap), tag) != 0
        invariant rounds == 1 ==> heap == JoinRight(old(heap), tag, FreeRight(old(heap), tag))
        invariant tags.Keys <= old(tags.Keys) && OnlyHeaders(old(mem), mem, old(tags.Keys))
        decreases 1 - rounds
      {
        JoinRightIsLoose(heap, tag, FreeRight(heap, tag));
        AbsorbRight(tag);
        FreeRightIs(tags, freePages[..], heap, tag);
        right := Get(tag, SplitRight);
        more := FreeNeighbour(right);
        rounds := rounds + 1;
      }
    }

    /** Give the whole region at `tag` back to the page allocator. */
    method ReturnRegion(tag: int) returns (pages: int)
      requires Core() && Whole(heap, tag) && heap.blocks[tag].index == -1 && tag !in heap.live
      modifies this`tags, this`heap
      ensures Core() && heap == DropRegion(old(heap), tag) && pages == PagesToReturn(old(heap).blocks[tag].realSize)
      ensures tags.Keys <= old(tags.Keys) && heap.complete == old(heap).complete
    {
      LinkedHeader(tags, freePages[..], heap, tag);
      var realSize := Get(tag, RealSize);
      pages := realSize / 4096;
      if realSize % 4096 != 0 { pages := pages + 1; }
      if pages < MIN_PAGES { pages := MIN_PAGES; }
      DropRegionKeepsLinks(tags, freePages[..], heap, tag);
      tags := tags - {tag};
      heap := DropRegion(heap, tag);
    }

    method CountWhole(index: int)
      requires Core() && Counted() && 0 <= index < MAXEXP
      modifies this`heap, completePages
      ensures Core() && Counted()
      ensures heap == old(heap).(complete := old(heap).complete[index := old(heap).complete[index] + 1])
    {
      completePages[index] := completePages[index] + 1;
      LabelsKeepLinks(tags, freePages[..], heap, heap.(complete := completePages[..]));
      heap := heap.(complete := completePages[..]);
    }

    /** File an unlisted block whose header is in order. */
    method FileBlock(tag: int, index: int)
      requires Core() && tag in heap.blocks && heap.blocks[tag].index == -1 && tag !in heap.live && 0 <= index < MAXEXP
      modifies this`mem, this`tags, this`heap, freePages
      ensures Core() && heap == Enlist(old(heap), tag, index) && heap.complete == old(heap).complete
      ensures tags.Keys == old(tags.Keys) && OnlyHeaders(old(mem), mem, tags.Keys)
    {
      LinkedHeader(tags, freePages[..], heap, tag);
      assert tags[tag := tags[tag].(index := -1)] == tags;
      InsertTag(tag, index);
    }

    /** File the coalesced block, or return it: the page count given back, or 0. */
    method PutAway(tag: int) returns (pages: int)
      requires Core() && Counted() && tag in heap.blocks && heap.blocks[tag].index == -1 && tag !in heap.live
      modifies this`mem, this`tags, this`heap, freePages, completePages
      ensures Core() && Counted() && heap == Retire(old(heap), tag)
      ensures pages == if Surplus(old(heap), tag) then PagesToReturn(old(heap).blocks[tag].realSize) else 0
      ensures tags.Keys <= old(tags.Keys) && OnlyHeaders(old(mem), mem, old(tags.Keys))
    {
      hide Linked, Coupled, Enlist, DropRegion, ListIndex, Whole, PagesToReturn;
      RetireReady(tags, freePages[..], heap, tag);
      var index := FileIndex(tag);
      var left := Get(tag, SplitLeft);
      var right := Get(tag, SplitRight);
      var whole := left == 0 && right == 0;
      pages := 0;
      ghost var h' := Retire(heap, tag);
      if whole && completePages[index] == MAX_COMPLETE {
        pages := ReturnRegion(tag);
      } else {
        if whole { CountWhole(index); }
        assert Enlist(heap, tag, index) == h';
        FileBlock(tag, index);
      }
    }

    /** Merge the unlisted block `tag` with its free neighbours. */
    method Coalesce(tag: int) returns (t: int)
      requires Core() && Loose(heap, tag)
      modifies this`mem, this`tags, this`heap, freePages
      ensures Core() && (heap, t) == Coalesced(old(heap), tag)
      ensures tags.Keys <= old(tags.Keys) && OnlyHeaders(old(mem), mem, old(tags.Keys))
    {
      ghost var m, keys := mem, tags.Keys;
      ghost var rounds;
      t, rounds := MeltAll(tag);
      ghost var m1, keys1 := mem, tags.Keys;
      rounds := AbsorbAll(t);
      OnlyHeadersTransitive(m, m1, mem, keys, keys, keys1);
    }

    /** `free` of a block in use: the base and page count handed back, or (0, 0). */
    method FreeTag(tag: int) returns (base: int, pages: int)
      requires Core() && Counted() && HeapOk(heap) && tag in heap.live
      modifies this`mem, this`tags, this`heap, freePages, completePages
      ensures Core() && Counted() && heap == AfterFree(old(heap), tag)
      ensures PageCalls(old(heap), HeapRuns.Free(tag)) == if pages == 0 then [] else [GiveBack(base, pages)]
      ensures OnlyHeaders(old(mem), mem, old(tags.Keys))
    {
      hide CoreOk, Filed, NoFreePair, Tight, CountsOk, Coupled, ChainsOk, OnlyHeaders, Retire, Coalesced;
      ghost var m, keys, h := mem, tags.Keys, heap;
      FreeInSteps(heap, tag);
      LabelsKeepLinks(tags, freePages[..], heap, Release(heap, tag));
      heap := Release(heap, tag);
      var t := Coalesce(tag);
      ghost var m1, keys1 := mem, tags.Keys;
      pages := PutAway(t);
      base := if pages == 0 then 0 else t;
      OnlyHeadersTransitive(m, m1, mem, keys, keys, keys1);
    }

    ghost predicate IsLive(ptr: int)
      reads this`heap
    {
      ptr - HEADER in heap.live
    }

    lemma LiveHasMagic(a: int)
      requires Valid() && a in heap.live
      ensures initialized && a > 0 && Core() && Counted() && HeapOk(heap) && Load32(mem, a) == MAGIC
      ensures Coupled(mem, tags) && tags.Keys <= heap.blocks.Keys
    {
      LinkedHeader(tags, freePages[..], heap, a);
      assert TagAt(mem, a) == tags[a];
    }

    method MagicWord(tag: int) returns (magic: Word)
      ensures magic == Load32(mem, tag)
    {
      magic := Load32(mem, tag);
    }

    /** Frees a live block; does nothing for NULL and for a pointer without the
        magic word in front. No caller's byte changes. */
    method Free(ptr: int) returns (base: int, pages: int)
      requires Valid() && (ptr == 0 || IsLive(ptr) || Load32(mem, ptr - HEADER) != MAGIC)
      modifies this`mem, this`tags, this`heap, freePages, completePages
      ensures Valid()
      ensures if ptr != 0 && old(IsLive(ptr))
        then heap == AfterFree(old(heap), ptr - HEADER)
          && PageCalls(old(heap), HeapRuns.Free(ptr - HEADER)) == (if pages == 0 then [] else [GiveBack(base, pages)])
        else heap == old(heap) && mem == old(mem) && pages == 0
      ensures BytesKept(old(heap), old(mem), mem)
    {
      hide HeapOk, Coupled, ChainsOk, AfterFree, OnlyHeaders, PageCalls;
      base, pages := 0, 0;
      if IsLive(ptr) { LiveHasMagic(ptr - HEADER); }
      if ptr == 0 { return; }
      var tag := ptr - HEADER;
      var magic := MagicWord(tag);
      if magic != MAGIC { return; }
      base, pages := FreeTag(tag);
      PayloadsKept(old(heap), old(mem), mem);
    }

    /** `free` of a live block, when the caller does not watch the page allocator. */
    method Discard(ptr: int)
      requires Valid() && ptr != 0 && IsLive(ptr)
      modifies this`mem, this`tags, this`heap, freePages, completePages
      ensures Valid() && heap == AfterFree(old(heap), ptr - HEADER) && BytesKept(old(heap), old(mem), mem)
    {
      var _, _ := Free(ptr);
    }

    // ---------- copying, realloc, calloc ----------

    method CopyWord(dest: int, src: int)
      modifies this`mem
      ensures forall x :: dest <= x < dest + 4 ==> mem(x) == old(mem)(x - dest + src)
      ensures forall x :: x < dest || dest + 4 <= x ==> mem(x) == old(mem)(x)
    {
      StoreLoadCopies(mem, dest, src);
      mem := Store32(mem, dest, Load32(mem, src));
    }

    /** The first loop of `liballoc_memcpy`: whole words. */
    method CopyWords(dest: int, src: int, count: int) returns (done: int)
      requires 0 <= count && (dest + count <= src || src + count <= dest)
      modifies this`mem
      ensures 0 <= done <= count < done + 4
      ensures forall x :: dest <= x < dest + done ==> mem(x) == old(mem)(x - dest + src)
      ensures forall x :: x < dest || dest + done <= x ==> mem(x) == old(mem)(x)
    {
      done := 0;
      var n := count;
      while n >= 4
        invariant 0 <= n && done + n == count && 0 <= done
        invariant forall x :: dest <= x < dest + done ==> mem(x) == old(mem)(x - dest + src)
        invariant forall x :: x < dest || dest + done <= x ==> mem(x) == old(mem)(x)
      {
        CopyWord(dest + done, src + done);
        done, n := done + 4, n - 4;
      }
    }

    /** The second one: what is left, by bytes. */
    method CopyBytes(dest: int, src: int, count: int)
      requires 0 <= count && (dest + count <= src || src + count <= dest)
      modifies this`mem
      ensures forall x :: dest <= x < dest + count ==> mem(x) == old(mem)(x - dest + src)
      ensures forall x :: x < dest || dest + count <= x ==> mem(x) == old(mem)(x)
    {
      var done, n := 0, count;
      while n > 0
        invariant 0 <= n && done + n == count && 0 <= done
        invariant forall x :: dest <= x < dest + done ==> mem(x) == old(mem)(x - dest + src)
        invariant forall x :: x < dest || dest + done <= x ==> mem(x) == old(mem)(x)
      {
        mem := Store8(mem, dest + done, mem(src + done));
        done, n := done + 1, n - 1;
      }
    }

    /** `liballoc_memcpy`: words while they last, then bytes. */
    method Memcpy(dest: int, src: int, count: int)
      requires 0 <= count && (dest + count <= src || src + count <= dest)
      modifies this`mem
      ensures forall x :: dest <= x < dest + count ==> mem(x) == old(mem)(x - dest + src)
      ensures forall x :: x < dest || dest + count <= x ==> mem(x) == old(mem)(x)
    {
      var done := CopyWords(dest, src, count);
      CopyBytes(dest + done, src + done, count - done);
    }

    /** `liballoc_memset`. */
    method Memset(dest: int, value: Byte, count: int)
      requires 0 <= count
      modifies this`mem
      ensures forall x :: dest <= x < dest + count ==> mem(x) == value
      ensures forall x :: x < dest || dest + count <= x ==> mem(x) == old(mem)(x)
    {
      var i := 0;
      while i < count
        invariant 0 <= i <= count
        invariant forall x :: dest <= x < dest + i ==> mem(x) == value
        invariant forall x :: x < dest || dest + i <= x ==> mem(x) == old(mem)(x)
      {
        mem := Store8(mem, dest + i, value);
        i := i + 1;
      }
    }

    /** Bytes stored into a live payload disturb no header. */
    lemma PayloadWriteKeepsValid(m: Memory, m': Memory, a: int)
      requires HeapOk(heap) && a in heap.live && Coupled(m, tags) && tags.Keys <= heap.blocks.Keys
      requires forall x :: !InPayload(heap, a, x) ==> m'(x) == m(x)
      ensures Coupled(m', tags) && BytesKept(Release(heap, a), m, m')
    {
      forall c, x | InPayload(Release(heap, a), c, x) ensures m'(x) == m(x) {
        PayloadsAreDisjoint(heap, c, a, x);
      }
      forall x | InHeaders(tags.Keys, x) ensures m'(x) == m(x) {
        var c :| c in tags.Keys && c <= x < c + HEADER;
        if InPayload(heap, a, x) { PayloadsAreDisjoint(heap, a, c, x); }
      }
      BytesOutsideKeepCoupling(m, m', tags);
    }

    /** What the owner of a live block does with it: no other payload changes and the
        allocator's structures stay in order. */
    method StoreByte(ptr: int, offset: nat, value: Byte)
      requires Valid() && IsLive(ptr) && offset < heap.live[ptr - HEADER]
      modifies this`mem
      ensures Valid() && mem == Store8(old(mem), ptr + offset, value)
      ensures BytesKept(Release(heap, ptr - HEADER), old(mem), mem)
    {
      hide HeapOk, Linked, Coupled, BytesKept;
      ghost var a := ptr - HEADER;
      LiveHasMagic(a);
      mem := Store8(mem, ptr + offset, value);
      PayloadWriteKeepsValid(old(mem), mem, a);
    }

    /** Copy the first `n` bytes of live block `b` into live block `a`. */
    method CopyBlock(a: int, b: int, n: int)
      requires Valid() && a in heap.live && b in heap.live && a != b && 0 <= n <= heap.live[a] && n <= heap.live[b]
      modifies this`mem
      ensures Valid() && Copied(old(mem), b + HEADER, mem, a + HEADER, n)
      ensures BytesKept(Release(heap, a), old(mem), mem)
    {
      hide HeapOk, Linked, Coupled, BytesKept;
      LiveHasMagic(a);
      PayloadsApart(heap, a, b);
      Memcpy(a + HEADER, b + HEADER, n);
      PayloadWriteKeepsValid(old(mem), mem, a);
    }

    /** Fill the first `n` bytes of live block `a`. */
    method FillBlock(a: int, value: Byte, n: int)
      requires Valid() && a in heap.live && 0 <= n <= heap.live[a]
      modifies this`mem
      ensures Valid() && BytesKept(Release(heap, a), old(mem), mem)
      ensures forall x :: a + HEADER <= x < a + HEADER + n ==> mem(x) == value
    {
      hide HeapOk, Linked, Coupled, BytesKept;
      LiveHasMagic(a);
      Memset(a + HEADER, value, n);
      PayloadWriteKeepsValid(old(mem), mem, a);
    }

    /** A block of `nobj * size` zero bytes. The request must be granted. */
    method Calloc(nobj: int, size: int, grant: int) returns (ptr: int)
      requires Valid() && 0 <= nobj && 0 <= size && nobj * size <= MAX_REQUEST && Grants(heap, nobj * size, grant)
      requires Served(heap, nobj * size, grant)
      modifies this`mem, this`tags, this`heap, this`initialized, freePages, completePages
      ensures Valid() && (heap, ptr) == AfterMalloc(old(heap), nobj * size, grant)
      ensures forall x :: ptr <= x < ptr + nobj * size ==> mem(x) == 0
      ensures BytesKept(old(heap), old(mem), mem)
    {
      hide HeapOk, Coupled, Linked, AfterMalloc, BytesKept;
      var realSize := nobj * size;
      ptr := Malloc(realSize, grant);
      ghost var m := mem;
      FillBlock(ptr - HEADER, 0, realSize);
      KeptThenKept(old(heap), Release(heap, ptr - HEADER), old(mem), m, mem);
    }

    method SizeWord(a: int) returns (size: int)
      requires Valid() && a in heap.live
      ensures size == heap.live[a] && 0 <= size
    {
      LinkedHeader(tags, freePages[..], heap, a);
      size := Get(a, Size);
    }

    /** A new block that starts with what fits of live block `tag`. */
    method CopyOut(tag: int, size: int, grant: int) returns (ptr: int)
      requires Valid() && tag in heap.live && 0 < size <= MAX_REQUEST && Grants(heap, size, grant)
      requires Served(heap, size, grant)
      modifies this`mem, this`tags, this`heap, this`initialized, freePages, completePages
      ensures Valid() && (heap, ptr) == AfterMalloc(old(heap), size, grant)
      ensures Copied(old(mem), tag + HEADER, mem, ptr, Min(old(heap).live[tag], size))
      ensures BytesKept(old(heap), old(mem), mem) && LiveIn(old(heap), heap)
      ensures ptr - HEADER in heap.live && heap.live[ptr - HEADER] == size
    {
      hide HeapOk, Coupled, Linked, AfterMalloc, BytesKept, Copied;
      var n := SizeWord(tag);
      if n > size { n := size; }
      ptr := Malloc(size, grant);
      ghost var m := mem;
      var a := ptr - HEADER;
      CopyBlock(a, tag, n);
      CopiedFromKept(old(heap), tag, old(mem), m, mem, ptr, n);
      KeptThenKept(old(heap), Release(heap, a), old(mem), m, mem);
    }

    /** Free block `tag`, keeping what has been established since memory `m0`. */
    method DiscardAfterCopy(tag: int, ghost h0: Heap, ghost m0: Memory, ghost s: int, ghost q: int, ghost n: int)
      requires Valid() && tag + HEADER != 0 && tag in heap.live && q in heap.live && n <= heap.live[q]
      requires BytesKept(h0, m0, mem) && LiveIn(h0, heap) && Copied(m0, s, mem, q + HEADER, n)
      modifies this`mem, this`tags, this`heap, freePages, completePages
      ensures Valid() && heap == AfterFree(old(heap), tag)
      ensures BytesKept(h0, m0, mem) && Copied(m0, s, mem, q + HEADER, n)
    {
      ghost var h1, m1 := heap, mem;
      Discard(tag + HEADER);
      CopiedThenKept(h1, q, m0, s, m1, mem, n);
      KeptThenKept(h0, h1, m0, m1, mem);
    }

    method MoveBlock(tag: int, size: int, grant: int) returns (ptr: int)
      requires Valid() && tag in heap.live && tag + HEADER != 0 && 0 < size <= MAX_REQUEST && Grants(heap, size, grant)
      requires Served(heap, size, grant)
      modifies this`mem, this`tags, this`heap, this`initialized, freePages, completePages
      ensures Valid() && (heap, ptr) == AfterRealloc(old(heap), tag, size, grant)
      ensures Copied(old(mem), tag + HEADER, mem, ptr, Min(old(heap).live[tag], size))
      ensures BytesKept(old(heap), old(mem), mem)
    {
      hide HeapOk, Coupled, Linked, AfterFree, BytesKept, Copied;
      ptr := CopyOut(tag, size, grant);
      DiscardAfterCopy(tag, old(heap), old(mem), tag + HEADER, ptr - HEADER, Min(old(heap).live[tag], size));
    }

    /** The new block holds the first min(old size, `size`) bytes of the old one;
        every other caller's bytes stay. A request to move a block must be granted. */
    method Realloc(p: int, size: int, grant: int) returns (ptr: int)
      requires Valid() && (p == 0 || IsLive(p)) && 0 <= size <= MAX_REQUEST && Grants(heap, size, grant)
      requires size != 0 && p != 0 ==> Served(heap, size, grant)
      modifies this`mem, this`tags, this`heap, this`initialized, freePages, completePages
      ensures Valid() && BytesKept(old(heap), old(mem), mem)
      ensures (heap, ptr) == Reallocated(old(heap), p, size, grant)
      ensures size != 0 && p != 0 ==> Copied(old(mem), p, mem, ptr, Min(old(heap).live[p - HEADER], size))
    {
      hide HeapOk, Coupled, Linked, AfterMalloc, AfterFree, BytesKept, Copied;
      if size == 0 {
        var _, _ := Free(p);
        return 0;
      }
      if p == 0 {
        ptr := Malloc(size, grant);
        return;
      }
      ptr := MoveBlock(p - HEADER, size, grant);
    }
  }

  function Min(a: int, b: int): int {
    if a <= b then a else b
  }
}
