/** How the boundary tags in memory represent a heap: what each header field
    holds, and what the link updates of kernel/src/liballoc.c do to that. */
module HeapLinks {
  import opened Words
  import opened Headers
  import opened HeapModel
  import opened HeapOps

  /** The element at `k`, or NULL beyond either end. */
  function At(s: seq<int>, k: int): int {
    if 0 <= k < |s| then s[k] else 0
  }

  ghost predicate HeaderOk(t: map<int, Tag>, h: Heap, a: int)
    requires a in t && a in h.blocks
  {
    && t[a].magic == MAGIC
    && t[a].realSize == h.blocks[a].realSize
    && t[a].index == h.blocks[a].index
    && (a in h.live ==> t[a].size == h.live[a])
  }

  /** The split links of `a` point to its neighbours in the region. */
  ghost predicate SplitOk(t: map<int, Tag>, h: Heap, a: int)
    requires a in t && a in h.blocks && h.blocks[a].home in h.regions
  {
    var e := a + h.blocks[a].realSize;
    && t[a].splitRight == (if e == RegionEnd(h, h.blocks[a].home) then 0 else e)
    && (if a == h.blocks[a].home then t[a].splitLeft == 0 else IsNext(h, t[a].splitLeft, a))
  }

  ghost predicate NodeOk(t: map<int, Tag>, s: seq<int>, j: int)
    requires 0 <= j < |s|
  {
    s[j] in t && t[s[j]].next == At(s, j + 1) && t[s[j]].prev == At(s, j - 1)
  }

  /** `s` is chained forwards by `next` and backwards by `prev`. */
  ghost predicate Chained(t: map<int, Tag>, s: seq<int>) {
    forall j {:trigger NodeOk(t, s, j)} :: 0 <= j < |s| ==> NodeOk(t, s, j)
  }

  ghost predicate TagsOk(t: map<int, Tag>, h: Heap)
    requires SpaceOk(h)
  {
    && t.Keys == h.blocks.Keys
    && (forall a {:trigger HeaderOk(t, h, a)} :: a in t ==> HeaderOk(t, h, a))
    && (forall a {:trigger SplitOk(t, h, a)} :: a in t ==> SplitOk(t, h, a))
  }

  ghost predicate ChainsOk(t: map<int, Tag>, heads: seq<Word>, h: Heap)
    requires ListsOk(h)
  {
    && |heads| == MAXEXP
    && (forall i :: 0 <= i < MAXEXP ==> heads[i] == At(h.lists[i], 0))
    && (forall i :: 0 <= i < MAXEXP ==> Chained(t, h.lists[i]))
    && (forall a :: a in h.blocks && h.blocks[a].index == -1 ==> a in t && t[a].next == 0 && t[a].prev == 0)
  }

  ghost predicate Linked(t: map<int, Tag>, heads: seq<Word>, h: Heap) {
    CoreOk(h) && TagsOk(t, h) && ChainsOk(t, heads, h)
  }

  /** Every block lies at an address that a pointer can hold, and none at NULL. */
  lemma BlockBounds(h: Heap, a: int)
    requires SpaceOk(h) && a in h.blocks
    ensures 0 < a && a + HEADER <= a + h.blocks[a].realSize <= WORD_LIMIT && h.blocks[a].realSize < SIZE_LIMIT
  {
  }

  lemma LinkedSeparate(t: map<int, Tag>, heads: seq<Word>, h: Heap)
    requires Linked(t, heads, h)
    ensures Separate(t.Keys)
  {
    forall a, b | a in t && b in t ensures Clear(a, b) { assert Apart(h, a, b) && Apart(h, b, a); }
  }

  /** What the code may rely on about the header of a block. */
  lemma LinkedHeader(t: map<int, Tag>, heads: seq<Word>, h: Heap, a: int)
    requires Linked(t, heads, h) && a in h.blocks
    ensures a in t && HeaderOk(t, h, a) && 0 < a < WORD_LIMIT && HEADER <= t[a].realSize < WORD_LIMIT
    ensures h.blocks[a].home in h.regions && SplitOk(t, h, a)
  {
    BlockBounds(h, a);
  }

  // ---------- free-list links ----------

  /** The headers after `remove_tag(a)`. */
  function Unlinked(t: map<int, Tag>, a: int): map<int, Tag>
    requires a in t
  {
    var p, n := t[a].prev, t[a].next;
    var t1 := if p in t then Upd(t, p, Next, n) else t;
    var t2 := if n in t1 then Upd(t1, n, Prev, p) else t1;
    Upd(Upd(Upd(t2, a, Next, 0), a, Prev, 0), a, Index, -1)
  }

  /** The headers after `insert_tag(a, i)` in front of `f`. */
  function Inserted(t: map<int, Tag>, a: int, i: int, f: int): map<int, Tag>
    requires a in t
  {
    var t1 := Upd(t, a, Index, i);
    if f in t then Upd(Upd(t1, f, Prev, a), a, Next, f) else t1
  }

  lemma UnlinkedFrame(t: map<int, Tag>, a: int)
    requires a in t
    ensures var r := Unlinked(t, a);
      && r.Keys == t.Keys && r[a].index == -1 && r[a].next == 0 && r[a].prev == 0
      && (forall c :: c in t && c != a && c != t[a].prev && c != t[a].next ==> r[c] == t[c])
      && (forall c :: c in t ==> r[c] == t[c].(index := r[c].index, next := r[c].next, prev := r[c].prev))
      && (forall c :: c in t && c != a ==> r[c].index == t[c].index)
  {
  }

  lemma InsertedFrame(t: map<int, Tag>, a: int, i: int, f: int)
    requires a in t
    ensures var r := Inserted(t, a, i, f);
      && r.Keys == t.Keys && (f != a ==> r[a].index == i)
      && (forall c :: c in t && c != a && c != f ==> r[c] == t[c])
      && (forall c :: c in t ==> r[c] == t[c].(index := r[c].index, next := r[c].next, prev := r[c].prev))
      && (forall c :: c in t && c != a ==> r[c].index == t[c].index)
  {
  }

  lemma ChainedFrame(t: map<int, Tag>, t': map<int, Tag>, s: seq<int>)
    requires Chained(t, s)
    requires forall x :: x in s && x in t ==> x in t' && t'[x].next == t[x].next && t'[x].prev == t[x].prev
    ensures Chained(t', s)
  {
    forall j | 0 <= j < |s| ensures NodeOk(t', s, j) {
      assert NodeOk(t, s, j);
      var x := s[j];
      assert x in s && x in t';
    }
  }

  lemma ChainedPush(t: map<int, Tag>, s: seq<int>, a: int, i: int)
    requires Chained(t, s) && NoDup(s) && a in t && a !in s && 0 !in t
    requires t[a].next == 0 && t[a].prev == 0
    ensures Chained(Inserted(t, a, i, At(s, 0)), [a] + s)
  {
    var t', s' := Inserted(t, a, i, At(s, 0)), [a] + s;
    if s != [] { assert NodeOk(t, s, 0); }
    forall j | 0 <= j < |s'| ensures NodeOk(t', s', j) {
      if j > 0 { assert NodeOk(t, s, j - 1); }
    }
  }

  /** The node at `o` after the one at `k` has gone. */
  lemma RemovedNode(t: map<int, Tag>, s: seq<int>, k: nat, o: nat)
    requires Chained(t, s) && NoDup(s) && 0 !in t && k < |s| && o < |s| && o != k && s[k] in t
    ensures NodeOk(Unlinked(t, s[k]), s[..k] + s[k + 1..], if o < k then o else o - 1)
  {
    assert NodeOk(t, s, k) && NodeOk(t, s, o) && s[o] != s[k];
    var p, n := t[s[k]].prev, t[s[k]].next;
    if o + 1 == k {
      assert p == s[o] && n != s[o];
    } else if o == k + 1 {
      assert n == s[o] && p != s[o];
    } else {
      assert p != s[o] && n != s[o];
      UnlinkedFrame(t, s[k]);
    }
  }

  lemma ChainedRemove(t: map<int, Tag>, s: seq<int>, k: nat)
    requires Chained(t, s) && NoDup(s) && 0 !in t && k < |s|
    ensures s[k] in t
    ensures Chained(Unlinked(t, s[k]), s[..k] + s[k + 1..])
  {
    assert NodeOk(t, s, k);
    var t', s' := Unlinked(t, s[k]), s[..k] + s[k + 1..];
    forall j | 0 <= j < |s'| ensures NodeOk(t', s', j) { RemovedNode(t, s, k, if j < k then j else j + 1); }
  }

  lemma InsertKeepsLinks(t: map<int, Tag>, heads: seq<Word>, h: Heap, a: int, i: int)
    requires Linked(t, heads, h) && a in h.blocks && h.blocks[a].index == -1 && a !in h.live && 0 <= i < MAXEXP
    ensures 0 < a < WORD_LIMIT && Linked(Inserted(t, a, i, heads[i]), heads[i := a], Enlist(h, a, i))
  {
    EnlistKeepsCore(h, a, i);
    BlockBounds(h, a);
    InsertKeepsTags(t, h, a, i, heads[i]);
    InsertKeepsChains(t, heads, h, a, i);
  }

  /** Free-list updates leave the physical neighbours alone. */
  lemma TagsFrame(t: map<int, Tag>, t': map<int, Tag>, h: Heap, h': Heap)
    requires SpaceOk(h) && SpaceOk(h') && TagsOk(t, h) && SameTiling(h, h') && h'.live == h.live
    requires t'.Keys == t.Keys
    requires forall c :: c in t ==> t'[c] == t[c].(index := h'.blocks[c].index, next := t'[c].next, prev := t'[c].prev)
    ensures TagsOk(t', h')
  {
    forall c | c in t' ensures HeaderOk(t', h', c) { assert HeaderOk(t, h, c); }
    forall c | c in t' ensures SplitOk(t', h', c) { assert SplitOk(t, h, c); }
  }

  /** Linking in a block whose own `index` word is not yet meaningful. */
  lemma InsertFreshIndex(t: map<int, Tag>, heads: seq<Word>, h: Heap, a: int, i: int)
    requires a in t && Linked(t[a := t[a].(index := -1)], heads, h)
    requires a in h.blocks && h.blocks[a].index == -1 && a !in h.live && 0 <= i < MAXEXP
    ensures |h.lists| == |heads| == MAXEXP
    ensures 0 < a < WORD_LIMIT && 0 !in t && heads[i] != a && (heads[i] != 0 ==> heads[i] in t)
    ensures Linked(Inserted(t, a, i, heads[i]), heads[i := a], Enlist(h, a, i))
  {
    var t0 := t[a := t[a].(index := -1)];
    InsertKeepsLinks(t0, heads, h, a, i);
    assert 0 !in t0;
    assert heads[i] != 0 ==> heads[i] in h.lists[i];
    assert Inserted(t, a, i, heads[i]) == Inserted(t0, a, i, heads[i]);
  }

  lemma InsertKeepsTags(t: map<int, Tag>, h: Heap, a: int, i: int, f: int)
    requires CoreOk(h) && TagsOk(t, h) && a in h.blocks && 0 <= i < MAXEXP
    requires CoreOk(Enlist(h, a, i)) && f != a
    ensures TagsOk(Inserted(t, a, i, f), Enlist(h, a, i))
  {
    hide RegionsOk, TilesOk, LiveOk;
    var t', h' := Inserted(t, a, i, f), Enlist(h, a, i);
    InsertedFrame(t, a, i, f);
    forall c | c in t ensures t'[c].index == h'.blocks[c].index { assert HeaderOk(t, h, c); }
    TagsFrame(t, t', h, h');
  }

  /** An update confined to unlisted blocks and those of list `i` spares the other lists. */
  lemma OtherChains(t: map<int, Tag>, t': map<int, Tag>, h: Heap, i: int)
    requires ListsOk(h) && (forall m :: 0 <= m < MAXEXP ==> Chained(t, h.lists[m]))
    requires t'.Keys == t.Keys
    requires forall c :: c in t && c in h.blocks && h.blocks[c].index != -1 && h.blocks[c].index != i ==> t'[c] == t[c]
    ensures forall m :: 0 <= m < MAXEXP && m != i ==> Chained(t', h.lists[m])
  {
    forall m | 0 <= m < MAXEXP && m != i ensures Chained(t', h.lists[m]) {
      ChainedFrame(t, t', h.lists[m]);
    }
  }

  lemma NullIsNoTag(t: map<int, Tag>, h: Heap)
    requires SpaceOk(h) && t.Keys == h.blocks.Keys
    ensures 0 !in t
  {
  }

  lemma InsertKeepsOthers(t: map<int, Tag>, heads: seq<Word>, h: Heap, a: int, i: int)
    requires ListsOk(h) && ChainsOk(t, heads, h) && t.Keys == h.blocks.Keys && 0 !in t
    requires a in h.blocks && h.blocks[a].index == -1 && 0 <= i < MAXEXP
    ensures forall m :: 0 <= m < MAXEXP && m != i ==> Chained(Inserted(t, a, i, heads[i]), h.lists[m])
    ensures forall c :: c in h.blocks && c != a && h.blocks[c].index == -1 ==>
      Inserted(t, a, i, heads[i])[c].next == 0 && Inserted(t, a, i, heads[i])[c].prev == 0
  {
    InsertedFrame(t, a, i, heads[i]);
    assert heads[i] != 0 ==> heads[i] in h.lists[i];
    OtherChains(t, Inserted(t, a, i, heads[i]), h, i);
  }

  lemma InsertKeepsChains(t: map<int, Tag>, heads: seq<Word>, h: Heap, a: int, i: int)
    requires CoreOk(h) && TagsOk(t, h) && ChainsOk(t, heads, h)
    requires a in h.blocks && h.blocks[a].index == -1 && 0 <= i < MAXEXP && 0 < a < WORD_LIMIT
    requires ListsOk(Enlist(h, a, i))
    ensures ChainsOk(Inserted(t, a, i, heads[i]), heads[i := a], Enlist(h, a, i))
  {
    hide RegionsOk, BlocksOk, TilesOk, LiveOk, NodeOk, HeaderOk, SplitOk;
    NullIsNoTag(t, h);
    ChainedPush(t, h.lists[i], a, i);
    InsertKeepsOthers(t, heads, h, a, i);
    InsertedFrame(t, a, i, heads[i]);
  }

  lemma RemoveKeepsTags(t: map<int, Tag>, h: Heap, a: int)
    requires CoreOk(h) && TagsOk(t, h) && a in h.blocks && h.blocks[a].index >= 0
    requires CoreOk(Unlist(h, a))
    ensures TagsOk(Unlinked(t, a), Unlist(h, a))
  {
    hide RegionsOk, TilesOk, LiveOk;
    var t', h' := Unlinked(t, a), Unlist(h, a);
    UnlinkedFrame(t, a);
    forall c | c in t ensures t'[c].index == h'.blocks[c].index { assert HeaderOk(t, h, c); }
    TagsFrame(t, t', h, h');
  }

  lemma RemoveKeepsOwnChain(t: map<int, Tag>, heads: seq<Word>, h: Heap, a: int, i: int)
    requires ListsOk(h) && ChainsOk(t, heads, h) && 0 !in t
    requires a in h.blocks && h.blocks[a].index == i >= 0
    ensures a in t
    ensures t[a].next in h.lists[i] || t[a].next == 0
    ensures t[a].prev in h.lists[i] || t[a].prev == 0
    ensures if heads[i] == a then t[a].next == At(Unlist(h, a).lists[i], 0)
      else heads[i] == At(Unlist(h, a).lists[i], 0)
    ensures Chained(Unlinked(t, a), Unlist(h, a).lists[i])
  {
    var s := h.lists[i];
    var k :| 0 <= k < |s| && s[k] == a;
    WithoutAt(s, k);
    ChainedRemove(t, s, k);
    assert NodeOk(t, s, k);
    assert heads[i] == a <==> k == 0;
  }

  /** Blocks on no list keep their null links. */
  lemma RemoveKeepsNull(t: map<int, Tag>, t': map<int, Tag>, h: Heap, a: int, i: int)
    requires ListsOk(h) && t.Keys == h.blocks.Keys == t'.Keys && 0 !in t
    requires forall c :: c in h.blocks && h.blocks[c].index == -1 ==> t[c].next == 0 && t[c].prev == 0
    requires a in h.blocks && h.blocks[a].index == i >= 0 && t'[a].next == 0 && t'[a].prev == 0
    requires forall c :: c in t && c != a && c != t[a].prev && c != t[a].next ==> t'[c] == t[c]
    requires (t[a].next in h.lists[i] || t[a].next == 0) && (t[a].prev in h.lists[i] || t[a].prev == 0)
    ensures forall c :: c in Unlist(h, a).blocks && Unlist(h, a).blocks[c].index == -1 ==>
      t'[c].next == 0 && t'[c].prev == 0
  {
  }

  /** The other lists are as they were. */
  lemma RemoveKeepsOthers(t: map<int, Tag>, t': map<int, Tag>, h: Heap, a: int, i: int)
    requires ListsOk(h) && t.Keys == h.blocks.Keys == t'.Keys && 0 !in t
    requires forall m :: 0 <= m < MAXEXP ==> Chained(t, h.lists[m])
    requires a in h.blocks && h.blocks[a].index == i >= 0
    requires forall c :: c in t && c != a && c != t[a].prev && c != t[a].next ==> t'[c] == t[c]
    requires (t[a].next in h.lists[i] || t[a].next == 0) && (t[a].prev in h.lists[i] || t[a].prev == 0)
    ensures i < MAXEXP == |Unlist(h, a).lists|
    ensures forall m :: 0 <= m < MAXEXP && m != i ==>
      Unlist(h, a).lists[m] == h.lists[m] && Chained(t', h.lists[m])
  {
    hide Chained;
    OtherChains(t, t', h, i);
  }

  lemma RemoveKeepsHeads(t: map<int, Tag>, heads: seq<Word>, h: Heap, a: int, i: int)
    requires ListsOk(h) && |heads| == MAXEXP && forall k :: 0 <= k < MAXEXP ==> heads[k] == At(h.lists[k], 0)
    requires a in t && a in h.blocks && h.blocks[a].index == i >= 0 && 0 <= t[a].next < WORD_LIMIT
    requires if heads[i] == a then t[a].next == At(Unlist(h, a).lists[i], 0)
      else heads[i] == At(Unlist(h, a).lists[i], 0)
    ensures var heads' := if heads[i] == a then heads[i := t[a].next] else heads;
      forall k :: 0 <= k < MAXEXP ==> heads'[k] == At(Unlist(h, a).lists[k], 0)
  {
    hide At;
    assert forall k :: 0 <= k < MAXEXP && k != i ==> Unlist(h, a).lists[k] == h.lists[k];
  }

  lemma RemoveKeepsChains(t: map<int, Tag>, t': map<int, Tag>, heads: seq<Word>, h: Heap, a: int, i: int)
    requires ListsOk(h) && ChainsOk(t, heads, h) && t.Keys == h.blocks.Keys && 0 !in t
    requires a in h.blocks && h.blocks[a].index == i >= 0 && 0 <= t[a].next < WORD_LIMIT
    requires ListsOk(Unlist(h, a))
    requires t'.Keys == t.Keys && t'[a].next == 0 && t'[a].prev == 0
    requires forall c :: c in t && c != a && c != t[a].prev && c != t[a].next ==> t'[c] == t[c]
    requires t[a].next in h.lists[i] || t[a].next == 0
    requires t[a].prev in h.lists[i] || t[a].prev == 0
    requires if heads[i] == a then t[a].next == At(Unlist(h, a).lists[i], 0)
      else heads[i] == At(Unlist(h, a).lists[i], 0)
    requires Chained(t', Unlist(h, a).lists[i])
    ensures ChainsOk(t', if heads[i] == a then heads[i := t[a].next] else heads, Unlist(h, a))
  {
    hide Chained, At, Without;
    RemoveKeepsOthers(t, t', h, a, i);
    RemoveKeepsNull(t, t', h, a, i);
    RemoveKeepsHeads(t, heads, h, a, i);
    var s := Unlist(h, a).lists;
    assert forall k :: 0 <= k < MAXEXP ==> Chained(t', s[k]);
  }

  /** What `free` may rely on when it puts block `a` away. */
  lemma RetireReady(t: map<int, Tag>, heads: seq<Word>, h: Heap, a: int)
    requires Linked(t, heads, h) && a in h.blocks
    ensures a in t && t[a].realSize == h.blocks[a].realSize && HEADER <= t[a].realSize < WORD_LIMIT
    ensures |h.lists| == MAXEXP && 0 <= ListIndex(t[a].realSize - HEADER) < MAXEXP
    ensures t[a].splitLeft == 0 && t[a].splitRight == 0 <==> Whole(h, a)
  {
    LinkedHeader(t, heads, h, a);
    WholeLinks(t, heads, h, a);
  }

  /** What `malloc` may rely on when it trims block `a`. */
  lemma TrimReady(t: map<int, Tag>, heads: seq<Word>, h: Heap, a: int)
    requires Linked(t, heads, h) && a in h.blocks && a in h.live
    ensures a in t && t[a].realSize == h.blocks[a].realSize < SIZE_LIMIT && |h.lists| == MAXEXP
    ensures 0 <= h.live[a] && h.live[a] + HEADER <= h.blocks[a].realSize
    ensures var size := h.live[a];
      var rest, n := h.blocks[a].realSize - size - 2 * HEADER, a + HEADER + size;
      Trim(h, a, size) == if rest >= 256 then Enlist(Split(h, a, n), n, ListIndex(rest)) else h
  {
    LinkedHeader(t, heads, h, a);
    BlockBounds(h, a);
  }

  /** What `remove_tag` may rely on about the links of a listed block. */
  lemma ListedLinks(t: map<int, Tag>, heads: seq<Word>, h: Heap, a: int, i: int)
    requires Linked(t, heads, h) && a in h.blocks && h.blocks[a].index == i >= 0
    ensures a in t && t[a].index == i < MAXEXP && 0 !in t
    ensures 0 <= t[a].next < WORD_LIMIT && 0 <= t[a].prev < WORD_LIMIT && t[a].next != a && t[a].prev != a
    ensures (t[a].next != 0 ==> t[a].next in t) && (t[a].prev != 0 ==> t[a].prev in t)
  {
    var s := h.lists[i];
    var k :| 0 <= k < |s| && s[k] == a;
    assert HeaderOk(t, h, a) && NodeOk(t, s, k);
    if k + 1 < |s| { BlockBounds(h, s[k + 1]); }
    if k > 0 { BlockBounds(h, s[k - 1]); }
    BlockBounds(h, a);
  }

  lemma RemoveKeepsLinks(t: map<int, Tag>, heads: seq<Word>, h: Heap, a: int, i: int)
    requires Linked(t, heads, h) && a in h.blocks && h.blocks[a].index == i >= 0
    ensures 0 <= t[a].next < WORD_LIMIT
    ensures Linked(Unlinked(t, a), if heads[i] == a then heads[i := t[a].next] else heads, Unlist(h, a))
  {
    ListedLinks(t, heads, h, a, i);
    UnlistKeepsCore(h, a);
    RemoveKeepsTags(t, h, a);
    RemoveKeepsOwnChain(t, heads, h, a, i);
    UnlinkedFrame(t, a);
    RemoveKeepsChains(t, Unlinked(t, a), heads, h, a, i);
  }

  // ---------- split-chain links ----------

  /** The headers after `l` has swallowed its right neighbour `a`. */
  function Merged(t: map<int, Tag>, l: int, a: int): map<int, Tag>
    requires l in t && a in t
  {
    var e := t[a].splitRight;
    var t1 := Upd(Upd(t, l, RealSize, t[l].realSize + t[a].realSize), l, SplitRight, e);
    (if e in t1 then Upd(t1, e, SplitLeft, l) else t1) - {a}
  }

  /** The headers after block `a` was cut at `n`; `size` is whatever that word held. */
  function Cut(t: map<int, Tag>, a: int, n: int, size: int): map<int, Tag>
    requires a in t && n !in t
  {
    var e := t[a].splitRight;
    var t1 := t[n := Tag(MAGIC, size, a + t[a].realSize - n, -1, a, e, 0, 0)];
    var t2 := if e in t1 then Upd(t1, e, SplitLeft, n) else t1;
    Upd(Upd(t2, a, SplitRight, n), a, RealSize, n - a)
  }

  lemma MergedFrame(t: map<int, Tag>, l: int, a: int)
    requires l in t && a in t
    ensures var r := Merged(t, l, a);
      && r.Keys == t.Keys - {a}
      && (forall c :: c in r && c != l && c != t[a].splitRight ==> r[c] == t[c])
      && (forall c :: c in r ==> r[c].next == t[c].next && r[c].prev == t[c].prev)
  {
  }

  lemma CutFrame(t: map<int, Tag>, a: int, n: int, size: int)
    requires a in t && n !in t
    ensures var r := Cut(t, a, n, size);
      && r.Keys == t.Keys + {n}
      && (forall c :: c in t && c != a && c != t[a].splitRight ==> r[c] == t[c])
      && (forall c :: c in t ==> r[c].next == t[c].next && r[c].prev == t[c].prev)
  {
  }

  /** A header written afresh at `n`. */
  function Fresh(t: map<int, Tag>, n: int, realSize: int, left: int, right: int): map<int, Tag>
    requires n in t
  {
    var t1 := Upd(Upd(t, n, Magic, MAGIC), n, RealSize, realSize);
    Upd(Upd(Upd(Upd(t1, n, Next, 0), n, Prev, 0), n, SplitLeft, left), n, SplitRight, right)
  }

  /** The last three updates of `split_tag`: `n` follows `a` and precedes `e`, and `a`
      shrinks to `v` bytes. */
  function Relinked(t: map<int, Tag>, a: int, n: int, e: int, v: int): map<int, Tag>
    requires a in t
  {
    var t1 := if e in t then Upd(t, e, SplitLeft, n) else t;
    Upd(Upd(t1, a, SplitRight, n), a, RealSize, v)
  }

  /** The headers after block `a` was cut at `n`, where the memory held `g`. */
  function CutFrom(t: map<int, Tag>, a: int, n: int, g: Tag): map<int, Tag>
    requires a in t && n !in t
  {
    var e, realSize := t[a].splitRight, t[a].realSize;
    Relinked(Fresh(t[n := g], n, a + realSize - n, a, e), a, n, e, n - a)
  }

  lemma CutFromIsCut(t: map<int, Tag>, a: int, n: int, g: Tag)
    requires a in t && n !in t && t[a].splitRight != a && t[a].splitRight != n
    ensures n in CutFrom(t, a, n, g) && CutFrom(t, a, n, g).Keys == t.Keys + {n}
    ensures CutFrom(t, a, n, g)[n := CutFrom(t, a, n, g)[n].(index := -1)] == Cut(t, a, n, g.size)
  {
  }

  /** Updates of the split links keep the free lists. */
  lemma ChainsFrame(t: map<int, Tag>, t': map<int, Tag>, heads: seq<Word>, h: Heap, h': Heap)
    requires ListsOk(h) && ListsOk(h') && ChainsOk(t, heads, h) && h'.lists == h.lists && t'.Keys == h'.blocks.Keys
    requires forall c :: c in t' && c in t ==> t'[c].next == t[c].next && t'[c].prev == t[c].prev
    requires forall c :: c in t' && c !in h.blocks ==> t'[c].next == 0 && t'[c].prev == 0
    requires forall c :: c in h'.blocks && c in h.blocks ==> h'.blocks[c].index == h.blocks[c].index
    ensures ChainsOk(t', heads, h')
  {
    forall i | 0 <= i < MAXEXP ensures Chained(t', h'.lists[i]) {
      forall x | x in h.lists[i] ensures x in t' { assert x in h'.lists[i]; }
      ChainedFrame(t, t', h.lists[i]);
    }
  }

  /** The split links of the block that swallows its neighbour. */
  lemma MergeSurvivor(t: map<int, Tag>, h: Heap, l: int, a: int)
    requires SpaceOk(h) && TagsOk(t, h) && IsNext(h, l, a) && SpaceOk(Merge(h, l, a))
    ensures l in Merged(t, l, a) && SplitOk(Merged(t, l, a), Merge(h, l, a), l)
  {
    assert SplitOk(t, h, a) && HasNext(h, a) && SplitOk(t, h, l);
    var x := t[l].splitLeft;
    if l != h.blocks[l].home { assert IsNext(h, x, l) && IsNext(Merge(h, l, a), x, l); }
  }

  /** The right neighbour of the block swallowed. */
  lemma MergeRight(t: map<int, Tag>, h: Heap, l: int, a: int, c: int)
    requires SpaceOk(h) && TagsOk(t, h) && IsNext(h, l, a) && SpaceOk(Merge(h, l, a))
    requires IsNext(h, a, c) && c in t && c != a && c != l
    ensures SplitOk(Merged(t, l, a), Merge(h, l, a), c)
  {
    assert SplitOk(t, h, a) && SplitOk(t, h, c);
    assert IsNext(Merge(h, l, a), l, c);
  }

  /** A block that is next to neither. */
  lemma MergeElsewhere(t: map<int, Tag>, h: Heap, l: int, a: int, c: int)
    requires SpaceOk(h) && TagsOk(t, h) && IsNext(h, l, a) && c in t && c != a && c != l && !IsNext(h, a, c)
    ensures c in Merged(t, l, a) && c in Merge(h, l, a).blocks && h.blocks[c].home in h.regions
    ensures SplitOk(Merged(t, l, a), Merge(h, l, a), c)
  {
    assert SplitOk(t, h, a) && HasNext(h, a) && SplitOk(t, h, c);
    MergedFrame(t, l, a);
    assert t[a].splitRight != c by { assert c in t; }
    assert Merged(t, l, a)[c] == t[c];
    var x := t[c].splitLeft;
    if c != h.blocks[c].home { assert IsNext(h, x, c) && x != a && IsNext(Merge(h, l, a), x, c); }
  }

  lemma MergeKeepsSplits(t: map<int, Tag>, h: Heap, l: int, a: int, c: int)
    requires SpaceOk(h) && TagsOk(t, h) && IsNext(h, l, a) && SpaceOk(Merge(h, l, a))
    requires c in t && c != a && c != l
    ensures SplitOk(Merged(t, l, a), Merge(h, l, a), c)
  {
    hide HeaderOk, SplitOk, IsNext, RegionsOk, TilesOk;
    if IsNext(h, a, c) { MergeRight(t, h, l, a, c); } else { MergeElsewhere(t, h, l, a, c); }
  }

  lemma MergeKeepsHeaders(t: map<int, Tag>, h: Heap, l: int, a: int)
    requires SpaceOk(h) && TagsOk(t, h) && IsNext(h, l, a) && a !in h.live
    ensures var t', h' := Merged(t, l, a), Merge(h, l, a);
      t'.Keys == h'.blocks.Keys && forall c :: c in t' ==> HeaderOk(t', h', c)
  {
    var t', h' := Merged(t, l, a), Merge(h, l, a);
    MergedFrame(t, l, a);
    assert HeaderOk(t, h, a) && HeaderOk(t, h, l);
    forall c | c in t' ensures HeaderOk(t', h', c) { assert HeaderOk(t, h, c); }
  }

  lemma MergeKeepsTags(t: map<int, Tag>, h: Heap, l: int, a: int)
    requires SpaceOk(h) && TagsOk(t, h) && IsNext(h, l, a) && a !in h.live
    requires SpaceOk(Merge(h, l, a))
    ensures TagsOk(Merged(t, l, a), Merge(h, l, a))
  {
    var t', h' := Merged(t, l, a), Merge(h, l, a);
    MergeKeepsHeaders(t, h, l, a);
    MergeSurvivor(t, h, l, a);
    forall c | c in t' && c != l ensures SplitOk(t', h', c) { MergeKeepsSplits(t, h, l, a, c); }
  }

  /** What the merging code may rely on about two neighbours. */
  lemma NeighbourLinks(t: map<int, Tag>, heads: seq<Word>, h: Heap, l: int, a: int)
    requires Linked(t, heads, h) && IsNext(h, l, a)
    ensures l in t && a in t && l < a && 0 < l && a < WORD_LIMIT && 0 !in t
    ensures t[l].splitRight == a && t[a].splitLeft == l
    ensures 0 <= t[l].realSize && 0 <= t[a].realSize && t[l].realSize + t[a].realSize < WORD_LIMIT
    ensures 0 <= t[a].splitRight < WORD_LIMIT && t[a].splitRight != a && (t[a].splitRight != 0 ==> t[a].splitRight in t)
  {
    assert HeaderOk(t, h, l) && HeaderOk(t, h, a) && SplitOk(t, h, l) && SplitOk(t, h, a) && HasNext(h, a);
    var x := t[a].splitLeft;
    assert IsNext(h, x, a);
    assert Apart(h, x, l) && Apart(h, l, x);
  }

  lemma MergeKeepsLinks(t: map<int, Tag>, heads: seq<Word>, h: Heap, l: int, a: int)
    requires Linked(t, heads, h) && IsNext(h, l, a) && h.blocks[a].index == -1 && a !in h.live
    ensures Linked(Merged(t, l, a), heads, Merge(h, l, a))
  {
    MergeKeepsCore(h, l, a);
    MergeKeepsTags(t, h, l, a);
    MergedFrame(t, l, a);
    ChainsFrame(t, Merged(t, l, a), heads, h, Merge(h, l, a));
  }

  /** The split links of the two parts of a block that was cut. */
  lemma CutParts(t: map<int, Tag>, h: Heap, a: int, n: int, size: int)
    requires SpaceOk(h) && TagsOk(t, h) && a in h.blocks
    requires a + HEADER <= n <= a + h.blocks[a].realSize - HEADER
    requires n !in h.blocks && SpaceOk(Split(h, a, n))
    ensures n in Cut(t, a, n, size) && a in Cut(t, a, n, size)
    ensures SplitOk(Cut(t, a, n, size), Split(h, a, n), n) && SplitOk(Cut(t, a, n, size), Split(h, a, n), a)
  {
    var h' := Split(h, a, n);
    assert SplitOk(t, h, a) && HasNext(h, a);
    assert IsNext(h', a, n);
    var l := t[a].splitLeft;
    if a != h.blocks[a].home { assert IsNext(h, l, a) && IsNext(h', l, a); }
  }

  /** The right neighbour of the block that was cut. */
  lemma CutRight(t: map<int, Tag>, h: Heap, a: int, n: int, size: int, c: int)
    requires SpaceOk(h) && TagsOk(t, h) && IsNext(h, a, c) && c in t && c != a && n !in h.blocks
    ensures c in Cut(t, a, n, size) && c in Split(h, a, n).blocks && h.blocks[c].home in h.regions
    ensures SplitOk(Cut(t, a, n, size), Split(h, a, n), c)
  {
    assert SplitOk(t, h, a) && SplitOk(t, h, c);
    assert IsNext(Split(h, a, n), n, c);
  }

  /** A block that is next to neither part. */
  lemma CutElsewhere(t: map<int, Tag>, h: Heap, a: int, n: int, size: int, c: int)
    requires SpaceOk(h) && TagsOk(t, h) && a in h.blocks && c in t && c != a && !IsNext(h, a, c) && n !in h.blocks
    ensures c in Cut(t, a, n, size) && c in Split(h, a, n).blocks && h.blocks[c].home in h.regions
    ensures SplitOk(Cut(t, a, n, size), Split(h, a, n), c)
  {
    assert SplitOk(t, h, a) && HasNext(h, a) && SplitOk(t, h, c);
    CutFrame(t, a, n, size);
    assert Cut(t, a, n, size)[c] == t[c];
    var x := t[c].splitLeft;
    if c != h.blocks[c].home { assert IsNext(h, x, c) && x != a && IsNext(Split(h, a, n), x, c); }
  }

  lemma CutKeepsSplits(t: map<int, Tag>, h: Heap, a: int, n: int, size: int, c: int)
    requires SpaceOk(h) && TagsOk(t, h) && a in h.blocks && c in t && c != a
    requires n !in h.blocks && SpaceOk(Split(h, a, n))
    ensures c in Cut(t, a, n, size) && SplitOk(Cut(t, a, n, size), Split(h, a, n), c)
  {
    hide HeaderOk, SplitOk, IsNext, RegionsOk, TilesOk;
    if IsNext(h, a, c) { CutRight(t, h, a, n, size, c); } else { CutElsewhere(t, h, a, n, size, c); }
  }

  lemma CutKeepsHeaders(t: map<int, Tag>, h: Heap, a: int, n: int, size: int)
    requires SpaceOk(h) && TagsOk(t, h) && LiveOk(h) && a in h.blocks && n !in h.blocks
    ensures var t', h' := Cut(t, a, n, size), Split(h, a, n);
      t'.Keys == h'.blocks.Keys && forall c :: c in t' ==> HeaderOk(t', h', c)
  {
    var t', h' := Cut(t, a, n, size), Split(h, a, n);
    CutFrame(t, a, n, size);
    assert HeaderOk(t, h, a);
    forall c | c in t' ensures HeaderOk(t', h', c) { assert c != n ==> HeaderOk(t, h, c); }
  }

  lemma CutKeepsTags(t: map<int, Tag>, h: Heap, a: int, n: int, size: int)
    requires SpaceOk(h) && TagsOk(t, h) && LiveOk(h) && a in h.blocks
    requires a + HEADER <= n <= a + h.blocks[a].realSize - HEADER
    requires n !in h.blocks && SpaceOk(Split(h, a, n))
    ensures TagsOk(Cut(t, a, n, size), Split(h, a, n))
  {
    var t', h' := Cut(t, a, n, size), Split(h, a, n);
    CutKeepsHeaders(t, h, a, n, size);
    CutParts(t, h, a, n, size);
    forall c | c in t' && c != n && c != a ensures SplitOk(t', h', c) { CutKeepsSplits(t, h, a, n, size, c); }
  }

  lemma CutKeepsLinks(t: map<int, Tag>, heads: seq<Word>, h: Heap, a: int, n: int, size: int)
    requires Linked(t, heads, h) && a in h.blocks
    requires a + HEADER <= n <= a + h.blocks[a].realSize - HEADER
    requires a in h.live ==> a + HEADER + h.live[a] <= n
    ensures n !in t && Linked(Cut(t, a, n, size), heads, Split(h, a, n))
  {
    hide RegionsOk, BlocksOk, TilesOk, HeaderOk, SplitOk, NodeOk;
    SplitKeepsCore(h, a, n);
    CutKeepsTags(t, h, a, n, size);
    CutFrame(t, a, n, size);
    ChainsFrame(t, Cut(t, a, n, size), heads, h, Split(h, a, n));
  }

  lemma AddRegionKeepsTags(t: map<int, Tag>, h: Heap, b: int, pages: int, size: int)
    requires CoreOk(h) && TagsOk(t, h) && b !in h.blocks && b !in h.regions && CoreOk(AddRegion(h, b, pages))
    ensures TagsOk(t[b := Tag(MAGIC, size, pages * 4096, -1, 0, 0, 0, 0)], AddRegion(h, b, pages))
  {
    var t', h' := t[b := Tag(MAGIC, size, pages * 4096, -1, 0, 0, 0, 0)], AddRegion(h, b, pages);
    forall c | c in t' ensures HeaderOk(t', h', c) { assert c != b ==> HeaderOk(t, h, c); }
    forall c | c in t' ensures SplitOk(t', h', c) { assert c != b ==> SplitOk(t, h, c); }
  }

  lemma AddRegionKeepsLinks(t: map<int, Tag>, heads: seq<Word>, h: Heap, b: int, pages: int, size: int)
    requires Linked(t, heads, h) && FreshRange(h, b, pages)
    ensures b !in t
    ensures Linked(t[b := Tag(MAGIC, size, pages * 4096, -1, 0, 0, 0, 0)], heads, AddRegion(h, b, pages))
  {
    var t', h' := t[b := Tag(MAGIC, size, pages * 4096, -1, 0, 0, 0, 0)], AddRegion(h, b, pages);
    AddRegionKeepsCore(h, b, pages);
    AddRegionKeepsTags(t, h, b, pages, size);
    ChainsFrame(t, t', heads, h, h');
  }

  lemma DropRegionKeepsTags(t: map<int, Tag>, h: Heap, b: int)
    requires SpaceOk(h) && TagsOk(t, h) && SpaceOk(DropRegion(h, b))
    requires b in h.blocks && h.blocks[b].home == b
    requires forall c :: c in h.blocks && c != b ==> h.blocks[c].home != b
    ensures TagsOk(t - {b}, DropRegion(h, b))
  {
    var t', h' := t - {b}, DropRegion(h, b);
    forall c | c in t' ensures HeaderOk(t', h', c) { assert HeaderOk(t, h, c); }
    forall c | c in t' ensures SplitOk(t', h', c) { assert SplitOk(t, h, c); }
  }

  lemma DropRegionKeepsLinks(t: map<int, Tag>, heads: seq<Word>, h: Heap, b: int)
    requires Linked(t, heads, h) && Whole(h, b) && h.blocks[b].index == -1 && b !in h.live
    ensures Linked(t - {b}, heads, DropRegion(h, b))
  {
    var t', h' := t - {b}, DropRegion(h, b);
    DropRegionKeepsCore(h, b);
    DropRegionKeepsTags(t, h, b);
    ChainsFrame(t, t', heads, h, h');
  }

  /** A block with neither neighbour link is a whole region. */
  lemma WholeLinks(t: map<int, Tag>, heads: seq<Word>, h: Heap, a: int)
    requires Linked(t, heads, h) && a in h.blocks
    ensures a in t && (t[a].splitLeft == 0 && t[a].splitRight == 0 <==> Whole(h, a))
  {
    assert SplitOk(t, h, a) && HasBase(h, h.blocks[a].home);
    BlockBounds(h, a);
    if a != h.blocks[a].home {
      BlockBounds(h, t[a].splitLeft);
      assert a in h.regions ==> HasBase(h, a);
    }
  }

  /** Requested sizes and counters are not part of the link structures. */
  lemma RelabelKeepsTags(t: map<int, Tag>, t': map<int, Tag>, h: Heap, h': Heap)
    requires SpaceOk(h) && SpaceOk(h') && TagsOk(t, h) && h'.regions == h.regions && h'.blocks == h.blocks
    requires t'.Keys == t.Keys && forall c :: c in t ==> t'[c] == t[c].(size := t'[c].size)
    requires forall c :: c in h'.live && c in t ==> t'[c].size == h'.live[c]
    ensures TagsOk(t', h')
  {
    forall c | c in t' ensures HeaderOk(t', h', c) { assert HeaderOk(t, h, c); }
    forall c | c in t' ensures SplitOk(t', h', c) { assert SplitOk(t, h, c); }
  }

  lemma RelabelKeepsLinks(t: map<int, Tag>, t': map<int, Tag>, heads: seq<Word>, h: Heap, h': Heap)
    requires Linked(t, heads, h) && LiveOk(h')
    requires h'.regions == h.regions && h'.blocks == h.blocks && h'.lists == h.lists
    requires t'.Keys == t.Keys && forall c :: c in t ==> t'[c] == t[c].(size := t'[c].size)
    requires forall c :: c in h'.live && c in t ==> t'[c].size == h'.live[c]
    ensures Linked(t', heads, h')
  {
    SameTilingKeepsSpace(h, h');
    RelabelKeepsTags(t, t', h, h');
    ChainsFrame(t, t', heads, h, h');
  }

  /** The header's size word and the caller's request agree after `tag->size = size`. */
  lemma SizeKeepsLinks(t: map<int, Tag>, heads: seq<Word>, h: Heap, a: int, size: int)
    requires Linked(t, heads, h) && a in h.blocks && h.blocks[a].index == -1
    requires 0 <= size && size + HEADER <= h.blocks[a].realSize
    ensures a in t && Linked(Upd(t, a, Size, size), heads, h.(live := h.live[a := size]))
  {
    forall c | c in h.live && c in t ensures t[c].size == h.live[c] { assert HeaderOk(t, h, c); }
    RelabelKeepsLinks(t, Upd(t, a, Size, size), heads, h, h.(live := h.live[a := size]));
  }

  lemma LabelsKeepLinks(t: map<int, Tag>, heads: seq<Word>, h: Heap, h': Heap)
    requires Linked(t, heads, h) && h' == h.(live := h'.live, complete := h'.complete)
    requires forall c :: c in h'.live ==> c in h.live && h'.live[c] == h.live[c]
    ensures Linked(t, heads, h')
  {
    forall c | c in h'.live && c in t ensures t[c].size == h'.live[c] { assert HeaderOk(t, h, c); }
    RelabelKeepsLinks(t, t, heads, h, h');
  }

  /** The free left neighbour is found through the split link and its index. */
  lemma FreeLeftLinks(t: map<int, Tag>, heads: seq<Word>, h: Heap, a: int)
    requires Linked(t, heads, h) && a in h.blocks
    ensures a in t && 0 !in t && (t[a].splitLeft != 0 ==> t[a].splitLeft in t && IsNext(h, t[a].splitLeft, a))
    ensures forall l {:trigger IsNext(h, l, a)} :: IsNext(h, l, a) ==> l == t[a].splitLeft
  {
    assert SplitOk(t, h, a);
    var x := t[a].splitLeft;
    forall l | IsNext(h, l, a) ensures l == x {
      assert a != h.blocks[a].home;
      assert IsNext(h, x, a) && Apart(h, l, x) && Apart(h, x, l);
    }
  }

  lemma FreeRightLinks(t: map<int, Tag>, heads: seq<Word>, h: Heap, a: int)
    requires Linked(t, heads, h) && a in h.blocks
    ensures a in t && 0 !in t && (t[a].splitRight != 0 ==> t[a].splitRight in t && IsNext(h, a, t[a].splitRight))
    ensures forall r {:trigger IsNext(h, a, r)} :: IsNext(h, a, r) ==> r == t[a].splitRight
  {
    assert SplitOk(t, h, a) && HasNext(h, a);
    forall r | IsNext(h, a, r) ensures r == t[a].splitRight { BlockBounds(h, r); }
  }

  /** What `split_tag` may rely on. */
  lemma CutReady(t: map<int, Tag>, heads: seq<Word>, h: Heap, a: int, n: int)
    requires Linked(t, heads, h) && a in h.blocks && a in h.live && n == a + HEADER + h.live[a]
    requires h.live[a] + 2 * HEADER <= h.blocks[a].realSize
    ensures a in t && 0 !in t && 0 < a && t[a].realSize == h.blocks[a].realSize && t[a].size == h.live[a] >= 0
    ensures a + t[a].realSize <= WORD_LIMIT
    ensures 0 <= t[a].splitRight < WORD_LIMIT && (t[a].splitRight != 0 ==> t[a].splitRight in t)
    ensures n !in t && n !in h.blocks && Separate(t.Keys + {n})
    ensures t.Keys == h.blocks.Keys && |h.lists| == MAXEXP && h.blocks[a].realSize <= WORD_LIMIT
    ensures forall c :: c in h.live ==> c in h.blocks
  {
    LinkedHeader(t, heads, h, a);
    FreeRightLinks(t, heads, h, a);
    BlockBounds(h, a);
    CutKeepsLinks(t, heads, h, a, n, 0);
    LinkedSeparate(Cut(t, a, n, 0), heads, Split(h, a, n));
    CutFrame(t, a, n, 0);
  }

  lemma CutFromKeepsLinks(t: map<int, Tag>, heads: seq<Word>, h: Heap, a: int, n: int, g: Tag)
    requires Linked(t, heads, h) && a in h.blocks && a in h.live && n == a + HEADER + h.live[a] && a in t
    requires h.live[a] + 2 * HEADER <= h.blocks[a].realSize
    ensures n !in t && n !in h.blocks && CutFrom(t, a, n, g).Keys == t.Keys + {n}
    ensures Split(h, a, n).blocks[n].realSize - HEADER == h.blocks[a].realSize - h.live[a] - 2 * HEADER
    ensures Linked(CutFrom(t, a, n, g)[n := CutFrom(t, a, n, g)[n].(index := -1)], heads, Split(h, a, n))
  {
    hide Linked, Cut, CutFrom;
    FreeRightLinks(t, heads, h, a);
    CutReady(t, heads, h, a, n);
    CutKeepsLinks(t, heads, h, a, n, g.size);
    CutFromIsCut(t, a, n, g);
  }

  /** The header `allocate_new_tag` writes at the base of a fresh region. */
  function RegionTag(t: map<int, Tag>, b: int, size: int, realSize: int): map<int, Tag>
    requires b in t
  {
    var t1 := Upd(Upd(Upd(Upd(t, b, Magic, MAGIC), b, Size, size), b, RealSize, realSize), b, Index, -1);
    Upd(Upd(Upd(Upd(t1, b, Next, 0), b, Prev, 0), b, SplitLeft, 0), b, SplitRight, 0)
  }

  lemma RegionReady(t: map<int, Tag>, heads: seq<Word>, h: Heap, b: int, pages: int)
    requires Linked(t, heads, h) && FreshRange(h, b, pages)
    ensures b !in t && Separate(t.Keys + {b})
  {
    var t' := t[b := Tag(MAGIC, 0, pages * 4096, -1, 0, 0, 0, 0)];
    AddRegionKeepsLinks(t, heads, h, b, pages, 0);
    LinkedSeparate(t', heads, AddRegion(h, b, pages));
    assert t'.Keys == t.Keys + {b};
  }

  lemma RegionTagKeepsLinks(t: map<int, Tag>, heads: seq<Word>, h: Heap, b: int, pages: int, size: int, g: Tag)
    requires Linked(t, heads, h) && FreshRange(h, b, pages)
    ensures Linked(RegionTag(t[b := g], b, size, pages * 4096), heads, AddRegion(h, b, pages))
  {
    AddRegionKeepsLinks(t, heads, h, b, pages, size);
    assert RegionTag(t[b := g], b, size, pages * 4096) == t[b := Tag(MAGIC, size, pages * 4096, -1, 0, 0, 0, 0)];
  }

  lemma FreeLeftIs(t: map<int, Tag>, heads: seq<Word>, h: Heap, a: int)
    requires Linked(t, heads, h) && a in h.blocks
    ensures a in t && 0 !in t && (t[a].splitLeft != 0 ==> t[a].splitLeft in t && IsNext(h, t[a].splitLeft, a))
    ensures FreeLeft(h, a) == (if t[a].splitLeft != 0 && t[t[a].splitLeft].index >= 0 then t[a].splitLeft else 0)
    ensures FreeLeft(h, a) == 0 ==> LeftClosed(h, a)
  {
    FreeLeftLinks(t, heads, h, a);
    var x := t[a].splitLeft;
    if x != 0 {
      assert HeaderOk(t, h, x) && IsNext(h, x, a);
    }
    forall l | IsNext(h, l, a) ensures l == x && x != 0 && h.blocks[l].index == t[x].index {
      BlockBounds(h, l);
    }
  }

  lemma FreeRightIs(t: map<int, Tag>, heads: seq<Word>, h: Heap, a: int)
    requires Linked(t, heads, h) && a in h.blocks
    ensures a in t && 0 !in t && (t[a].splitRight != 0 ==> t[a].splitRight in t && IsNext(h, a, t[a].splitRight))
    ensures FreeRight(h, a) == (if t[a].splitRight != 0 && t[t[a].splitRight].index >= 0 then t[a].splitRight else 0)
    ensures FreeRight(h, a) == 0 ==> RightClosed(h, a)
  {
    FreeRightLinks(t, heads, h, a);
    var x := t[a].splitRight;
    if x != 0 {
      assert HeaderOk(t, h, x) && IsNext(h, a, x);
    }
    forall r | IsNext(h, a, r) ensures r == x && x != 0 && h.blocks[r].index == t[x].index {
      BlockBounds(h, r);
    }
  }

  // ---------- what the pointers say ----------

  /** The split links of neighbours point at each other, and the next header is
      where the sizes say. */
  lemma SplitLinksInvert(t: map<int, Tag>, heads: seq<Word>, h: Heap, a: int)
    requires Linked(t, heads, h) && a in t
    ensures var r := t[a].splitRight; r != 0 ==> r in t && r == a + t[a].realSize && t[r].splitLeft == a
    ensures var l := t[a].splitLeft; l != 0 ==> l in t && a == l + t[l].realSize && t[l].splitRight == a
  {
    assert HeaderOk(t, h, a) && SplitOk(t, h, a) && HasNext(h, a);
    var r, l := t[a].splitRight, t[a].splitLeft;
    if r != 0 { NeighbourLinks(t, heads, h, a, r); }
    if l != 0 { NeighbourLinks(t, heads, h, l, a); assert HeaderOk(t, h, l); }
  }

  /** Following `next` from `p` visits `s` and stops; each `prev` points back. */
  ghost predicate Follows(t: map<int, Tag>, p: int, before: int, s: seq<int>)
    decreases |s|
  {
    if s == [] then p == 0
    else p == s[0] && p != 0 && p in t && t[p].prev == before && Follows(t, t[p].next, p, s[1..])
  }

  lemma {:induction false} ChainedFollows(t: map<int, Tag>, s: seq<int>, k: nat)
    requires Chained(t, s) && 0 !in s && k <= |s|
    ensures Follows(t, At(s, k), At(s, k - 1), s[k..])
    decreases |s| - k
  {
    if k == |s| {
    } else {
      assert NodeOk(t, s, k);
      ChainedFollows(t, s, k + 1);
      assert s[k..][1..] == s[k + 1..];
    }
  }

  /** Each free list, walked from its head, visits exactly the tags with its
      index, each once, and ends; a tag of a live block has null links. */
  lemma FreeListsAreExact(t: map<int, Tag>, heads: seq<Word>, h: Heap, i: int)
    requires Linked(t, heads, h) && 0 <= i < MAXEXP
    ensures |heads| == MAXEXP == |h.lists| && Follows(t, heads[i], 0, h.lists[i]) && NoDup(h.lists[i])
    ensures forall a :: a in h.lists[i] <==> a in t && t[a].index == i
    ensures forall a :: a in h.live ==> a in t && t[a].index == -1 && t[a].next == 0 && t[a].prev == 0
  {
    forall a | a in t ensures a != 0 && HeaderOk(t, h, a) { BlockBounds(h, a); }
    assert 0 !in t && forall x :: x in h.lists[i] ==> x in t;
    assert h.lists[i][0..] == h.lists[i];
    ChainedFollows(t, h.lists[i], 0);
  }
}
