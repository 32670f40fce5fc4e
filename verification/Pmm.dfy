/** The physical page allocator of kernel/src/pmm.c, as written: which calls
    return, what they leave disjoint, and what is never reclaimed. */
module Pmm {
  import opened Words

  datatype MemChunk = MemChunk(pageCount: Word, prev: int, next: int)

  /** A page range handed to a caller. */
  datatype Range = Range(addr: int, pages: int)

  // ---------- what the calls amount to ----------

  /** The root chunk (`start` is 0 when there is none), the ranges handed out,
      and the usage counter. */
  datatype Pool = Pool(start: int, count: int, live: seq<Range>, used: Word)

  function End(r: Range): int {
    r.addr + 4096 * r.pages
  }

  ghost predicate Disjoint(r: Range, q: Range) {
    End(r) <= q.addr || End(q) <= r.addr
  }

  function TotalPages(live: seq<Range>): int {
    if live == [] then 0 else live[0].pages + TotalPages(live[1..])
  }

  ghost predicate Inside(lo: int, hi: int, r: Range) {
    0 <= r.pages && lo <= r.addr && End(r) <= hi
  }

  /** In arena [lo, hi): everything handed out and the free chunk are pairwise
      disjoint, and the counter moved by the live pages since it was `used0`. */
  ghost predicate PoolOk(lo: int, hi: int, used0: int, s: Pool) {
    && 0 < lo <= hi <= WORD_LIMIT
    && (s.start != 0 ==> 0 < s.count && Inside(lo, hi, Range(s.start, s.count)))
    && (forall i :: 0 <= i < |s.live| ==> Inside(lo, hi, s.live[i]))
    && (forall i, j {:trigger Disjoint(s.live[i], s.live[j])} ::
          0 <= i < j < |s.live| ==> Disjoint(s.live[i], s.live[j]))
    && (s.start != 0 ==> forall i :: 0 <= i < |s.live| ==> Disjoint(s.live[i], Range(s.start, s.count)))
    && s.used == Wrap(used0 + 4096 * TotalPages(s.live))
  }

  datatype Call = Alloc(pages: int) | Free(which: nat)

  /** The call names a range that is out, if it frees, and it returns. */
  ghost predicate Allowed(s: Pool, c: Call) {
    match c
    case Alloc(n) => 0 <= n < WORD_LIMIT && (s.start == 0 || s.count >= n)
    case Free(i) => i < |s.live| && (s.live[i].pages == 0 || s.start == 0 || s.live[i].addr < s.start)
  }

  function Removed(live: seq<Range>, i: nat): seq<Range>
    requires i < |live|
  {
    live[..i] + live[i + 1..]
  }

  ghost function Step(s: Pool, c: Call): Pool
    requires Allowed(s, c)
  {
    match c
    case Alloc(n) =>
      if s.start == 0 then s
      else
        var live := s.live + [Range(s.start, n)];
        var used := Wrap(s.used + 4096 * n);
        if s.count == n then Pool(0, 0, live, used) else Pool(s.start + 4096 * n, s.count - n, live, used)
    case Free(i) =>
      var r := s.live[i];
      if r.pages == 0 then s.(live := Removed(s.live, i))
      else if s.start == 0 then Pool(r.addr, r.pages, Removed(s.live, i), Wrap(s.used - 4096 * r.pages))
      else s.(live := Removed(s.live, i), used := Wrap(s.used - 4096 * r.pages))
  }

  lemma {:induction false} TotalPagesAppend(live: seq<Range>, r: Range)
    ensures TotalPages(live + [r]) == TotalPages(live) + r.pages
  {
    if live == [] {
    } else {
      TotalPagesAppend(live[1..], r);
      assert (live + [r])[1..] == live[1..] + [r];
    }
  }

  lemma {:induction false} TotalPagesRemove(live: seq<Range>, i: nat)
    requires i < |live|
    ensures TotalPages(Removed(live, i)) == TotalPages(live) - live[i].pages
  {
    if i == 0 {
      assert Removed(live, i) == live[1..];
    } else {
      TotalPagesRemove(live[1..], i - 1);
      assert Removed(live, i)[1..] == Removed(live[1..], i - 1);
    }
  }

  lemma {:induction false} WrapShift(x: int, y: int)
    ensures Wrap(Wrap(x) + y) == Wrap(x + y)
    decreases x < 0, if x < 0 then -x else x
  {
    if x < 0 {
      WrapShift(x + 0x1_0000_0000, y);
      WrapPeriod(x + y);
    } else if x >= 0x1_0000_0000 {
      WrapShift(x - 0x1_0000_0000, y);
      WrapPeriod(x - 0x1_0000_0000 + y);
    }
  }

  lemma WrapPeriod(x: int)
    ensures Wrap(x + 0x1_0000_0000) == Wrap(x)
  {
  }

  lemma AllocKeepsPool(lo: int, hi: int, used0: int, s: Pool, n: int)
    requires PoolOk(lo, hi, used0, s) && Allowed(s, Alloc(n))
    ensures PoolOk(lo, hi, used0, Step(s, Alloc(n)))
  {
    if s.start != 0 {
      TotalPagesAppend(s.live, Range(s.start, n));
      WrapShift(used0 + 4096 * TotalPages(s.live), 4096 * n);
      var live := Step(s, Alloc(n)).live;
      forall i | 0 <= i < |live| ensures live[i] == if i < |s.live| then s.live[i] else Range(s.start, n) {}
      forall i, j | 0 <= i < j < |live| ensures Disjoint(live[i], live[j]) {
        assert j < |s.live| ==> Disjoint(s.live[i], s.live[j]);
      }
    }
  }

  /** What is left of the live ranges stays disjoint from each other and from
      the one removed. */
  lemma RemovedStaysDisjoint(lo: int, hi: int, used0: int, s: Pool, k: nat)
    requires PoolOk(lo, hi, used0, s) && k < |s.live|
    ensures var live := Removed(s.live, k);
      && (forall i :: 0 <= i < |live| ==> Inside(lo, hi, live[i]) && Disjoint(live[i], s.live[k]))
      && (forall i, j {:trigger Disjoint(live[i], live[j])} :: 0 <= i < j < |live| ==> Disjoint(live[i], live[j]))
      && (s.start != 0 ==> forall i :: 0 <= i < |live| ==> Disjoint(live[i], Range(s.start, s.count)))
  {
    var live := Removed(s.live, k);
    forall i | 0 <= i < |live| ensures live[i] == s.live[if i < k then i else i + 1] {}
    forall i, j | 0 <= i < j < |live| ensures Disjoint(live[i], live[j]) {
      var i', j' := if i < k then i else i + 1, if j < k then j else j + 1;
      assert Disjoint(s.live[i'], s.live[j']);
    }
    forall i | 0 <= i < |live| ensures Disjoint(live[i], s.live[k]) {
      var i' := if i < k then i else i + 1;
      assert if i' < k then Disjoint(s.live[i'], s.live[k]) else Disjoint(s.live[k], s.live[i']);
    }
  }

  lemma FreeKeepsPool(lo: int, hi: int, used0: int, s: Pool, k: nat)
    requires PoolOk(lo, hi, used0, s) && Allowed(s, Free(k))
    ensures PoolOk(lo, hi, used0, Step(s, Free(k)))
  {
    hide Removed, Disjoint, TotalPages;
    TotalPagesRemove(s.live, k);
    WrapShift(used0 + 4096 * TotalPages(s.live), -4096 * s.live[k].pages);
    RemovedStaysDisjoint(lo, hi, used0, s, k);
  }

  lemma StepKeepsPool(lo: int, hi: int, used0: int, s: Pool, c: Call)
    requires PoolOk(lo, hi, used0, s) && Allowed(s, c)
    ensures PoolOk(lo, hi, used0, Step(s, c))
  {
    match c
    case Alloc(n) => AllocKeepsPool(lo, hi, used0, s, n);
    case Free(i) => FreeKeepsPool(lo, hi, used0, s, i);
  }

  // ---------- runs ----------

  ghost predicate AllowedRun(s: Pool, cs: seq<Call>)
    decreases |cs|
  {
    cs == [] || (Allowed(s, cs[0]) && AllowedRun(Step(s, cs[0]), cs[1..]))
  }

  ghost function Run(s: Pool, cs: seq<Call>): Pool
    requires AllowedRun(s, cs)
    decreases |cs|
  {
    if cs == [] then s else Run(Step(s, cs[0]), cs[1..])
  }

  /** Safety of every run of calls that return. */
  lemma {:induction false} RunKeepsPool(lo: int, hi: int, used0: int, s: Pool, cs: seq<Call>)
    requires PoolOk(lo, hi, used0, s) && AllowedRun(s, cs)
    ensures PoolOk(lo, hi, used0, Run(s, cs))
    decreases |cs|
  {
    if cs == [] {
    } else {
      StepKeepsPool(lo, hi, used0, s, cs[0]);
      RunKeepsPool(lo, hi, used0, Step(s, cs[0]), cs[1..]);
    }
  }

  // ---------- which calls return ----------

  /** Whether the search loop of `allocPage`, at chunk `p`, leaves within `turns`
      turns: it moves on only inside the branch that has already returned. */
  function AllocLoopLeaves(chunks: map<int, MemChunk>, p: int, n: int, turns: nat): bool {
    if p !in chunks then true
    else if chunks[p].pageCount >= n then true
    else turns > 0 && AllocLoopLeaves(chunks, p, n, turns - 1)
  }

  lemma {:induction false} AllocLoopStays(chunks: map<int, MemChunk>, p: int, n: int, turns: nat)
    requires p in chunks && chunks[p].pageCount < n
    ensures !AllocLoopLeaves(chunks, p, n, turns)
  {
    if turns == 0 {
    } else {
      AllocLoopStays(chunks, p, n, turns - 1);
    }
  }

  /** `allocPage` leaves its loop at once when there is no root chunk or it is
      large enough, and never otherwise. */
  lemma AllocReturnsIff(chunks: map<int, MemChunk>, root: int, n: int, turns: nat)
    ensures AllocLoopLeaves(chunks, root, n, turns) <==> (root in chunks ==> chunks[root].pageCount >= n)
  {
    if root in chunks && chunks[root].pageCount < n { AllocLoopStays(chunks, root, n, turns); }
  }

  /** The same for the search loop of `freePage`, which never moves on. */
  function FreeLoopLeaves(chunks: map<int, MemChunk>, p: int, addr: int, turns: nat): bool {
    if p !in chunks then true
    else if addr < p then true
    else turns > 0 && FreeLoopLeaves(chunks, p, addr, turns - 1)
  }

  lemma {:induction false} FreeLoopStays(chunks: map<int, MemChunk>, p: int, addr: int, turns: nat)
    requires p in chunks && p <= addr
    ensures !FreeLoopLeaves(chunks, p, addr, turns)
  {
    if turns == 0 {
    } else {
      FreeLoopStays(chunks, p, addr, turns - 1);
    }
  }

  /** `freePage` leaves its loop at once when there is no root chunk or the
      address is below it, and never otherwise. */
  lemma FreeReturnsIff(chunks: map<int, MemChunk>, root: int, addr: int, turns: nat)
    ensures FreeLoopLeaves(chunks, root, addr, turns) <==> (root in chunks ==> addr < root)
  {
    if root in chunks && root <= addr { FreeLoopStays(chunks, root, addr, turns); }
  }

  /** Everything handed out lies below the free chunk. */
  ghost predicate Bumping(s: Pool) {
    s.start != 0 && forall i :: 0 <= i < |s.live| ==> End(s.live[i]) <= s.start
  }

  /** No call of the run leaves the pool without a chunk. */
  ghost predicate NeverExhausts(s: Pool, cs: seq<Call>)
    requires AllowedRun(s, cs)
    decreases |cs|
  {
    s.start != 0 && (cs == [] || NeverExhausts(Step(s, cs[0]), cs[1..]))
  }

  lemma StepKeepsBumping(lo: int, hi: int, used0: int, s: Pool, c: Call)
    requires PoolOk(lo, hi, used0, s) && Bumping(s) && Allowed(s, c) && Step(s, c).start != 0
    ensures Bumping(Step(s, c))
  {
    if c.Free? {
      var live := Removed(s.live, c.which);
      forall j | 0 <= j < |live| ensures live[j] == s.live[if j < c.which then j else j + 1] {}
    }
  }

  /** Until the arena is exhausted, `freePage` returns for every range that is out. */
  lemma {:induction false} FreesReturnUntilExhaustion(lo: int, hi: int, used0: int, s: Pool, cs: seq<Call>, i: nat)
    requires PoolOk(lo, hi, used0, s) && Bumping(s) && AllowedRun(s, cs) && NeverExhausts(s, cs)
    requires i < |Run(s, cs).live|
    ensures Allowed(Run(s, cs), Free(i))
    decreases |cs|
  {
    if cs == [] {
    } else {
      StepKeepsPool(lo, hi, used0, s, cs[0]);
      StepKeepsBumping(lo, hi, used0, s, cs[0]);
      FreesReturnUntilExhaustion(lo, hi, used0, Step(s, cs[0]), cs[1..], i);
    }
  }

  /** The pool that `init_pmm` sets up above the end of the kernel. */
  function InitialPool(kernelEnd: Word, megabytes: int): Pool {
    var free := Wrap(megabytes * 0x10_0000 - kernelEnd);
    Pool(kernelEnd, free / 4096, [], Wrap(megabytes - free))
  }

  lemma TwoAllocsOneFree(s: Pool)
    requires s.start > 0 && s.count == 2 && s.live == []
    ensures var cs := [Alloc(1), Alloc(1), Free(0)];
      AllowedRun(s, cs) && Run(s, cs).start == s.start && Run(s, cs).live == [Range(s.start + 4096, 1)]
  {
    hide Wrap;
    var s1 := Step(s, Alloc(1));
    assert s1.live == [Range(s.start, 1)] && s1.start == s.start + 4096 && s1.count == 1;
    var s2 := Step(s1, Alloc(1));
    assert s2.live == [Range(s.start, 1), Range(s.start + 4096, 1)] && s2.start == 0;
    var s3 := Step(s2, Free(0));
    assert s3.live == [Range(s.start + 4096, 1)] && s3.start == s.start;
    RunOne(s2, Free(0), []);
    RunOne(s1, Alloc(1), [Free(0)]);
    RunOne(s, Alloc(1), [Alloc(1), Free(0)]);
  }

  lemma RunOne(s: Pool, c: Call, cs: seq<Call>)
    requires Allowed(s, c) && AllowedRun(Step(s, c), cs)
    ensures AllowedRun(s, [c] + cs) && Run(s, [c] + cs) == Run(Step(s, c), cs)
  {
    hide Allowed, Step;
    assert ([c] + cs)[1..] == cs;
  }

  /** After exhaustion a `freePage` may fail to return: with two pages left above
      the kernel, both are handed out, the lower one is freed first, and the upper
      one is then stuck. */
  lemma FreeMayNotReturn()
    ensures var s, cs := InitialPool(0xF_E000, 1), [Alloc(1), Alloc(1), Free(0)];
      && PoolOk(0xF_E000, 0x10_0000, s.used, s) && AllowedRun(s, cs)
      && Run(s, cs).live == [Range(0xF_F000, 1)] && !Allowed(Run(s, cs), Free(0))
  {
    var s := InitialPool(0xF_E000, 1);
    assert s.start == 0xF_E000 && s.count == 2 && s.live == [];
    TwoAllocsOneFree(s);
  }

  // ---------- which headers a call writes ----------

  /** Where the call writes a chunk header, or 0 if it writes none. */
  function WrittenAt(s: Pool, c: Call): int
    requires c.Free? ==> c.which < |s.live|
  {
    match c
    case Alloc(n) => if s.start == 0 || s.count == n then 0 else s.start + 4096 * n
    case Free(i) => if s.live[i].pages == 0 then 0 else s.live[i].addr
  }

  /** Every header but the one at `w` is as it was. */
  ghost predicate OnlyChunk(m: map<int, MemChunk>, m': map<int, MemChunk>, w: int) {
    forall c :: c != w ==> (c in m' <==> c in m) && (c in m ==> m'[c] == m[c])
  }

  // ---------- what is reclaimed ----------

  function FreeCount(s: Pool): int {
    if s.start == 0 then 0 else s.count
  }

  /** No page of `r` is free or handed out. */
  ghost predicate Gone(s: Pool, r: Range) {
    && (s.start != 0 ==> Disjoint(r, Range(s.start, s.count)))
    && forall i :: 0 <= i < |s.live| ==> Disjoint(r, s.live[i])
  }

  lemma StepKeepsGone(s: Pool, c: Call, r: Range)
    requires Gone(s, r) && Allowed(s, c) && r.pages >= 0
    ensures Gone(Step(s, c), r)
  {
    if c.Alloc? {
      assert s.start != 0 ==> Disjoint(r, Range(s.start, c.pages));
    } else {
      var live := Removed(s.live, c.which);
      forall j | 0 <= j < |live| ensures Disjoint(r, live[j]) {
        assert live[j] == s.live[if j < c.which then j else j + 1];
      }
    }
  }

  lemma {:induction false} RunKeepsGone(s: Pool, cs: seq<Call>, r: Range)
    requires Gone(s, r) && AllowedRun(s, cs) && r.pages >= 0
    ensures Gone(Run(s, cs), r)
    decreases |cs|
  {
    if cs == [] {
    } else {
      StepKeepsGone(s, cs[0], r);
      RunKeepsGone(Step(s, cs[0]), cs[1..], r);
    }
  }

  lemma FreedIsGone(lo: int, hi: int, used0: int, s: Pool, k: nat)
    requires PoolOk(lo, hi, used0, s) && Allowed(s, Free(k)) && s.start != 0
    ensures Gone(Step(s, Free(k)), s.live[k])
  {
    RemovedStaysDisjoint(lo, hi, used0, s, k);
  }

  /** A range freed while there is a root chunk is lost: after any further calls, also
      after the arena was exhausted and has a new root, none of its pages is free or
      handed out. */
  lemma FreedIsLost(lo: int, hi: int, used0: int, s: Pool, k: nat, cs: seq<Call>)
    requires PoolOk(lo, hi, used0, s) && Allowed(s, Free(k)) && s.start != 0
    requires AllowedRun(Step(s, Free(k)), cs)
    ensures Gone(Run(Step(s, Free(k)), cs), s.live[k])
  {
    assert Inside(lo, hi, s.live[k]);
    FreedIsGone(lo, hi, used0, s, k);
    RunKeepsGone(Step(s, Free(k)), cs, s.live[k]);
  }

  /** A range freed when there is none is what the next request for as many pages gets. */
  lemma FreedIsReissued(lo: int, hi: int, used0: int, s: Pool, k: nat)
    requires PoolOk(lo, hi, used0, s) && k < |s.live| && s.live[k].pages > 0 && s.start == 0
    ensures Allowed(s, Free(k)) && Allowed(Step(s, Free(k)), Alloc(s.live[k].pages))
    ensures var s' := Step(Step(s, Free(k)), Alloc(s.live[k].pages)); s'.live == Removed(s.live, k) + [s.live[k]]
  {
    assert Inside(lo, hi, s.live[k]);
  }

  /** Some later calls hand out the freed range, or any page of it, exactly when the
      arena was exhausted at the time. */
  lemma ReclaimedIff(lo: int, hi: int, used0: int, s: Pool, k: nat)
    requires PoolOk(lo, hi, used0, s) && Allowed(s, Free(k)) && s.live[k].pages > 0
    ensures var s', r := Step(s, Free(k)), s.live[k];
      && ((exists cs :: AllowedRun(s', cs) && r in Run(s', cs).live) <==> s.start == 0)
      && ((exists cs :: AllowedRun(s', cs) && !Gone(Run(s', cs), r)) <==> s.start == 0)
  {
    var s', r := Step(s, Free(k)), s.live[k];
    if s.start == 0 {
      FreedIsReissued(lo, hi, used0, s, k);
      RunOne(s', Alloc(r.pages), []);
      var end := Run(s', [Alloc(r.pages)] + []);
      assert end.live[|end.live| - 1] == r;
      assert !Disjoint(r, end.live[|end.live| - 1]);
      assert !Gone(end, r);
    } else {
      forall cs | AllowedRun(s', cs) ensures Gone(Run(s', cs), r) && r !in Run(s', cs).live {
        FreedIsLost(lo, hi, used0, s, k, cs);
        assert !Disjoint(r, r);
      }
    }
  }

  /** Which of the old chunk's addresses are handed out and which stay free. */
  ghost predicate InRange(x: int, start: int, pages: int) {
    start <= x < start + 4096 * pages
  }

  /** A served `allocPage` hands out the front of the chunk and keeps all the rest free:
      no page is lost, and the header written is that of the rest. */
  lemma AllocKeepsRest(lo: int, hi: int, used0: int, s: Pool, n: int)
    requires PoolOk(lo, hi, used0, s) && Allowed(s, Alloc(n)) && s.start != 0
    ensures var s' := Step(s, Alloc(n));
      && s'.live == s.live + [Range(s.start, n)]
      && FreeCount(s') == FreeCount(s) - n && (s'.start == 0 <==> n == s.count)
      && (s'.start != 0 ==> s'.start == s.start + 4096 * n && s'.count == s.count - n)
      && WrittenAt(s, Alloc(n)) == s'.start
    ensures forall x :: InRange(x, s.start, s.count) ==>
      (InRange(x, s.start, n) <==> !InRange(x, Step(s, Alloc(n)).start, FreeCount(Step(s, Alloc(n)))))
  {
  }

  /** Over any run of allocations no page is lost: what is handed out and what is free
      make up what there was, and the chunk is used up exactly when the calls ask for
      at least that many pages. */
  lemma {:induction false} AllocsUseUpExactly(lo: int, hi: int, used0: int, s: Pool, cs: seq<Call>)
    requires PoolOk(lo, hi, used0, s) && AllowedRun(s, cs) && forall c :: c in cs ==> c.Alloc?
    ensures TotalPages(Run(s, cs).live) + FreeCount(Run(s, cs)) == TotalPages(s.live) + FreeCount(s)
    ensures Run(s, cs).start == 0 <==> Allocated(cs) >= FreeCount(s)
    decreases |cs|
  {
    if cs == [] {
    } else {
      assert cs[0].Alloc? && forall c :: c in cs[1..] ==> c in cs;
      var s1 := Step(s, cs[0]);
      StepKeepsPool(lo, hi, used0, s, cs[0]);
      if s.start != 0 {
        AllocKeepsRest(lo, hi, used0, s, cs[0].pages);
        TotalPagesAppend(s.live, Range(s.start, cs[0].pages));
      }
      AllocatedIsPositive(s1, cs[1..]);
      AllocsUseUpExactly(lo, hi, used0, s1, cs[1..]);
    }
  }

  /** A returning `freePage` leaves the root chunk alone, or makes the range the root. */
  lemma FreeKeepsRest(lo: int, hi: int, used0: int, s: Pool, k: nat)
    requires PoolOk(lo, hi, used0, s) && Allowed(s, Free(k))
    ensures var s', r := Step(s, Free(k)), s.live[k];
      && s'.live == s.live[..k] + s.live[k + 1..]
      && if s.start != 0 || r.pages == 0 then s'.start == s.start && s'.count == s.count
         else s'.start == r.addr && s'.count == r.pages
  {
  }

  /** The pages freed while there was a root chunk. */
  ghost function LostPages(s: Pool, cs: seq<Call>): int
    requires AllowedRun(s, cs)
    decreases |cs|
  {
    if cs == [] then 0
    else (if cs[0].Free? && s.start != 0 then s.live[cs[0].which].pages else 0) + LostPages(Step(s, cs[0]), cs[1..])
  }

  /** The ledger of every run: pages handed out, free and lost make up what there was. */
  lemma {:induction false} EveryPageIsAccountedFor(lo: int, hi: int, used0: int, s: Pool, cs: seq<Call>)
    requires PoolOk(lo, hi, used0, s) && AllowedRun(s, cs)
    ensures TotalPages(Run(s, cs).live) + FreeCount(Run(s, cs)) + LostPages(s, cs) == TotalPages(s.live) + FreeCount(s)
    decreases |cs|
  {
    if cs == [] {
    } else {
      StepLedger(lo, hi, used0, s, cs[0]);
      StepKeepsPool(lo, hi, used0, s, cs[0]);
      EveryPageIsAccountedFor(lo, hi, used0, Step(s, cs[0]), cs[1..]);
    }
  }

  lemma StepLedger(lo: int, hi: int, used0: int, s: Pool, c: Call)
    requires PoolOk(lo, hi, used0, s) && Allowed(s, c)
    ensures TotalPages(Step(s, c).live) + FreeCount(Step(s, c))
      + (if c.Free? && s.start != 0 then s.live[c.which].pages else 0) == TotalPages(s.live) + FreeCount(s)
  {
    match c
    case Alloc(n) =>
      if s.start != 0 {
        AllocKeepsRest(lo, hi, used0, s, n);
        TotalPagesAppend(s.live, Range(s.start, n));
      }
    case Free(k) =>
      FreeKeepsRest(lo, hi, used0, s, k);
      TotalPagesRemove(s.live, k);
  }

  lemma {:induction false} AllocatedIsPositive(s: Pool, cs: seq<Call>)
    requires AllowedRun(s, cs)
    ensures Allocated(cs) >= 0
    decreases |cs|
  {
    if cs == [] {
    } else {
      AllocatedIsPositive(Step(s, cs[0]), cs[1..]);
    }
  }

  /** The pages that the calls of a run ask for. */
  function Allocated(cs: seq<Call>): int {
    if cs == [] then 0 else (if cs[0].Alloc? then cs[0].pages else 0) + Allocated(cs[1..])
  }

  /** Over a run that never runs dry, the free pages only go down, by what was
      allocated. */
  lemma {:induction false} NothingComesBack(s: Pool, cs: seq<Call>)
    requires AllowedRun(s, cs) && NeverExhausts(s, cs)
    ensures FreeCount(Run(s, cs)) == FreeCount(s) - Allocated(cs)
    decreases |cs|
  {
    if cs == [] {
    } else {
      NothingComesBack(Step(s, cs[0]), cs[1..]);
    }
  }

  // ---------- merging ----------

  ghost predicate Links(m: map<int, MemChunk>, p: int, s: seq<int>)
    decreases |s|
  {
    if s == [] then p == 0
    else p == s[0] && p != 0 && p in m && Links(m, m[p].next, s[1..])
  }

  /** Address `x` lies in one of the chunks `s`. */
  ghost predicate Covers(m: map<int, MemChunk>, s: seq<int>, x: int) {
    exists i :: 0 <= i < |s| && InChunk(m, s[i], x)
  }

  predicate InChunk(m: map<int, MemChunk>, c: int, x: int) {
    c in m && c <= x < c + 4096 * m[c].pageCount
  }

  function Touches(m: map<int, MemChunk>, a: int, b: int): bool {
    a in m && Wrap(a + 4096 * m[a].pageCount) == b
  }

  /** The chunk that holds the freed pages after a merge. */
  function Survivor(m: map<int, MemChunk>, prior: int, freed: int): int {
    if prior != 0 && Touches(m, prior, freed) then prior else freed
  }

  /** The chunk headers after `MergeChunks`. */
  function Merged(m: map<int, MemChunk>, prior: int, freed: int, post: int): map<int, MemChunk>
    requires freed in m && (prior != 0 ==> prior in m) && (post != 0 ==> post in m)
  {
    var m1 := if prior != 0 && Touches(m, prior, freed)
      then m[prior := m[prior].(pageCount := Wrap(m[prior].pageCount + m[freed].pageCount), next := post)] else m;
    var f := Survivor(m, prior, freed);
    if post != 0 && Touches(m1, f, post)
    then m1[f := m1[f].(pageCount := Wrap(m1[f].pageCount + m1[post].pageCount), next := m1[post].next)] else m1
  }

  lemma {:induction false} LinksFrame(m: map<int, MemChunk>, m': map<int, MemChunk>, p: int, s: seq<int>)
    requires Links(m, p, s) && forall c :: c in s && c in m ==> c in m' && m'[c] == m[c]
    ensures Links(m', p, s)
    decreases |s|
  {
    if s == [] {
    } else {
      assert s[0] in s;
      forall c | c in s[1..] ensures c in s {}
      LinksFrame(m, m', m[p].next, s[1..]);
    }
  }

  /** The chunks that the forward links reach from the survivor after a merge. */
  function AfterMerge(m: map<int, MemChunk>, prior: int, freed: int, post: int, rest: seq<int>): seq<int>
    requires freed in m && (prior != 0 ==> prior in m) && (post != 0 ==> post in m && rest != [])
  {
    var f := Survivor(m, prior, freed);
    if post != 0 && freed + 4096 * m[freed].pageCount == post then [f] + rest[1..] else [f] + rest
  }

  /** `prior`, `freed` and the chain from `post` lie in address order without overlap. */
  ghost predicate InOrder(m: map<int, MemChunk>, prior: int, freed: int, post: int, rest: seq<int>) {
    && freed in m && 0 < freed < WORD_LIMIT && freed + 4096 * m[freed].pageCount <= WORD_LIMIT
    && m[freed].next == post && Links(m, post, rest)
    && (prior != 0 ==> prior in m && 0 < prior < freed && prior + 4096 * m[prior].pageCount <= freed)
    && (forall c :: c in rest && c in m ==>
          freed < c < WORD_LIMIT && freed + 4096 * m[freed].pageCount <= c && c + 4096 * m[c].pageCount <= WORD_LIMIT)
  }

  lemma {:induction false} LinkedInMap(m: map<int, MemChunk>, p: int, s: seq<int>)
    requires Links(m, p, s)
    ensures forall c :: c in s ==> c in m
    ensures s == [] <==> p == 0
    decreases |s|
  {
    if s == [] {
    } else {
      LinkedInMap(m, m[p].next, s[1..]);
    }
  }

  /** No sum wraps around: the tests compare ends with starts, and the counts add up. */
  lemma MergeTests(m: map<int, MemChunk>, prior: int, freed: int, post: int, rest: seq<int>)
    requires InOrder(m, prior, freed, post, rest)
    ensures post != 0 ==> post in m && rest != [] && post == rest[0]
    ensures var f := Survivor(m, prior, freed);
      && (f == prior || f == freed)
      && (f != freed ==> prior != 0 && prior + 4096 * m[prior].pageCount == freed)
      && var end := freed + 4096 * m[freed].pageCount;
         var joins := post != 0 && end == post;
         && f + 4096 * Merged(m, prior, freed, post)[f].pageCount
           == (if joins then post + 4096 * m[post].pageCount else end)
         && Merged(m, prior, freed, post)[f].next == (if joins then m[post].next else post)
         && forall c :: c in m && c != f ==> Merged(m, prior, freed, post)[c] == m[c]
  {
    LinkedInMap(m, post, rest);
    assert post != 0 ==> post in rest;
  }

  lemma MergeKeepsLinks(m: map<int, MemChunk>, prior: int, freed: int, post: int, rest: seq<int>)
    requires InOrder(m, prior, freed, post, rest)
    ensures post != 0 ==> post in m && rest != []
    ensures Links(Merged(m, prior, freed, post), Survivor(m, prior, freed), AfterMerge(m, prior, freed, post, rest))
  {
    LinkedInMap(m, post, rest);
    var m', f, s' := Merged(m, prior, freed, post), Survivor(m, prior, freed), AfterMerge(m, prior, freed, post, rest);
    MergeTests(m, prior, freed, post, rest);
    forall c | c in rest ensures c in m' && m'[c] == m[c] {}
    LinksFrame(m, m', post, rest);
    assert s'[1..] == if post != 0 && freed + 4096 * m[freed].pageCount == post then rest[1..] else rest;
  }

  /** Merging neither loses nor gains an address on the chain that starts at the
      survivor, provided `freed` was linked to `post`. */
  lemma MergeKeepsCoverage(m: map<int, MemChunk>, prior: int, freed: int, post: int, rest: seq<int>, x: int)
    requires InOrder(m, prior, freed, post, rest)
    ensures post != 0 ==> post in m && rest != []
    ensures Links(Merged(m, prior, freed, post), Survivor(m, prior, freed), AfterMerge(m, prior, freed, post, rest))
    ensures Covers(Merged(m, prior, freed, post), AfterMerge(m, prior, freed, post, rest), x)
       <==> (Survivor(m, prior, freed) == prior && InChunk(m, prior, x)) || InChunk(m, freed, x) || Covers(m, rest, x)
  {
    hide Links, Wrap;
    MergeKeepsLinks(m, prior, freed, post, rest);
    MergeTests(m, prior, freed, post, rest);
  }

  // ---------- the code ----------

  class PageAllocator {
    var chunks: map<int, MemChunk>      // the headers in memory
    var rootMemNode: int
    var memFree: Word
    var memUsed: Word
    ghost var live: seq<Range>

    ghost predicate Valid()
      reads this
    {
      && 0 !in chunks
      && (rootMemNode != 0 ==> rootMemNode in chunks && chunks[rootMemNode].prev == 0 && chunks[rootMemNode].next == 0)
    }

    ghost function View(): Pool
      reads this
      requires Valid()
    {
      Pool(rootMemNode, if rootMemNode == 0 then 0 else chunks[rootMemNode].pageCount, live, memUsed)
    }

    /** `init_pmm`, with the end of the kernel and the memory size in megabytes. */
    constructor Init(kernelEnd: Word, megabytes: int)
      requires 0 < kernelEnd && kernelEnd + 4096 <= megabytes * 0x10_0000 < WORD_LIMIT
      ensures Valid() && View().start == kernelEnd && live == []
      ensures memFree == megabytes * 0x10_0000 - kernelEnd
      ensures View() == InitialPool(kernelEnd, megabytes)
      ensures PoolOk(kernelEnd, megabytes * 0x10_0000, memUsed, View())
    {
      var sysMem := Wrap(megabytes * 0x10_0000 - kernelEnd);
      memFree := sysMem;
      memUsed := Wrap(megabytes - sysMem);
      rootMemNode := kernelEnd;
      chunks := map[kernelEnd := MemChunk(sysMem / 4096, 0, 0)];
      live := [];
    }

    method MergeChunks(prior: int, freed: int, post: int)
      requires freed in chunks && (prior != 0 ==> prior in chunks) && (post != 0 ==> post in chunks)
      modifies this`chunks
      ensures chunks == Merged(old(chunks), prior, freed, post)
    {
      hide Wrap;
      var f := freed;
      if prior != 0 {
        if Wrap(prior + 4096 * chunks[prior].pageCount) == f {
          var count := Wrap(chunks[prior].pageCount + chunks[f].pageCount);
          chunks := chunks[prior := chunks[prior].(pageCount := count, next := post)];
          f := prior;
        }
      }
      if post != 0 {
        if Wrap(f + 4096 * chunks[f].pageCount) == post {
          var count := Wrap(chunks[f].pageCount + chunks[post].pageCount);
          chunks := chunks[f := chunks[f].(pageCount := count, next := chunks[post].next)];
        }
      }
    }

    /** The calls that the runs allow are those whose loops leave. */
    lemma AllowedIffReturns(n: Word, which: nat, turns: nat)
      requires Valid()
      ensures AllocLoopLeaves(chunks, rootMemNode, n, turns) <==> Allowed(View(), Alloc(n))
      ensures which < |live| && live[which].pages != 0 ==>
        (FreeLoopLeaves(chunks, rootMemNode, live[which].addr, turns) <==> Allowed(View(), Free(which)))
    {
      AllocReturnsIff(chunks, rootMemNode, n, turns);
      if which < |live| { FreeReturnsIff(chunks, rootMemNode, live[which].addr, turns); }
    }

    /** One turn of the search loop; by `AllocReturnsIff` there is no second one. */
    method AllocPage(pages: Word) returns (addr: int)
      requires Valid() && Allowed(View(), Alloc(pages))
      requires rootMemNode != 0 ==> 0 < rootMemNode && rootMemNode + 4096 * chunks[rootMemNode].pageCount <= WORD_LIMIT
      modifies this
      ensures Valid() && View() == Step(old(View()), Alloc(pages)) && addr == old(rootMemNode)
      ensures OnlyChunk(old(chunks), chunks, WrittenAt(old(View()), Alloc(pages)))
    {
      if rootMemNode == 0 { return 0; }
      var p := rootMemNode;
      addr := p;
      if chunks[p].pageCount == pages {
        if chunks[p].prev != 0 {
          assert false;
        } else {
          rootMemNode := chunks[p].next;
        }
      } else {
        var breakAddr := p + pages * 4096;
        chunks := chunks[breakAddr := MemChunk(chunks[p].pageCount - pages, chunks[p].prev, chunks[p].next)];
        rootMemNode := breakAddr;
      }
      memUsed := Wrap(memUsed + pages * 4096);
      live := live + [Range(addr, pages)];
    }

    /** One turn of the search loop; by `FreeReturnsIff` there is no second one.
        The merge reaches the freed chunk's header and never the root. */
    method FreePage(addr: int, pages: Word, ghost which: nat)
      requires Valid() && 0 <= addr < WORD_LIMIT
      requires addr != 0 ==> which < |live| && live[which] == Range(addr, pages) && Allowed(View(), Free(which))
      modifies this
      ensures Valid() && View() == if addr == 0 then old(View()) else Step(old(View()), Free(which))
      ensures addr == 0 ==> chunks == old(chunks)
      ensures addr != 0 ==> OnlyChunk(old(chunks), chunks, WrittenAt(old(View()), Free(which)))
    {
      if addr == 0 { return; }
      live := Removed(live, which);
      if pages == 0 { return; }
      if rootMemNode != 0 {
        var p := rootMemNode;
        chunks := chunks[addr := MemChunk(pages, chunks[p].prev, p)];
        MergeChunks(chunks[p].prev, addr, p);
      } else {
        rootMemNode := addr;
        chunks := chunks[addr := MemChunk(pages, 0, 0)];
      }
      memUsed := Wrap(memUsed - pages * 4096);
    }
  }
}
