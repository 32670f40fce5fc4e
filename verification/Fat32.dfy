/** Cluster chains and cluster data of kernel/src/fat32.c. */
module Fat32 {
  import opened Words

  type SectorData = s: seq<Byte> | |s| == 512 witness seq(512, _ => 0)

  /** A mounted volume: the table in memory, the geometry, and the block device. */
  datatype Volume = Volume(fat: seq<Word>, sectorsPerCluster: int, firstDataLba: Word, disk: int -> SectorData)

  /** The 28-bit entry of cluster `c`. */
  function Entry(fat: seq<Word>, c: int): int
    requires 0 <= c < |fat|
  {
    fat[c] % 0x1000_0000
  }

  predicate IsLast(fat: seq<Word>, c: int)
    requires 0 <= c < |fat|
  {
    Entry(fat, c) >= 0x0FFF_FFF8
  }

  // ---------- chains ----------

  /** `s` lists the clusters from `root` to the first end mark, all in the table. */
  ghost predicate IsChain(fat: seq<Word>, root: int, s: seq<int>)
    decreases |s|
  {
    && s != [] && s[0] == root && 0 <= root < |fat|
    && if IsLast(fat, root) then |s| == 1 else IsChain(fat, Entry(fat, root), s[1..])
  }

  /** The low 28 bits of `w` name cluster `next`, which is no end mark. */
  predicate Names(w: Word, next: int) {
    0 <= next < 0x0FFF_FFF8 && (w - next) % 0x1000_0000 == 0
  }

  /** The low 28 bits of `w` are one of the eight end marks, the highest values there are. */
  predicate Marks(w: Word) {
    (w + 8) % 0x1000_0000 < 8
  }

  /** A chain in terms of the words of the table: each cluster's word names the
      cluster behind it, and that of the last one alone is an end mark. */
  ghost predicate ChainedWords(fat: seq<Word>, root: int, s: seq<int>) {
    && s != [] && s[0] == root && (forall i :: 0 <= i < |s| ==> 0 <= s[i] < |fat|)
    && (forall i, j :: 0 <= i && j == i + 1 < |s| ==> Names(fat[s[i]], s[j]))
    && Marks(fat[s[|s| - 1]])
  }

  lemma WordNames(fat: seq<Word>, c: int, next: int)
    requires 0 <= c < |fat|
    ensures Names(fat[c], next) <==> !IsLast(fat, c) && Entry(fat, c) == next
    ensures Marks(fat[c]) <==> IsLast(fat, c)
  {
  }

  /** A longer list is a chain of words when its first word names the second cluster,
      from which on it is one. */
  lemma ChainedTail(fat: seq<Word>, root: int, s: seq<int>)
    requires |s| > 1
    ensures ChainedWords(fat, root, s)
      <==> s[0] == root && 0 <= root < |fat| && Names(fat[root], s[1]) && ChainedWords(fat, s[1], s[1..])
  {
    hide Names, Marks;
    var t := s[1..];
    assert t[|t| - 1] == s[|s| - 1];
    forall i | 0 <= i < |t| ensures t[i] == s[i + 1] {}
    if ChainedWords(fat, s[1], t) && s[0] == root && 0 <= root < |fat| && Names(fat[root], s[1]) {
      forall i | 0 <= i < |s| ensures 0 <= s[i] < |fat| {
        if i > 0 { assert s[i] == t[i - 1]; }
      }
      forall i, j | 0 <= i && j == i + 1 < |s| ensures Names(fat[s[i]], s[j]) {
        if i > 0 { assert s[i] == t[i - 1] && s[j] == t[j - 1]; }
      }
    }
  }

  /** The walk lists exactly the chain that the table's words spell out. */
  lemma {:induction false} ChainIff(fat: seq<Word>, root: int, s: seq<int>)
    ensures IsChain(fat, root, s) <==> ChainedWords(fat, root, s)
    decreases |s|
  {
    if s == [] || s[0] != root || !(0 <= root < |fat|) {
    } else if |s| == 1 {
      WordNames(fat, root, 0);
    } else {
      WordNames(fat, root, s[1]);
      ChainedTail(fat, root, s);
      ChainIff(fat, s[1], s[1..]);
    }
  }

  /** A chain is determined by its root. */
  lemma {:induction false} ChainUnique(fat: seq<Word>, root: int, s: seq<int>, t: seq<int>)
    requires IsChain(fat, root, s) && IsChain(fat, root, t)
    ensures s == t
    decreases |s|
  {
    if IsLast(fat, root) {
    } else {
      ChainUnique(fat, Entry(fat, root), s[1..], t[1..]);
      assert s == [s[0]] + s[1..] && t == [t[0]] + t[1..];
    }
  }

  lemma {:induction false} ChainSuffix(fat: seq<Word>, root: int, s: seq<int>, i: nat)
    requires IsChain(fat, root, s) && i < |s|
    ensures IsChain(fat, s[i], s[i..])
    decreases i
  {
    if i == 0 {
    } else {
      ChainSuffix(fat, Entry(fat, root), s[1..], i - 1);
      assert s[1..][i - 1..] == s[i..];
    }
  }

  /** No cluster occurs twice, or the walk would never have ended. */
  lemma ChainHasNoRepeat(fat: seq<Word>, root: int, s: seq<int>, i: nat, j: nat)
    requires IsChain(fat, root, s) && i < j < |s|
    ensures s[i] != s[j]
  {
    ChainSuffix(fat, root, s, i);
    ChainSuffix(fat, root, s, j);
    if s[i] == s[j] { ChainUnique(fat, s[i], s[i..], s[j..]); }
  }

  lemma ChainInRange(fat: seq<Word>, root: int, s: seq<int>, i: nat)
    requires IsChain(fat, root, s) && i < |s|
    ensures 0 <= s[i] < |fat|
  {
    ChainSuffix(fat, root, s, i);
  }

  /** Pigeonhole: distinct numbers below `n` are at most `n` many. */
  lemma {:induction false} Pigeonhole(s: seq<int>, n: nat)
    requires forall i :: 0 <= i < |s| ==> 0 <= s[i] < n
    requires forall i, j :: 0 <= i < j < |s| ==> s[i] != s[j]
    ensures |s| <= n
    decreases n
  {
    if s == [] {
    } else {
      assert 0 <= s[0] < n;
      if k :| 0 <= k < |s| && s[k] == n - 1 {
        var t := s[..k] + s[k + 1..];
        forall i | 0 <= i < |t| ensures t[i] == s[if i < k then i else i + 1] {}
        Pigeonhole(t, n - 1);
      } else {
        Pigeonhole(s, n - 1);
      }
    }
  }

  lemma ChainFitsTable(fat: seq<Word>, root: int, s: seq<int>)
    requires IsChain(fat, root, s)
    ensures |s| <= |fat|
  {
    forall i | 0 <= i < |s| ensures 0 <= s[i] < |fat| { ChainInRange(fat, root, s, i); }
    forall i, j | 0 <= i < j < |s| ensures s[i] != s[j] { ChainHasNoRepeat(fat, root, s, i, j); }
    Pigeonhole(s, |fat|);
  }

  /** Whether the counting loop, at cluster `c`, ends inside the table within `turns` turns. */
  function CountLoopEnds(fat: seq<Word>, c: int, turns: nat): bool
    decreases turns
  {
    0 <= c < |fat| && turns > 0 && (IsLast(fat, c) || CountLoopEnds(fat, Entry(fat, c), turns - 1))
  }

  lemma {:induction false} EndsGivesChain(fat: seq<Word>, root: int, turns: nat) returns (s: seq<int>)
    requires CountLoopEnds(fat, root, turns)
    ensures IsChain(fat, root, s)
    decreases turns
  {
    if IsLast(fat, root) {
      s := [root];
    } else {
      var t := EndsGivesChain(fat, Entry(fat, root), turns - 1);
      s := [root] + t;
    }
  }

  lemma {:induction false} ChainGivesEnds(fat: seq<Word>, root: int, s: seq<int>, turns: nat)
    requires IsChain(fat, root, s) && |s| <= turns
    ensures CountLoopEnds(fat, root, turns)
    decreases |s|
  {
    if IsLast(fat, root) {
    } else {
      ChainGivesEnds(fat, Entry(fat, root), s[1..], turns - 1);
    }
  }

  /** The counting loop ends exactly when the root has a chain, and then within
      as many turns as the table has entries. */
  lemma CountEndsIff(fat: seq<Word>, root: int, turns: nat) returns (chain: seq<int>)
    ensures CountLoopEnds(fat, root, turns) ==> CountLoopEnds(fat, root, |fat|)
    ensures CountLoopEnds(fat, root, |fat|) ==> IsChain(fat, root, chain)
    ensures forall s :: IsChain(fat, root, s) ==> CountLoopEnds(fat, root, |fat|)
  {
    chain := [];
    if CountLoopEnds(fat, root, turns) {
      chain := EndsGivesChain(fat, root, turns);
    } else if CountLoopEnds(fat, root, |fat|) {
      chain := EndsGivesChain(fat, root, |fat|);
    }
    forall s | IsChain(fat, root, s) ensures CountLoopEnds(fat, root, |fat|) {
      ChainFitsTable(fat, root, s);
      ChainGivesEnds(fat, root, s, |fat|);
    }
  }

  /** `fat_getclustercount`. */
  method GetClusterCount(fat: seq<Word>, root: int, ghost chain: seq<int>) returns (count: int)
    requires IsChain(fat, root, chain)
    ensures count == |chain| && 1 <= count <= |fat|
  {
    count := 1;
    var c := root;
    ChainFitsTable(fat, root, chain);
    while true
      invariant 1 <= count <= |chain| && IsChain(fat, c, chain[count - 1..])
      decreases |chain| - count
    {
      if IsLast(fat, c) { return; }
      count := count + 1;
      assert chain[count - 2..][1..] == chain[count - 1..];
      c := Entry(fat, c);
    }
  }

  // ---------- cluster data ----------

  function ClusterToLba(v: Volume, c: int): Word {
    Wrap(v.firstDataLba + v.sectorsPerCluster * (c - 2))
  }

  /** `n` sectors from `lba` on; sector numbers are words. */
  function Blocks(disk: int -> SectorData, lba: int, n: nat): (b: seq<Byte>)
    ensures |b| == 512 * n
  {
    if n == 0 then [] else Blocks(disk, lba, n - 1) + disk(Wrap(lba + n - 1))
  }

  /** Sector `k` of what is read is sector `lba + k` of the device. */
  lemma {:induction false} BlocksAt(disk: int -> SectorData, lba: int, n: nat, k: nat)
    requires 0 <= lba && lba + n <= WORD_LIMIT && k < n
    ensures Blocks(disk, lba, n)[512 * k..512 * (k + 1)] == disk(lba + k)
    decreases n
  {
    if k == n - 1 {
    } else {
      BlocksAt(disk, lba, n - 1, k);
    }
  }

  function ClusterBytes(v: Volume, c: int): (b: seq<Byte>)
    requires 0 <= v.sectorsPerCluster
    ensures |b| == 512 * v.sectorsPerCluster
  {
    Blocks(v.disk, ClusterToLba(v, c), v.sectorsPerCluster)
  }

  /** The clusters of a chain, one after the other. */
  function ChainBytes(v: Volume, s: seq<int>): seq<Byte>
    requires 0 <= v.sectorsPerCluster
  {
    if s == [] then [] else ChainBytes(v, s[..|s| - 1]) + ClusterBytes(v, s[|s| - 1])
  }

  lemma {:induction false} ChainBytesLength(v: Volume, s: seq<int>)
    requires 0 <= v.sectorsPerCluster
    ensures |ChainBytes(v, s)| == |s| * (512 * v.sectorsPerCluster)
  {
    if s == [] {
    } else {
      ChainBytesLength(v, s[..|s| - 1]);
      assert (|s| - 1) * (512 * v.sectorsPerCluster) + 512 * v.sectorsPerCluster == |s| * (512 * v.sectorsPerCluster);
    }
  }

  /** The `k`-th cluster of the chain fills the `k`-th cluster of the buffer. */
  lemma {:induction false} ChainBytesAt(v: Volume, s: seq<int>, k: nat)
    requires 0 <= v.sectorsPerCluster && k < |s|
    ensures var size := 512 * v.sectorsPerCluster;
      && 0 <= k * size <= (k + 1) * size <= |ChainBytes(v, s)|
      && ChainBytes(v, s)[k * size..(k + 1) * size] == ClusterBytes(v, s[k])
    decreases |s|
  {
    hide Blocks, ClusterBytes;
    var size := 512 * v.sectorsPerCluster;
    var t := s[..|s| - 1];
    ChainBytesLength(v, t);
    SizeAfter(k, size);
    if k == |t| {
      AppendSlices(ChainBytes(v, t), ClusterBytes(v, s[k]), 0, 0);
    } else {
      ChainBytesAt(v, t, k);
      AppendSlices(ChainBytes(v, t), ClusterBytes(v, s[|s| - 1]), k * size, (k + 1) * size);
    }
  }

  lemma SizeAfter(k: nat, size: nat)
    ensures 0 <= k * size && (k + 1) * size == k * size + size
  {
  }

  lemma AppendSlices(s: seq<Byte>, t: seq<Byte>, a: nat, b: nat)
    requires a <= b <= |s|
    ensures (s + t)[a..b] == s[a..b] && (s + t)[|s|..|s| + |t|] == t
  {
  }

  /** Where a sector of the chain ends up: sector `j` of its `k`-th cluster, counted
      from the first data sector with clusters numbered from 2, is sector
      `k * sectorsPerCluster + j` of the file. */
  lemma SectorAt(v: Volume, s: seq<int>, k: nat, j: nat)
    requires k < |s| && j < v.sectorsPerCluster
    requires 0 <= v.firstDataLba + v.sectorsPerCluster * (s[k] - 2)
    requires v.firstDataLba + v.sectorsPerCluster * (s[k] - 2) + v.sectorsPerCluster <= 0x1_0000_0000
    ensures var p := 512 * (k * v.sectorsPerCluster + j);
      && 0 <= p <= p + 512 <= |ChainBytes(v, s)|
      && ChainBytes(v, s)[p..p + 512] == v.disk(v.firstDataLba + v.sectorsPerCluster * (s[k] - 2) + j)
  {
    var spc := v.sectorsPerCluster;
    var lba := v.firstDataLba + spc * (s[k] - 2);
    var size := 512 * spc;
    ChainBytesAt(v, s, k);
    BlocksAt(v.disk, lba, spc, j);
    var p := 512 * (k * spc + j);
    assert p == k * size + 512 * j && (k + 1) * size == k * size + size by { ClusterOffset(k, spc); }
    SliceOfSlice(ChainBytes(v, s), k * size, (k + 1) * size, 512 * j, 512 * (j + 1));
  }

  lemma ClusterOffset(k: nat, spc: nat)
    ensures 512 * (k * spc) == k * (512 * spc) && (k + 1) * (512 * spc) == k * (512 * spc) + 512 * spc
  {
  }

  lemma SliceOfSlice(s: seq<Byte>, a: nat, b: nat, c: nat, d: nat)
    requires a <= b <= |s| && c <= d <= b - a
    ensures s[a..b][c..d] == s[a + c..a + d]
  {
    forall i | 0 <= i < d - c ensures s[a..b][c..d][i] == s[a + c..a + d][i] {}
  }

  /** The sectors of cluster `c` have numbers that need no wrap-around. */
  predicate OnDisk(v: Volume, c: int) {
    0 <= v.firstDataLba + v.sectorsPerCluster * (c - 2) && v.firstDataLba + v.sectorsPerCluster * (c - 1) <= WORD_LIMIT
  }

  predicate IsSectorOf(v: Volume, c: int, lba: int) {
    ClusterToLba(v, c) <= lba < ClusterToLba(v, c) + v.sectorsPerCluster
  }

  lemma {:induction false} MulGap(n: int, x: int, y: int)
    requires 0 < n && x < y
    ensures n * x + n <= n * y
    decreases y - x
  {
    if x + 1 < y {
      MulGap(n, x, y - 1);
      assert n * (y - 1) + n == n * y;
    } else {
      assert n * (x + 1) == n * x + n;
    }
  }

  /** Distinct clusters share no sector. */
  lemma ClustersAreDisjoint(v: Volume, c: int, d: int, lba: int)
    requires 0 < v.sectorsPerCluster && OnDisk(v, c) && OnDisk(v, d) && c != d
    ensures !IsSectorOf(v, c, lba) || !IsSectorOf(v, d, lba)
  {
    var n := v.sectorsPerCluster;
    if c < d { MulGap(n, c - 2, d - 2); } else { MulGap(n, d - 2, c - 2); }
  }

  lemma {:induction false} BlocksFrame(disk: int -> SectorData, disk': int -> SectorData, lba: int, n: nat)
    requires 0 <= lba && lba + n <= WORD_LIMIT && forall x :: lba <= x < lba + n ==> disk'(x) == disk(x)
    ensures Blocks(disk', lba, n) == Blocks(disk, lba, n)
  {
    if n == 0 {
    } else {
      BlocksFrame(disk, disk', lba, n - 1);
    }
  }

  /** The data of a file depends on no sector outside its own clusters. */
  lemma {:induction false} ChainBytesFrame(v: Volume, disk': int -> SectorData, s: seq<int>)
    requires 0 <= v.sectorsPerCluster && forall c :: c in s ==> OnDisk(v, c)
    requires forall c, x :: c in s && IsSectorOf(v, c, x) ==> disk'(x) == v.disk(x)
    ensures ChainBytes(v.(disk := disk'), s) == ChainBytes(v, s)
  {
    if s == [] {
    } else {
      var t, c := s[..|s| - 1], s[|s| - 1];
      forall d | d in t ensures d in s {}
      ChainBytesFrame(v, disk', t);
      assert c in s && OnDisk(v, c);
      forall x | ClusterToLba(v, c) <= x < ClusterToLba(v, c) + v.sectorsPerCluster ensures disk'(x) == v.disk(x) {
        assert IsSectorOf(v, c, x);
      }
      BlocksFrame(v.disk, disk', ClusterToLba(v, c), v.sectorsPerCluster);
    }
  }

  lemma SectorsIn(s: seq<Byte>, disk: int -> SectorData, offset: nat, lba: int, n: nat)
    requires offset + 512 * n <= |s| && s[offset..offset + 512 * n] == Blocks(disk, lba, n)
    ensures 0 <= lba && lba + n <= WORD_LIMIT ==>
      forall k :: 0 <= k < n ==> s[offset + 512 * k..offset + 512 * (k + 1)] == disk(lba + k)
  {
    if 0 <= lba && lba + n <= WORD_LIMIT {
      forall k | 0 <= k < n ensures s[offset + 512 * k..offset + 512 * (k + 1)] == disk(lba + k) {
        BlocksAt(disk, lba, n, k);
        SliceOfSlice(s, offset, offset + 512 * n, 512 * k, 512 * (k + 1));
      }
    }
  }

  /** `readblocks` of the block device, into `data` from `offset` on. */
  method ReadBlocks(disk: int -> SectorData, data: array<Byte>, offset: nat, lba: int, n: nat) returns (bytesRead: int)
    requires offset + 512 * n <= data.Length
    modifies data
    ensures bytesRead == 512 * n
    ensures data[..] == old(data[..offset]) + Blocks(disk, lba, n) + old(data[offset + 512 * n..])
    ensures 0 <= lba && lba + n <= WORD_LIMIT ==>
      forall k :: 0 <= k < n ==> data[..][offset + 512 * k..offset + 512 * (k + 1)] == disk(lba + k)
  {
    bytesRead := 0;
    var i := 0;
    while i < n
      invariant 0 <= i <= n && bytesRead == 512 * i
      invariant data[..offset + 512 * i] == old(data[..offset]) + Blocks(disk, lba, i)
      invariant data[offset + 512 * i..] == old(data[offset + 512 * i..])
    {
      var sector := disk(Wrap(lba + i));
      forall k | 0 <= k < 512 { data[offset + 512 * i + k] := sector[k]; }
      i := i + 1;
      bytesRead := bytesRead + 512;
    }
    SectorsIn(data[..], disk, offset, lba, n);
  }

  /** `n` times `size`, by addition. */
  function Times(n: nat, size: nat): nat {
    if n == 0 then 0 else size + Times(n - 1, size)
  }

  lemma {:induction false} TimesIsProduct(n: nat, size: nat)
    ensures Times(n, size) == n * size
  {
    if n == 0 {
    } else {
      TimesIsProduct(n - 1, size);
      assert (n - 1) * size + size == n * size;
    }
  }

  /** `fat_getdata`: the buffer holds the chain's clusters in order and nothing else. */
  method GetData(v: Volume, root: int, ghost chain: seq<int>) returns (data: array<Byte>, size: int)
    requires 0 <= v.sectorsPerCluster && IsChain(v.fat, root, chain)
    ensures fresh(data) && data[..] == ChainBytes(v, chain)
    ensures size == data.Length == |chain| * (512 * v.sectorsPerCluster)
  {
    hide Blocks, ClusterToLba, Wrap;
    var clusterSize := 512 * v.sectorsPerCluster;
    var count := GetClusterCount(v.fat, root, chain);
    TimesIsProduct(count, clusterSize);
    var total := count * clusterSize;
    data := new Byte[total];
    var c, offset := root, 0;
    size := 0;
    ghost var done := 0;
    while true
      invariant fresh(data) && data.Length == total && size == offset
      invariant 0 <= done < |chain| && count == |chain| - done
      invariant IsChain(v.fat, c, chain[done..])
      invariant 0 <= offset && offset + Times(count, clusterSize) == total
      invariant data[..offset] == ChainBytes(v, chain[..done])
      decreases count
    {
      var lba := ClusterToLba(v, c);
      var read := ReadBlocks(v.disk, data, offset, lba, v.sectorsPerCluster);
      size := size + read;
      assert chain[..done + 1][..done] == chain[..done] && chain[done..][0] == c;
      assert data[..offset + clusterSize] == ChainBytes(v, chain[..done + 1]);
      count := count - 1;
      if count == 0 { break; }
      assert chain[done..][1..] == chain[done + 1..];
      c := Entry(v.fat, c);
      offset := offset + clusterSize;
      done := done + 1;
    }
    assert chain[..done + 1] == chain && data[..offset + clusterSize] == data[..];
  }
}
