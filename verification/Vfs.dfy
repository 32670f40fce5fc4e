/** Open files: the cursor reads of `fat_fread` in kernel/src/fat32.c and the
    descriptor table of kernel/src/vfs.c. */
module Vfs {
  import opened Options
  import opened Words

  const MAX_FILES: int := 64
  const FIRST_FD: int := 3

  // ---------- descriptors as values ----------

  /** The buffer of an open file and how much of it has been read. */
  datatype File = File(data: seq<Byte>, pos: nat)

  type Table = map<int, File>

  ghost predicate TableOk(t: Table) {
    forall fd :: fd in t ==> FIRST_FD <= fd < MAX_FILES && t[fd].pos <= |t[fd].data|
  }

  /** The lowest descriptor from `i` on that is not in use, or -1. */
  function FreeFrom(t: Table, i: nat): int
    decreases MAX_FILES - i
  {
    if i >= MAX_FILES then -1
    else if i in t then FreeFrom(t, i + 1)
    else i
  }

  lemma {:induction false} FreeFromIsFirst(t: Table, i: nat)
    ensures var fd := FreeFrom(t, i);
      if fd == -1 then forall k :: i <= k < MAX_FILES ==> k in t
      else i <= fd < MAX_FILES && fd !in t && forall k :: i <= k < fd ==> k in t
    decreases MAX_FILES - i
  {
    if i >= MAX_FILES || i !in t {
    } else {
      FreeFromIsFirst(t, i + 1);
    }
  }

  /** How many bytes a read of `size` delivers. */
  function Available(f: File, size: nat): nat {
    if f.pos + size > |f.data| then (if f.pos < |f.data| then |f.data| - f.pos else 0) else size
  }

  /** `Open(None)`: the file system has no such file. */
  datatype Call = Open(content: Option<seq<Byte>>) | Read(fd: int, size: nat) | Close(fd: int)

  function Step(t: Table, c: Call): Table {
    match c
    case Open(content) =>
      var fd := FreeFrom(t, FIRST_FD);
      if fd == -1 || content.None? then t else t[fd := File(content.value, 0)]
    case Read(fd, size) =>
      if fd in t then t[fd := t[fd].(pos := t[fd].pos + Available(t[fd], size))] else t
    case Close(fd) => t - {fd}
  }

  /** The bytes the call delivers to its caller. */
  function Delivered(t: Table, c: Call): seq<Byte> {
    match c
    case Read(fd, size) =>
      if fd in t && t[fd].pos + Available(t[fd], size) <= |t[fd].data|
      then t[fd].data[t[fd].pos..t[fd].pos + Available(t[fd], size)] else []
    case Open(_) => []
    case Close(_) => []
  }

  /** What a read must do, from lengths and positions alone: all of `size` when that
      much is left, else all that is left. No other file moves. */
  lemma ReadDelivers(t: Table, fd: int, size: nat)
    requires TableOk(t) && fd in t
    ensures var f, got, t' := t[fd], Delivered(t, Read(fd, size)), Step(t, Read(fd, size));
      && t'.Keys == t.Keys && t'[fd].data == f.data
      && (f.pos + size <= |f.data| ==> got == f.data[f.pos..f.pos + size] && t'[fd].pos == f.pos + size)
      && (f.pos + size > |f.data| ==> got == f.data[f.pos..] && t'[fd].pos == |f.data|)
      && forall d :: d in t && d != fd ==> t'[d] == t[d]
  {
  }

  lemma ReadOfNone(t: Table, fd: int, size: nat)
    requires fd !in t
    ensures Step(t, Read(fd, size)) == t && Delivered(t, Read(fd, size)) == []
  {
  }

  /** A closed descriptor is free again: the next open gets it if those below are all
      in use, and one below otherwise. The other descriptors stay as they were. */
  lemma CloseFrees(t: Table, fd: int)
    requires TableOk(t) && fd in t
    ensures var t' := Step(t, Close(fd));
      && t'.Keys == t.Keys - {fd} && (forall d :: d in t' ==> t'[d] == t[d])
      && FIRST_FD <= FreeFrom(t', FIRST_FD) <= fd
      && (FreeFrom(t', FIRST_FD) == fd <==> forall k :: FIRST_FD <= k < fd ==> k in t)
  {
    var t' := Step(t, Close(fd));
    FreeFromIsFirst(t', FIRST_FD);
    forall k | FIRST_FD <= k < fd ensures k in t' <==> k in t {}
  }

  lemma StepKeepsTable(t: Table, c: Call)
    requires TableOk(t)
    ensures TableOk(Step(t, c))
  {
    FreeFromIsFirst(t, FIRST_FD);
  }

  function Run(t: Table, cs: seq<Call>): Table
    decreases |cs|
  {
    if cs == [] then t else Run(Step(t, cs[0]), cs[1..])
  }

  /** What the reads on `fd` deliver in a run, in order. */
  function Stream(t: Table, cs: seq<Call>, fd: int): seq<Byte>
    decreases |cs|
  {
    if cs == [] then []
    else (if cs[0].Read? && cs[0].fd == fd then Delivered(t, cs[0]) else []) + Stream(Step(t, cs[0]), cs[1..], fd)
  }

  lemma SliceJoin(s: seq<Byte>, a: nat, b: nat, c: nat)
    requires a <= b <= c <= |s|
    ensures s[a..b] + s[b..c] == s[a..c]
  {
  }

  /** What one call does to an open file that it does not close. */
  lemma StepOnFile(t: Table, c: Call, fd: int)
    requires TableOk(t) && fd in t && c != Close(fd)
    ensures var t' := Step(t, c);
      && TableOk(t') && fd in t' && t'[fd].data == t[fd].data && t[fd].pos <= t'[fd].pos <= |t[fd].data|
      && (if c.Read? && c.fd == fd then Delivered(t, c) else []) == t[fd].data[t[fd].pos..t'[fd].pos]
  {
    StepKeepsTable(t, c);
    FreeFromIsFirst(t, FIRST_FD);
  }

  /** Whatever opens, reads and closes of other descriptors come in between, the
      reads on one descriptor deliver its buffer in order, without gap or repeat
      and never past the end. */
  lemma {:induction false} ReadsAreSequential(t: Table, cs: seq<Call>, fd: int)
    requires TableOk(t) && fd in t && Close(fd) !in cs
    ensures var t' := Run(t, cs);
      && TableOk(t') && fd in t' && t'[fd].data == t[fd].data
      && t[fd].pos <= t'[fd].pos <= |t[fd].data|
      && Stream(t, cs, fd) == t[fd].data[t[fd].pos..t'[fd].pos]
    decreases |cs|
  {
    if cs == [] {
    } else {
      assert cs[0] != Close(fd);
      StepOnFile(t, cs[0], fd);
      var t1 := Step(t, cs[0]);
      ReadsAreSequential(t1, cs[1..], fd);
      SliceJoin(t[fd].data, t[fd].pos, t1[fd].pos, Run(t, cs)[fd].pos);
    }
  }

  /** How many bytes the reads on `fd` ask for in a run. */
  function AskedFor(cs: seq<Call>, fd: int): nat
    decreases |cs|
  {
    if cs == [] then 0 else (if cs[0].Read? && cs[0].fd == fd then cs[0].size else 0) + AskedFor(cs[1..], fd)
  }

  function Ahead(pos: nat, asked: nat, length: nat): nat {
    if pos + asked <= length then pos + asked else length
  }

  lemma {:induction false} RunAdvances(t: Table, cs: seq<Call>, fd: int)
    requires TableOk(t) && fd in t && Close(fd) !in cs
    ensures fd in Run(t, cs) && Run(t, cs)[fd].pos == Ahead(t[fd].pos, AskedFor(cs, fd), |t[fd].data|)
    decreases |cs|
  {
    hide FreeFrom, Delivered;
    if cs == [] {
    } else {
      var c := cs[0];
      assert c != Close(fd);
      StepOnFile(t, c, fd);
      if c.Read? { StepAdvances(t, c.fd, c.size, fd); }
      RunAdvances(Step(t, c), cs[1..], fd);
    }
  }

  lemma StepAdvances(t: Table, d: int, size: nat, fd: int)
    requires TableOk(t) && fd in t
    ensures var t' := Step(t, Read(d, size));
      fd in t' && t'[fd].pos == Ahead(t[fd].pos, if d == fd then size else 0, |t[fd].data|)
  {
    if d in t { ReadDelivers(t, d, size); }
  }

  /** Over any run the reads on a descriptor together deliver as many bytes as they ask
      for, and once they ask for as much as is left they have delivered all of it. */
  lemma ReadsDeliverAll(t: Table, cs: seq<Call>, fd: int)
    requires TableOk(t) && fd in t && Close(fd) !in cs
    ensures var f, asked := t[fd], AskedFor(cs, fd);
      && (f.pos + asked <= |f.data| ==> Stream(t, cs, fd) == f.data[f.pos..f.pos + asked])
      && (f.pos + asked >= |f.data| ==> Stream(t, cs, fd) == f.data[f.pos..])
  {
    ReadsAreSequential(t, cs, fd);
    RunAdvances(t, cs, fd);
  }

  /** A new descriptor is none of those in use, and its file starts at the front. */
  lemma OpenIsFresh(t: Table, content: seq<Byte>)
    requires TableOk(t) && FreeFrom(t, FIRST_FD) != -1
    ensures var fd := FreeFrom(t, FIRST_FD);
      && FIRST_FD <= fd < MAX_FILES && fd !in t
      && Step(t, Open(Some(content))) == t[fd := File(content, 0)]
  {
    FreeFromIsFirst(t, FIRST_FD);
  }

  // ---------- the walk over the mounts ----------

  const ROOT: string := "/"

  /** Whether the loop over the mount list, at mount `i`, follows a NULL link: for a
      path shorter than a mount's it moves on twice. `content` is what a mount's file
      system finds under the path. */
  predicate WalkFaults(mounts: seq<string>, path: string, content: Option<seq<Byte>>, i: nat)
    decreases |mounts| - i
  {
    i < |mounts| &&
    if |path| < |mounts[i]| then i + 1 == |mounts| || WalkFaults(mounts, path, content, i + 2)
    else path != mounts[i] && content.None? && WalkFaults(mounts, path, content, i + 1)
  }

  /** With the root mount alone it does so exactly for the empty path. */
  lemma RootWalkFaultsIff(path: string, content: Option<seq<Byte>>)
    ensures WalkFaults([ROOT], path, content, 0) <==> path == ""
  {
  }

  // ---------- the code ----------

  class FatFile {
    const data: seq<Byte>     // the buffer that `fat_getdata` filled
    var dataptr: nat

    ghost predicate Valid()
      reads this
    {
      dataptr <= |data|
    }

    ghost function View(): File
      reads this
    {
      File(data, dataptr)
    }

    constructor (buffer: seq<Byte>)
      ensures Valid() && View() == File(buffer, 0)
    {
      data, dataptr := buffer, 0;
    }

    /** `fat_fread` into `ptr`: the number of bytes, or -1 when none are left. */
    method Fread(ptr: array<Byte>, size: nat) returns (n: int)
      requires Valid() && dataptr + size < WORD_LIMIT && Available(View(), size) <= ptr.Length
      modifies this, ptr
      ensures Valid() && dataptr == if old(dataptr) + size <= |data| then old(dataptr) + size else |data|
      ensures n == if dataptr == old(dataptr) then -1 else dataptr - old(dataptr)
      ensures ptr[..] == data[old(dataptr)..dataptr] + old(ptr[..])[dataptr - old(dataptr)..]
    {
      var bytesToRead := size;
      if dataptr + size > |data| { bytesToRead := |data| - dataptr; }
      if bytesToRead == 0 { return -1; }
      forall k | 0 <= k < bytesToRead { ptr[k] := data[dataptr + k]; }
      dataptr := dataptr + bytesToRead;
      n := bytesToRead;
    }
  }

  /** An entry of `vfs_open_files`; `driver` says whether its driver is set. */
  datatype Slot = Slot(meta: FatFile?, driver: bool)

  class OpenFiles {
    const slots: array<Slot>
    const mounted: bool

    ghost predicate Valid()
      reads this, slots, set i | 0 <= i < slots.Length :: slots[i].meta
    {
      && slots.Length == MAX_FILES
      && (forall i :: 0 <= i < MAX_FILES ==> (slots[i].meta != null <==> slots[i].driver))
      && (forall i :: 0 <= i < FIRST_FD ==> slots[i].meta == null)
      && (forall i :: 0 <= i < MAX_FILES && slots[i].meta != null ==> slots[i].meta.Valid())
      && (forall i, j :: 0 <= i < j < MAX_FILES && slots[i].meta != null ==> slots[i].meta != slots[j].meta)
    }

    ghost function View(): Table
      reads this, slots, set i | 0 <= i < slots.Length :: slots[i].meta
    {
      map i | 0 <= i < slots.Length && slots[i].meta != null :: slots[i].meta.View()
    }

    constructor (hasMount: bool)
      ensures Valid() && View() == map[] && mounted == hasMount && fresh(slots)
    {
      slots := new Slot[64](_ => Slot(null, false));
      mounted := hasMount;
    }

    /** `vfsfopen` on the root mount; `content` is what the file system finds under
        the path, and "/" is a directory. An unsupported mode yields 0, not -1. */
    method Fopen(mode: string, path: Option<string>, content: Option<seq<Byte>>) returns (fd: int)
      requires Valid()
      requires mode == "r" && path.Some? && mounted && FreeFrom(View(), FIRST_FD) != -1
        ==> !WalkFaults([ROOT], path.value, content, 0)
      modifies slots
      ensures Valid()
      ensures mode != "r" ==> fd == 0 && View() == old(View())
      ensures mode == "r" && (path.None? || !mounted || path.value == ROOT) ==> fd == -1 && View() == old(View())
      ensures mode == "r" && path.Some? && mounted && path.value != ROOT ==>
        && View() == Step(old(View()), Open(content))
        && fd == if content.None? then -1 else FreeFrom(old(View()), FIRST_FD)
    {
      hide FreeFrom, WalkFaults;
      if mode != "r" { return 0; }
      if path.None? || !mounted { return -1; }
      fd := FindSlot();
      if fd == -1 { return; }
      RootWalkFaultsIff(path.value, content);
      if path.value == ROOT { return -1; }
      if content.None? { return -1; }
      Install(fd, content.value);
    }

    method Install(fd: int, content: seq<Byte>)
      requires Valid() && FIRST_FD <= fd < MAX_FILES && slots[fd].meta == null
      modifies slots
      ensures Valid() && View() == old(View())[fd := File(content, 0)]
    {
      var file := new FatFile(content);
      slots[fd] := Slot(file, true);
    }

    /** The first free entry from FIRST_FD on, or -1. */
    method FindSlot() returns (fd: int)
      requires Valid()
      ensures fd == FreeFrom(View(), FIRST_FD)
      ensures fd != -1 ==> FIRST_FD <= fd < MAX_FILES && slots[fd].meta == null
    {
      var i: nat := FIRST_FD;
      while i < MAX_FILES
        invariant FIRST_FD <= i <= MAX_FILES
        invariant FreeFrom(View(), FIRST_FD) == FreeFrom(View(), i)
      {
        if slots[i].meta == null && !slots[i].driver { return i; }
        i := i + 1;
      }
      return -1;
    }

    /** `vfsfread`: as `fat_fread` on the descriptor's file, or -1 if there is none. */
    method Fread(ptr: array<Byte>, size: nat, count: nat, fd: int) returns (n: int)
      requires Valid() && 0 <= fd < MAX_FILES
      requires fd in View() ==> View()[fd].pos + size * count < WORD_LIMIT
      requires fd in View() ==> Available(View()[fd], size * count) <= ptr.Length
      modifies slots[fd].meta, ptr
      ensures Valid() && View() == Step(old(View()), Read(fd, size * count))
      ensures var bytes := Delivered(old(View()), Read(fd, size * count));
        && n == (if bytes == [] then -1 else |bytes|)
        && |bytes| <= ptr.Length && ptr[..] == bytes + old(ptr[..])[|bytes|..]
    {
      hide FreeFrom, Step, Delivered, Available;
      ghost var t := View();
      if slots[fd].meta != null && slots[fd].driver {
        assert fd in t && t[fd] == slots[fd].meta.View();
        ReadDelivers(t, fd, size * count);
        n := slots[fd].meta.Fread(ptr, size * count);
      } else {
        ReadOfNone(t, fd, size * count);
        n := -1;
      }
    }

    /** `vfsfclose`. */
    method Fclose(fd: int) returns (result: int)
      requires Valid() && 0 <= fd < MAX_FILES
      modifies slots
      ensures Valid() && View() == Step(old(View()), Close(fd))
      ensures result == if fd in old(View()) then 0 else -1
    {
      if slots[fd].meta != null && slots[fd].driver {
        slots[fd] := Slot(null, false);
        return 0;
      }
      return -1;
    }
  }
}
