/** Directory scanning and sequential reads of kernel/src/fat32.c. */
module FatFiles {
  import opened Options
  import opened Words

  const LONG_NAME: Byte := 0x0F
  const DIRECTORY: Byte := 0x10
  const ARCHIVE: Byte := 0x20

  /** A directory entry that was reported: the record it is in, and what it is. */
  datatype Found = Found(record: int, isDir: bool)

  // ---------- records ----------

  function Records(data: seq<Byte>): nat {
    |data| / 32
  }

  /** The attribute byte of record `i`. */
  function Attr(data: seq<Byte>, i: int): Byte
    requires 0 <= i < Records(data)
  {
    data[32 * i + 11]
  }

  predicate IsLong(data: seq<Byte>, i: int) {
    0 <= i < Records(data) && Attr(data, i) == LONG_NAME
  }

  predicate IsEntry(data: seq<Byte>, i: int) {
    0 <= i < Records(data) && (Attr(data, i) == DIRECTORY || Attr(data, i) == ARCHIVE)
  }

  function EntryAt(data: seq<Byte>, i: int): Found
    requires IsEntry(data, i)
  {
    Found(i, Attr(data, i) == DIRECTORY)
  }

  /** Every directory or archive record from `i` on, in disk order. */
  function EntriesFrom(data: seq<Byte>, i: nat): seq<Found>
    decreases Records(data) - i
  {
    if i >= Records(data) then []
    else (if IsEntry(data, i) then [EntryAt(data, i)] else []) + EntriesFrom(data, i + 1)
  }

  /** Byte 11 of the `j`-th 32 bytes of the buffer is `a`. */
  predicate HasAttribute(data: seq<Byte>, j: int, a: Byte) {
    0 <= j && 32 * j + 32 <= |data| && data[32 * j + 11] == a
  }

  /** The entries, from the bytes alone: exactly one for each record whose attribute is
      that of a directory or of an archive file, told apart by it, in disk order. */
  lemma {:induction false} EntriesAreExact(data: seq<Byte>, i: nat)
    ensures forall e :: e in EntriesFrom(data, i) <==>
      i <= e.record && HasAttribute(data, e.record, if e.isDir then 0x10 else 0x20)
    ensures forall k, l :: 0 <= k < l < |EntriesFrom(data, i)| ==>
      EntriesFrom(data, i)[k].record < EntriesFrom(data, i)[l].record
    decreases Records(data) - i
  {
    if i >= Records(data) {
    } else {
      EntriesAreExact(data, i + 1);
      var rest := EntriesFrom(data, i + 1);
      if IsEntry(data, i) { assert EntriesFrom(data, i) == [EntryAt(data, i)] + rest; }
      forall e ensures e in EntriesFrom(data, i) <==> (IsEntry(data, i) && e == EntryAt(data, i)) || e in rest {}
      forall k | 0 <= k < |rest| ensures i < rest[k].record { assert rest[k] in rest; }
    }
  }

  // ---------- the scan ----------

  /** The record one call looks at when it stands at record `i`. */
  function Target(data: seq<Byte>, i: int): int {
    if IsLong(data, i) then i + 1 else i
  }

  /** The call stays inside the buffer. */
  predicate InBounds(data: seq<Byte>, i: int) {
    Target(data, i) < Records(data)
  }

  function Report(data: seq<Byte>, i: int): Option<Found> {
    if IsEntry(data, Target(data, i)) then Some(EntryAt(data, Target(data, i))) else None
  }

  function After(data: seq<Byte>, i: int): (next: int)
    ensures next > i
  {
    if IsEntry(data, Target(data, i)) then Target(data, i) + 1 else i + 1
  }

  /** What repeated calls report until the buffer is used up. */
  function ScanFrom(data: seq<Byte>, i: nat): seq<Found>
    decreases Records(data) - i
  {
    if i >= Records(data) then []
    else (if Report(data, i).Some? then [Report(data, i).value] else []) + ScanFrom(data, After(data, i))
  }

  function CallsFrom(data: seq<Byte>, i: nat): nat
    decreases Records(data) - i
  {
    if i >= Records(data) then 0 else 1 + CallsFrom(data, After(data, i))
  }

  predicate ScanInBounds(data: seq<Byte>, i: nat)
    decreases Records(data) - i
  {
    i >= Records(data) || (InBounds(data, i) && ScanInBounds(data, After(data, i)))
  }

  /** The scan never leaves the buffer exactly when the last record is not a
      long-name record. */
  lemma {:induction false} ScanInBoundsIff(data: seq<Byte>, i: nat)
    ensures ScanInBounds(data, i) <==> i >= Records(data) || !IsLong(data, Records(data) - 1)
    decreases Records(data) - i
  {
    if i >= Records(data) {
    } else {
      ScanInBoundsIff(data, After(data, i));
    }
  }

  /** One call reports the next entry, looking ahead over one long-name record. */
  lemma CallReportsNext(data: seq<Byte>, i: nat)
    requires i < Records(data)
    ensures EntriesFrom(data, i)
      == (if Report(data, i).Some? then [Report(data, i).value] else []) + EntriesFrom(data, After(data, i))
  {
    hide Records, Attr;
    if IsLong(data, i) {
      assert EntriesFrom(data, i) == EntriesFrom(data, i + 1) by { assert !IsEntry(data, i); }
    }
  }

  /** The look-ahead over a long-name record neither skips nor repeats an entry. */
  lemma {:induction false} ScanReportsEveryEntry(data: seq<Byte>, i: nat)
    ensures ScanFrom(data, i) == EntriesFrom(data, i)
    decreases Records(data) - i
  {
    if i >= Records(data) {
    } else {
      CallReportsNext(data, i);
      ScanReportsEveryEntry(data, After(data, i));
    }
  }

  lemma {:induction false} ScanTerminates(data: seq<Byte>, i: nat)
    ensures CallsFrom(data, i) <= (if i < Records(data) then Records(data) - i else 0)
    decreases Records(data) - i
  {
    if i >= Records(data) {
    } else {
      ScanTerminates(data, After(data, i));
    }
  }

  // ---------- the loop of fat_fopen ----------

  /** What repeated calls report until the first one that reports nothing. */
  function UntilNull(data: seq<Byte>, i: nat): seq<Found>
    decreases Records(data) - i
  {
    if i >= Records(data) || Report(data, i).None? then []
    else [Report(data, i).value] + UntilNull(data, After(data, i))
  }

  /** Record `g` is an entry, or a long-name record in front of one. */
  predicate Seen(data: seq<Byte>, g: int) {
    IsEntry(data, g) || (IsLong(data, g) && IsEntry(data, g + 1))
  }

  lemma {:induction false} NoneLeftIff(data: seq<Byte>, i: nat)
    ensures EntriesFrom(data, i) == [] <==> forall j :: i <= j < Records(data) ==> !IsEntry(data, j)
    decreases Records(data) - i
  {
    if i >= Records(data) {
    } else {
      NoneLeftIff(data, i + 1);
    }
  }

  /** A call reports an entry exactly when it stands at a record that is `Seen`, and
      steps over records that are. */
  lemma CallSees(data: seq<Byte>, i: nat)
    requires i < Records(data)
    ensures Report(data, i).Some? <==> Seen(data, i)
    ensures forall g :: i <= g < After(data, i) && Seen(data, i) ==> Seen(data, g)
    ensures After(data, i) <= Records(data)
  {
    hide Records, Attr;
    assert IsLong(data, i) ==> !IsEntry(data, i) by { assert IsLong(data, i) ==> Attr(data, i) == LONG_NAME; }
  }

  /** No record from `i` on that is not `Seen` has an entry behind it. */
  ghost predicate NoGapFrom(data: seq<Byte>, i: nat) {
    forall g, j :: i <= g < j < Records(data) && IsEntry(data, j) ==> Seen(data, g)
  }

  /** A caller that stops at the first NULL sees every entry exactly when each
      record in front of an entry is an entry or announces one. */
  lemma {:induction false} StoppingAtNull(data: seq<Byte>, i: nat)
    ensures UntilNull(data, i) <= EntriesFrom(data, i)
    ensures UntilNull(data, i) == EntriesFrom(data, i) <==> NoGapFrom(data, i)
    decreases Records(data) - i
  {
    if i >= Records(data) {
    } else {
      CallSees(data, i);
      CallReportsNext(data, i);
      NoneLeftIff(data, i);
      if Seen(data, i) { StoppingAtNull(data, After(data, i)); }
    }
  }

  /** The record of the first entry of `s` that is a wanted file, or -1. */
  function FirstFile(s: seq<Found>, wanted: int -> bool): int {
    if s == [] then -1
    else if wanted(s[0].record) && !s[0].isDir then s[0].record
    else FirstFile(s[1..], wanted)
  }

  /** Record `j` is a wanted file. */
  predicate IsWanted(data: seq<Byte>, j: int, wanted: int -> bool) {
    IsEntry(data, j) && !EntryAt(data, j).isDir && wanted(j)
  }

  /** It is the first one from record `i` on. */
  ghost predicate IsFirstWanted(data: seq<Byte>, i: nat, j: int, wanted: int -> bool) {
    i <= j && IsWanted(data, j, wanted) && forall k :: i <= k < j ==> !IsWanted(data, k, wanted)
  }

  lemma FirstFileStep(data: seq<Byte>, i: nat, wanted: int -> bool)
    requires i < Records(data)
    ensures FirstFile(EntriesFrom(data, i), wanted)
      == if IsWanted(data, i, wanted) then i else FirstFile(EntriesFrom(data, i + 1), wanted)
  {
    hide Records, Attr;
    if IsEntry(data, i) {
      assert EntriesFrom(data, i)[1..] == EntriesFrom(data, i + 1);
    } else {
      assert EntriesFrom(data, i) == EntriesFrom(data, i + 1);
    }
  }

  lemma {:induction false} FirstFileIs(data: seq<Byte>, i: nat, wanted: int -> bool)
    ensures var r := FirstFile(EntriesFrom(data, i), wanted);
      if r == -1 then forall j :: i <= j ==> !IsWanted(data, j, wanted) else IsFirstWanted(data, i, r, wanted)
    decreases Records(data) - i
  {
    if i >= Records(data) {
      assert forall j :: i <= j ==> !IsWanted(data, j, wanted);
    } else {
      FirstFileStep(data, i, wanted);
      FirstFileIs(data, i + 1, wanted);
    }
  }

  /** Every record in front of the first wanted file is `Seen`. */
  ghost predicate NoGapBeforeFile(data: seq<Byte>, i: nat, wanted: int -> bool) {
    forall g, j :: IsFirstWanted(data, i, j, wanted) && i <= g < j ==> Seen(data, g)
  }

  /** A search that stops at the first NULL finds the first wanted file of the whole
      directory, or rightly none, exactly when no record in front of that file is
      neither an entry nor announces one. */
  lemma {:induction false} StoppingFindsIff(data: seq<Byte>, i: nat, wanted: int -> bool)
    ensures FirstFile(UntilNull(data, i), wanted) == FirstFile(EntriesFrom(data, i), wanted)
      <==> NoGapBeforeFile(data, i, wanted)
    decreases Records(data) - i
  {
    FirstFileIs(data, i, wanted);
    if i >= Records(data) {
    } else if !Seen(data, i) {
      CallSees(data, i);
    } else {
      CallSees(data, i);
      CallReportsNext(data, i);
      StoppingFindsIff(data, After(data, i), wanted);
      var v := Report(data, i).value;
      assert UntilNull(data, i)[1..] == UntilNull(data, After(data, i));
      assert EntriesFrom(data, i)[1..] == EntriesFrom(data, After(data, i));
      assert !IsWanted(data, v.record, wanted) ==>
        forall j :: IsFirstWanted(data, i, j, wanted) <==> IsFirstWanted(data, After(data, i), j, wanted);
    }
  }

  /** A volume label in front hides the only file of a one-sector directory. */
  lemma LabelHidesFile()
    ensures exists data: seq<Byte> ::
      && |data| == 512 && !IsLong(data, Records(data) - 1)
      && FirstFile(EntriesFrom(data, 0), _ => true) == 1 && FirstFile(UntilNull(data, 0), _ => true) == -1
  {
    var data: seq<Byte> := seq(512, i => if i == 11 then 0x08 else if i == 43 then ARCHIVE else 0);
    assert Records(data) == 16;
    assert Attr(data, 0) == 0x08 && Attr(data, 1) == ARCHIVE;
    var any := (_: int) => true;
    assert IsWanted(data, 1, any);
    FirstFileStep(data, 0, any);
    FirstFileStep(data, 1, any);
    assert Report(data, 0).None?;
    assert FirstFile(EntriesFrom(data, 0), any) == 1 && FirstFile(UntilNull(data, 0), any) == -1;
  }

  // ---------- the code ----------

  class FatDir {
    const data: array<Byte>
    var readptr: nat

    ghost predicate Valid()
      reads this
    {
      data.Length % 32 == 0 && readptr % 32 == 0 && readptr <= data.Length
    }

    /** The record that `readptr` points to. */
    function Record(): nat
      reads this
    {
      readptr / 32
    }

    constructor (buffer: array<Byte>)
      requires buffer.Length % 32 == 0
      ensures Valid() && data == buffer && Record() == 0
    {
      data, readptr := buffer, 0;
    }

    /** `fat_rewinddir`. */
    method RewindDir()
      requires Valid()
      modifies this
      ensures Valid() && Record() == 0
    {
      readptr := 0;
    }

    /** `fat_getdirent` at offset `p`: the offset to the next record, or -1. */
    method GetDirent(p: nat) returns (next: int, found: Option<Found>)
      requires p % 32 == 0 && p < data.Length && data.Length % 32 == 0 && InBounds(data[..], p / 32)
      ensures found == Report(data[..], p / 32)
      ensures if found.Some? then next == 32 * (After(data[..], p / 32) - p / 32) else next == -1
    {
      var q := p;
      next := 32;
      if data[q + 11] == LONG_NAME {
        next := next + 32;
        q := q + 32;
      }
      assert q == 32 * Target(data[..], p / 32);
      if data[q + 11] == DIRECTORY || data[q + 11] == ARCHIVE {
        found := Some(Found(q / 32, data[q + 11] == DIRECTORY));
        return;
      }
      next, found := -1, None;
    }

    /** `fat_readdir`. */
    method ReadDir() returns (found: Option<Found>)
      requires Valid() && (Record() < Records(data[..]) ==> InBounds(data[..], Record()))
      modifies this
      ensures Valid()
      ensures if old(Record()) < Records(data[..])
        then found == Report(data[..], old(Record())) && Record() == After(data[..], old(Record()))
        else found == None && Record() == old(Record())
    {
      if readptr >= data.Length { return None; }
      var next;
      next, found := GetDirent(readptr);
      if next == -1 {
        readptr := readptr + 32;
      } else {
        readptr := readptr + next;
      }
    }

    /** Read the directory to its end, as a caller does who does not stop at NULL. */
    method ReadAll() returns (all: seq<Found>, ghost calls: nat)
      requires Valid() && !IsLong(data[..], Records(data[..]) - 1)
      modifies this
      ensures Valid() && all == EntriesFrom(data[..], 0) && calls <= Records(data[..])
      ensures Record() == Records(data[..])
    {
      ghost var d := data[..];
      RewindDir();
      all, calls := [], 0;
      while readptr < data.Length
        invariant Valid() && d == data[..] && calls + CallsFrom(d, Record()) == CallsFrom(d, 0)
        invariant all + ScanFrom(d, Record()) == ScanFrom(d, 0)
        decreases data.Length - readptr
      {
        ScanInBoundsIff(d, Record());
        var found := ReadDir();
        if found.Some? { all := all + [found.value]; }
        calls := calls + 1;
      }
      ScanReportsEveryEntry(d, 0);
      ScanTerminates(d, 0);
    }

    /** The search of `fat_fopen`: `wanted` stands for the name comparison. The
        record of the first matching file, or -1. */
    method FindFile(wanted: int -> bool) returns (record: int)
      requires Valid() && Record() == 0 && !IsLong(data[..], Records(data[..]) - 1)
      modifies this
      ensures record == FirstFile(UntilNull(data[..], 0), wanted)
      ensures record == FirstFile(EntriesFrom(data[..], 0), wanted) <==> NoGapBeforeFile(data[..], 0, wanted)
    {
      ghost var d := data[..];
      StoppingFindsIff(d, 0, wanted);
      ScanInBoundsIff(d, 0);
      var entry := ReadDir();
      ghost var at := 0;
      while entry.Some?
        invariant Valid() && d == data[..] && 0 <= at
        invariant entry == (if at < Records(d) then Report(d, at) else None)
        invariant Record() == if at < Records(d) then After(d, at) else at
        invariant FirstFile(UntilNull(d, 0), wanted) == FirstFile(UntilNull(d, at), wanted)
        decreases Records(d) - at
      {
        if wanted(entry.value.record) && !entry.value.isDir { return entry.value.record; }
        at := Record();
        ScanInBoundsIff(d, at);
        entry := ReadDir();
      }
      return -1;
    }
  }
}
