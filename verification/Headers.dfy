/** The boundary tag that liballoc places in front of every block: eight words
    in memory, and the record they decode to. */
module Headers {
  import opened Words

  const MAGIC: Word := 0xC001_C0DE
  const HEADER: int := 32

  datatype Field = Magic | Size | RealSize | Index | SplitLeft | SplitRight | Next | Prev

  datatype Tag = Tag(
    magic: int, size: int, realSize: int, index: int,
    splitLeft: int, splitRight: int, next: int, prev: int)

  function Offset(f: Field): int {
    match f
    case Magic => 0
    case Size => 4
    case RealSize => 8
    case Index => 12
    case SplitLeft => 16
    case SplitRight => 20
    case Next => 24
    case Prev => 28
  }

  /** The header that the 32 bytes at `a` spell out. */
  function TagAt(m: Memory, a: int): Tag {
    Tag(Load32(m, a), Load32(m, a + 4), Load32(m, a + 8), Signed(Load32(m, a + 12)),
        Load32(m, a + 16), Load32(m, a + 20), Load32(m, a + 24), Load32(m, a + 28))
  }

  /** The word stored for a field value; `index` is a signed int. */
  function Encode(v: int): Word
    requires -0x8000_0000 <= v < WORD_LIMIT
  {
    if v < 0 then v + WORD_LIMIT else v
  }

  ghost predicate Storable(f: Field, v: int) {
    if f == Index then -0x8000_0000 <= v < 0x8000_0000 else 0 <= v < WORD_LIMIT
  }

  function With(t: Tag, f: Field, v: int): Tag {
    match f
    case Magic => t.(magic := v)
    case Size => t.(size := v)
    case RealSize => t.(realSize := v)
    case Index => t.(index := v)
    case SplitLeft => t.(splitLeft := v)
    case SplitRight => t.(splitRight := v)
    case Next => t.(next := v)
    case Prev => t.(prev := v)
  }

  /** `tags[a].f := v`. */
  function Upd(tags: map<int, Tag>, a: int, f: Field, v: int): map<int, Tag>
    requires a in tags
  {
    tags[a := With(tags[a], f, v)]
  }

  function FieldOf(t: Tag, f: Field): int {
    match f
    case Magic => t.magic
    case Size => t.size
    case RealSize => t.realSize
    case Index => t.index
    case SplitLeft => t.splitLeft
    case SplitRight => t.splitRight
    case Next => t.next
    case Prev => t.prev
  }

  /** Storing one field changes that field of the decoded header and no other. */
  lemma StoreFieldDecodes(m: Memory, a: int, f: Field, v: int)
    requires Storable(f, v)
    ensures TagAt(Store32(m, a + Offset(f), Encode(v)), a) == With(TagAt(m, a), f, v)
  {
    LoadStoreSame(m, a + Offset(f), Encode(v));
  }

  /** A header is unaffected by memory changes outside its 32 bytes. */
  lemma DecodeFrame(m: Memory, m': Memory, a: int)
    requires forall x :: a <= x < a + HEADER ==> m'(x) == m(x)
    ensures TagAt(m', a) == TagAt(m, a)
  {
  }

  /** `tags` is what the memory holds at its keys. The trigger keeps the byte
      decoding out of proofs that only need the records. */
  ghost predicate Coupled(m: Memory, tags: map<int, Tag>) {
    forall a {:trigger TagAt(m, a)} :: a in tags ==> TagAt(m, a) == tags[a]
  }

  /** Distinct headers do not overlap. */
  ghost predicate Separate(heads: set<int>) {
    forall a, b {:trigger Clear(a, b)} :: a in heads && b in heads ==> Clear(a, b)
  }

  ghost predicate Clear(a: int, b: int) {
    a + HEADER <= b || b + HEADER <= a || a == b
  }

  ghost predicate InHeaders(heads: set<int>, x: int) {
    exists a :: a in heads && a <= x < a + HEADER
  }

  /** Memory changed only inside headers. */
  ghost predicate OnlyHeaders(m: Memory, m': Memory, heads: set<int>) {
    forall x :: m'(x) == m(x) || InHeaders(heads, x)
  }

  lemma OnlyHeadersTransitive(m0: Memory, m1: Memory, m2: Memory, s: set<int>, s1: set<int>, s2: set<int>)
    requires OnlyHeaders(m0, m1, s1) && OnlyHeaders(m1, m2, s2) && s1 <= s && s2 <= s
    ensures OnlyHeaders(m0, m2, s)
  {
    forall x | !InHeaders(s, x) ensures m2(x) == m0(x) {
      assert !InHeaders(s1, x) && !InHeaders(s2, x);
    }
  }

  lemma StoreKeepsCoupling(m: Memory, tags: map<int, Tag>, a: int, f: Field, v: int)
    requires a in tags && Coupled(m, tags) && Separate(tags.Keys) && Storable(f, v)
    ensures Coupled(Store32(m, a + Offset(f), Encode(v)), Upd(tags, a, f, v))
    ensures forall x :: x < a || a + HEADER <= x ==> Store32(m, a + Offset(f), Encode(v))(x) == m(x)
  {
    var m' := Store32(m, a + Offset(f), Encode(v));
    StoreFieldDecodes(m, a, f, v);
    forall b | b in tags && b != a ensures TagAt(m', b) == tags[b] {
      assert Clear(a, b);
      DecodeFrame(m, m', b);
    }
  }

  lemma BytesOutsideKeepCoupling(m: Memory, m': Memory, tags: map<int, Tag>)
    requires Coupled(m, tags)
    requires forall x :: InHeaders(tags.Keys, x) ==> m'(x) == m(x)
    ensures Coupled(m', tags)
  {
    forall b | b in tags ensures TagAt(m', b) == tags[b] {
      forall x | b <= x < b + HEADER ensures m'(x) == m(x) { assert InHeaders(tags.Keys, x); }
      DecodeFrame(m, m', b);
    }
  }
}
