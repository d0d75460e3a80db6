/**
  The canonical order of map pairs: integer rank cells against rendered key bytes
  (codec_encode.go:3051-3159, 3222-3337, 3555-3653).
 */
module Lexicographic {
  import opened Bytes

  function Order(a: int, b: int): int { if a < b then -1 else if a > b then 1 else 0 }

  /** Lexicographic comparison, a strict prefix ranking below its extension: -1, 0 or 1. */
  function Lex(a: seq<nat>, b: seq<nat>): (r: int)
    ensures r == 0 <==> a == b
    ensures -1 <= r <= 1
  {
    if a == [] || b == [] then Order(|a|, |b|)
    else if a[0] != b[0] then Order(a[0], b[0])
    else
      assert a == [a[0]] + a[1..] && b == [b[0]] + b[1..];
      Lex(a[1..], b[1..])
  }

  /** A common prefix does not matter. */
  lemma {:induction false} LexPrefix(p: seq<nat>, a: seq<nat>, b: seq<nat>)
    ensures Lex(p + a, p + b) == Lex(a, b)
  {
    if p == [] {
      assert p + a == a && p + b == b;
    } else {
      assert (p + a)[1..] == p[1..] + a && (p + b)[1..] == p[1..] + b;
      LexPrefix(p[1..], a, b);
    }
  }

  /** Where sequences of one length differ, what follows does not matter. */
  lemma {:induction false} LexDecided(x: seq<nat>, y: seq<nat>, a: seq<nat>, b: seq<nat>)
    requires |x| == |y| && x != y
    ensures Lex(x + a, y + b) == Lex(x, y)
  {
    assert x == [x[0]] + x[1..] && y == [y[0]] + y[1..];
    assert (x + a)[0] == x[0] && (y + b)[0] == y[0];
    if x[0] == y[0] {
      assert (x + a)[1..] == x[1..] + a && (y + b)[1..] == y[1..] + b;
      LexDecided(x[1..], y[1..], a, b);
    }
  }

  lemma LexSingle(a: nat, b: nat)
    ensures Lex([a], [b]) == Order(a, b)
  {
  }

  lemma LexSame(a: seq<nat>)
    ensures Lex(a, a) == 0
  {
  }

  /** Big-endian bytes of one width compare as the numbers they stand for. */
  lemma {:induction false} LexBigEndian(m: nat, n: nat, w: nat)
    requires m < Pow256(w) && n < Pow256(w)
    ensures Lex(BigEndian(m, w), BigEndian(n, w)) == Order(m, n)
  {
    if w > 0 {
      var x, y := BigEndian(m / 256, w - 1), BigEndian(n / 256, w - 1);
      LexBigEndian(m / 256, n / 256, w - 1);
      if x == y {
        LexPrefix(x, [m % 256], [n % 256]);
        LexSingle(m % 256, n % 256);
      } else {
        LexDecided(x, y, [m % 256], [n % 256]);
      }
    }
  }

  /** The same read the other way round. */
  lemma LexFromBigEndian(x: seq<byte>, y: seq<byte>)
    requires |x| == |y|
    ensures Lex(x, y) == Order(FromBigEndian(x), FromBigEndian(y))
  {
    FromBigEndianBound(x);
    FromBigEndianBound(y);
    FromBigEndianInverse(x);
    FromBigEndianInverse(y);
    LexBigEndian(FromBigEndian(x), FromBigEndian(y), |x|);
  }

  lemma {:induction false} LexAntisymmetric(a: seq<nat>, b: seq<nat>)
    ensures Lex(a, b) == -Lex(b, a)
  {
    if a != [] && b != [] && a[0] == b[0] {
      LexAntisymmetric(a[1..], b[1..]);
    }
  }

  /** Compares rank cells: the first difference decides, else the length. */
  method RankLess(a: seq<nat>, b: seq<nat>) returns (r: int)
    ensures r == Lex(a, b)
  {
    var i := 0;
    assert a[..0] + a[0..] == a && b[..0] + b[0..] == b;
    while i < |a| && i < |b|
      invariant i <= |a| && i <= |b| && a[..i] == b[..i]
    {
      if a[i] != b[i] {
        LexAt(a, b, i);
        return if a[i] < b[i] then -1 else 1;
      }
      assert a[..i + 1] == a[..i] + [a[i]] && b[..i + 1] == b[..i] + [b[i]];
      i := i + 1;
    }
    LexPrefix(a[..i], a[i..], b[i..]);
    assert a == a[..i] + a[i..] && b == b[..i] + b[i..];
    if |a| != |b| {
      return if |a| < |b| then -1 else 1;
    }
    return 0;
  }

  lemma LexAt(a: seq<nat>, b: seq<nat>, i: nat)
    requires i < |a| && i < |b| && a[..i] == b[..i] && a[i] != b[i]
    ensures Lex(a, b) == Order(a[i], b[i])
  {
    assert a == a[..i] + a[i..] && b == b[..i] + b[i..];
    LexPrefix(a[..i], a[i..], b[i..]);
  }
}

/** Map keys, and the two walks over them. */
module Keys {
  import opened Bytes
  import opened Args
  import opened Integers

  type u32 = n: int | 0 <= n < 0x1_0000_0000

  /** Interface-free key types; a pointer type names its pointee, so types may be recursive. */
  datatype KeyType =
    | BoolType | IntType | UintType | Float32Type | Float64Type | Complex64Type | Complex128Type
    | StringType | BigintType
    | PtrType(name: nat)
    | ArrayType(len: u64, elem: KeyType)
    | StructType(fields: seq<FieldType>)

  /** A blank field is named `_`; a private one is not exported. */
  datatype FieldType = Shown(t: KeyType) | Blank(t: KeyType) | Private(t: KeyType)

  /** A key value; floats are their bit patterns, a pointer is an address and the name of its pointee type. */
  datatype Key =
    | BoolKey(b: bool)
    | IntKey(n: i64)
    | UintKey(u: u64)
    | Float32Key(f32: u32)
    | Float64Key(f64: u64)
    | Complex64Key(re32: u32, im32: u32)
    | Complex128Key(re64: u64, im64: u64)
    | StringKey(s: seq<byte>)
    | BigintKey(v: Bigint)
    | PtrKey(addr: nat, name: nat)
    | ArrayKey(elems: seq<Key>)
    | StructKey(fields: seq<Field>)

  datatype Field = ShownField(k: Key) | BlankField(k: Key) | PrivateField(k: Key)

  /** What pointers lead to, by address and type name. */
  type Heap = map<(nat, nat), Key>

  function Addresses(h: Heap): set<nat> { set p | p in h :: p.0 }

  // ---------------------------------------------------------------- shape

  function Kids(k: Key): nat {
    match k
    case ArrayKey(es) => |es|
    case StructKey(fs) => |fs|
    case _ => 0
  }

  /** Element or field `i`. */
  function Kid(k: Key, i: nat): (c: Key)
    requires i < Kids(k)
    ensures c < k
  {
    if k.ArrayKey? then k.elems[i] else k.fields[i].k
  }

  predicate IsBlank(k: Key, i: nat)
    requires i < Kids(k)
  {
    k.StructKey? && k.fields[i].BlankField?
  }

  predicate IsPrivate(k: Key, i: nat)
    requires i < Kids(k)
  {
    k.StructKey? && k.fields[i].PrivateField?
  }

  predicate IsNaN32(b: u32) { (b / 0x80_0000) % 0x100 == 0xFF && b % 0x80_0000 != 0 }

  predicate IsNaN64(b: u64) { (b / 0x10_0000_0000_0000) % 0x800 == 0x7FF && b % 0x10_0000_0000_0000 != 0 }

  predicate HasNaN(k: Key) {
    match k
    case Float32Key(b) => IsNaN32(b)
    case Float64Key(b) => IsNaN64(b)
    case Complex64Key(r, i) => IsNaN32(r) || IsNaN32(i)
    case Complex128Key(r, i) => IsNaN64(r) || IsNaN64(i)
    case _ => false
  }

  /** The bitwise-zero test of elision; a nil and a zero big integer are both zero. */
  predicate IsBitZero(k: Key)
    decreases k, Kids(k) + 1
  {
    match k
    case BoolKey(b) => !b
    case IntKey(n) => n == 0
    case UintKey(u) => u == 0
    case Float32Key(b) => b == 0
    case Float64Key(b) => b == 0
    case Complex64Key(r, i) => r == 0 && i == 0
    case Complex128Key(r, i) => r == 0 && i == 0
    case StringKey(s) => s == []
    case BigintKey(v) => v == NilInt || v == Int(0)
    case PtrKey(a, _) => a == 0
    case _ => KidsZero(k, Kids(k))
  }

  predicate KidsZero(k: Key, n: nat)
    requires n <= Kids(k)
    decreases k, n
  {
    n == 0 || (KidsZero(k, n - 1) && IsBitZero(Kid(k, n - 1)))
  }

  /** One past the last element that is not bitwise zero. */
  function DensePrefix(k: Key, n: nat): (e: nat)
    requires n <= Kids(k)
    ensures e <= n && (forall i :: e <= i < n ==> IsBitZero(Kid(k, i))) && (e > 0 ==> !IsBitZero(Kid(k, e - 1)))
  {
    if n > 0 && IsBitZero(Kid(k, n - 1)) then DensePrefix(k, n - 1) else n
  }

  /** How many elements or fields a walk visits. */
  function Visited(k: Key): (n: nat)
    ensures n <= Kids(k)
  {
    if k.ArrayKey? then DensePrefix(k, Kids(k)) else Kids(k)
  }

  // ---------------------------------------------------------------- typing

  ghost predicate HasType(k: Key, t: KeyType)
    decreases k, Kids(k) + 1
  {
    match k
    case BoolKey(_) => t == BoolType
    case IntKey(_) => t == IntType
    case UintKey(_) => t == UintType
    case Float32Key(_) => t == Float32Type
    case Float64Key(_) => t == Float64Type
    case Complex64Key(_, _) => t == Complex64Type
    case Complex128Key(_, _) => t == Complex128Type
    case StringKey(s) => t == StringType && |s| < U64
    case BigintKey(v) => t == BigintType && Encodable(v)
    case PtrKey(_, name) => t == PtrType(name)
    case ArrayKey(es) => t.ArrayType? && |es| == t.len && KidsTyped(k, t, Kids(k))
    case StructKey(fs) => t.StructType? && |fs| == |t.fields| && KidsTyped(k, t, Kids(k))
  }

  ghost predicate KidsTyped(k: Key, t: KeyType, n: nat)
    requires n <= Kids(k) && (k.ArrayKey? ==> t.ArrayType?)
             && (k.StructKey? ==> t.StructType? && |k.fields| == |t.fields|)
    decreases k, n
  {
    n == 0 || (KidsTyped(k, t, n - 1) && HasType(Kid(k, n - 1), KidType(k, t, n - 1)) && SameSort(k, t, n - 1))
  }

  ghost function KidType(k: Key, t: KeyType, i: nat): KeyType
    requires i < Kids(k) && (k.ArrayKey? ==> t.ArrayType?)
             && (k.StructKey? ==> t.StructType? && |k.fields| == |t.fields|)
  {
    if k.ArrayKey? then t.elem else t.fields[i].t
  }

  ghost predicate SameSort(k: Key, t: KeyType, i: nat)
    requires i < Kids(k) && (k.StructKey? ==> t.StructType? && |k.fields| == |t.fields|)
  {
    k.StructKey? ==>
      && (k.fields[i].BlankField? <==> t.fields[i].Blank?)
      && (k.fields[i].PrivateField? <==> t.fields[i].Private?)
  }

  /** Every pointee has the type its name stands for. */
  ghost predicate HeapTyped(h: Heap, types: map<nat, KeyType>) {
    forall p :: p in h ==> p.1 in types && HasType(h[p], types[p.1])
  }

  // ---------------------------------------------------------------- rank cells

  /** The outcome of a walk: what was emitted and the addresses visited, or a reject. */
  datatype Walk<+T> = Rejected | Walked(out: seq<T>, seen: set<nat>)

  /** Class in the high nibble, minimal argument form, then the payload as one cell. */
  function RankTokenArg(cls: byte, n: u64): seq<nat>
    requires cls < 16
  {
    [cls * 16 + ArgForm(n)] + (if ArgForm(n) >= ARG_U8 then [n] else [])
  }

  function RankBareArg(n: u64): seq<nat> {
    [ArgForm(n) as nat] + (if ArgForm(n) >= ARG_U8 then [n] else [])
  }

  /** `b` on the left of a word of eight bytes. */
  function Padded(b: seq<byte>): (r: seq<byte>)
    requires |b| <= 8
    ensures |r| == 8
  {
    b + seq(8 - |b|, _ => 0)
  }

  /** Raw bytes as big-endian words, the last one padded on the right. */
  function RankPacked(b: seq<byte>): seq<nat> {
    if b == [] then []
    else if |b| < 8 then [FromBigEndian(Padded(b))]
    else [FromBigEndian(Padded(b[..8]))] + RankPacked(b[8..])
  }

  function RankBigint(v: Bigint): seq<nat>
    requires Encodable(v)
  {
    match v
    case NilInt => [0]
    case Int(n) =>
      var u := ZigzagBig(n);
      if u < U64 then RankBareArg(u)
      else [0x10] + RankBareArg(|Minimal(u)|) + RankPacked(Minimal(u))
  }

  /** The cells of a key without parts. */
  function RankLeaf(k: Key): seq<nat> {
    match k
    case BoolKey(b) => [if b then 0x11 else 0x10]
    case IntKey(n) => RankTokenArg(0x2, Zigzag(n))
    case UintKey(u) => RankTokenArg(0x3, u)
    case Float32Key(b) => [0x40, b]
    case Float64Key(b) => [0x41, b]
    case Complex64Key(r, i) => [0x50, r * 0x1_0000_0000 + i]
    case Complex128Key(r, i) => [0x51, r, i]
    case StringKey(s) => RankTokenArg(0x6, |s| % U64) + RankPacked(s)
    case BigintKey(v) => if Encodable(v) then RankBigint(v) else []
    case _ => []
  }

  function RankHeader(k: Key): seq<nat>
    requires k.ArrayKey? || k.StructKey?
  {
    if k.StructKey? then [0xB0] else RankTokenArg(0x8, Kids(k) % U64) + RankBareArg(Visited(k) % U64)
  }

  function RankWalk(h: Heap, k: Key, seen: set<nat>): (r: Walk<nat>)
    ensures r.Walked? ==> seen <= r.seen
    decreases Addresses(h) - seen, k, Kids(k) + 1
  {
    match k
    case PtrKey(a, name) =>
      if a == 0 || a in seen || (a, name) !in h then Walked([0], seen)
      else
        assert a in Addresses(h);
        RankWalk(h, h[(a, name)], seen + {a})
    case ArrayKey(_) => RankKids(h, k, Visited(k), seen)
    case StructKey(_) => RankKids(h, k, Visited(k), seen)
    case _ => if HasNaN(k) then Rejected else Walked(RankLeaf(k), seen)
  }

  /** The header and the first `n` parts. */
  function RankKids(h: Heap, k: Key, n: nat, seen: set<nat>): (r: Walk<nat>)
    requires (k.ArrayKey? || k.StructKey?) && n <= Kids(k)
    ensures r.Walked? ==> seen <= r.seen
    decreases Addresses(h) - seen, k, n
  {
    if n == 0 then Walked(RankHeader(k), seen)
    else
      var before := RankKids(h, k, n - 1, seen);
      if before.Rejected? then Rejected
      else if IsBlank(k, n - 1) then before
      else if IsPrivate(k, n - 1) then Rejected
      else
        var part := RankWalk(h, Kid(k, n - 1), before.seen);
        if part.Rejected? then Rejected else Walked(before.out + part.out, part.seen)
  }

  // ---------------------------------------------------------------- zero floats

  /** A float component that is zero, of either sign. */
  predicate IsZeroFloat(k: Key) {
    match k
    case Float32Key(b) => b == 0 || b == 0x8000_0000
    case Float64Key(b) => b == 0 || b == 0x8000_0000_0000_0000
    case Complex64Key(r, i) => r == 0 || r == 0x8000_0000 || i == 0 || i == 0x8000_0000
    case Complex128Key(r, i) => r == 0 || r == 0x8000_0000_0000_0000 || i == 0 || i == 0x8000_0000_0000_0000
    case _ => false
  }

  /** Whether the rank walk meets a zero float. */
  predicate MeetsZero(h: Heap, k: Key, seen: set<nat>)
    decreases Addresses(h) - seen, k, Kids(k) + 1
  {
    match k
    case PtrKey(a, name) =>
      if a == 0 || a in seen || (a, name) !in h then false
      else
        assert a in Addresses(h);
        MeetsZero(h, h[(a, name)], seen + {a})
    case ArrayKey(_) => KidsMeetZero(h, k, Visited(k), seen)
    case StructKey(_) => KidsMeetZero(h, k, Visited(k), seen)
    case _ => IsZeroFloat(k)
  }

  /** The same for the first `n` parts. */
  predicate KidsMeetZero(h: Heap, k: Key, n: nat, seen: set<nat>)
    requires (k.ArrayKey? || k.StructKey?) && n <= Kids(k)
    decreases Addresses(h) - seen, k, n
  {
    if n == 0 then false
    else
      var before := RankKids(h, k, n - 1, seen);
      KidsMeetZero(h, k, n - 1, seen)
      || (before.Walked? && !IsBlank(k, n - 1) && !IsPrivate(k, n - 1) && MeetsZero(h, Kid(k, n - 1), before.seen))
  }

  // ---------------------------------------------------------------- skeleton bytes

  /** The rendered bytes of a key without parts. */
  function SkelLeaf(k: Key): seq<byte> {
    match k
    case BoolKey(b) => [if b then 0x11 else 0x10]
    case IntKey(n) => TokenBytes(0x2, Zigzag(n))
    case UintKey(u) => TokenBytes(0x3, u)
    case Float32Key(b) => [0x40] + BigEndian(b, 4)
    case Float64Key(b) => [0x41] + BigEndian(b, 8)
    case Complex64Key(r, i) => [0x50] + (BigEndian(r, 4) + BigEndian(i, 4))
    case Complex128Key(r, i) => [0x51] + (BigEndian(r, 8) + BigEndian(i, 8))
    case StringKey(s) => TokenBytes(0x6, |s| % U64) + s
    case BigintKey(v) => if Encodable(v) then BigintBytes(v) else []
    case _ => []
  }

  function SkelHeader(k: Key): seq<byte>
    requires k.ArrayKey? || k.StructKey?
  {
    if k.StructKey? then [0xB0] else TokenBytes(0x8, Kids(k) % U64) + ArgBytes(Visited(k) % U64)
  }

  function SkelWalk(h: Heap, k: Key, seen: set<nat>): (r: Walk<byte>)
    ensures r.Walked? ==> seen <= r.seen
    decreases Addresses(h) - seen, k, Kids(k) + 1
  {
    match k
    case PtrKey(a, name) =>
      if a == 0 || a in seen || (a, name) !in h then Walked([0], seen)
      else
        assert a in Addresses(h);
        SkelWalk(h, h[(a, name)], seen + {a})
    case ArrayKey(_) => SkelKids(h, k, Visited(k), seen)
    case StructKey(_) => SkelKids(h, k, Visited(k), seen)
    case _ => if HasNaN(k) then Rejected else Walked(SkelLeaf(k), seen)
  }

  function SkelKids(h: Heap, k: Key, n: nat, seen: set<nat>): (r: Walk<byte>)
    requires (k.ArrayKey? || k.StructKey?) && n <= Kids(k)
    ensures r.Walked? ==> seen <= r.seen
    decreases Addresses(h) - seen, k, n
  {
    if n == 0 then Walked(SkelHeader(k), seen)
    else
      var before := SkelKids(h, k, n - 1, seen);
      if before.Rejected? then Rejected
      else if IsBlank(k, n - 1) then before
      else if IsPrivate(k, n - 1) then Rejected
      else
        var part := SkelWalk(h, Kid(k, n - 1), before.seen);
        if part.Rejected? then Rejected else Walked(before.out + part.out, part.seen)
  }
}

/** The two walks have one meaning: a sequence of chunks, each read as cells or as bytes. */
module Chunks {
  import opened Bytes
  import opened Args
  import opened Integers
  import opened Lexicographic
  import opened Keys

  /** A token's first byte, a big-endian payload, or a raw run. */
  datatype Chunk = Head(b: byte) | Word(n: nat, w: nat) | Raw(r: seq<byte>)

  function CellsOf(c: Chunk): seq<nat> {
    match c
    case Head(b) => [b]
    case Word(n, _) => [n]
    case Raw(r) => RankPacked(r)
  }

  function BytesOf(c: Chunk): seq<byte> {
    match c
    case Head(b) => [b]
    case Word(n, w) => BigEndian(n, w)
    case Raw(r) => r
  }

  function AllCells(cs: seq<Chunk>): seq<nat> {
    if cs == [] then [] else AllCells(cs[..|cs| - 1]) + CellsOf(cs[|cs| - 1])
  }

  function AllBytes(cs: seq<Chunk>): seq<byte> {
    if cs == [] then [] else AllBytes(cs[..|cs| - 1]) + BytesOf(cs[|cs| - 1])
  }

  lemma {:induction false} CellsConcat(a: seq<Chunk>, b: seq<Chunk>)
    ensures AllCells(a + b) == AllCells(a) + AllCells(b)
  {
    hide CellsOf;
    if b == [] {
      assert a + b == a;
    } else {
      var c, x := b[..|b| - 1], b[|b| - 1];
      CellsConcat(a, c);
      assert (a + b)[..|a + b| - 1] == a + c && (a + b)[|a + b| - 1] == x;
      assert AllCells(a) + AllCells(c) + CellsOf(x) == AllCells(a) + (AllCells(c) + CellsOf(x));
    }
  }

  lemma {:induction false} BytesConcat(a: seq<Chunk>, b: seq<Chunk>)
    ensures AllBytes(a + b) == AllBytes(a) + AllBytes(b)
  {
    hide BytesOf;
    if b == [] {
      assert a + b == a;
    } else {
      var c, x := b[..|b| - 1], b[|b| - 1];
      BytesConcat(a, c);
      assert (a + b)[..|a + b| - 1] == a + c && (a + b)[|a + b| - 1] == x;
      assert AllBytes(a) + AllBytes(c) + BytesOf(x) == AllBytes(a) + (AllBytes(c) + BytesOf(x));
    }
  }

  lemma AllConcat(a: seq<Chunk>, b: seq<Chunk>)
    ensures AllCells(a + b) == AllCells(a) + AllCells(b) && AllBytes(a + b) == AllBytes(a) + AllBytes(b)
  {
    CellsConcat(a, b);
    BytesConcat(a, b);
  }

  lemma AllOne(c: Chunk)
    ensures AllCells([c]) == CellsOf(c) && AllBytes([c]) == BytesOf(c)
  {
    assert [c][..0] == [];
  }

  /** Payloads fit their width. */
  ghost predicate Sound(c: Chunk) { c.Word? ==> c.n < Pow256(c.w) }

  ghost predicate AllSound(cs: seq<Chunk>) { forall i :: 0 <= i < |cs| ==> Sound(cs[i]) }

  /** Chunks that may stand at the same place of two keys of one type. */
  predicate SameShape(x: Chunk, y: Chunk) {
    (x.Head? && y.Head?) || (x.Word? && y.Word? && x.w == y.w) || (x.Raw? && y.Raw? && |x.r| == |y.r|)
  }

  /** First differing place, and there the shapes agree. */
  ghost predicate Diverge(xs: seq<Chunk>, ys: seq<Chunk>, i: nat) {
    i < |xs| && i < |ys| && xs[..i] == ys[..i] && xs[i] != ys[i] && SameShape(xs[i], ys[i])
  }

  /** Equal, or apart at chunks of one shape; never one a strict prefix of the other. */
  ghost predicate Aligned(xs: seq<Chunk>, ys: seq<Chunk>) { xs == ys || exists i: nat :: Diverge(xs, ys, i) }

  lemma AlignedConcat(a: seq<Chunk>, b: seq<Chunk>, c: seq<Chunk>, d: seq<Chunk>)
    requires Aligned(a, b) && (a == b ==> Aligned(c, d))
    ensures Aligned(a + c, b + d)
  {
    if a != b {
      var i: nat :| Diverge(a, b, i);
      assert (a + c)[..i] == a[..i] && (b + d)[..i] == b[..i];
      assert Diverge(a + c, b + d, i);
    } else if c != d {
      var i: nat :| Diverge(c, d, i);
      assert (a + c)[..|a| + i] == a + c[..i] && (b + d)[..|a| + i] == b + d[..i];
      assert Diverge(a + c, b + d, |a| + i);
    }
  }

  // ---------------------------------------------------------------- one chunk

  lemma {:induction false} LexPacked(x: seq<byte>, y: seq<byte>)
    requires |x| == |y|
    ensures Lex(RankPacked(x), RankPacked(y)) == Lex(x, y) && |RankPacked(x)| == |RankPacked(y)|
    decreases |x|
  {
    if 0 < |x| < 8 {
      LexPadded(x, y);
    } else if 8 <= |x| {
      var a, b, c, d := x[..8], y[..8], x[8..], y[8..];
      assert x == a + c && y == b + d;
      LexPadded(a, b);
      LexPacked(c, d);
      var p, q := [FromBigEndian(Padded(a))], [FromBigEndian(Padded(b))];
      if a == b {
        LexPrefix(a, c, d);
        LexPrefix(p, RankPacked(c), RankPacked(d));
      } else {
        LexDecided(a, b, c, d);
        LexDecided(p, q, RankPacked(c), RankPacked(d));
      }
    }
  }

  lemma LexPadded(x: seq<byte>, y: seq<byte>)
    requires |x| == |y| <= 8
    ensures Lex([FromBigEndian(Padded(x))], [FromBigEndian(Padded(y))]) == Lex(x, y)
  {
    LexFromBigEndian(Padded(x), Padded(y));
    LexSingle(FromBigEndian(Padded(x)), FromBigEndian(Padded(y)));
    if x == y {
      LexSame(Padded(x));
      LexSame(x);
    } else {
      LexDecided(x, y, seq(8 - |x|, _ => 0), seq(8 - |y|, _ => 0));
    }
  }

  /** Two chunks of one shape compare alike as cells and as bytes, and take the same room. */
  lemma ChunkLex(x: Chunk, y: Chunk)
    requires SameShape(x, y) && Sound(x) && Sound(y)
    ensures Lex(CellsOf(x), CellsOf(y)) == Lex(BytesOf(x), BytesOf(y))
    ensures |CellsOf(x)| == |CellsOf(y)| && |BytesOf(x)| == |BytesOf(y)|
    ensures CellsOf(x) == CellsOf(y) ==> x == y
  {
    match x
    case Head(_) =>
    case Word(n, w) =>
      LexBigEndian(n, y.n, w);
      LexSingle(n, y.n);
    case Raw(r) =>
      LexPacked(r, y.r);
  }

  /** Aligned chunk sequences compare alike as cells and as bytes; a tie means equality. */
  lemma AlignedLex(xs: seq<Chunk>, ys: seq<Chunk>)
    requires Aligned(xs, ys) && AllSound(xs) && AllSound(ys)
    ensures Lex(AllCells(xs), AllCells(ys)) == Lex(AllBytes(xs), AllBytes(ys))
    ensures AllCells(xs) == AllCells(ys) ==> xs == ys
  {
    hide CellsOf;
    hide BytesOf;
    hide AllCells;
    hide AllBytes;
    hide Sound;
    if xs == ys {
      LexSame(AllCells(xs));
      LexSame(AllBytes(xs));
    } else {
      var i: nat :| Diverge(xs, ys, i);
      DivergeLex(xs, ys, i);
    }
  }

  /** The chunks at which two sequences part decide both readings. */
  lemma DivergeLex(xs: seq<Chunk>, ys: seq<Chunk>, i: nat)
    requires Diverge(xs, ys, i) && AllSound(xs) && AllSound(ys)
    ensures Lex(AllCells(xs), AllCells(ys)) == Lex(AllBytes(xs), AllBytes(ys)) != 0
  {
    hide CellsOf;
    hide BytesOf;
    hide AllCells;
    hide AllBytes;
    hide Sound;
    hide Lex;
    var p, x, y, s, t := xs[..i], xs[i], ys[i], xs[i + 1..], ys[i + 1..];
    assert xs == p + ([x] + s) && ys == p + ([y] + t);
    AllConcat(p, [x] + s);
    AllConcat(p, [y] + t);
    AllConcat([x], s);
    AllConcat([y], t);
    AllOne(x);
    AllOne(y);
    ChunkLex(x, y);
    LexPrefix(AllCells(p), AllCells([x] + s), AllCells([y] + t));
    LexPrefix(AllBytes(p), AllBytes([x] + s), AllBytes([y] + t));
    LexDecided(CellsOf(x), CellsOf(y), AllCells(s), AllCells(t));
    LexDecided(BytesOf(x), BytesOf(y), AllBytes(s), AllBytes(t));
  }
}

/** Rank order is skeleton order. */
module RankOrder {
  import opened Bytes
  import opened Args
  import opened Integers
  import opened Lexicographic
  import opened Keys
  import opened Chunks

  // ---------------------------------------------------------------- the common walk

  function ArgChunks(first: byte, n: u64): seq<Chunk>
    requires first as int + 15 < 256
  {
    [Head(first + ArgForm(n))] + (if ArgForm(n) >= ARG_U8 then [Word(n, ArgWidth(ArgForm(n)))] else [])
  }

  ghost function BigintChunks(v: Bigint): seq<Chunk>
    requires Encodable(v)
  {
    match v
    case NilInt => [Head(0)]
    case Int(n) =>
      var u := ZigzagBig(n);
      if u < U64 then ArgChunks(0, u)
      else [Head(0x10)] + ArgChunks(0, |Minimal(u)|) + [Raw(Minimal(u))]
  }

  ghost function LeafChunks(k: Key): seq<Chunk> {
    match k
    case BoolKey(b) => [Head(if b then 0x11 else 0x10)]
    case IntKey(n) => ArgChunks(0x20, Zigzag(n))
    case UintKey(u) => ArgChunks(0x30, u)
    case Float32Key(b) => [Head(0x40), Word(b, 4)]
    case Float64Key(b) => [Head(0x41), Word(b, 8)]
    case Complex64Key(r, i) => [Head(0x50), Word(r * 0x1_0000_0000 + i, 8)]
    case Complex128Key(r, i) => [Head(0x51), Word(r, 8), Word(i, 8)]
    case StringKey(s) => ArgChunks(0x60, |s| % U64) + [Raw(s)]
    case BigintKey(v) => if Encodable(v) then BigintChunks(v) else []
    case _ => []
  }

  ghost function HeaderChunks(k: Key): seq<Chunk>
    requires k.ArrayKey? || k.StructKey?
  {
    if k.StructKey? then [Head(0xB0)] else ArgChunks(0x80, Kids(k) % U64) + ArgChunks(0, Visited(k) % U64)
  }

  ghost function ChunkWalk(h: Heap, k: Key, seen: set<nat>): (r: Walk<Chunk>)
    ensures r.Walked? ==> seen <= r.seen
    decreases Addresses(h) - seen, k, Kids(k) + 1
  {
    match k
    case PtrKey(a, name) =>
      if a == 0 || a in seen || (a, name) !in h then Walked([Head(0)], seen)
      else
        assert a in Addresses(h);
        ChunkWalk(h, h[(a, name)], seen + {a})
    case ArrayKey(_) => ChunkKids(h, k, Visited(k), seen)
    case StructKey(_) => ChunkKids(h, k, Visited(k), seen)
    case _ => if HasNaN(k) then Rejected else Walked(LeafChunks(k), seen)
  }

  ghost function ChunkKids(h: Heap, k: Key, n: nat, seen: set<nat>): (r: Walk<Chunk>)
    requires (k.ArrayKey? || k.StructKey?) && n <= Kids(k)
    ensures r.Walked? ==> seen <= r.seen
    decreases Addresses(h) - seen, k, n
  {
    if n == 0 then Walked(HeaderChunks(k), seen)
    else
      var before := ChunkKids(h, k, n - 1, seen);
      if before.Rejected? then Rejected
      else if IsBlank(k, n - 1) then before
      else if IsPrivate(k, n - 1) then Rejected
      else
        var part := ChunkWalk(h, Kid(k, n - 1), before.seen);
        if part.Rejected? then Rejected else Walked(before.out + part.out, part.seen)
  }

  // ---------------------------------------------------------------- both walks are its images

  lemma AllTwo(c: Chunk, d: Chunk)
    ensures AllCells([c, d]) == CellsOf(c) + CellsOf(d) && AllBytes([c, d]) == BytesOf(c) + BytesOf(d)
  {
    AllConcat([c], [d]);
    AllOne(c);
    AllOne(d);
    assert [c] + [d] == [c, d];
  }

  lemma ArgImages(cls: byte, n: u64)
    requires cls < 16
    ensures AllCells(ArgChunks(cls * 16, n)) == [cls * 16 + ArgForm(n)] + (if ArgForm(n) >= ARG_U8 then [n] else [])
    ensures AllBytes(ArgChunks(cls * 16, n)) == TokenBytes(cls, n)
    ensures AllSound(ArgChunks(cls * 16, n))
  {
    var f := ArgForm(n);
    Pow256Eight();
    if f >= ARG_U8 {
      AllTwo(Head(cls * 16 + f), Word(n, ArgWidth(f)));
      assert ArgChunks(cls * 16, n) == [Head(cls * 16 + f), Word(n, ArgWidth(f))];
    } else {
      AllOne(Head(cls * 16 + f));
      assert ArgChunks(cls * 16, n) == [Head(cls * 16 + f)];
      assert ArgPayload(n) == [];
    }
  }

  lemma ShiftedByte(r: nat, p: nat, i: nat)
    ensures (r * (256 * p) + i) / 256 == r * p + i / 256 && (r * (256 * p) + i) % 256 == i % 256
  {
    assert r * (256 * p) == 256 * (r * p);
    LowByte(r * p, i);
  }

  lemma LowByte(q: nat, i: nat)
    ensures (256 * q + i) / 256 == q + i / 256 && (256 * q + i) % 256 == i % 256
  {
  }

  /** The big-endian halves of a wide word. */
  lemma {:induction false} BigEndianSplit(r: nat, i: nat, w: nat, v: nat)
    requires i < Pow256(w)
    ensures BigEndian(r * Pow256(w) + i, v + w) == BigEndian(r, v) + BigEndian(i, w)
  {
    if w > 0 {
      ShiftedByte(r, Pow256(w - 1), i);
      BigEndianSplit(r, i / 256, w - 1, v);
    }
  }

  lemma BigintImages(v: Bigint)
    requires Encodable(v)
    ensures AllCells(BigintChunks(v)) == RankBigint(v) && AllBytes(BigintChunks(v)) == BigintBytes(v)
            && AllSound(BigintChunks(v))
  {
    hide RankPacked;
    hide Minimal;
    hide AllCells;
    hide AllBytes;
    if v == NilInt {
      AllOne(Head(0));
    } else {
      var u := ZigzagBig(v.n);
      if u < U64 {
        ArgImages(0, u);
      } else {
        var m := Minimal(u);
        var n: u64 := |m|;
        ArgImages(0, n);
        AllOne(Head(0x10));
        AllOne(Raw(m));
        AllConcat([Head(0x10)], ArgChunks(0, n));
        AllConcat([Head(0x10)] + ArgChunks(0, n), [Raw(m)]);
      }
    }
  }

  lemma RawSound(cs: seq<Chunk>, s: seq<byte>)
    requires AllSound(cs)
    ensures AllSound(cs + [Raw(s)])
  {
  }

  lemma StringImages(s: seq<byte>)
    ensures var cs := ArgChunks(0x60, |s| % U64) + [Raw(s)];
      && AllCells(cs) == RankTokenArg(0x6, |s| % U64) + RankPacked(s)
      && AllBytes(cs) == TokenBytes(0x6, |s| % U64) + s && AllSound(cs)
  {
    hide AllCells;
    hide AllBytes;
    hide AllSound;
    hide RankPacked;
    hide ArgChunks;
    hide RankTokenArg;
    hide TokenBytes;
    TextImages(s, |s| % U64, ArgChunks(0x60, |s| % U64));
  }

  lemma TextImages(s: seq<byte>, n: u64, cs: seq<Chunk>)
    requires cs == ArgChunks(0x60, n)
    ensures AllCells(cs + [Raw(s)]) == RankTokenArg(0x6, n) + RankPacked(s)
    ensures AllBytes(cs + [Raw(s)]) == TokenBytes(0x6, n) + s && AllSound(cs + [Raw(s)])
  {
    hide AllCells;
    hide AllBytes;
    hide AllSound;
    hide RankPacked;
    ArgImages(0x6, n);
    AllOne(Raw(s));
    AllConcat(cs, [Raw(s)]);
    RawSound(cs, s);
  }

  lemma Complex64Images(r: u32, i: u32)
    ensures var cs := [Head(0x50), Word(r * 0x1_0000_0000 + i, 8)];
      && AllCells(cs) == [0x50, r * 0x1_0000_0000 + i] && AllBytes(cs) == [0x50] + (BigEndian(r, 4) + BigEndian(i, 4))
        && AllSound(cs)
  {
    hide AllCells;
    hide AllBytes;
    Pow256Eight();
    AllTwo(Head(0x50), Word(r * 0x1_0000_0000 + i, 8));
    BigEndianSplit(r, i, 4, 4);
  }

  lemma Complex128Images(r: u64, i: u64)
    ensures var cs := [Head(0x51), Word(r, 8), Word(i, 8)];
      && AllCells(cs) == [0x51, r, i] && AllBytes(cs) == [0x51] + (BigEndian(r, 8) + BigEndian(i, 8)) && AllSound(cs)
  {
    hide AllCells;
    hide AllBytes;
    hide BigEndian;
    Pow256Eight();
    AllTwo(Head(0x51), Word(r, 8));
    AllConcat([Head(0x51), Word(r, 8)], [Word(i, 8)]);
    AllOne(Word(i, 8));
    assert [Head(0x51), Word(r, 8), Word(i, 8)] == [Head(0x51), Word(r, 8)] + [Word(i, 8)];
  }

  lemma FloatImages(head: byte, b: u64, w: nat)
    requires b < Pow256(w)
    ensures var cs := [Head(head), Word(b, w)];
      AllCells(cs) == [head as nat, b] && AllBytes(cs) == [head] + BigEndian(b, w) && AllSound(cs)
  {
    AllTwo(Head(head), Word(b, w));
  }

  lemma LeafImages(k: Key)
    ensures AllCells(LeafChunks(k)) == RankLeaf(k) && AllBytes(LeafChunks(k)) == SkelLeaf(k) && AllSound(LeafChunks(k))
  {
    hide AllCells;
    hide AllBytes;
    hide RankPacked;
    hide BigEndian;
    hide ArgChunks;
    hide RankTokenArg;
    hide TokenBytes;
    hide RankBigint;
    hide BigintBytes;
    hide BigintChunks;
    hide AllSound;
    AllNone();
    Pow256Eight();
    match k
    case BoolKey(b) => BoolImages(if b then 0x11 else 0x10);
    case IntKey(n) => TokenImages(0x2, Zigzag(n));
    case UintKey(u) => TokenImages(0x3, u);
    case Float32Key(b) => FloatImages(0x40, b, 4);
    case Float64Key(b) => FloatImages(0x41, b, 8);
    case Complex64Key(r, i) => Complex64Images(r, i);
    case Complex128Key(r, i) => Complex128Images(r, i);
    case StringKey(s) => StringImages(s);
    case BigintKey(v) => if Encodable(v) { BigintImages(v); }
    case _ =>
  }

  lemma AllNone()
    ensures AllCells([]) == [] && AllBytes([]) == [] && AllSound([])
  {
  }

  lemma BoolImages(b: byte)
    ensures AllCells([Head(b)]) == [b as nat] && AllBytes([Head(b)]) == [b] && AllSound([Head(b)])
  {
    AllOne(Head(b));
  }

  lemma TokenImages(cls: byte, n: u64)
    requires cls < 16
    ensures AllCells(ArgChunks(cls * 16, n)) == RankTokenArg(cls, n)
            && AllBytes(ArgChunks(cls * 16, n)) == TokenBytes(cls, n)
    ensures AllSound(ArgChunks(cls * 16, n))
  {
    ArgImages(cls, n);
  }

  lemma HeaderImages(k: Key)
    requires k.ArrayKey? || k.StructKey?
    ensures AllCells(HeaderChunks(k)) == RankHeader(k) && AllBytes(HeaderChunks(k)) == SkelHeader(k)
            && AllSound(HeaderChunks(k))
  {
    hide AllCells;
    hide AllBytes;
    if k.StructKey? {
      AllOne(Head(0xB0));
    } else {
      ArgImages(0x8, Kids(k) % U64);
      ArgImages(0, Visited(k) % U64);
      AllConcat(ArgChunks(0x80, Kids(k) % U64), ArgChunks(0, Visited(k) % U64));
    }
  }

  /** The rank walk and the skeleton walk are the two images of one walk: same rejects, same addresses visited. */
  ghost predicate Images(c: Walk<Chunk>, r: Walk<nat>, s: Walk<byte>) {
    && (c.Rejected? <==> r.Rejected?) && (c.Rejected? <==> s.Rejected?)
    && (c.Walked? ==>
          c.seen == r.seen == s.seen && r.out == AllCells(c.out) && s.out == AllBytes(c.out) && AllSound(c.out))
  }

  lemma {:induction false} WalkImages(h: Heap, k: Key, seen: set<nat>)
    ensures Images(ChunkWalk(h, k, seen), RankWalk(h, k, seen), SkelWalk(h, k, seen))
    decreases Addresses(h) - seen, k, Kids(k) + 1
  {
    hide AllCells;
    hide AllBytes;
    hide LeafChunks;
    hide RankLeaf;
    hide SkelLeaf;
    hide AllSound;
    match k
    case PtrKey(a, name) =>
      BoolImages(0);
      if a != 0 && a !in seen && (a, name) in h {
        assert a in Addresses(h);
        WalkImages(h, h[(a, name)], seen + {a});
      }
    case ArrayKey(_) => KidsImages(h, k, Visited(k), seen);
    case StructKey(_) => KidsImages(h, k, Visited(k), seen);
    case _ => LeafImages(k);
  }

  lemma {:induction false} KidsImages(h: Heap, k: Key, n: nat, seen: set<nat>)
    requires (k.ArrayKey? || k.StructKey?) && n <= Kids(k)
    ensures Images(ChunkKids(h, k, n, seen), RankKids(h, k, n, seen), SkelKids(h, k, n, seen))
    decreases Addresses(h) - seen, k, n
  {
    hide AllCells;
    hide AllBytes;
    hide HeaderChunks;
    hide RankHeader;
    hide SkelHeader;
    if n == 0 {
      HeaderImages(k);
    } else {
      KidsImages(h, k, n - 1, seen);
      var before := ChunkKids(h, k, n - 1, seen);
      if before.Walked? && !IsBlank(k, n - 1) && !IsPrivate(k, n - 1) {
        WalkImages(h, Kid(k, n - 1), before.seen);
        var part := ChunkWalk(h, Kid(k, n - 1), before.seen);
        if part.Walked? {
          AllConcat(before.out, part.out);
        }
      }
    }
  }

  // ---------------------------------------------------------------- keys of one type

  lemma AlignedHeads(a: byte, b: byte, xs: seq<Chunk>, ys: seq<Chunk>)
    requires xs != [] && ys != [] && xs[0] == Head(a) && ys[0] == Head(b) && a != b
    ensures Aligned(xs, ys)
  {
    assert Diverge(xs, ys, 0);
  }

  lemma ArgAligned(first: byte, m: u64, n: u64)
    requires first as int + 15 < 256
    ensures Aligned(ArgChunks(first, m), ArgChunks(first, n))
    ensures ArgChunks(first, m) == ArgChunks(first, n) <==> m == n
  {
    var xs, ys := ArgChunks(first, m), ArgChunks(first, n);
    if ArgForm(m) != ArgForm(n) {
      AlignedHeads(first + ArgForm(m), first + ArgForm(n), xs, ys);
    } else if m != n {
      assert Diverge(xs, ys, 1);
    }
  }

  lemma LongAligned(m: seq<byte>, n: seq<byte>)
    requires |m| < U64 && |n| < U64
    ensures Aligned([Head(0x10)] + ArgChunks(0, |m|) + [Raw(m)], [Head(0x10)] + ArgChunks(0, |n|) + [Raw(n)])
  {
    hide ArgChunks;
    ArgAligned(0, |m|, |n|);
    AlignedConcat([Head(0x10)], [Head(0x10)], ArgChunks(0, |m|), ArgChunks(0, |n|));
    var p, q := [Head(0x10)] + ArgChunks(0, |m|), [Head(0x10)] + ArgChunks(0, |n|);
    if p == q {
      assert p[1..] == ArgChunks(0, |m|) && q[1..] == ArgChunks(0, |n|);
      RawAligned(m, n);
    }
    AlignedConcat(p, q, [Raw(m)], [Raw(n)]);
  }

  lemma RawAligned(m: seq<byte>, n: seq<byte>)
    requires |m| == |n|
    ensures Aligned([Raw(m)], [Raw(n)])
  {
    assert m != n ==> Diverge([Raw(m)], [Raw(n)], 0);
  }

  lemma StringAligned(s: seq<byte>, t: seq<byte>)
    requires |s| < U64 && |t| < U64
    ensures Aligned(ArgChunks(0x60, |s|) + [Raw(s)], ArgChunks(0x60, |t|) + [Raw(t)])
  {
    hide ArgChunks;
    ArgAligned(0x60, |s|, |t|);
    if |s| == |t| {
      RawAligned(s, t);
    }
    AlignedConcat(ArgChunks(0x60, |s|), ArgChunks(0x60, |t|), [Raw(s)], [Raw(t)]);
  }

  /** The short form of a big integer; nil is the zero argument. */
  ghost function ShortImage(v: Bigint): nat {
    if v.NilInt? then 0 else ZigzagBig(v.n)
  }

  lemma BigintHead(v: Bigint)
    requires Encodable(v)
    ensures BigintChunks(v) ==
      if ShortImage(v) < U64 then ArgChunks(0, ShortImage(v))
      else [Head(0x10)] + ArgChunks(0, |Minimal(ShortImage(v))|) + [Raw(Minimal(ShortImage(v)))]
    ensures BigintChunks(v) != [] && BigintChunks(v)[0].Head?
    ensures BigintChunks(v)[0] == Head(0x10) <==> ShortImage(v) >= U64
    ensures BigintChunks(v)[0] == Head(0) ==> BigintChunks(v) == [Head(0)]
  {
    hide Minimal;
  }

  lemma BigintAligned(v: Bigint, w: Bigint)
    requires Encodable(v) && Encodable(w)
    ensures Aligned(BigintChunks(v), BigintChunks(w))
  {
    hide BigintChunks;
    hide ArgChunks;
    hide Minimal;
    BigintHead(v);
    BigintHead(w);
    var m, n := ShortImage(v), ShortImage(w);
    if m < U64 && n < U64 {
      ArgAligned(0, m, n);
    } else if m >= U64 && n >= U64 {
      LongAligned(Minimal(m), Minimal(n));
    } else {
      AlignedHeads(BigintChunks(v)[0].b, BigintChunks(w)[0].b, BigintChunks(v), BigintChunks(w));
    }
  }

  lemma OneWord(head: byte, m: nat, n: nat, w: nat)
    ensures Aligned([Head(head), Word(m, w)], [Head(head), Word(n, w)])
  {
    assert m != n ==> Diverge([Head(head), Word(m, w)], [Head(head), Word(n, w)], 1);
  }

  lemma TwoWords(head: byte, a: nat, b: nat, c: nat, d: nat, w: nat)
    ensures Aligned([Head(head), Word(a, w), Word(b, w)], [Head(head), Word(c, w), Word(d, w)])
  {
    var xs, ys := [Head(head), Word(a, w), Word(b, w)], [Head(head), Word(c, w), Word(d, w)];
    assert a != c ==> Diverge(xs, ys, 1);
    assert a == c && b != d ==> Diverge(xs, ys, 2);
  }

  predicate IsLeaf(k: Key) { !k.PtrKey? && !k.ArrayKey? && !k.StructKey? }

  lemma LeafAligned(k: Key, l: Key, t: KeyType)
    requires IsLeaf(k) && HasType(k, t) && HasType(l, t)
    ensures Aligned(LeafChunks(k), LeafChunks(l))
  {
    hide ArgChunks;
    hide BigintChunks;
    hide Aligned;
    match k
    case BoolKey(b) => BoolAligned(k.b, l.b);
    case IntKey(n) => ArgAligned(0x20, Zigzag(n), Zigzag(l.n));
    case UintKey(u) => ArgAligned(0x30, u, l.u);
    case Float32Key(b) => OneWord(0x40, b, l.f32, 4);
    case Float64Key(b) => OneWord(0x41, b, l.f64, 8);
    case Complex64Key(r, i) => OneWord(0x50, r * 0x1_0000_0000 + i, l.re32 * 0x1_0000_0000 + l.im32, 8);
    case Complex128Key(r, i) => TwoWords(0x51, r, i, l.re64, l.im64, 8);
    case StringKey(s) => StringAligned(s, l.s);
    case BigintKey(v) => BigintAligned(v, l.v);
  }

  lemma BoolAligned(a: bool, b: bool)
    ensures Aligned([Head(if a then 0x11 else 0x10)], [Head(if b then 0x11 else 0x10)])
  {
    if a != b {
      AlignedHeads(if a then 0x11 else 0x10, if b then 0x11 else 0x10, [Head(if a then 0x11 else 0x10)],
                   [Head(if b then 0x11 else 0x10)]);
    }
  }

  /** A walk begins with a head, and a zero head is the whole of it: the nil marker is no prefix of anything else. */
  ghost predicate NilApart(cs: seq<Chunk>) { cs != [] && cs[0].Head? && (cs[0] == Head(0) ==> cs == [Head(0)]) }

  lemma {:induction false} WalkHead(h: Heap, types: map<nat, KeyType>, k: Key, t: KeyType, seen: set<nat>)
    requires HeapTyped(h, types) && HasType(k, t) && ChunkWalk(h, k, seen).Walked?
    ensures NilApart(ChunkWalk(h, k, seen).out)
    decreases Addresses(h) - seen
  {
    match k
    case PtrKey(a, name) =>
      if a != 0 && a !in seen && (a, name) in h {
        assert a in Addresses(h);
        WalkHead(h, types, h[(a, name)], types[name], seen + {a});
      }
    case ArrayKey(_) => KidsHead(h, k, Visited(k), seen);
    case StructKey(_) => KidsHead(h, k, Visited(k), seen);
    case BigintKey(v) => BigintHead(v);
    case _ =>
  }

  /** The header stays in front. */
  lemma {:induction false} KidsHead(h: Heap, k: Key, n: nat, seen: set<nat>)
    requires (k.ArrayKey? || k.StructKey?) && n <= Kids(k) && ChunkKids(h, k, n, seen).Walked?
    ensures HeaderChunks(k) <= ChunkKids(h, k, n, seen).out && HeaderChunks(k) != [] && HeaderChunks(k)[0].Head?
            && HeaderChunks(k)[0].b >= 0x80
    decreases n
  {
    hide ChunkWalk;
    hide IsBlank;
    hide IsPrivate;
    if n > 0 {
      hide HeaderChunks;
      KidsHead(h, k, n - 1, seen);
    } else {
      HeaderHead(k);
    }
  }

  lemma HeaderHead(k: Key)
    requires k.ArrayKey? || k.StructKey?
    ensures HeaderChunks(k) != [] && HeaderChunks(k)[0].Head? && HeaderChunks(k)[0].b >= 0x80
  {
  }

  lemma ArrayHeaderAligned(n: u64, d: u64, e: u64)
    ensures Aligned(ArgChunks(0x80, n) + ArgChunks(0, d), ArgChunks(0x80, n) + ArgChunks(0, e))
    ensures ArgChunks(0x80, n) + ArgChunks(0, d) == ArgChunks(0x80, n) + ArgChunks(0, e) <==> d == e
  {
    hide ArgChunks;
    hide Aligned;
    ArgAligned(0, d, e);
    ArgAligned(0x80, n, n);
    var p := ArgChunks(0x80, n);
    AlignedConcat(p, p, ArgChunks(0, d), ArgChunks(0, e));
    assert (p + ArgChunks(0, d))[|p|..] == ArgChunks(0, d);
    assert (p + ArgChunks(0, e))[|p|..] == ArgChunks(0, e);
  }

  lemma SameKids(k: Key, l: Key, t: KeyType)
    requires (k.ArrayKey? || k.StructKey?) && HasType(k, t) && HasType(l, t)
    ensures Kids(k) == Kids(l) && (k.ArrayKey? <==> l.ArrayKey?) && (k.StructKey? <==> l.StructKey?)
    ensures k.ArrayKey? ==> Kids(k) < U64 && t.ArrayType?
    ensures k.StructKey? ==> t.StructType? && |k.fields| == |t.fields| == |l.fields|
    ensures KidsTyped(k, t, Kids(k)) && KidsTyped(l, t, Kids(l))
  {
  }

  lemma HeaderAligned(k: Key, l: Key, t: KeyType)
    requires (k.ArrayKey? || k.StructKey?) && HasType(k, t) && HasType(l, t)
    ensures l.ArrayKey? || l.StructKey?
    ensures Aligned(HeaderChunks(k), HeaderChunks(l))
    ensures HeaderChunks(k) == HeaderChunks(l) <==> Visited(k) == Visited(l)
  {
    hide ArgChunks;
    hide HasType;
    hide Aligned;
    hide DensePrefix;
    hide Visited;
    hide HeaderChunks;
    SameKids(k, l, t);
    HeaderOf(k);
    HeaderOf(l);
    if k.ArrayKey? {
      ArrayHeaderAligned(Kids(k), Visited(k), Visited(l));
    } else {
      BoolSame();
    }
  }

  lemma HeaderOf(k: Key)
    requires (k.ArrayKey? || k.StructKey?) && (k.ArrayKey? ==> Kids(k) < U64)
    ensures k.ArrayKey? ==> HeaderChunks(k) == ArgChunks(0x80, Kids(k)) + ArgChunks(0, Visited(k))
    ensures k.StructKey? ==> HeaderChunks(k) == [Head(0xB0)] && Visited(k) == Kids(k)
  {
    hide ArgChunks;
    hide DensePrefix;
  }

  lemma BoolSame()
    ensures Aligned([Head(0xB0)], [Head(0xB0)])
  {
  }

  lemma {:induction false} KidTyped(k: Key, t: KeyType, n: nat, i: nat)
    requires i < n <= Kids(k) && (k.ArrayKey? ==> t.ArrayType?)
             && (k.StructKey? ==> t.StructType? && |k.fields| == |t.fields|)
    requires KidsTyped(k, t, n)
    ensures HasType(Kid(k, i), KidType(k, t, i)) && SameSort(k, t, i)
    decreases n
  {
    if i < n - 1 {
      KidTyped(k, t, n - 1, i);
    }
  }

  lemma {:induction false} WalkAligned(h: Heap, types: map<nat, KeyType>, k: Key, l: Key, t: KeyType, r: set<nat>,
                                       s: set<nat>)
    requires HeapTyped(h, types) && HasType(k, t) && HasType(l, t)
    requires ChunkWalk(h, k, r).Walked? && ChunkWalk(h, l, s).Walked?
    ensures Aligned(ChunkWalk(h, k, r).out, ChunkWalk(h, l, s).out)
    decreases Addresses(h) - r, k, Kids(k) + 1
  {
    hide Aligned;
    hide AllSound;
    match k
    case PtrKey(a, name) =>
      PtrAligned(h, types, k, l, t, r, s);
    case ArrayKey(_) => PartsAligned(h, types, k, l, t, r, s);
    case StructKey(_) => PartsAligned(h, types, k, l, t, r, s);
    case _ => LeafAligned(k, l, t);
  }

  /** The pointer is followed. */
  ghost predicate Follows(h: Heap, k: Key, seen: set<nat>) {
    k.PtrKey? && k.addr != 0 && k.addr !in seen && (k.addr, k.name) in h
  }

  lemma NilAligned(xs: seq<Chunk>)
    requires NilApart(xs)
    ensures Aligned([Head(0)], xs) && Aligned(xs, [Head(0)])
  {
    if xs[0] != Head(0) {
      AlignedHeads(0, xs[0].b, [Head(0)], xs);
      AlignedHeads(xs[0].b, 0, xs, [Head(0)]);
    }
  }

  lemma {:induction false} PtrAligned(h: Heap, types: map<nat, KeyType>, k: Key, l: Key, t: KeyType, r: set<nat>,
                                      s: set<nat>)
    requires k.PtrKey? && HeapTyped(h, types) && HasType(k, t) && HasType(l, t)
    requires ChunkWalk(h, k, r).Walked? && ChunkWalk(h, l, s).Walked?
    ensures Aligned(ChunkWalk(h, k, r).out, ChunkWalk(h, l, s).out)
    decreases Addresses(h) - r, k, Kids(k)
  {
    hide Aligned;
    WalkHead(h, types, k, t, r);
    WalkHead(h, types, l, t, s);
    if Follows(h, k, r) && Follows(h, l, s) {
      assert k.addr in Addresses(h);
      var p, q := h[(k.addr, k.name)], h[(l.addr, l.name)];
      WalkAligned(h, types, p, q, types[k.name], r + {k.addr}, s + {l.addr});
    } else if Follows(h, l, s) {
      NilAligned(ChunkWalk(h, l, s).out);
    } else {
      NilAligned(ChunkWalk(h, k, r).out);
    }
  }

  lemma {:induction false} PartsAligned(h: Heap, types: map<nat, KeyType>, k: Key, l: Key, t: KeyType, r: set<nat>,
                                        s: set<nat>)
    requires (k.ArrayKey? || k.StructKey?) && HeapTyped(h, types) && HasType(k, t) && HasType(l, t)
    requires ChunkWalk(h, k, r).Walked? && ChunkWalk(h, l, s).Walked?
    ensures Aligned(ChunkWalk(h, k, r).out, ChunkWalk(h, l, s).out)
    decreases Addresses(h) - r, k, Kids(k) + 1, 0
  {
    hide Aligned;
    hide HasType;
    hide HeaderChunks;
    SameKids(k, l, t);
    HeaderAligned(k, l, t);
    if Visited(k) == Visited(l) {
      KidsAligned(h, types, k, l, t, Visited(k), r, s);
    } else {
      KidsHead(h, k, Visited(k), r);
      KidsHead(h, l, Visited(l), s);
      HeadersDecide(HeaderChunks(k), HeaderChunks(l), ChunkWalk(h, k, r).out, ChunkWalk(h, l, s).out);
    }
  }

  lemma HeadersDecide(a: seq<Chunk>, b: seq<Chunk>, xs: seq<Chunk>, ys: seq<Chunk>)
    requires Aligned(a, b) && a != b && a <= xs && b <= ys
    ensures Aligned(xs, ys)
  {
    assert xs == a + xs[|a|..] && ys == b + ys[|b|..];
    AlignedConcat(a, b, xs[|a|..], ys[|b|..]);
  }

  lemma {:induction false} KidsAligned(h: Heap, types: map<nat, KeyType>, k: Key, l: Key, t: KeyType, n: nat,
                                       r: set<nat>, s: set<nat>)
    requires (k.ArrayKey? || k.StructKey?) && HeapTyped(h, types) && HasType(k, t) && HasType(l, t)
    requires l.ArrayKey? || l.StructKey?
    requires n <= Visited(k) == Visited(l)
    requires ChunkKids(h, k, n, r).Walked? && ChunkKids(h, l, n, s).Walked?
    ensures Aligned(ChunkKids(h, k, n, r).out, ChunkKids(h, l, n, s).out)
    decreases Addresses(h) - r, k, n
  {
    hide Aligned;
    hide HasType;
    hide HeaderChunks;
    SameKids(k, l, t);
    if n == 0 {
      HeaderAligned(k, l, t);
    } else {
      KidTyped(k, t, Kids(k), n - 1);
      KidTyped(l, t, Kids(l), n - 1);
      KidsAligned(h, types, k, l, t, n - 1, r, s);
      var a, b := ChunkKids(h, k, n - 1, r), ChunkKids(h, l, n - 1, s);
      if !IsBlank(k, n - 1) {
        var x, y := ChunkWalk(h, Kid(k, n - 1), a.seen), ChunkWalk(h, Kid(l, n - 1), b.seen);
        WalkAligned(h, types, Kid(k, n - 1), Kid(l, n - 1), KidType(k, t, n - 1), a.seen, b.seen);
        AlignedConcat(a.out, b.out, x.out, y.out);
      }
    }
  }

  /**
    For any two keys of one interface-free type, over any heap, cyclic ones included: the rank cells order the
    keys as their rendered skeletons do, ties included, and both walks reject the same keys.
   */
  lemma RankIsSkeletonOrder(h: Heap, types: map<nat, KeyType>, k: Key, l: Key, t: KeyType)
    requires HeapTyped(h, types) && HasType(k, t) && HasType(l, t)
    ensures RankWalk(h, k, {}).Rejected? <==> SkelWalk(h, k, {}).Rejected?
    ensures RankWalk(h, k, {}).Walked? && RankWalk(h, l, {}).Walked? ==>
              SkelWalk(h, k, {}).Walked? && SkelWalk(h, l, {}).Walked?
              && Lex(RankWalk(h, k, {}).out, RankWalk(h, l, {}).out)
                == Lex(SkelWalk(h, k, {}).out, SkelWalk(h, l, {}).out)
  {
    hide Aligned;
    hide AllSound;
    hide HasType;
    hide AllCells;
    hide AllBytes;
    WalkImages(h, k, {});
    WalkImages(h, l, {});
    if ChunkWalk(h, k, {}).Walked? && ChunkWalk(h, l, {}).Walked? {
      WalkAligned(h, types, k, l, t, {}, {});
      AlignedLex(ChunkWalk(h, k, {}).out, ChunkWalk(h, l, {}).out);
    }
  }
}

/** The walkers as the encoder runs them: one buffer and one set of visited addresses, updated along the walk. */
module KeyWalkers {
  import opened Bytes
  import opened Args
  import opened Integers
  import opened Keys

  class RankWalker {
    var cells: seq<nat>
    var seen: set<nat>
    var zeroKey: bool

    constructor ()
      ensures cells == [] && seen == {} && !zeroKey
    {
      cells, seen, zeroKey := [], {}, false;
    }

    /** Forgets the previous key. */
    method ResetKey()
      modifies this
      ensures cells == [] && seen == {} && !zeroKey
    {
      cells, seen, zeroKey := [], {}, false;
    }

    method AppendTokenArg(cls: byte, n: u64)
      requires cls < 16
      modifies this`cells
      ensures cells == old(cells) + RankTokenArg(cls, n)
    {
      var f := ArgForm(n);
      cells := cells + [cls * 16 + f];
      if f >= ARG_U8 {
        cells := cells + [n];
      }
    }

    method AppendBareArg(n: u64)
      modifies this`cells
      ensures cells == old(cells) + RankBareArg(n)
    {
      var f := ArgForm(n);
      cells := cells + [f];
      if f >= ARG_U8 {
        cells := cells + [n];
      }
    }

    /** Eight bytes to a cell, the last one padded on the right. */
    method AppendPacked(b: seq<byte>)
      modifies this`cells
      ensures cells == old(cells) + RankPacked(b)
    {
      var i := 0;
      assert b[0..] == b;
      while i < |b|
        invariant i <= |b| && cells + RankPacked(b[i..]) == old(cells) + RankPacked(b)
      {
        var n := if |b| - i < 8 then |b| - i else 8;
        var part := b[i..i + n];
        assert b[i..][..n] == part && b[i..][n..] == b[i + n..];
        assert n < 8 ==> b[i..] == part && b[i + n..] == [];
        ghost var rest := RankPacked(b[i + n..]);
        assert cells + ([FromBigEndian(Padded(part))] + rest) == cells + [FromBigEndian(Padded(part))] + rest;
        cells := cells + [FromBigEndian(Padded(part))];
        i := i + n;
      }
      assert RankPacked(b[i..]) == [];
    }

    /** The value body of a big integer. */
    method AppendBigint(v: Bigint)
      requires Encodable(v)
      modifies this`cells
      ensures cells == old(cells) + RankBigint(v)
    {
      match v
      case NilInt =>
        cells := cells + [0];
      case Int(n) =>
        var u := ZigzagBig(n);
        if u < U64 {
          AppendBareArg(u);
        } else {
          ghost var was := cells;
          cells := cells + [0x10];
          AppendBareArg(|Minimal(u)|);
          AppendPacked(Minimal(u));
          assert cells == was + ([0x10] + RankBareArg(|Minimal(u)|) + RankPacked(Minimal(u)));
        }
    }

    /** Emits a key without parts, and notes a zero float. */
    method AppendLeaf(k: Key)
      modifies this`cells, this`zeroKey
      ensures cells == old(cells) + RankLeaf(k) && zeroKey == (old(zeroKey) || IsZeroFloat(k))
    {
      hide RankPacked;
      hide RankBareArg;
      hide RankBigint;
      match k
      case BoolKey(b) =>
        cells := cells + [if b then 0x11 else 0x10];
      case IntKey(n) =>
        AppendTokenArg(0x2, Zigzag(n));
      case UintKey(u) =>
        AppendTokenArg(0x3, u);
      case Float32Key(b) =>
        zeroKey := zeroKey || b == 0 || b == 0x8000_0000;
        cells := cells + [0x40, b];
      case Float64Key(b) =>
        zeroKey := zeroKey || b == 0 || b == 0x8000_0000_0000_0000;
        cells := cells + [0x41, b];
      case Complex64Key(r, i) =>
        zeroKey := zeroKey || r == 0 || r == 0x8000_0000 || i == 0 || i == 0x8000_0000;
        cells := cells + [0x50, r * 0x1_0000_0000 + i];
      case Complex128Key(r, i) =>
        zeroKey := zeroKey || r == 0 || r == 0x8000_0000_0000_0000 || i == 0 || i == 0x8000_0000_0000_0000;
        cells := cells + [0x51, r, i];
      case StringKey(s) =>
        ghost var was := cells;
        AppendTokenArg(0x6, |s| % U64);
        AppendPacked(s);
        assert cells == was + (RankTokenArg(0x6, |s| % U64) + RankPacked(s));
      case BigintKey(v) =>
        if Encodable(v) {
          AppendBigint(v);
        }
      case _ =>
    }

    /** Emits the cells of one key position; false when the key is rejected. */
    method Walk(h: Heap, k: Key) returns (ok: bool)
      modifies this
      ensures ok <==> RankWalk(h, k, old(seen)).Walked?
      ensures ok ==> cells == old(cells) + RankWalk(h, k, old(seen)).out && seen == RankWalk(h, k, old(seen)).seen
      ensures ok ==> zeroKey == (old(zeroKey) || MeetsZero(h, k, old(seen)))
      decreases Addresses(h) - seen, k, Kids(k) + 1
    {
      hide RankPacked;
      match k
      case PtrKey(a, name) =>
        if a == 0 || a in seen || (a, name) !in h {
          cells := cells + [0];
          return true;
        }
        assert a in Addresses(h);
        seen := seen + {a};
        ok := Walk(h, h[(a, name)]);
      case ArrayKey(_) =>
        var e := DensePrefix(k, Kids(k));
        AppendTokenArg(0x8, Kids(k) % U64);
        AppendBareArg(e % U64);
        ok := WalkKids(h, k, e, cells, old(cells), old(seen), old(zeroKey));
      case StructKey(_) =>
        cells := cells + [0xB0];
        ok := WalkKids(h, k, Kids(k), cells, old(cells), old(seen), old(zeroKey));
      case _ =>
        if HasNaN(k) {
          return false;
        }
        AppendLeaf(k);
        ok := true;
    }

    /** Visits the first `n` parts, skipping blank fields and rejecting unexported ones. */
    method WalkKids(h: Heap, k: Key, n: nat, ghost head: seq<nat>, ghost c0: seq<nat>, ghost s0: set<nat>,
                    ghost z0: bool)
      returns (ok: bool)
      requires (k.ArrayKey? || k.StructKey?) && n <= Kids(k)
      requires seen == s0 && cells == c0 + RankHeader(k) == head && zeroKey == z0
      modifies this
      ensures ok <==> RankKids(h, k, n, s0).Walked?
      ensures ok ==> cells == c0 + RankKids(h, k, n, s0).out && seen == RankKids(h, k, n, s0).seen
      ensures ok ==> zeroKey == (z0 || KidsMeetZero(h, k, n, s0))
      decreases Addresses(h) - seen, k, n
    {
      hide RankWalk;
      hide RankHeader;
      hide Addresses;
      hide RankKids;
      hide MeetsZero;
      hide KidsMeetZero;
      hide IsBlank;
      hide IsPrivate;
      KidsStart(h, k, s0);
      var i := 0;
      while i < n
        invariant i <= n && RankKids(h, k, i, s0).Walked? && s0 <= seen
        invariant cells == c0 + RankKids(h, k, i, s0).out && seen == RankKids(h, k, i, s0).seen
        invariant zeroKey == (z0 || KidsMeetZero(h, k, i, s0))
      {
        KidsNext(h, k, i, s0);
        if !IsBlank(k, i) {
          if IsPrivate(k, i) {
            RejectedStays(h, k, i + 1, n, s0);
            return false;
          }
          ghost var out := RankKids(h, k, i, s0).out;
          ghost var part := RankWalk(h, Kid(k, i), seen);
          var fine := Walk(h, Kid(k, i));
          if !fine {
            RejectedStays(h, k, i + 1, n, s0);
            return false;
          }
          assert c0 + out + part.out == c0 + (out + part.out);
        }
        i := i + 1;
      }
      ok := true;
    }
  }

  lemma KidsStart(h: Heap, k: Key, s: set<nat>)
    requires k.ArrayKey? || k.StructKey?
    ensures RankKids(h, k, 0, s) == Walked(RankHeader(k), s) && !KidsMeetZero(h, k, 0, s)
  {
  }

  lemma KidsNext(h: Heap, k: Key, i: nat, s: set<nat>)
    requires (k.ArrayKey? || k.StructKey?) && i < Kids(k) && RankKids(h, k, i, s).Walked?
    ensures var before := RankKids(h, k, i, s);
            RankKids(h, k, i + 1, s) ==
              if IsBlank(k, i) then before
              else if IsPrivate(k, i) || RankWalk(h, Kid(k, i), before.seen).Rejected? then Rejected
              else Walked(before.out + RankWalk(h, Kid(k, i), before.seen).out,
                          RankWalk(h, Kid(k, i), before.seen).seen)
    ensures KidsMeetZero(h, k, i + 1, s)
            <==> KidsMeetZero(h, k, i, s)
                 || (!IsBlank(k, i) && !IsPrivate(k, i) && MeetsZero(h, Kid(k, i), RankKids(h, k, i, s).seen))
  {
    hide RankWalk;
    hide RankHeader;
    hide MeetsZero;
  }

  lemma {:induction false} RejectedStays(h: Heap, k: Key, m: nat, n: nat, s: set<nat>)
    requires (k.ArrayKey? || k.StructKey?) && m <= n <= Kids(k) && RankKids(h, k, m, s).Rejected?
    ensures RankKids(h, k, n, s).Rejected?
    decreases n
  {
    if m < n {
      RejectedStays(h, k, m, n - 1, s);
    }
  }
}

/**
  When no tie-break can fire (codec_encode.go:315-347, 2829-2892): keys of a type the static walk accepts
  never tie on rank cells, so the order of a map's pairs does not depend on the order of iteration.
 */
module StableKeys {
  import opened Bytes
  import opened Args
  import opened Integers
  import opened Lexicographic
  import opened Keys
  import opened Chunks
  import opened RankOrder

  function Height(t: KeyType): nat
    decreases t
  {
    match t
    case ArrayType(_, e) => 1 + Height(e)
    case StructType(fs) => 1 + HeightOf(t, |fs|)
    case _ => 0
  }

  function HeightOf(t: KeyType, n: nat): nat
    requires t.StructType? && n <= |t.fields|
    decreases t, n
  {
    if n == 0 then 0
    else
      var a, b := HeightOf(t, n - 1), Height(t.fields[n - 1].t);
      if a < b then b else a
  }

  /** The static verdict: no pointer, float or complex part anywhere; nesting past 64 levels is refused unseen. */
  predicate StableKeyWalk(t: KeyType, seen: set<KeyType>)
    decreases t, 0
  {
    if t in seen then true
    else if |seen| > 64 then false
    else
      match t
      case PtrType(_) => false
      case BigintType => false
      case Float32Type => false
      case Float64Type => false
      case Complex64Type => false
      case Complex128Type => false
      case StructType(fs) => forall i :: 0 <= i < |fs| ==> StableKeyWalk(fs[i].t, seen + {t})
      case ArrayType(_, e) => StableKeyWalk(e, seen + {t})
      case _ => true
  }

  /** The types below are never among the enclosing ones: no value type contains itself. */
  ghost predicate Enclosing(seen: set<KeyType>, t: KeyType) { forall s :: s in seen ==> Height(t) < Height(s) }

  lemma {:induction false} FieldHeight(t: KeyType, n: nat, i: nat)
    requires t.StructType? && i < n <= |t.fields|
    ensures Height(t.fields[i].t) <= HeightOf(t, n)
    decreases n
  {
    if i < n - 1 {
      FieldHeight(t, n - 1, i);
    }
  }

  /** Equality of map keys: blank fields do not take part. */
  ghost predicate SameKey(k: Key, l: Key)
    decreases k, Kids(k) + 1
  {
    if k.ArrayKey? then l.ArrayKey? && Kids(k) == Kids(l) && SameKids(k, l, Kids(k))
    else if k.StructKey? then l.StructKey? && Kids(k) == Kids(l) && SameKids(k, l, Kids(k))
    else k == l
  }

  ghost predicate SameKids(k: Key, l: Key, n: nat)
    requires n <= Kids(k) == Kids(l)
    decreases k, n
  {
    n == 0 || (SameKids(k, l, n - 1) && (IsBlank(k, n - 1) || SameKey(Kid(k, n - 1), Kid(l, n - 1))))
  }

  lemma AlignedCancel(a: seq<Chunk>, b: seq<Chunk>, c: seq<Chunk>, d: seq<Chunk>)
    requires Aligned(a, b) && a + c == b + d
    ensures a == b && c == d
  {
    AlignedApart(a, b, c, d);
    assert c == (a + c)[|a|..] && d == (b + d)[|b|..];
  }

  lemma AlignedApart(a: seq<Chunk>, b: seq<Chunk>, c: seq<Chunk>, d: seq<Chunk>)
    requires Aligned(a, b)
    ensures a + c == b + d ==> a == b
  {
    if a != b {
      var i: nat :| Diverge(a, b, i);
      assert (a + c)[i] != (b + d)[i];
    }
  }

  lemma ChildStable(t: KeyType, seen: set<KeyType>, k: Key, i: nat)
    requires StableKeyWalk(t, seen) && Enclosing(seen, t) && HasType(k, t) && i < Kids(k)
    ensures (k.ArrayKey? ==> t.ArrayType?) && (k.StructKey? ==> t.StructType? && |k.fields| == |t.fields|)
    ensures StableKeyWalk(KidType(k, t, i), seen + {t}) && Enclosing(seen + {t}, KidType(k, t, i))
            && HasType(Kid(k, i), KidType(k, t, i))
  {
    KidTyped(k, t, Kids(k), i);
    if k.StructKey? {
      FieldHeight(t, |t.fields|, i);
    }
  }

  /** Two elided elements are equal. */
  lemma {:induction false} ZeroSame(k: Key, l: Key, t: KeyType, seen: set<KeyType>)
    requires StableKeyWalk(t, seen) && Enclosing(seen, t) && HasType(k, t) && HasType(l, t) && IsBitZero(k)
             && IsBitZero(l)
    ensures SameKey(k, l)
    decreases k, Kids(k) + 1
  {
    if k.ArrayKey? || k.StructKey? {
      RankOrder.SameKids(k, l, t);
      ZeroKids(k, l, t, seen, Kids(k));
    }
  }

  lemma {:induction false} ZeroKids(k: Key, l: Key, t: KeyType, seen: set<KeyType>, n: nat)
    requires StableKeyWalk(t, seen) && Enclosing(seen, t) && HasType(k, t) && HasType(l, t)
    requires n <= Kids(k) == Kids(l) && KidsZero(k, n) && KidsZero(l, n) && (k.ArrayKey? || k.StructKey?)
    ensures SameKids(k, l, n)
    decreases k, n
  {
    hide StableKeyWalk;
    hide HasType;
    hide Enclosing;
    if n > 0 {
      ZeroKids(k, l, t, seen, n - 1);
      ChildStable(t, seen, k, n - 1);
      ChildStable(t, seen, l, n - 1);
      ZeroSame(Kid(k, n - 1), Kid(l, n - 1), KidType(k, t, n - 1), seen + {t});
    }
  }

  lemma StableLeaf(k: Key, l: Key, t: KeyType, seen: set<KeyType>)
    requires StableKeyWalk(t, seen) && Enclosing(seen, t) && HasType(k, t) && HasType(l, t) && IsLeaf(k)
    requires LeafChunks(k) == LeafChunks(l)
    ensures k == l
  {
    hide ArgChunks;
    hide HeightOf;
    match k
    case BoolKey(b) =>
    case IntKey(n) =>
      ArgAligned(0x20, Zigzag(n), Zigzag(l.n));
      ZigzagBijection(n, 0);
      ZigzagBijection(l.n, 0);
    case UintKey(u) => ArgAligned(0x30, u, l.u);
    case StringKey(s) => StringChunks(s, l.s);
    case _ =>
  }

  lemma StringChunks(s: seq<byte>, t: seq<byte>)
    requires |s| < U64 && |t| < U64 && ArgChunks(0x60, |s|) + [Raw(s)] == ArgChunks(0x60, |t|) + [Raw(t)]
    ensures s == t
  {
    ArgAligned(0x60, |s|, |t|);
    AlignedCancel(ArgChunks(0x60, |s|), ArgChunks(0x60, |t|), [Raw(s)], [Raw(t)]);
  }

  /** Equal chunks mean equal keys. */
  lemma {:induction false} StableChunks(h: Heap, types: map<nat, KeyType>, k: Key, l: Key, t: KeyType,
                                        seen: set<KeyType>, r: set<nat>, s: set<nat>)
    requires HeapTyped(h, types) && StableKeyWalk(t, seen) && Enclosing(seen, t) && HasType(k, t) && HasType(l, t)
    requires ChunkWalk(h, k, r).Walked? && ChunkWalk(h, l, s).Walked?
             && ChunkWalk(h, k, r).out == ChunkWalk(h, l, s).out
    ensures SameKey(k, l)
    decreases k, Kids(k) + 1
  {
    hide StableKeyWalk;
    hide HeapTyped;
    if k.ArrayKey? || k.StructKey? {
      RankOrder.SameKids(k, l, t);
      HeaderAligned(k, l, t);
      KidsHead(h, k, Visited(k), r);
      KidsHead(h, l, Visited(l), s);
      SameHeader(k, l, t, ChunkWalk(h, k, r).out);
      StableKids(h, types, k, l, t, seen, Visited(k), r, s);
      if k.ArrayKey? {
        TailSame(k, l, t, seen, Kids(k));
      }
    } else {
      NotPointer(k, t, seen);
      StableLeaf(k, l, t, seen);
    }
  }

  lemma NotPointer(k: Key, t: KeyType, seen: set<KeyType>)
    requires StableKeyWalk(t, seen) && Enclosing(seen, t) && HasType(k, t)
    ensures !k.PtrKey?
  {
  }

  lemma SameHeader(k: Key, l: Key, t: KeyType, xs: seq<Chunk>)
    requires (k.ArrayKey? || k.StructKey?) && (l.ArrayKey? || l.StructKey?) && HeaderChunks(k) <= xs
             && HeaderChunks(l) <= xs
    requires Aligned(HeaderChunks(k), HeaderChunks(l))
             && (HeaderChunks(k) == HeaderChunks(l) <==> Visited(k) == Visited(l))
    ensures Visited(k) == Visited(l)
  {
    var a, b := HeaderChunks(k), HeaderChunks(l);
    AlignedCancel(a, b, xs[|a|..], xs[|b|..]);
  }

  lemma {:induction false} StableKids(h: Heap, types: map<nat, KeyType>, k: Key, l: Key, t: KeyType, seen: set<KeyType>,
                                      n: nat, r: set<nat>, s: set<nat>)
    requires HeapTyped(h, types) && StableKeyWalk(t, seen) && Enclosing(seen, t) && HasType(k, t) && HasType(l, t)
    requires (k.ArrayKey? || k.StructKey?) && (l.ArrayKey? || l.StructKey?) && Kids(k) == Kids(l)
             && n <= Visited(k) == Visited(l)
    requires ChunkKids(h, k, n, r).Walked? && ChunkKids(h, l, n, s).Walked?
             && ChunkKids(h, k, n, r).out == ChunkKids(h, l, n, s).out
    ensures SameKids(k, l, n)
    decreases k, n
  {
    hide StableKeyWalk;
    hide HeapTyped;
    hide Enclosing;
    hide HasType;
    hide HeaderChunks;
    hide Aligned;
    hide ChunkWalk;
    hide KidType;
    if n > 0 {
      ChildStable(t, seen, k, n - 1);
      ChildStable(t, seen, l, n - 1);
      var a, b := ChunkKids(h, k, n - 1, r), ChunkKids(h, l, n - 1, s);
      SameBlank(k, l, t, n - 1);
      if !IsBlank(k, n - 1) {
        var x, y := ChunkWalk(h, Kid(k, n - 1), a.seen), ChunkWalk(h, Kid(l, n - 1), b.seen);
        KidsAligned(h, types, k, l, t, n - 1, r, s);
        AlignedCancel(a.out, b.out, x.out, y.out);
        StableChunks(h, types, Kid(k, n - 1), Kid(l, n - 1), KidType(k, t, n - 1), seen + {t}, a.seen, b.seen);
      }
      StableKids(h, types, k, l, t, seen, n - 1, r, s);
    }
  }

  lemma SameBlank(k: Key, l: Key, t: KeyType, i: nat)
    requires (k.ArrayKey? || k.StructKey?) && HasType(k, t) && HasType(l, t) && i < Kids(k) == Kids(l)
    ensures (IsBlank(k, i) <==> IsBlank(l, i)) && (IsPrivate(k, i) <==> IsPrivate(l, i))
    ensures (k.ArrayKey? ==> t.ArrayType?) && (k.StructKey? ==> t.StructType? && |k.fields| == |t.fields|)
    ensures KidType(k, t, i) == KidType(l, t, i)
  {
    RankOrder.SameKids(k, l, t);
    KidTyped(k, t, Kids(k), i);
    KidTyped(l, t, Kids(l), i);
  }

  /** Past the dense prefix all elements are zero. */
  lemma {:induction false} TailSame(k: Key, l: Key, t: KeyType, seen: set<KeyType>, n: nat)
    requires StableKeyWalk(t, seen) && Enclosing(seen, t) && HasType(k, t) && HasType(l, t) && k.ArrayKey?
             && l.ArrayKey?
    requires Kids(k) == Kids(l) && Visited(k) == Visited(l) <= n <= Kids(k) && SameKids(k, l, Visited(k))
    ensures SameKids(k, l, n)
    decreases n
  {
    hide StableKeyWalk;
    hide Enclosing;
    hide HasType;
    if Visited(k) < n {
      TailSame(k, l, t, seen, n - 1);
      ChildStable(t, seen, k, n - 1);
      ChildStable(t, seen, l, n - 1);
      ZeroSame(Kid(k, n - 1), Kid(l, n - 1), KidType(k, t, n - 1), seen + {t});
    }
  }

  /** Keys of a stable type have injective rank cells: cells tie only when the keys are equal as map keys. */
  lemma StableRanksInjective(h: Heap, types: map<nat, KeyType>, k: Key, l: Key, t: KeyType)
    requires HeapTyped(h, types) && StableKeyWalk(t, {}) && HasType(k, t) && HasType(l, t)
    requires RankWalk(h, k, {}).Walked? && RankWalk(h, l, {}).Walked?
    ensures RankWalk(h, k, {}).out == RankWalk(h, l, {}).out ==> SameKey(k, l)
  {
    hide StableKeyWalk;
    hide HasType;
    hide SameKey;
    hide AllCells;
    hide AllBytes;
    hide AllSound;
    hide Aligned;
    WalkImages(h, k, {});
    WalkImages(h, l, {});
    WalkAligned(h, types, k, l, t, {}, {});
    AlignedLex(ChunkWalk(h, k, {}).out, ChunkWalk(h, l, {}).out);
    if RankWalk(h, k, {}).out == RankWalk(h, l, {}).out {
      StableChunks(h, types, k, l, t, {}, {}, {});
    }
  }

  // ---------------------------------------------------------------- the order of pairs

  function Rank(h: Heap, k: Key): seq<nat> {
    var r := RankWalk(h, k, {});
    if r.Walked? then r.out else []
  }

  /** The keys of one map: all of type `t`, none rejected, no two equal. */
  ghost predicate MapKeys(h: Heap, t: KeyType, ks: seq<Key>) {
    && (forall i :: 0 <= i < |ks| ==> HasType(ks[i], t) && RankWalk(h, ks[i], {}).Walked?)
    && (forall i, j :: 0 <= i < j < |ks| ==> !SameKey(ks[i], ks[j]))
  }

  ghost predicate SortedByRank(h: Heap, ks: seq<Key>) {
    forall i, j :: 0 <= i < j < |ks| ==> Lex(Rank(h, ks[i]), Rank(h, ks[j])) <= 0
  }

  ghost predicate Strict(h: Heap, ks: seq<Key>) {
    forall i, j :: 0 <= i < j < |ks| ==> Lex(Rank(h, ks[i]), Rank(h, ks[j])) < 0
  }

  /** No two pairs of such a map tie: the value-bytes and pointer-order phases are never reached. */
  lemma StableNeverTies(h: Heap, types: map<nat, KeyType>, t: KeyType, ks: seq<Key>)
    requires HeapTyped(h, types) && StableKeyWalk(t, {}) && MapKeys(h, t, ks) && SortedByRank(h, ks)
    ensures Strict(h, ks)
  {
    hide StableKeyWalk;
    hide HasType;
    hide SameKey;
    hide RankWalk;
    forall i, j | 0 <= i < j < |ks|
      ensures Lex(Rank(h, ks[i]), Rank(h, ks[j])) < 0
    {
      StableRanksInjective(h, types, ks[i], ks[j], t);
    }
  }

  lemma SameFirst(h: Heap, ks: seq<Key>, ls: seq<Key>)
    requires Strict(h, ks) && Strict(h, ls) && multiset(ks) == multiset(ls) && ks != []
    ensures ls != [] && ks[0] == ls[0]
  {
    hide RankWalk;
    hide Rank;
    hide Lex;
    assert ks[0] in multiset(ls);
    assert ks[0] in ls;
    var m :| 0 <= m < |ls| && ls[m] == ks[0];
    assert ls[0] in multiset(ks);
    assert ls[0] in ks;
    var p :| 0 <= p < |ks| && ks[p] == ls[0];
    LexAntisymmetric(Rank(h, ks[0]), Rank(h, ls[0]));
  }

  lemma RestOf<T>(ks: seq<T>, ls: seq<T>)
    requires ks != [] && ls != [] && ks[0] == ls[0] && multiset(ks) == multiset(ls)
    ensures multiset(ks[1..]) == multiset(ls[1..])
  {
    assert ks == [ks[0]] + ks[1..] && ls == [ls[0]] + ls[1..];
    assert multiset(ks[1..]) == multiset(ks) - multiset{ks[0]};
    assert multiset(ls[1..]) == multiset(ls) - multiset{ls[0]};
  }

  lemma StrictRest(h: Heap, ks: seq<Key>)
    requires Strict(h, ks) && ks != []
    ensures Strict(h, ks[1..])
  {
    hide Rank;
    hide Lex;
  }

  lemma {:induction false} StrictUnique(h: Heap, ks: seq<Key>, ls: seq<Key>)
    requires Strict(h, ks) && Strict(h, ls) && multiset(ks) == multiset(ls)
    ensures ks == ls
  {
    hide Strict;
    if ks == [] {
      assert |multiset(ls)| == |ls|;
    } else {
      SameFirst(h, ks, ls);
      RestOf(ks, ls);
      StrictRest(h, ks);
      StrictRest(h, ls);
      StrictUnique(h, ks[1..], ls[1..]);
      assert ks == [ks[0]] + ks[1..] && ls == [ls[0]] + ls[1..];
    }
  }

  /** Whatever the order of iteration, the sorted order of a stable map's keys is the same. */
  lemma StableOrder(h: Heap, types: map<nat, KeyType>, t: KeyType, ks: seq<Key>, ls: seq<Key>)
    requires HeapTyped(h, types) && StableKeyWalk(t, {})
    requires MapKeys(h, t, ks) && MapKeys(h, t, ls) && multiset(ks) == multiset(ls)
    requires SortedByRank(h, ks) && SortedByRank(h, ls)
    ensures ks == ls
  {
    hide StableKeyWalk;
    hide MapKeys;
    hide SortedByRank;
    hide Strict;
    hide Rank;
    StableNeverTies(h, types, t, ks);
    StableNeverTies(h, types, t, ls);
    StrictUnique(h, ks, ls);
  }

  // ---------------------------------------------------------------- string keys

  /** Orders strings by argument form, then length, then bytes. */
  function CmpLenPrefix(a: seq<byte>, b: seq<byte>): int {
    var fa, fb := ArgForm(|a| % U64), ArgForm(|b| % U64);
    if fa != fb then Order(fa, fb)
    else if |a| != |b| then Order(|a|, |b|)
    else Lex(a, b)
  }

  /** The shortcut for string maps gives the order of the rendered string tokens. */
  lemma CmpLenPrefixIsTokenOrder(a: seq<byte>, b: seq<byte>)
    requires |a| < U64 && |b| < U64
    ensures CmpLenPrefix(a, b) == Lex(SkelLeaf(StringKey(a)), SkelLeaf(StringKey(b)))
  {
    hide ArgForm;
    hide ArgPayload;
    hide Lex;
    var m, n := |a|, |b|;
    if ArgForm(m) != ArgForm(n) {
      TokenForms(m, n, a, b);
    } else if m != n {
      hide TokenBytes;
      TokenOrder(m, n);
      LexDecided(TokenBytes(6, m), TokenBytes(6, n), a, b);
    } else {
      hide TokenBytes;
      LexPrefix(TokenBytes(6, m), a, b);
    }
  }

  lemma TokenForms(m: u64, n: u64, a: seq<byte>, b: seq<byte>)
    requires ArgForm(m) != ArgForm(n)
    ensures Lex(TokenBytes(6, m) + a, TokenBytes(6, n) + b) == Order(ArgForm(m), ArgForm(n))
  {
    hide ArgForm;
    hide ArgPayload;
    hide Lex;
    var f, g := 6 * 16 + ArgForm(m), 6 * 16 + ArgForm(n);
    assert TokenBytes(6, m) + a == [f] + (ArgPayload(m) + a);
    assert TokenBytes(6, n) + b == [g] + (ArgPayload(n) + b);
    LexDecided([f], [g], ArgPayload(m) + a, ArgPayload(n) + b);
    LexSingle(f, g);
  }

  /** Tokens of one form compare as their arguments. */
  lemma TokenOrder(m: u64, n: u64)
    requires ArgForm(m) == ArgForm(n) && m != n
    ensures Lex(TokenBytes(6, m), TokenBytes(6, n)) == Order(m, n) && |TokenBytes(6, m)| == |TokenBytes(6, n)|
    ensures TokenBytes(6, m) != TokenBytes(6, n)
  {
    Pow256Eight();
    var h := [6 * 16 + ArgForm(m)];
    LexBigEndian(m, n, ArgWidth(ArgForm(m)));
    LexPrefix(h, ArgPayload(m), ArgPayload(n));
  }

  // ---------------------------------------------------------------- the static walk exactly

  /** The type stands `n` levels down in `t`: an element or field type of an element or field type, and so on. */
  ghost predicate PartOf(u: KeyType, t: KeyType, n: nat)
    decreases n
  {
    if n == 0 then u == t
    else if t.ArrayType? then PartOf(u, t.elem, n - 1)
    else t.StructType? && exists i :: 0 <= i < |t.fields| && PartOf(u, t.fields[i].t, n - 1)
  }

  /** Kinds that can neither tie nor hold a zero float. */
  predicate Harmless(t: KeyType) {
    t.BoolType? || t.IntType? || t.UintType? || t.StringType? || t.ArrayType? || t.StructType?
  }

  /** All parts are of such kinds, and none stands more than 64 levels down from `m` levels above. */
  ghost predicate AllHarmless(t: KeyType, m: nat) { forall u, n: nat :: PartOf(u, t, n) ==> m + n <= 64 && Harmless(u) }

  /** The walk accepts a type exactly if all its parts are of such kinds and none stands more than 64 levels down. */
  lemma StableKeyWalkIff(t: KeyType)
    ensures StableKeyWalk(t, {}) <==> AllHarmless(t, 0)
  {
    hide StableKeyWalk;
    WalkHarmless(t, {});
  }

  lemma {:induction false} WalkHarmless(t: KeyType, seen: set<KeyType>)
    requires Enclosing(seen, t)
    ensures StableKeyWalk(t, seen) <==> AllHarmless(t, |seen|)
    decreases t
  {
    assert t !in seen;
    assert PartOf(t, t, 0);
    if |seen| <= 64 {
      match t
      case StructType(fs) =>
        forall i | 0 <= i < |fs|
          ensures StableKeyWalk(fs[i].t, seen + {t}) <==> AllHarmless(fs[i].t, |seen| + 1)
        {
          FieldHeight(t, |fs|, i);
          WalkHarmless(fs[i].t, seen + {t});
        }
        FieldsHarmless(t, |seen|);
      case ArrayType(_, e) =>
        WalkHarmless(e, seen + {t});
        ElemHarmless(t, |seen|);
      case _ => LeafHarmless(t, |seen|);
    }
  }

  lemma LeafHarmless(t: KeyType, m: nat)
    requires !t.ArrayType? && !t.StructType?
    ensures AllHarmless(t, m) <==> m <= 64 && Harmless(t)
  {
    assert PartOf(t, t, 0);
  }

  lemma ElemHarmless(t: KeyType, m: nat)
    requires t.ArrayType? && m <= 64
    ensures AllHarmless(t, m) <==> AllHarmless(t.elem, m + 1)
  {
    hide Harmless;
    forall u, n: nat
      ensures PartOf(u, t, n + 1) <==> PartOf(u, t.elem, n)
    {
    }
    if AllHarmless(t, m) {
      forall u, n: nat | PartOf(u, t.elem, n)
        ensures m + 1 + n <= 64 && Harmless(u)
      {
        assert PartOf(u, t, n + 1);
      }
    }
    if AllHarmless(t.elem, m + 1) {
      forall u, n: nat | PartOf(u, t, n)
        ensures m + n <= 64 && Harmless(u)
      {
        assert n > 0 ==> PartOf(u, t.elem, n - 1);
        assert Harmless(t) by { HarmlessParts(t); }
      }
    }
  }

  lemma HarmlessParts(t: KeyType)
    requires t.ArrayType? || t.StructType?
    ensures Harmless(t)
  {
  }

  lemma FieldsHarmless(t: KeyType, m: nat)
    requires t.StructType? && m <= 64
    ensures AllHarmless(t, m) <==> forall i :: 0 <= i < |t.fields| ==> AllHarmless(t.fields[i].t, m + 1)
  {
    hide Harmless;
    HarmlessParts(t);
    if AllHarmless(t, m) {
      forall i, u, n: nat | 0 <= i < |t.fields| && PartOf(u, t.fields[i].t, n)
        ensures m + 1 + n <= 64 && Harmless(u)
      {
        assert PartOf(u, t, n + 1);
      }
    }
    if forall i :: 0 <= i < |t.fields| ==> AllHarmless(t.fields[i].t, m + 1) {
      forall u, n: nat | PartOf(u, t, n)
        ensures m + n <= 64 && Harmless(u)
      {
        if n > 0 {
          var i :| 0 <= i < |t.fields| && PartOf(u, t.fields[i].t, n - 1);
          assert AllHarmless(t.fields[i].t, m + 1);
        }
      }
    }
  }
}
