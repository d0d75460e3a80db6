/**
  Elements of a record, for every primitive kind that is written in a batch (codec_encode.go:1786-1820, 2427-2465,
  2522-2532): an element is its bit pattern, and is written as one token of its kind. The decoder parses the token
  exactly, and then stores it: some kinds go through a wider float on the way (codec_decode.go:1484-1640, 864-899).
 */
module Elements {
  import opened Bytes
  import opened Args
  import opened Integers
  import opened Containers

  const U32 := 0x1_0000_0000

  type u32 = n: int | 0 <= n < U32

  /** The size of an integer element. */
  datatype Width = W8 | W16 | W32 | W64

  /** How many integers the size has room for. */
  function Range(w: Width): (r: nat)
    ensures 1 < r <= U64 && r % 2 == 0
  {
    match w
    case W8 => 0x100
    case W16 => 0x1_0000
    case W32 => U32
    case W64 => U64
  }

  /** Float32Elem is float32 itself, NamedFloat32Elem a defined type over it, which only the decoder tells apart. */
  datatype ElemKind =
    | BoolElem
    | IntElem(width: Width)
    | UintElem(width: Width)
    | Float32Elem
    | NamedFloat32Elem
    | Float64Elem
    | Complex64Elem
    | Complex128Elem

  /** The kind of the elements of the class, by the decoder's type: any of them, the same throughout. */
  const KIND: ElemKind

  /** How many bit patterns a kind has. */
  function Patterns(k: ElemKind): (n: nat)
    ensures n > 1
  {
    match k
    case BoolElem => 2
    case IntElem(w) => Range(w)
    case UintElem(w) => Range(w)
    case Float32Elem => U32
    case NamedFloat32Elem => U32
    case Complex128Elem => U64 * U64
    case _ => U64
  }

  /** One element: floats are raw bits, a complex number the bits of its real part before those of the imaginary. */
  type Bits = n: nat | n < Patterns(KIND) witness 0

  /** The pattern at hand, zero for what is none. */
  function Pattern(n: nat): Bits { if n < Patterns(KIND) then n else 0 }

  /** Two's complement of the size. */
  function Signed(w: Width, b: nat): i64
    requires b < Range(w)
  {
    if b < Range(w) / 2 then b else b - Range(w)
  }

  /** The integer read fits the size of the element it is stored to. */
  predicate FitsSigned(w: Width, n: i64) { -(Range(w) / 2) <= n < Range(w) / 2 }

  function Unsigned(w: Width, n: i64): nat
    requires FitsSigned(w, n)
  {
    if n < 0 then n + Range(w) else n
  }

  predicate IsRaw(k: ElemKind) { !k.BoolElem? && !k.IntElem? && !k.UintElem? }

  predicate IsFloat32(k: ElemKind) { k.Float32Elem? || k.NamedFloat32Elem? }

  /** Class, form and number of payload bytes of the kinds that are written as raw bits. */
  function RawClass(k: ElemKind): byte { if IsFloat32(k) || k.Float64Elem? then CLASS_FLOAT else CLASS_COMPLEX }

  function RawForm(k: ElemKind): byte { if IsFloat32(k) || k.Complex64Elem? then 0 else 1 }

  function RawWidth(k: ElemKind): nat { if IsFloat32(k) then 4 else if k.Complex128Elem? then 16 else 8 }

  function TokenOf(k: ElemKind, b: nat): seq<byte>
    requires b < Patterns(k)
  {
    match k
    case BoolElem => [CLASS_BOOL * 16 + b]
    case IntElem(w) => TokenBytes(CLASS_INT, Zigzag(Signed(w, b)))
    case UintElem(_) => TokenBytes(CLASS_UINT, b)
    case _ => [RawClass(k) * 16 + RawForm(k)] + BigEndian(b, RawWidth(k))
  }

  function ParseAs(k: ElemKind, input: seq<byte>, at: nat): (r: Parse<nat>)
    requires at <= |input|
    ensures r.Ok? ==> at < r.next <= |input|
  {
    match k
    case BoolElem =>
      var (form, next) :- ParseFirst(input, at, CLASS_BOOL);
      if form > 1 then Err(MalformedOp) else Ok(form, next)
    case IntElem(w) =>
      var (u, next) :- ParseToken(input, at, CLASS_INT);
      if FitsSigned(w, Unzigzag(u)) then Ok(Unsigned(w, Unzigzag(u)), next) else Err(Overflow)
    case UintElem(w) =>
      var (u, next) :- ParseToken(input, at, CLASS_UINT);
      if u < Range(w) then Ok(u, next) else Err(Overflow)
    case _ =>
      var (b, next) :- ParseFixed(input, at, RawClass(k), RawForm(k), RawWidth(k));
      Ok(FromBigEndian(b), next)
  }

  function ElemToken(b: Bits): seq<byte> { TokenOf(KIND, b) }

  function ParseElem(input: seq<byte>, at: nat): (r: Parse<Bits>)
    requires at <= |input|
    ensures r.Ok? ==> at < r.next <= |input|
  {
    var (n, next) :- ParseAs(KIND, input, at);
    Ok(Pattern(n), next)
  }

  /** The widths are those of the patterns: nothing is cut off. */
  lemma RawFits(k: ElemKind)
    ensures IsRaw(k) ==> Patterns(k) == Pow256(RawWidth(k))
  {
    Pow256Eight();
    Pow256Sixteen();
  }

  lemma Pow256Sixteen()
    ensures Pow256(16) == U64 * U64
  {
    Pow256Eight();
    assert Pow256(9) == 256 * U64 && Pow256(10) == 0x1_0000 * U64 && Pow256(11) == 0x100_0000 * U64;
    assert Pow256(12) == 0x1_0000_0000 * U64 && Pow256(13) == 0x100_0000_0000 * U64;
    assert Pow256(14) == 0x1_0000_0000_0000 * U64 && Pow256(15) == 0x100_0000_0000_0000 * U64;
  }

  lemma SignedInverse(w: Width, b: nat)
    requires b < Range(w)
    ensures FitsSigned(w, Signed(w, b)) && Unsigned(w, Signed(w, b)) == b
  {
  }

  lemma UnsignedInverse(w: Width, n: i64)
    requires FitsSigned(w, n)
    ensures Unsigned(w, n) < Range(w) && Signed(w, Unsigned(w, n)) == n
  {
  }

  /** On the wire every element of every kind reads back bit for bit; what the decoder then stores is `Stored`. */
  lemma TokenReadsBack(k: ElemKind, input: seq<byte>, at: nat, b: nat)
    requires b < Patterns(k) && At(input, at, TokenOf(k, b))
    ensures at <= |input| && ParseAs(k, input, at) == Ok(b, at + |TokenOf(k, b)|)
  {
    hide ParsePayload;
    hide Zigzag;
    hide Unzigzag;
    if IsRaw(k) {
      RawPatternReadsBack(k, input, at, b);
    } else {
      IntegerReadsBack(k, input, at, b);
    }
  }

  lemma IntegerReadsBack(k: ElemKind, input: seq<byte>, at: nat, b: nat)
    requires !IsRaw(k) && b < Patterns(k) && At(input, at, TokenOf(k, b))
    ensures at <= |input| && ParseAs(k, input, at) == Ok(b, at + |TokenOf(k, b)|)
  {
    hide ParsePayload;
    hide Zigzag;
    hide Unzigzag;
    match k
    case BoolElem =>
      AtHead(input, at, CLASS_BOOL * 16 + b, []);
      assert [CLASS_BOOL * 16 + b] + [] == [CLASS_BOOL * 16 + b];
    case IntElem(w) =>
      TokenRoundTrip(input, at, CLASS_INT, Zigzag(Signed(w, b)));
      ZigzagBijection(Signed(w, b), 0);
      SignedInverse(w, b);
    case UintElem(_) =>
      TokenRoundTrip(input, at, CLASS_UINT, b);
  }

  lemma RawPatternReadsBack(k: ElemKind, input: seq<byte>, at: nat, b: nat)
    requires IsRaw(k) && b < Patterns(k) && At(input, at, [RawClass(k) * 16 + RawForm(k)] + BigEndian(b, RawWidth(k)))
    ensures at <= |input|
    ensures var p := ParseFixed(input, at, RawClass(k), RawForm(k), RawWidth(k));
            p.Ok? && FromBigEndian(p.value) == b && p.next == at + 1 + RawWidth(k)
  {
    hide At;
    RawFits(k);
    RawReadsBack(k, input, at, BigEndian(b, RawWidth(k)));
    BigEndianInverse(b, RawWidth(k));
  }

  lemma RawReadsBack(k: ElemKind, input: seq<byte>, at: nat, p: seq<byte>)
    requires IsRaw(k) && |p| == RawWidth(k) && At(input, at, [RawClass(k) * 16 + RawForm(k)] + p)
    ensures at <= |input| && ParseFixed(input, at, RawClass(k), RawForm(k), |p|) == Ok(p, at + 1 + |p|)
  {
    AtHead(input, at, RawClass(k) * 16 + RawForm(k), p);
  }

  lemma RawIsWritten(k: ElemKind, input: seq<byte>, at: nat)
    requires IsRaw(k) && at <= |input| && ParseFixed(input, at, RawClass(k), RawForm(k), RawWidth(k)).Ok?
    ensures var p := ParseFixed(input, at, RawClass(k), RawForm(k), RawWidth(k));
            && p.value == input[at + 1..p.next] && p.next == at + 1 + RawWidth(k)
            && At(input, at, [RawClass(k) * 16 + RawForm(k)] + p.value)
  {
    var p := ParseFixed(input, at, RawClass(k), RawForm(k), RawWidth(k));
    AtHead(input, at, RawClass(k) * 16 + RawForm(k), p.value);
  }

  /** Whatever element is accepted is a pattern of its kind, spelled as the writer spells it. */
  lemma TokenIsWritten(k: ElemKind, input: seq<byte>, at: nat)
    requires at <= |input| && ParseAs(k, input, at).Ok?
    ensures var r := ParseAs(k, input, at);
            r.value < Patterns(k) && At(input, at, TokenOf(k, r.value)) && r.next == at + |TokenOf(k, r.value)|
  {
    hide ParsePayload;
    hide Zigzag;
    hide Unzigzag;
    hide FromBigEndian;
    hide BigEndian;
    match k
    case BoolElem =>
      assert input[at..at + 1] == [input[at]];
    case IntElem(w) =>
      var u := ParseToken(input, at, CLASS_INT).value;
      TokenCanonical(input, at, CLASS_INT);
      ZigzagBijection(0, u);
      UnsignedInverse(w, Unzigzag(u));
    case UintElem(_) =>
      TokenCanonical(input, at, CLASS_UINT);
    case _ =>
      var b := input[at + 1..at + 1 + RawWidth(k)];
      RawFits(k);
      FromBigEndianBound(b);
      FromBigEndianInverse(b);
      RawIsWritten(k, input, at);
  }

  lemma ElemRoundTrip(input: seq<byte>, at: nat, b: Bits)
    requires At(input, at, ElemToken(b))
    ensures at <= |input| && ParseElem(input, at) == Ok(b, at + |ElemToken(b)|)
  {
    hide ParseAs;
    hide TokenOf;
    TokenReadsBack(KIND, input, at, b);
  }

  lemma ElemCanonical(input: seq<byte>, at: nat)
    requires at <= |input| && ParseElem(input, at).Ok?
    ensures var r := ParseElem(input, at); At(input, at, ElemToken(r.value)) && r.next == at + |ElemToken(r.value)|
  {
    hide ParseAs;
    hide TokenOf;
    TokenIsWritten(KIND, input, at);
  }

  // ---------------------------------------------------------------- what the decoder stores

  /** A signalling NaN of 32 bits: exponent all ones, quiet bit clear, and not an infinity. */
  predicate IsSignalling(h: u32) { h / 0x80_0000 % 0x100 == 0xff && 0 < h % 0x80_0000 < 0x40_0000 }

  /** Between infinity and the least quiet NaN, whatever the sign. */
  lemma SignallingIff(h: u32)
    ensures IsSignalling(h) <==> 0x7f80_0000 < h % 0x8000_0000 < 0x7fc0_0000
  {
    var e, f := h / 0x80_0000 % 0x100, h % 0x80_0000;
    assert h % 0x8000_0000 == e * 0x80_0000 + f;
  }

  /** A float32 widened to float64 and narrowed back: a signalling NaN comes out quiet (IEEE 754, section 6.2). */
  function Narrowed(h: u32): (r: u32)
    ensures r == h <==> !IsSignalling(h)
    ensures !IsSignalling(r) && (r == 0 <==> h == 0)
  {
    if IsSignalling(h) then h + 0x40_0000 else h
  }

  function RealHalf(b: u64): u32 { b / U32 }

  function ImaginaryHalf(b: u64): u32 { b % U32 }

  /** Some 32-bit float in the element, stored by way of a wider one, is a signalling NaN. */
  predicate Loses(k: ElemKind, b: nat)
    requires b < Patterns(k)
  {
    match k
    case NamedFloat32Elem => IsSignalling(b)
    case Complex64Elem => IsSignalling(RealHalf(b)) || IsSignalling(ImaginaryHalf(b))
    case _ => false
  }

  /** The bits the decoder stores for a parsed element: complex64 and defined float32 types go through wider floats. */
  function Stored(k: ElemKind, b: nat): nat
    requires b < Patterns(k)
  {
    match k
    case NamedFloat32Elem => Narrowed(b)
    case Complex64Elem => Narrowed(RealHalf(b)) * U32 + Narrowed(ImaginaryHalf(b))
    case _ => b
  }

  /** An element is stored as it was written exactly if it holds no such NaN; storing again changes nothing more. */
  lemma StoredExact(k: ElemKind, b: nat)
    requires b < Patterns(k)
    ensures Stored(k, b) < Patterns(k) && (Stored(k, b) == b <==> !Loses(k, b))
    ensures !Loses(k, Stored(k, b)) && (Stored(k, b) == 0 <==> b == 0)
  {
    if k.Complex64Elem? {
      var re, im := Narrowed(RealHalf(b)), Narrowed(ImaginaryHalf(b));
      assert b == RealHalf(b) * U32 + ImaginaryHalf(b);
      assert RealHalf(re * U32 + im) == re && ImaginaryHalf(re * U32 + im) == im;
    }
  }

  /** A float32 NaN that does not come back: 0x7f800001, alone or as the real part of a complex64 element. */
  lemma SignallingLost(input: seq<byte>, at: nat, k: ElemKind, b: nat)
    requires k.NamedFloat32Elem? || k.Complex64Elem?
    requires b == if k.NamedFloat32Elem? then 0x7f80_0001 else 0x7f80_0001 * U32
    requires At(input, at, TokenOf(k, b))
    ensures at <= |input| && ParseAs(k, input, at) == Ok(b, at + |TokenOf(k, b)|)
    ensures Stored(k, b) == if k.NamedFloat32Elem? then 0x7fc0_0001 else 0x7fc0_0001 * U32
    ensures Stored(k, b) != b
  {
    hide TokenOf;
    hide ParseAs;
    TokenReadsBack(k, input, at, b);
  }

  /** The element as the decoder keeps it. */
  function Kept(b: Bits): (r: Bits)
    ensures r == b <==> !Loses(KIND, b)
    ensures r == 0 <==> b == 0
  {
    StoredExact(KIND, b);
    Stored(KIND, b)
  }

  /** What the decoder keeps of memory that holds `n`. */
  function Held(n: nat): Bits { Kept(Pattern(n)) }
}
