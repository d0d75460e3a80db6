/**
  The bytes themselves: the argument and token tables for all arguments, and vectors of the format
  (internal/wire/golden_test.go:57-600, codec_golden_test.go:46-100).
 */
module Vectors {
  import opened Bytes
  import opened Args
  import opened Integers
  import opened Containers
  import E = Elements

  /** Four bytes, the most significant first. */
  function Quad(n: nat): seq<byte> { [n / 0x100_0000 % 256, n / 0x1_0000 % 256, n / 0x100 % 256, n % 256] }

  lemma FourBytes(n: nat)
    ensures BigEndian(n, 4) == Quad(n)
  {
    var a := n / 256;
    var b := a / 256;
    var c := b / 256;
    assert b == n / 0x1_0000 && c == n / 0x100_0000;
    assert BigEndian(c, 1) == BigEndian(c / 256, 0) + [c % 256] == [c % 256];
    assert BigEndian(b, 2) == [c % 256, b % 256] && BigEndian(a, 3) == [c % 256, b % 256, a % 256];
  }

  lemma EightBytes(n: nat)
    ensures BigEndian(n, 8) == Quad(n / 0x1_0000_0000) + Quad(n)
  {
    var a := n / 256;
    var b := a / 256;
    var c := b / 256;
    var d := c / 256;
    assert b == n / 0x1_0000 && c == n / 0x100_0000 && d == n / 0x1_0000_0000;
    FourBytes(d);
    LastByte(n, 7);
    LastByte(a, 6);
    LastByte(b, 5);
    LastByte(c, 4);
    hide BigEndian;
    assert BigEndian(n, 8) == Quad(d) + [c % 256] + [b % 256] + [a % 256] + [n % 256];
  }

  lemma LastByte(n: nat, w: nat)
    ensures BigEndian(n, w + 1) == BigEndian(n / 256, w) + [n % 256]
  {
  }

  /** Every argument: itself up to 11, from 12 on a selector from 0x0c to 0x0f and one, two, four or eight bytes. */
  lemma ArgTable(n: u64)
    ensures n <= 11 ==> ArgBytes(n) == [n]
    ensures 12 <= n <= 0xff ==> ArgBytes(n) == [0x0c, n]
    ensures 0x100 <= n <= 0xffff ==> ArgBytes(n) == [0x0d, n / 256, n % 256]
    ensures 0x1_0000 <= n <= 0xffff_ffff ==> ArgBytes(n) == [0x0e] + Quad(n)
    ensures 0x1_0000_0000 <= n ==> ArgBytes(n) == [0x0f] + (Quad(n / 0x1_0000_0000) + Quad(n))
  {
    hide Quad;
    hide BigEndian;
    if n <= 11 {
      NoBytes(n);
    } else if n <= 0xffff {
      FewBytes(n);
    } else if n <= 0xffff_ffff {
      FourBytes(n);
    } else {
      EightBytes(n);
    }
  }

  lemma FewBytes(n: nat)
    ensures BigEndian(n, 1) == [n % 256] && BigEndian(n, 2) == [n / 256 % 256, n % 256]
  {
    NoBytes(n / 256);
    assert BigEndian(n / 256, 1) == BigEndian(n / 256 / 256, 0) + [n / 256 % 256] == [n / 256 % 256];
  }

  lemma NoBytes(n: nat)
    ensures BigEndian(n, 0) == []
  {
  }

  /** A token is the argument with its class in the high nibble of the first byte. */
  lemma TokenTable(cls: byte, n: u64)
    requires cls < 16
    ensures TokenBytes(cls, n) == [cls * 16 + ArgBytes(n)[0]] + ArgBytes(n)[1..]
  {
    assert ArgBytes(n)[1..] == ArgPayload(n);
  }

  /** An integer token is its zigzag image under class 2. */
  lemma IntToken(w: E.Width, b: nat, u: u64)
    requires b < E.Range(w) && Zigzag(E.Signed(w, b)) == u
    ensures E.TokenOf(E.IntElem(w), b) == TokenBytes(2, u)
  {
  }

  lemma IntVectors()
    ensures E.TokenOf(E.IntElem(E.W64), 0) == [0x20] && E.TokenOf(E.IntElem(E.W64), 1) == [0x22]
    ensures E.TokenOf(E.IntElem(E.W64), U64 - 1) == [0x21] && E.TokenOf(E.IntElem(E.W64), U64 - 2) == [0x23]
    ensures E.TokenOf(E.IntElem(E.W64), 127) == [0x2c, 0xfe] && E.TokenOf(E.IntElem(E.W64), 128) == [0x2d, 1, 0]
    ensures E.TokenOf(E.IntElem(E.W8), 0xff) == [0x21] && E.TokenOf(E.IntElem(E.W16), 0xffff) == [0x21]
  {
    IntToken(E.W64, 0, 0);
    IntToken(E.W64, 1, 2);
    IntToken(E.W64, U64 - 1, 1);
    IntToken(E.W64, U64 - 2, 3);
    IntToken(E.W64, 127, 254);
    IntToken(E.W64, 128, 256);
    IntToken(E.W8, 0xff, 1);
    IntToken(E.W16, 0xffff, 1);
    SmallTokens(2, 0);
    SmallTokens(2, 1);
    SmallTokens(2, 2);
    SmallTokens(2, 3);
    SmallTokens(2, 254);
    SmallTokens(2, 256);
    hide E.TokenOf;
    hide TokenBytes;
  }

  lemma SmallTokens(cls: byte, n: u64)
    requires cls < 16
    ensures n <= 11 ==> TokenBytes(cls, n) == [cls * 16 + n]
    ensures 12 <= n <= 0xff ==> TokenBytes(cls, n) == [cls * 16 + 12, n]
    ensures 0x100 <= n <= 0xffff ==> TokenBytes(cls, n) == [cls * 16 + 13, n / 256, n % 256]
  {
    ArgTable(n);
    TokenTable(cls, n);
    hide ArgBytes;
    hide TokenBytes;
  }

  lemma OtherVectors()
    ensures E.TokenOf(E.BoolElem, 0) == [0x10] && E.TokenOf(E.BoolElem, 1) == [0x11]
    ensures E.TokenOf(E.UintElem(E.W64), 12) == [0x3c, 0x0c]
    ensures BigintBytes(NilInt) == [0] == BigintBytes(Int(0)) && BigintBytes(Int(-1)) == [1]
            && BigintBytes(Int(6)) == [0x0c, 12]
  {
    SmallTokens(3, 12);
    ArgTable(0);
    ArgTable(1);
    ArgTable(12);
    hide TokenBytes;
    hide ArgBytes;
  }

  /** A float token is its bits under the class and form of its kind. */
  lemma RawToken(k: E.ElemKind, b: nat)
    requires b < E.Patterns(k)
    ensures k.Float32Elem? || k.NamedFloat32Elem? ==> E.TokenOf(k, b) == [0x40] + Quad(b)
    ensures k.Float64Elem? ==> E.TokenOf(k, b) == [0x41] + (Quad(b / 0x1_0000_0000) + Quad(b))
    ensures k.Complex64Elem? ==> E.TokenOf(k, b) == [0x50] + (Quad(b / 0x1_0000_0000) + Quad(b))
  {
    hide Quad;
    hide BigEndian;
    FourBytes(b);
    EightBytes(b);
  }

  lemma QuadVectors()
    ensures Quad(0x7fc0_0001) == [0x7f, 0xc0, 0, 1]
    ensures 0x8000_0000_0000_0000 / 0x1_0000_0000 == 0x8000_0000 && Quad(0x8000_0000_0000_0000) == [0, 0, 0, 0]
            && Quad(0x8000_0000) == [0x80, 0, 0, 0]
    ensures 0x7ff8_0000_0000_0001 / 0x1_0000_0000 == 0x7ff8_0000 && Quad(0x7ff8_0000_0000_0001) == [0, 0, 0, 1]
            && Quad(0x7ff8_0000) == [0x7f, 0xf8, 0, 0]
    ensures 0x3f80_0000_7fc0_0001 / 0x1_0000_0000 == 0x3f80_0000 && Quad(0x3f80_0000_7fc0_0001) == [0x7f, 0xc0, 0, 1]
            && Quad(0x3f80_0000) == [0x3f, 0x80, 0, 0]
  {
  }

  lemma FloatVectors()
    ensures E.TokenOf(E.Float32Elem, 0x7fc0_0001) == [0x40, 0x7f, 0xc0, 0, 1]
    ensures E.TokenOf(E.NamedFloat32Elem, 0x7fc0_0001) == [0x40, 0x7f, 0xc0, 0, 1]
    ensures E.TokenOf(E.Float64Elem, 0x8000_0000_0000_0000) == [0x41, 0x80, 0, 0, 0, 0, 0, 0, 0]
    ensures E.TokenOf(E.Float64Elem, 0x7ff8_0000_0000_0001) == [0x41, 0x7f, 0xf8, 0, 0, 0, 0, 0, 1]
    ensures E.TokenOf(E.Complex64Elem, 0x3f80_0000_7fc0_0001) == [0x50, 0x3f, 0x80, 0, 0, 0x7f, 0xc0, 0, 1]
  {
    hide E.TokenOf;
    QuadVectors();
    hide Quad;
    RawToken(E.Float32Elem, 0x7fc0_0001);
    RawToken(E.NamedFloat32Elem, 0x7fc0_0001);
    RawToken(E.Float64Elem, 0x8000_0000_0000_0000);
    RawToken(E.Float64Elem, 0x7ff8_0000_0000_0001);
    RawToken(E.Complex64Elem, 0x3f80_0000_7fc0_0001);
  }

  lemma HeaderVectors()
    ensures HeaderBytes(CLASS_ARRAY, 3, 2) == [0x83, 2] && HeaderBytes(CLASS_BLOB, 5, 2) == [0x75, 2]
    ensures HeaderBytes(CLASS_ARRAY, 0x10_0000, 2) == [0x8e, 0, 0x10, 0, 0, 2]
  {
    hide ArgBytes;
    hide TokenBytes;
    SmallTokens(8, 3);
    SmallTokens(7, 5);
    ArgTable(2);
    ArgTable(0x10_0000);
    TokenTable(8, 0x10_0000);
    assert [0x0e] + Quad(0x10_0000) == [0x0e, 0, 0x10, 0, 0];
  }

  lemma ViewVectors()
    ensures ViewBytes(View(1, 0, 0, 0), 0) == [0x90, 1] && ViewBytes(View(1, 0, 0, 0), 5) == [0x91, 1, 0, 0]
    ensures ViewBytes(View(1, 2, 3, 3), 5) == [0x91, 1, 2, 3] && ViewBytes(View(1, 2, 3, 4), 6) == [0x92, 1, 2, 3, 4]
  {
    hide ArgBytes;
    ArgTable(0);
    ArgTable(1);
    ArgTable(2);
    ArgTable(3);
    ArgTable(4);
  }
}

/** Vectors of whole descriptors and values. */
module ValueVectors {
  import opened Bytes
  import opened Args
  import opened Integers
  import opened Containers
  import opened Descriptors
  import opened Vectors
  import opened Acceptance
  import E = Elements
  import D = DescWire
  import S = SkipPath

  const NAME_POINT: seq<byte> := [0x50, 0x6f, 0x69, 0x6e, 0x74]
  const NAME_INT64: seq<byte> := [0x69, 0x6e, 0x74, 0x36, 0x34]

  /** struct Point { X, Y int64 } */
  function PointGraph(): Graph {
    [Desc(KIND_STRUCT, NAME_POINT, 0, 0, 0, [Field([0x58], 1), Field([0x59], 1)], []),
     Desc(KIND_INT, NAME_INT64, 8, 0, 0, [], [])]
  }

  lemma PointOk()
    ensures D.GraphOk(PointGraph())
  {
    var g := PointGraph();
    forall n, i | 0 <= n < |g| && 0 <= i < Kids(g[n])
      ensures KidIn(g, n, i)
    {
    }
  }

  /** A literal string of up to eleven bytes. */
  lemma ShortLiteral(w: D.Writer, s: seq<byte>)
    requires s !in w.strs && |s| <= 11
    ensures D.WriteString(w, s)
         == (D.Writer(w.strs[s := w.nextID], w.descs, w.nextID + 1), [0x60 + |s|] + s)
  {
    SmallTokens(6, |s|);
    hide TokenBytes;
  }

  /** A descriptor not met before: its opening, then its type positions. */
  lemma LiteralIs(g: Graph, n: nat, w: D.Writer)
    requires D.GraphOk(g) && D.ClaimsIn(g, w) && n < |g| && g[n].name !in w.descs
    ensures g[n].kind < MAX_KIND
    ensures var (w1, head) := D.Opening(g[n], D.Claimed(g, n, w));
            && D.ClaimsIn(g, w1)
            && var rest := D.WriteKids(g, n, 0, w1);
               rest.Wrote? ==> D.WriteDesc(g, n, w) == D.Wrote(rest.w, head + rest.b)
  {
    hide D.WriteKids;
    D.KindFits(g, n);
    D.OpeningKeeps(g[n], D.Claimed(g, n, w));
    D.NextName(g, n, w);
  }

  lemma Int64Opening(c: D.Writer)
    requires NAME_INT64 !in c.strs
    ensures D.Opening(PointGraph()[1], c)
         == (D.Writer(c.strs[NAME_INT64 := c.nextID], c.descs, c.nextID + 1),
             [0xd8, 0x65, 0x69, 0x6e, 0x74, 0x36, 0x34, 8])
  {
    ShortLiteral(c, NAME_INT64);
    ArgTable(8);
    hide ArgBytes;
    hide D.WriteString;
    assert D.KindBytes(KIND_INT) == [0xd8];
    assert [0xd8] + (([0x60 + |NAME_INT64|] + NAME_INT64) + [8]) == [0xd8, 0x65, 0x69, 0x6e, 0x74, 0x36, 0x34, 8];
  }

  lemma Int64Written(w: D.Writer)
    requires w.descs.Keys == {NAME_POINT} && w.descs[NAME_POINT].node == 0 && NAME_INT64 !in w.strs
    ensures D.GraphOk(PointGraph())
    ensures D.WriteDesc(PointGraph(), 1, w)
         == D.Wrote(D.Writer(w.strs[NAME_INT64 := w.nextID + 1], w.descs[NAME_INT64 := D.Claim(w.nextID, 1)],
                             w.nextID + 2),
                    [0xd8, 0x65, 0x69, 0x6e, 0x74, 0x36, 0x34, 8])
  {
    PointOk();
    var g := PointGraph();
    hide D.GraphOk;
    hide D.WriteKids;
    hide D.WriteDesc;
    hide D.Opening;
    hide D.WriteString;
    var c := D.Claimed(g, 1, w);
    Int64Opening(c);
    var w1 := D.Opening(g[1], c).0;
    D.NoKids([], 0, g, 1, w1, []);
    LiteralIs(g, 1, w);
    assert D.Opening(g[1], c).1 + [] == D.Opening(g[1], c).1;
  }

  lemma FieldWritten(w: D.Writer, i: nat, o: D.Written)
    requires i < 2 && D.ClaimsIn(PointGraph(), w) && PointGraph()[0].fields[i].name !in w.strs
    requires D.GraphOk(PointGraph())
    requires var w1 := D.WriteString(w, PointGraph()[0].fields[i].name).0;
      o == D.WriteDesc(PointGraph(), 1, w1) && o.Wrote? && D.WriteKids(PointGraph(), 0, i + 1, o.w).Wrote?
    ensures var rest := D.WriteKids(PointGraph(), 0, i + 1, o.w);
            D.WriteKids(PointGraph(), 0, i, w)
              == D.Wrote(rest.w, [0x61] + PointGraph()[0].fields[i].name + (o.b + rest.b))
  {
    var g := PointGraph();
    hide D.GraphOk;
    hide D.WriteDesc;
    ShortLiteral(w, g[0].fields[i].name);
    hide D.WriteString;
    assert Kid(g[0], i) == 1 && KidIn(g, 0, i);
  }

  lemma Int64Again(w: D.Writer)
    requires NAME_INT64 in w.descs && w.descs[NAME_INT64] == D.Claim(3, 1) && D.ClaimsIn(PointGraph(), w)
    ensures D.GraphOk(PointGraph()) && D.WriteDesc(PointGraph(), 1, w) == D.Wrote(w, [0xc3])
  {
    PointOk();
    SmallTokens(0xc, 3);
    hide TokenBytes;
    hide D.GraphOk;
    assert DescEqual(PointGraph(), 1, 1);
  }

  /** The second field: its type is a REF to the record of the first's. */
  lemma SecondField(w: D.Writer)
    requires NAME_INT64 in w.descs && w.descs[NAME_INT64] == D.Claim(3, 1) && D.ClaimsIn(PointGraph(), w)
             && [0x59] !in w.strs
    ensures D.GraphOk(PointGraph())
    ensures var r := D.WriteKids(PointGraph(), 0, 1, w);
            r.Wrote? && r.w.nextID == w.nextID + 1 && r.b == [0x61, 0x59, 0xc3]
  {
    PointOk();
    var g := PointGraph();
    hide D.GraphOk;
    hide D.WriteDesc;
    ShortLiteral(w, [0x59]);
    var w3 := D.WriteString(w, [0x59]).0;
    hide D.WriteString;
    Int64Again(w3);
    D.NoKids([], 0, g, 0, w3, []);
    FieldWritten(w, 1, D.WriteDesc(g, 1, w3));
  }

  lemma FirstName(w: D.Writer)
    requires w == D.Writer(map[NAME_POINT := 1], map[NAME_POINT := D.Claim(0, 0)], 2)
    ensures D.WriteString(w, [0x58])
         == (D.Writer(map[NAME_POINT := 1, [0x58] := 2], map[NAME_POINT := D.Claim(0, 0)], 3), [0x61, 0x58])
  {
    ShortLiteral(w, [0x58]);
    hide D.WriteString;
    assert w.strs[[0x58] := 2] == map[NAME_POINT := 1, [0x58] := 2];
    var x: seq<byte> := [0x58];
    assert [0x60 + |x|] + x == [0x61, 0x58];
  }

  lemma BothFields(w: D.Writer)
    requires w == D.Writer(map[NAME_POINT := 1], map[NAME_POINT := D.Claim(0, 0)], 2)
    ensures D.GraphOk(PointGraph())
    ensures var r := D.WriteKids(PointGraph(), 0, 0, w);
            && r.Wrote? && r.w.nextID == 6
            && r.b == [0x61, 0x58, 0xd8, 0x65, 0x69, 0x6e, 0x74, 0x36, 0x34, 0x08, 0x61, 0x59, 0xc3]
  {
    PointOk();
    var g := PointGraph();
    hide D.GraphOk;
    hide D.WriteDesc;
    hide D.WriteKids;
    hide D.Claimed;
    hide DescEqual;
    hide TokenBytes;
    var w2 := D.Writer(map[NAME_POINT := 1, [0x58] := 2], map[NAME_POINT := D.Claim(0, 0)], 3);
    FirstName(w);
    hide D.WriteString;
    Int64Written(w2);
    var o := D.WriteDesc(g, 1, w2);
    SecondField(o.w);
    FieldWritten(w, 0, o);
  }

  /** A struct of two fields of one type. */
  lemma PointVector()
    ensures D.GraphOk(PointGraph())
    ensures var r := D.WriteDesc(PointGraph(), 0, D.Writer(map[], map[], 0));
            && r.Wrote? && r.w.nextID == 6
            && r.b == [0xd0, 0x65, 0x50, 0x6f, 0x69, 0x6e, 0x74, 0x02, 0x61, 0x58, 0xd8, 0x65, 0x69, 0x6e, 0x74, 0x36,
                       0x34, 0x08, 0x61, 0x59, 0xc3]
  {
    PointOk();
    hide D.GraphOk;
    hide D.WriteKids;
    hide D.WriteDesc;
    hide D.Opening;
    var w := D.Writer(map[], map[], 0);
    PointOpening();
    BothFields(D.Writer(map[NAME_POINT := 1], map[NAME_POINT := D.Claim(0, 0)], 2));
    LiteralIs(PointGraph(), 0, w);
  }

  lemma PointOpening()
    ensures D.Opening(PointGraph()[0], D.Claimed(PointGraph(), 0, D.Writer(map[], map[], 0)))
         == (D.Writer(map[NAME_POINT := 1], map[NAME_POINT := D.Claim(0, 0)], 2),
             [0xd0, 0x65, 0x50, 0x6f, 0x69, 0x6e, 0x74, 0x02])
  {
    var c := D.Writer(map[], map[NAME_POINT := D.Claim(0, 0)], 1);
    assert D.Claimed(PointGraph(), 0, D.Writer(map[], map[], 0)) == c;
    ShortLiteral(c, NAME_POINT);
    assert c.strs[NAME_POINT := 1] == map[NAME_POINT := 1];
    ArgTable(2);
    hide ArgBytes;
    hide D.WriteString;
    assert D.KindBytes(KIND_STRUCT) == [0xd0];
    assert [0xd0] + (([0x60 + |NAME_POINT|] + NAME_POINT) + [2]) == [0xd0, 0x65, 0x50, 0x6f, 0x69, 0x6e, 0x74, 0x02];
  }

  /** Nil slice, blob and map; the head of a struct, and a REF to a map. */
  lemma FlatVectors(d: Desc, p: Pen, fs: seq<Datum>)
    ensures Flat(d, NilContainer, p).1 == if d.kind == KIND_MAP then [0x02] else [0x01]
    ensures Head(Struct(fs)) == [0xb0]
    ensures Flat(d, KnownMap(0), p).1 == [0xc0]
    ensures Flat(d, KnownMap(12), p).1 == [0xcc, 12]
  {
    SmallTokens(0xc, 0);
    SmallTokens(0xc, 12);
    hide TokenBytes;
  }

  /** A string and the same string again, five records into the stream. */
  lemma LineVectors(p: Pen, s: seq<byte>)
    requires |p.recs| == 5 && s == [0x64, 0x75, 0x70] && s !in p.strs
    ensures PutLine(p, s).1 == [0x63, 0x64, 0x75, 0x70] && PutLine(PutLine(p, s).0, s) == (PutLine(p, s).0, [0xc5])
  {
    ShortLiteral(D.Writer(p.strs, map[], 5), s);
    SmallTokens(0xc, 5);
    hide TokenBytes;
  }

  /** Four integers of which the first is not zero, record 4 of the stream, and the window over all of them. */
  lemma BackingVector(five: Datum, zero: Datum)
    requires five == Scalar(E.IntElem(E.W64), 5) && zero == Scalar(E.IntElem(E.W64), 0)
    ensures var x := Backing([five, zero, zero, zero], 0, 4, 4);
            Parts(x) == 1 && Head(x) == [0x84, 1] && Tail(x, 4) == [0x90, 4]
  {
    var es := [five, zero, zero, zero];
    assert es[..3] == [five, zero, zero] && es[..3][..2] == [five, zero] && es[..3][..2][..1] == [five];
    assert DenseCount([five]) == 1 && DenseCount([five, zero]) == 1 && DenseCount([five, zero, zero]) == 1;
    SmallTokens(8, 4);
    ArgTable(1);
    ArgTable(4);
    hide TokenBytes;
    hide ArgBytes;
  }

  /** The heads of a map of two pairs and of a blob of zeros. */
  lemma HeadVectors(a: Datum, b: Datum)
    ensures Head(Pairs([a, b], [b, a])) == [0xa2]
    ensures var x := Blob([0, 0], 0, 2, 2); Head(x) == [0x72, 0] && Tail(x, 4) == [0x90, 4]
  {
    var z: seq<byte> := [0, 0];
    assert z[..1] == [0] && DenseBytes([]) == 0 && z[..1][..0] == [];
    assert DenseBytes(z) == 0;
    SmallTokens(0xa, 2);
    SmallTokens(7, 2);
    ArgTable(0);
    ArgTable(4);
    hide TokenBytes;
    hide ArgBytes;
  }

  /** The first bytes of descriptors of every kind. */
  lemma KindVectors()
    ensures D.KindBytes(KIND_STRUCT) == [0xd0] && D.KindBytes(KIND_SLICE) == [0xd1] && D.KindBytes(KIND_ARRAY) == [0xd2]
    ensures D.KindBytes(KIND_MAP) == [0xd3] && D.KindBytes(KIND_NAMED) == [0xd4] && D.KindBytes(KIND_POINTER) == [0xd5]
    ensures D.KindBytes(S.KIND_BOOL) == [0xd7] && D.KindBytes(KIND_INT) == [0xd8] && D.KindBytes(KIND_UINT) == [0xd9]
    ensures D.KindBytes(KIND_FLOAT) == [0xda] && D.KindBytes(KIND_COMPLEX) == [0xdb]
    ensures D.KindBytes(S.KIND_STRING) == [0xdc, 0x0c] && D.KindBytes(S.KIND_BLOB) == [0xdc, 0x0d]
    ensures D.KindBytes(KIND_CODER) == [0xdc, 0x0e] && D.KindBytes(S.KIND_BIGINT) == [0xdc, 0x0f]
  {
  }

  /** The descriptors of the basic types can be written, of every width. */
  lemma BasicDescs(name: seq<byte>, w: u64)
    requires |name| < U64
    ensures w == 1 || w == 2 || w == 4 || w == 8
        ==> D.WellFormed(Desc(KIND_INT, name, w, 0, 0, [], [])) && D.WellFormed(Desc(KIND_UINT, name, w, 0, 0, [], []))
    ensures w == 4 || w == 8 || w == 16 ==> D.WellFormed(Desc(KIND_FLOAT, name, w, 0, 0, [], []))
    ensures w == 4 || w == 8 ==> D.WellFormed(Desc(KIND_COMPLEX, name, w, 0, 0, [], []))
    ensures D.WellFormed(Desc(S.KIND_BOOL, name, 0, 0, 0, [], []))
    ensures D.WellFormed(Desc(S.KIND_STRING, name, 0, 0, 0, [], []))
    ensures D.WellFormed(Desc(S.KIND_BLOB, name, 0, 0, 0, [], []))
    ensures D.WellFormed(Desc(S.KIND_BIGINT, name, 0, 0, 0, [], []))
    ensures D.WellFormed(Desc(KIND_CODER, name, 0, 0, w, [], []))
  {
  }

  /** And those of composite types, whatever their parts. */
  lemma CompositeDescs(name: seq<byte>, len: u64, a: nat, b: nat, fields: seq<Field>)
    requires |name| < U64 && |fields| < U64 && forall i :: 0 <= i < |fields| ==> |fields[i].name| < U64
    ensures D.WellFormed(Desc(KIND_STRUCT, name, 0, 0, 0, fields, []))
    ensures D.WellFormed(Desc(KIND_SLICE, name, 0, 0, 0, [], [a]))
    ensures D.WellFormed(Desc(KIND_POINTER, name, 0, 0, 0, [], [a]))
    ensures D.WellFormed(Desc(KIND_NAMED, name, 0, 0, 0, [], [a]))
    ensures D.WellFormed(Desc(KIND_ARRAY, name, 0, len, 0, [], [a]))
    ensures D.WellFormed(Desc(KIND_MAP, name, 0, 0, 0, [], [a, b]))
  {
  }
}
