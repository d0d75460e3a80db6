/**
  What the rendered bytes of map keys are made of: the tokens of the values themselves (codec_encode.go:3555-3653), with
  the zero values of a type, and no others, elided (codec_encode.go:1713-1782).
 */
module KeyBytes {
  import opened Bytes
  import opened Args
  import opened Integers
  import opened Containers
  import opened Keys
  import E = Elements
  import D = DescWire

  // ---------------------------------------------------------------- tokens

  lemma {:induction false} FromConcat(a: seq<byte>, b: seq<byte>)
    ensures FromBigEndian(a + b) == FromBigEndian(a) * Pow256(|b|) + FromBigEndian(b)
    decreases |b|
  {
    if b == [] {
      assert a + b == a;
    } else {
      var c, x, p := b[..|b| - 1], b[|b| - 1], Pow256(|b| - 1);
      assert (a + b)[..|a + b| - 1] == a + c;
      FromConcat(a, c);
      assert FromBigEndian(a) * (256 * p) == FromBigEndian(a) * p * 256;
    }
  }

  /** Two numbers side by side. */
  lemma BothBytes(r: nat, i: nat, w: nat)
    requires r < Pow256(w) && i < Pow256(w)
    ensures BigEndian(r * Pow256(w) + i, 2 * w) == BigEndian(r, w) + BigEndian(i, w)
  {
    hide BigEndian;
    hide FromBigEndian;
    hide Pow256;
    BigEndianInverse(r, w);
    BigEndianInverse(i, w);
    FromConcat(BigEndian(r, w), BigEndian(i, w));
    FromBigEndianInverse(BigEndian(r, w) + BigEndian(i, w));
  }

  /** The element kind and pattern of a key without parts that is one primitive value. */
  function KindOf(k: Key): E.ElemKind
    requires k.BoolKey? || k.IntKey? || k.UintKey? || k.Float32Key? || k.Float64Key? || k.Complex64Key?
             || k.Complex128Key?
  {
    match k
    case BoolKey(_) => E.BoolElem
    case IntKey(_) => E.IntElem(E.W64)
    case UintKey(_) => E.UintElem(E.W64)
    case Float32Key(_) => E.Float32Elem
    case Float64Key(_) => E.Float64Elem
    case Complex64Key(_, _) => E.Complex64Elem
    case Complex128Key(_, _) => E.Complex128Elem
  }

  function PatternOf(k: Key): (n: nat)
    requires k.BoolKey? || k.IntKey? || k.UintKey? || k.Float32Key? || k.Float64Key? || k.Complex64Key?
             || k.Complex128Key?
  {
    match k
    case BoolKey(b) => if b then 1 else 0
    case IntKey(n) => E.Unsigned(E.W64, n)
    case UintKey(u) => u
    case Float32Key(b) => b
    case Float64Key(b) => b
    case Complex64Key(r, i) => r * 0x1_0000_0000 + i
    case Complex128Key(r, i) => r * U64 + i
  }

  /** The skeleton of a primitive key is the token the value is written as. */
  lemma SkeletonIsToken(k: Key)
    requires k.BoolKey? || k.IntKey? || k.UintKey? || k.Float32Key? || k.Float64Key? || k.Complex64Key?
             || k.Complex128Key?
    ensures PatternOf(k) < E.Patterns(KindOf(k)) && SkelLeaf(k) == E.TokenOf(KindOf(k), PatternOf(k))
  {
    hide BigEndian;
    hide Zigzag;
    Pow256Eight();
    hide Pow256;
    match k
    case IntKey(n) => E.UnsignedInverse(E.W64, n);
    case Complex64Key(r, i) => BothBytes(r, i, 4);
    case Complex128Key(r, i) =>
      BothBytes(r, i, 8);
      assert r * U64 + i <= (U64 - 1) * U64 + i;
    case _ =>
  }

  /** Strings are their literals, big integers their bodies, and the head of an array that of its record. */
  lemma SkeletonIsWritten(k: Key)
    ensures k.StringKey? && |k.s| < U64 ==> SkelLeaf(k) == D.LiteralBytes(k.s)
    ensures k.BigintKey? && Encodable(k.v) ==> SkelLeaf(k) == BigintBytes(k.v)
    ensures k.ArrayKey? && Kids(k) < U64 ==> SkelHeader(k) == HeaderBytes(CLASS_ARRAY, Kids(k), Visited(k))
  {
    hide TokenBytes;
    hide ArgBytes;
    hide BigintBytes;
    hide Visited;
  }

  // ---------------------------------------------------------------- zero values

  /** The zero value of a type. */
  ghost function ZeroOf(t: KeyType): Key
    decreases t
  {
    match t
    case BoolType => BoolKey(false)
    case IntType => IntKey(0)
    case UintType => UintKey(0)
    case Float32Type => Float32Key(0)
    case Float64Type => Float64Key(0)
    case Complex64Type => Complex64Key(0, 0)
    case Complex128Type => Complex128Key(0, 0)
    case StringType => StringKey([])
    case BigintType => BigintKey(NilInt)
    case PtrType(name) => PtrKey(0, name)
    case ArrayType(n, e) => ArrayKey(seq(n, _ => ZeroOf(e)))
    case StructType(fs) => StructKey(seq(|fs|, i requires 0 <= i < |fs| => FieldOf(fs[i], ZeroOf(fs[i].t))))
  }

  function FieldOf(f: FieldType, k: Key): Field {
    match f
    case Shown(_) => ShownField(k)
    case Blank(_) => BlankField(k)
    case Private(_) => PrivateField(k)
  }

  /** No big integers, of which two values are bitwise zero. */
  predicate BigFree(t: KeyType)
    decreases t
  {
    match t
    case BigintType => false
    case ArrayType(_, e) => BigFree(e)
    case StructType(fs) => forall i :: 0 <= i < |fs| ==> BigFree(fs[i].t)
    case _ => true
  }

  lemma ZeroKids(t: KeyType)
    requires t.ArrayType? || t.StructType?
    ensures Kids(ZeroOf(t)) == if t.ArrayType? then t.len else |t.fields|
    ensures t.ArrayType? ==> ZeroOf(t).ArrayKey?
    ensures t.StructType? ==> ZeroOf(t).StructKey? && |ZeroOf(t).fields| == |t.fields|
    ensures forall i :: 0 <= i < Kids(ZeroOf(t)) ==> Kid(ZeroOf(t), i) == ZeroOf(KidType(ZeroOf(t), t, i))
  {
  }

  /** Elision takes the zero value of every type. */
  lemma {:induction false} ZeroElided(t: KeyType)
    ensures IsBitZero(ZeroOf(t))
    decreases t, 1, 0
  {
    if t.ArrayType? || t.StructType? {
      ZeroKids(t);
      ZeroKidsElided(t, Kids(ZeroOf(t)));
    }
  }

  lemma {:induction false} ZeroKidsElided(t: KeyType, n: nat)
    requires (t.ArrayType? || t.StructType?) && n <= Kids(ZeroOf(t))
    ensures KidsZero(ZeroOf(t), n)
    decreases t, 0, n
  {
    hide IsBitZero;
    ZeroKids(t);
    hide ZeroOf;
    if n > 0 {
      ZeroKidsElided(t, n - 1);
      ZeroElided(KidType(ZeroOf(t), t, n - 1));
    }
  }

  /** And nothing else: what is elided is the zero value, bit for bit. */
  lemma {:induction false} OnlyZeroElided(k: Key, t: KeyType)
    requires HasType(k, t) && BigFree(t) && IsBitZero(k)
    ensures k == ZeroOf(t)
    decreases k, Kids(k) + 1
  {
    if k.ArrayKey? || k.StructKey? {
      OnlyZeroKids(k, t, Kids(k));
      ZeroKids(t);
      SameParts(k, ZeroOf(t), t);
    }
  }

  lemma {:induction false} OnlyZeroKids(k: Key, t: KeyType, n: nat)
    requires (k.ArrayKey? ==> t.ArrayType?) && (k.StructKey? ==> t.StructType? && |k.fields| == |t.fields|)
    requires (k.ArrayKey? || k.StructKey?) && BigFree(t) && n <= Kids(k) && KidsTyped(k, t, n) && KidsZero(k, n)
    ensures forall i :: 0 <= i < n ==> Kid(k, i) == ZeroOf(KidType(k, t, i)) && SameSort(k, t, i)
    decreases k, n
  {
    hide IsBitZero;
    hide HasType;
    hide ZeroOf;
    if n > 0 {
      OnlyZeroKids(k, t, n - 1);
      OnlyZeroElided(Kid(k, n - 1), KidType(k, t, n - 1));
    }
  }

  lemma SameParts(k: Key, z: Key, t: KeyType)
    requires (k.ArrayKey? && z.ArrayKey? && t.ArrayType?)
             || (k.StructKey? && z.StructKey? && t.StructType? && |k.fields| == |t.fields| && z == ZeroOf(t))
    requires Kids(k) == Kids(z) && forall i :: 0 <= i < Kids(k) ==> Kid(k, i) == Kid(z, i) && SameSort(k, t, i)
    ensures k == z
  {
    if k.ArrayKey? {
      forall i | 0 <= i < |k.elems|
        ensures k.elems[i] == z.elems[i]
      {
        assert Kid(k, i) == Kid(z, i);
      }
      assert k.elems == z.elems;
    } else {
      forall i | 0 <= i < |k.fields|
        ensures k.fields[i] == z.fields[i]
      {
        assert Kid(k, i) == Kid(z, i) && SameSort(k, t, i);
        assert z.fields[i] == FieldOf(t.fields[i], ZeroOf(t.fields[i].t));
      }
      assert k.fields == z.fields;
    }
  }
}
