/**
  What is written is accepted. Values are written by their descriptors (codec_encode.go:1786-1820, 2384-2571, 2637-2674,
  2757-2920; internal/wire/value.go:28-196, 299-340), and both reading paths, decoding and skipping, take the bytes
  of every well-typed value up to their exact end.
 */
module Acceptance {
  import opened Bytes
  import opened Args
  import opened Integers
  import opened Containers
  import opened Descriptors
  import opened SkipPath
  import E = Elements
  import D = DescWire

  // ---------------------------------------------------------------- values

  /**
    A value as it is written: a container is nil, a window over a record that stands before, or a record of its own
    with the window over it.
   */
  datatype Datum =
    | Scalar(k: E.ElemKind, bits: nat)
    | Big(v: Bigint)
    | Line(s: seq<byte>)
    | Struct(fields: seq<Datum>)
    | Array(elems: seq<Datum>)
    | NilContainer
    | Window(view: View)
    | Backing(elems: seq<Datum>, off: u64, len: u64, cap: u64)
    | Blob(b: seq<byte>, off: u64, len: u64, cap: u64)
    | KnownMap(id: nat)
    | Pairs(keys: seq<Datum>, vals: seq<Datum>)

  /** The bitwise-zero test of elision. */
  predicate IsZero(x: Datum)
    decreases x
  {
    match x
    case Scalar(_, b) => b == 0
    case Big(v) => v == NilInt || v == Int(0)
    case Line(s) => s == []
    case Struct(fs) => forall i :: 0 <= i < |fs| ==> IsZero(fs[i])
    case Array(es) => forall i :: 0 <= i < |es| ==> IsZero(es[i])
    case NilContainer => true
    case _ => false
  }

  /** One past the last element that is not zero. */
  function DenseCount(es: seq<Datum>): (n: nat)
    ensures n <= |es|
  {
    if es == [] then 0
    else if !IsZero(es[|es| - 1]) then |es|
    else DenseCount(es[..|es| - 1])
  }

  /** One past the last byte that is not zero. */
  function DenseBytes(b: seq<byte>): (n: nat)
    ensures n <= |b| && (n > 0 ==> b[n - 1] != 0)
  {
    if b == [] then 0
    else if b[|b| - 1] != 0 then |b|
    else DenseBytes(b[..|b| - 1])
  }

  /** How many positions are written inside: fields, dense elements, keys and values by turns. */
  function Parts(x: Datum): nat {
    match x
    case Struct(fs) => |fs|
    case Array(es) => DenseCount(es)
    case Backing(es, _, _, _) => DenseCount(es)
    case Pairs(ks, vs) => if |ks| == |vs| then 2 * |ks| else 0
    case _ => 0
  }

  function Part(x: Datum, j: nat): (c: Datum)
    requires j < Parts(x)
    ensures c < x
  {
    match x
    case Struct(fs) => fs[j]
    case Array(es) => es[j]
    case Backing(es, _, _, _) => es[j]
    case Pairs(ks, vs) => if j % 2 == 0 then ks[j / 2] else vs[j / 2]
  }

  /** The type position of part `j`. */
  function PartKid(d: Desc, j: nat): nat {
    if d.kind == KIND_STRUCT then j else if d.kind == KIND_MAP then j % 2 else 0
  }

  /** The kind of element that a scalar descriptor stands for. */
  predicate ScalarKind(d: Desc, k: E.ElemKind) {
    match k
    case BoolElem => d.kind == KIND_BOOL
    case IntElem(w) => d.kind == KIND_INT && d.width == WidthOf(w)
    case UintElem(w) => d.kind == KIND_UINT && d.width == WidthOf(w)
    case Float64Elem => d.kind == KIND_FLOAT && d.width == 8
    case Complex64Elem => d.kind == KIND_COMPLEX && d.width == 4
    case Complex128Elem => d.kind == KIND_COMPLEX && d.width == 8
    case _ => d.kind == KIND_FLOAT && d.width == 4
  }

  function WidthOf(w: E.Width): u64 {
    match w
    case W8 => 1
    case W16 => 2
    case W32 => 4
    case W64 => 8
  }

  // ---------------------------------------------------------------- writing

  /** The writer between positions: the strings it knows by id, and its records. */
  datatype Pen = Pen(strs: map<seq<byte>, nat>, recs: seq<Record>) {
    function Add(kind: RecordKind, length: u64): Pen { Pen(strs, recs + [Record(kind, length)]) }
  }

  /** A string position. */
  function PutLine(p: Pen, s: seq<byte>): (Pen, seq<byte>) {
    var (w, b) := D.WriteString(D.Writer(p.strs, map[], |p.recs|), s);
    (if w.nextID == |p.recs| then p else Pen(w.strs, p.recs + [Record(StringRecord, 0)]), b)
  }

  /** The writer once the record of the position itself is open. */
  function Opened(x: Datum, p: Pen): Pen {
    match x
    case Array(es) => p.Add(ArrayRecord, D.Low(|es|))
    case Backing(es, _, _, _) => p.Add(ArrayRecord, D.Low(|es|))
    case Blob(b, _, _, _) => p.Add(BlobRecord, D.Low(|b|))
    case Pairs(_, _) => p.Add(MapRecord, 0)
    case _ => p
  }

  /** What stands before the parts. */
  function Head(x: Datum): seq<byte> {
    match x
    case Struct(_) => [CLASS_STRUCT * 16]
    case Array(es) => HeaderBytes(CLASS_ARRAY, D.Low(|es|), D.Low(DenseCount(es)))
    case Backing(es, _, _, _) => HeaderBytes(CLASS_ARRAY, D.Low(|es|), D.Low(DenseCount(es)))
    case Blob(b, _, _, _) => HeaderBytes(CLASS_BLOB, D.Low(|b|), D.Low(DenseBytes(b))) + b[..DenseBytes(b)]
    case Pairs(ks, _) => TokenBytes(CLASS_MAP, D.Low(|ks|))
    case _ => []
  }

  /** What stands after them: the window over the record. */
  function Tail(x: Datum, id: nat): seq<byte> {
    match x
    case Backing(es, off, len, cap) => ViewBytes(View(D.Low(id), off, len, cap), D.Low(|es|))
    case Blob(b, off, len, cap) => ViewBytes(View(D.Low(id), off, len, cap), D.Low(|b|))
    case _ => []
  }

  /** Positions without parts. */
  function Flat(d: Desc, x: Datum, p: Pen): (Pen, seq<byte>) {
    match x
    case Scalar(k, b) => (p, if b < E.Patterns(k) then E.TokenOf(k, b) else [])
    case Big(v) => (p, if Encodable(v) then BigintBytes(v) else [])
    case Line(s) => PutLine(p, s)
    case NilContainer => (p, [CLASS_NIL * 16 + if d.kind == KIND_MAP then 2 else 1])
    case Window(v) => (p, ViewBytes(v, if v.id < |p.recs| then p.recs[v.id].length else 0))
    case KnownMap(id) => (p, D.RefBytes(id))
    case _ => (p, [])
  }

  predicate HasParts(x: Datum) { x.Struct? || x.Array? || x.Backing? || x.Blob? || x.Pairs? }

  /** Writes a position of descriptor `n`. */
  ghost function Put(g: Graph, h: seq<nat>, keys: set<nat>, n: nat, x: Datum, p: Pen): (Pen, seq<byte>)
    requires GraphOk(g, h, keys) && n < |g|
    decreases x, 1, h[n]
  {
    if g[n].kind == KIND_NAMED then
      assert Lower(g, h, n);
      Put(g, h, keys, g[n].refs[0], x, p)
    else if !HasParts(x) then Flat(g[n], x, p)
    else
      var (p', b) := PutRest(g, h, keys, n, x, 0, Opened(x, p));
      (p', Head(x) + (b + Tail(x, |p.recs|)))
  }

  /** Writes the parts from `j` on. */
  ghost function PutRest(g: Graph, h: seq<nat>, keys: set<nat>, n: nat, x: Datum, j: nat, p: Pen): (Pen, seq<byte>)
    requires GraphOk(g, h, keys) && n < |g| && j <= Parts(x)
    decreases x, 0, Parts(x) - j
  {
    if j == Parts(x) || Kids(g[n]) <= PartKid(g[n], j) then (p, [])
    else
      assert KidIn(g, n, PartKid(g[n], j));
      var (p1, b) := Put(g, h, keys, Kid(g[n], PartKid(g[n], j)), Part(x, j), p);
      var (p2, rest) := PutRest(g, h, keys, n, x, j + 1, p1);
      (p2, b + rest)
  }

  // ---------------------------------------------------------------- typing

  /** A position without parts is of its descriptor, given the records so far. */
  ghost predicate FlatFits(d: Desc, x: Datum, p: Pen) {
    match x
    case Scalar(k, b) => IsScalar(d) && ScalarKind(d, k) && b < E.Patterns(k)
    case Big(v) => d.kind == KIND_BIGINT && Encodable(v)
    case Line(s) => d.kind == KIND_STRING && |s| < U64
    case NilContainer => d.kind == KIND_SLICE || d.kind == KIND_BLOB || d.kind == KIND_MAP
    case Window(v) => (d.kind == KIND_SLICE || d.kind == KIND_BLOB) && Backed(v, p.recs)
    case KnownMap(id) => d.kind == KIND_MAP && id < |p.recs| && p.recs[id].kind.MapRecord?
    case _ => false
  }

  predicate InBounds(off: u64, len: u64, cap: u64, length: nat) {
    length < U64 && Fits(View(0, off, len, cap), length)
  }

  /** So is a position with parts, apart from these. */
  ghost predicate ShapeFits(canon: Val -> seq<byte>, g: Graph, h: seq<nat>, keys: set<nat>, n: nat, x: Datum)
    requires GraphOk(g, h, keys) && n < |g|
  {
    match x
    case Struct(fs) => g[n].kind == KIND_STRUCT && |fs| == Kids(g[n])
    case Array(es) => g[n].kind == KIND_ARRAY && |es| == g[n].len
    case Backing(es, off, len, cap) => g[n].kind == KIND_SLICE && InBounds(off, len, cap, |es|)
    case Blob(b, off, len, cap) => g[n].kind == KIND_BLOB && InBounds(off, len, cap, |b|)
    case Pairs(ks, vs) => g[n].kind == KIND_MAP && |ks| == |vs| < U64 && DistinctKeys(canon, g, h, keys, n, ks)
    case _ => false
  }

  /** The value is of the descriptor's type; windows and known maps refer to records that stand before them. */
  ghost predicate Typed(canon: Val -> seq<byte>, g: Graph, h: seq<nat>, keys: set<nat>, n: nat, x: Datum, p: Pen)
    requires GraphOk(g, h, keys) && n < |g|
    decreases x, 1, h[n]
  {
    if g[n].kind == KIND_NAMED then
      assert Lower(g, h, n);
      Typed(canon, g, h, keys, g[n].refs[0], x, p)
    else if !HasParts(x) then FlatFits(g[n], x, p)
    else ShapeFits(canon, g, h, keys, n, x) && RestTyped(canon, g, h, keys, n, x, 0, Opened(x, p))
  }

  ghost predicate RestTyped(canon: Val -> seq<byte>, g: Graph, h: seq<nat>, keys: set<nat>, n: nat, x: Datum, j: nat,
                            p: Pen)
    requires GraphOk(g, h, keys) && n < |g| && j <= Parts(x)
    decreases x, 0, Parts(x) - j
  {
    j == Parts(x)
    || (PartKid(g[n], j) < Kids(g[n])
        && (assert KidIn(g, n, PartKid(g[n], j));
            var m := Kid(g[n], PartKid(g[n], j));
            && Typed(canon, g, h, keys, m, Part(x, j), p)
            && RestTyped(canon, g, h, keys, n, x, j + 1, Put(g, h, keys, m, Part(x, j), p).0)))
  }

  /** What decoding makes of the value, as far as the comparison of map keys sees it. */
  ghost function ValOf(g: Graph, h: seq<nat>, keys: set<nat>, n: nat, x: Datum): Val
    requires GraphOk(g, h, keys) && n < |g|
    decreases x, 1, h[n]
  {
    if g[n].kind == KIND_NAMED then
      assert Lower(g, h, n);
      ValOf(g, h, keys, g[n].refs[0], x)
    else
      match x
      case Scalar(k, b) => Val.Bits(if b < E.Patterns(k) then E.TokenOf(k, b) else [])
      case Big(v) => Val.Bits(if Encodable(v) then BigintBytes(v) else [])
      case Line(s) => Val.Text(s)
      case Struct(_) => Val.Parts(RestVals(g, h, keys, n, x, 0))
      case Array(_) => Val.Parts(RestVals(g, h, keys, n, x, 0))
      case _ => Val.Other
  }

  ghost function RestVals(g: Graph, h: seq<nat>, keys: set<nat>, n: nat, x: Datum, j: nat): seq<Val>
    requires GraphOk(g, h, keys) && n < |g| && j <= Parts(x)
    decreases x, 0, Parts(x) - j
  {
    if j == Parts(x) || Kids(g[n]) <= PartKid(g[n], j) then []
    else
      assert KidIn(g, n, PartKid(g[n], j));
      [ValOf(g, h, keys, Kid(g[n], PartKid(g[n], j)), Part(x, j))] + RestVals(g, h, keys, n, x, j + 1)
  }

  /** The keys of a map differ in their canonical bytes. */
  ghost predicate DistinctKeys(canon: Val -> seq<byte>, g: Graph, h: seq<nat>, keys: set<nat>, n: nat, ks: seq<Datum>)
    requires GraphOk(g, h, keys) && n < |g| && g[n].kind == KIND_MAP
  {
    forall i, j :: 0 <= i < j < |ks|
      ==> canon(KeyVal(g, h, keys, n, ks[i])) != canon(KeyVal(g, h, keys, n, ks[j]))
  }

  ghost function KeyVal(g: Graph, h: seq<nat>, keys: set<nat>, n: nat, k: Datum): Val
    requires GraphOk(g, h, keys) && n < |g| && g[n].kind == KIND_MAP
  {
    MapKids(g, h, keys, n);
    ValOf(g, h, keys, Kid(g[n], 0), k)
  }

  // ---------------------------------------------------------------- reader and writer in step

  /** The reader has the writer's records, and the text of every string the writer knows. */
  ghost predicate Mirrored(p: Pen, t: Table) {
    && t.recs == p.recs && |t.strs| == |t.recs|
    && forall s :: s in p.strs ==> StringAt(p, t, s)
  }

  ghost predicate StringAt(p: Pen, t: Table, s: seq<byte>)
    requires s in p.strs
  {
    var id := p.strs[s];
    id < |p.recs| && p.recs[id].kind.StringRecord? && id < |t.strs| && t.strs[id] == s
  }

  lemma AddMirrored(p: Pen, t: Table, kind: RecordKind, length: u64)
    requires Mirrored(p, t)
    ensures Mirrored(p.Add(kind, length), t.Add(kind, length, []))
  {
    forall s | s in p.strs
      ensures StringAt(p.Add(kind, length), t.Add(kind, length, []), s)
    {
      assert StringAt(p, t, s);
    }
  }

  /** A position was read as value `v`, up to `end`, with the records then written. */
  ghost predicate Accepted(r: Parse<(Val, Table)>, v: Val, p: Pen, end: nat) {
    r.Ok? && r.value.0 == v && r.next == end && Mirrored(p, r.value.1)
  }

  /** Go types that fit, with every record at hand and every field. */
  ghost predicate Welcoming(c: Target) {
    (forall n, at :: c.fits(n, at)) && (forall id :: c.present(id)) && forall n, i :: !c.lacks(n, i)
  }

  // ---------------------------------------------------------------- scalars and strings

  /** Where the token of any pattern of a scalar kind stands, a scalar body ends exactly at its end. */
  lemma ScalarAccepts(d: Desc, k: E.ElemKind, b: nat, input: seq<byte>, at: nat)
    requires IsScalar(d) && ScalarKind(d, k) && b < E.Patterns(k) && At(input, at, E.TokenOf(k, b))
    ensures at <= |input| && ScalarEnd(d, input, at) == Ok((), at + |E.TokenOf(k, b)|)
  {
    hide ParseToken;
    hide ParseFixed;
    hide E.TokenOf;
    hide ParseBigint;
    E.TokenReadsBack(k, input, at, b);
    hide At;
    if k.BoolElem? || k.IntElem? || k.UintElem? {
      IntegerEnd(d, k, input, at);
    } else {
      RawEnd(d, k, input, at);
    }
  }

  lemma IntegerEnd(d: Desc, k: E.ElemKind, input: seq<byte>, at: nat)
    requires IsScalar(d) && ScalarKind(d, k) && at <= |input| && E.ParseAs(k, input, at).Ok? && !E.IsRaw(k)
    ensures ScalarEnd(d, input, at) == Ok((), E.ParseAs(k, input, at).next)
  {
    hide ParseToken;
    hide ParseFixed;
    hide ParseBigint;
    hide Unzigzag;
  }

  lemma RawEnd(d: Desc, k: E.ElemKind, input: seq<byte>, at: nat)
    requires IsScalar(d) && ScalarKind(d, k) && at <= |input| && E.ParseAs(k, input, at).Ok? && E.IsRaw(k)
    ensures ScalarEnd(d, input, at) == Ok((), E.ParseAs(k, input, at).next)
  {
    hide ParseToken;
    hide ParseFixed;
    hide ParseBigint;
    hide FromBigEndian;
  }

  /** The same for big integers, of any size. */
  lemma BigAccepts(d: Desc, v: Bigint, input: seq<byte>, at: nat)
    requires d.kind == KIND_BIGINT && Encodable(v) && At(input, at, BigintBytes(v))
    ensures at <= |input| && ScalarEnd(d, input, at) == Ok((), at + |BigintBytes(v)|)
  {
    hide BigintBytes;
    hide ParseBigint;
    hide Minimal;
    BigintRoundTrip(input, at, v, U64 - 1);
  }

  /** Floats of 16 bytes, which nothing here writes, are skipped whatever their bits. */
  lemma QuadSkipped(g: Graph, h: seq<nat>, keys: set<nat>, n: nat, input: seq<byte>, at: nat, b: seq<byte>, t: Table)
    requires GraphOk(g, h, keys) && n < |g| && g[n].kind == KIND_FLOAT && g[n].width == 16 && |b| == 16
    requires At(input, at, [CLASS_FLOAT * 16 + 2] + b)
    ensures at <= |input| && Skip(g, h, keys, n, input, at, t) == Ok(t, at + 17)
  {
    hide GraphOk;
    AtHead(input, at, CLASS_FLOAT * 16 + 2, b);
  }

  /** A string position: a REF to its record, or a literal that becomes one. */
  lemma LineAccepts(p: Pen, t: Table, s: seq<byte>, input: seq<byte>, at: nat)
    requires Mirrored(p, t) && |s| < U64 && |p.recs| <= U64 && At(input, at, PutLine(p, s).1)
    ensures at < |input|
    ensures s in p.strs ==> Next(input, at, CLASS_REF) && PutLine(p, s).0 == p
                            && ParseId(input, at, t) == Ok(p.strs[s], at + |PutLine(p, s).1|)
    ensures s !in p.strs ==> !Next(input, at, CLASS_REF) && ParseText(input, at) == Ok(s, at + |PutLine(p, s).1|)
                             && Mirrored(PutLine(p, s).0, t.Add(StringRecord, 0, s))
  {
    hide ParseToken;
    hide ArgForm;
    hide ArgPayload;
    if s in p.strs {
      var id := p.strs[s];
      assert StringAt(p, t, s);
      TokenRoundTrip(input, at, CLASS_REF, id);
      AtHead(input, at, CLASS_REF * 16 + ArgForm(id), ArgPayload(id));
      FormSmall(id);
    } else {
      var m: u64 := |s|;
      AtSplit(input, at, TokenBytes(CLASS_STRING, m), s);
      TokenRoundTrip(input, at, CLASS_STRING, m);
      AtHead(input, at, CLASS_STRING * 16 + ArgForm(m), ArgPayload(m));
      FormSmall(m);
      forall r | r in p.strs[s := |p.recs|]
        ensures StringAt(PutLine(p, s).0, t.Add(StringRecord, 0, s), r)
      {
        assert r != s ==> StringAt(p, t, r);
      }
    }
  }

  lemma FormSmall(n: u64)
    ensures ArgForm(n) < 16
  {
  }

  // ---------------------------------------------------------------- positions without parts

  lemma FlatAccepts(c: Target, g: Graph, h: seq<nat>, keys: set<nat>, n: nat, x: Datum, p: Pen, t: Table,
                    input: seq<byte>, at: nat)
    requires GraphOk(g, h, keys) && n < |g| && g[n].kind != KIND_NAMED && !HasParts(x) && FlatFits(g[n], x, p)
    requires Welcoming(c) && Mirrored(p, t) && |p.recs| <= U64 && At(input, at, Flat(g[n], x, p).1)
    ensures at <= |input|
            && Accepted(Decode(c, g, h, keys, n, input, at, t), ValOf(g, h, keys, n, x), Flat(g[n], x, p).0,
                        at + |Flat(g[n], x, p).1|)
  {
    hide ScalarEnd;
    hide ParseText;
    hide ParseToken;
    hide ParseHeader;
    hide ParseView;
    hide ParseRaw;
    hide GraphOk;
    hide E.TokenOf;
    hide BigintBytes;
    hide PutLine;
    hide ViewBytes;
    hide Mirrored;
    hide DecodeContainer;
    hide DecodeElems;
    hide DecodeFields;
    var d := g[n];
    match x
    case Scalar(k, b) =>
      ScalarAccepts(d, k, b, input, at);
    case Big(v) =>
      BigAccepts(d, v, input, at);
    case Line(s) =>
      LineAccepts(p, t, s, input, at);
      if s in p.strs {
        KnownLine(p, t, s);
      }
    case _ =>
      ContainerAccepts(c, g, h, keys, n, x, p, t, input, at);
  }

  lemma KnownLine(p: Pen, t: Table, s: seq<byte>)
    requires Mirrored(p, t) && s in p.strs
    ensures var id := p.strs[s];
            id < |t.recs| == |t.strs| && t.recs[id].kind.StringRecord? && t.strs[id] == s
  {
    assert StringAt(p, t, s);
  }

  /** A nil, a window over a known record, a REF to a known map. */
  lemma ContainerAccepts(c: Target, g: Graph, h: seq<nat>, keys: set<nat>, n: nat, x: Datum, p: Pen, t: Table,
                         input: seq<byte>, at: nat)
    requires GraphOk(g, h, keys) && n < |g| && (x.NilContainer? || x.Window? || x.KnownMap?) && FlatFits(g[n], x, p)
    requires Welcoming(c) && Mirrored(p, t) && |p.recs| <= U64 && At(input, at, Flat(g[n], x, p).1)
    ensures at <= |input|
            && Accepted(DecodeContainer(c, g, h, keys, n, input, at, t), Val.Other, p, at + |Flat(g[n], x, p).1|)
  {
    hide ParseToken;
    hide ParseHeader;
    hide ParseView;
    hide GraphOk;
    hide ArgForm;
    hide ArgPayload;
    match x
    case NilContainer =>
      AtHead(input, at, CLASS_NIL * 16 + if g[n].kind == KIND_MAP then 2 else 1, []);
    case Window(v) =>
      var length := p.recs[v.id].length;
      ViewRoundTrip(input, at, v, t.recs);
      ViewShape(v, length);
      AtHead(input, at, CLASS_VIEW * 16 + ViewForm(v, length), ArgBytes(v.id) + GeometryTail(v, ViewForm(v, length)));
    case KnownMap(id) =>
      TokenRoundTrip(input, at, CLASS_REF, id);
      AtHead(input, at, CLASS_REF * 16 + ArgForm(id), ArgPayload(id));
      FormSmall(id);
  }

  // ---------------------------------------------------------------- positions with parts

  /** Records are only added. */
  lemma {:induction false} PutGrows(g: Graph, h: seq<nat>, keys: set<nat>, n: nat, x: Datum, p: Pen)
    requires GraphOk(g, h, keys) && n < |g|
    ensures p.recs <= Put(g, h, keys, n, x, p).0.recs
    decreases x, 1, h[n]
  {
    hide GraphOk;
    hide E.TokenOf;
    hide BigintBytes;
    hide ViewBytes;
    if g[n].kind == KIND_NAMED {
      SkipNamed(g, h, keys, n, [], 0, Table([], []));
      PutGrows(g, h, keys, g[n].refs[0], x, p);
    } else if HasParts(x) {
      RestGrows(g, h, keys, n, x, 0, Opened(x, p));
    }
  }

  lemma {:induction false} RestGrows(g: Graph, h: seq<nat>, keys: set<nat>, n: nat, x: Datum, j: nat, p: Pen)
    requires GraphOk(g, h, keys) && n < |g| && j <= Parts(x)
    ensures p.recs <= PutRest(g, h, keys, n, x, j, p).0.recs
    decreases x, 0, Parts(x) - j
  {
    hide GraphOk;
    hide Put;
    if j < Parts(x) && PartKid(g[n], j) < Kids(g[n]) {
      var i := PartKid(g[n], j);
      InGraph(g, h, keys, n, i);
      PutGrows(g, h, keys, Kid(g[n], i), Part(x, j), p);
      RestGrows(g, h, keys, n, x, j + 1, Put(g, h, keys, Kid(g[n], i), Part(x, j), p).0);
    }
  }

  /** Part `j`, and what follows it: its bytes, its typing, its value. */
  lemma RestNext(canon: Val -> seq<byte>, g: Graph, h: seq<nat>, keys: set<nat>, n: nat, x: Datum, j: nat, p: Pen)
    requires GraphOk(g, h, keys) && n < |g| && j < Parts(x) && RestTyped(canon, g, h, keys, n, x, j, p)
    ensures PartKid(g[n], j) < Kids(g[n]) && Kid(g[n], PartKid(g[n], j)) < |g|
    ensures var m := Kid(g[n], PartKid(g[n], j));
            var o := Put(g, h, keys, m, Part(x, j), p);
            && Typed(canon, g, h, keys, m, Part(x, j), p) && RestTyped(canon, g, h, keys, n, x, j + 1, o.0)
            && PutRest(g, h, keys, n, x, j, p)
               == (PutRest(g, h, keys, n, x, j + 1, o.0).0, o.1 + PutRest(g, h, keys, n, x, j + 1, o.0).1)
            && RestVals(g, h, keys, n, x, j)
               == [ValOf(g, h, keys, m, Part(x, j))] + RestVals(g, h, keys, n, x, j + 1)
            && o.0.recs <= PutRest(g, h, keys, n, x, j, p).0.recs
  {
    hide GraphOk;
    hide Put;
    hide Typed;
    hide ValOf;
    var i := PartKid(g[n], j);
    InGraph(g, h, keys, n, i);
    RestGrows(g, h, keys, n, x, j + 1, Put(g, h, keys, Kid(g[n], i), Part(x, j), p).0);
  }

  lemma RestEnds(g: Graph, h: seq<nat>, keys: set<nat>, n: nat, x: Datum, p: Pen)
    requires GraphOk(g, h, keys) && n < |g|
    ensures PutRest(g, h, keys, n, x, Parts(x), p) == (p, []) && RestVals(g, h, keys, n, x, Parts(x)) == []
  {
  }

  lemma DecodeNamedIs(c: Target, g: Graph, h: seq<nat>, keys: set<nat>, n: nat, x: Datum, p: Pen, input: seq<byte>,
                      at: nat, t: Table)
    requires GraphOk(g, h, keys) && n < |g| && at <= |input| && |t.strs| == |t.recs| && g[n].kind == KIND_NAMED
             && c.fits(n, at)
    ensures |g[n].refs| == 1 && g[n].refs[0] < |g| == |h| && 0 <= h[g[n].refs[0]] < h[n]
    ensures var m := g[n].refs[0];
            && Decode(c, g, h, keys, n, input, at, t) == Decode(c, g, h, keys, m, input, at, t)
            && Put(g, h, keys, n, x, p) == Put(g, h, keys, m, x, p)
            && Typed(c.canon, g, h, keys, n, x, p) == Typed(c.canon, g, h, keys, m, x, p)
            && ValOf(g, h, keys, n, x) == ValOf(g, h, keys, m, x)
  {
    hide ParseFixed;
    hide ScalarEnd;
    hide ParseText;
    hide ParseToken;
    hide ParseHeader;
    hide ParseView;
    hide ParseRaw;
    hide FlatFits;
    hide ShapeFits;
    hide Flat;
    hide Head;
    hide Tail;
    hide Opened;
    assert Lower(g, h, n);
  }

  /** A struct is its token and its fields. */
  lemma StructIs(c: Target, g: Graph, h: seq<nat>, keys: set<nat>, n: nat, input: seq<byte>, at: nat, t: Table)
    requires GraphOk(g, h, keys) && n < |g| && |t.strs| == |t.recs| && g[n].kind == KIND_STRUCT && c.fits(n, at)
    requires at < |input| && input[at] == CLASS_STRUCT * 16
    ensures var q := DecodeFields(c, g, h, keys, n, 0, input, at + 1, t);
            q.Ok? ==> Decode(c, g, h, keys, n, input, at, t) == Ok((Val.Parts(q.value.0), q.value.1), q.next)
  {
    hide GraphOk;
    hide DecodeFields;
  }

  /** An array is its head and its dense elements. */
  lemma ArrayIs(c: Target, g: Graph, h: seq<nat>, keys: set<nat>, n: nat, input: seq<byte>, at: nat, t: Table,
                dense: u64, next: nat)
    requires GraphOk(g, h, keys) && n < |g| && |t.strs| == |t.recs| && g[n].kind == KIND_ARRAY && c.fits(n, at)
    requires at <= |input| && ParseHeader(input, at, CLASS_ARRAY, 0) == Ok(Header(g[n].len, dense), next)
    ensures Kids(g[n]) > 0 && Kid(g[n], 0) < |g| && next <= |input|
    ensures var q := DecodeElems(c, g, h, keys, Kid(g[n], 0), dense, input, next, t.Add(ArrayRecord, g[n].len, []));
            q.Ok? ==> Decode(c, g, h, keys, n, input, at, t) == Ok((Val.Parts(q.value.0), q.value.1), q.next)
  {
    hide GraphOk;
    hide DecodeElems;
    hide ParseHeader;
    FirstKid(g, h, keys, n);
  }

  /** A record with its window. */
  lemma SliceIs(c: Target, g: Graph, h: seq<nat>, keys: set<nat>, n: nat, input: seq<byte>, at: nat, t: Table,
                length: u64, dense: u64, next: nat)
    requires GraphOk(g, h, keys) && n < |g| && |t.strs| == |t.recs| && g[n].kind == KIND_SLICE && c.fits(n, at)
    requires at < |input| && input[at] / 16 == CLASS_ARRAY
             && ParseHeader(input, at, CLASS_ARRAY, 0) == Ok(Header(length, dense), next)
    ensures Kids(g[n]) > 0 && Kid(g[n], 0) < |g| && next <= |input|
    ensures var q := DecodeElems(c, g, h, keys, Kid(g[n], 0), dense, input, next, t.Add(ArrayRecord, length, []));
            q.Ok? && ParseView(input, q.next, q.value.1.recs).Ok? ==>
              Decode(c, g, h, keys, n, input, at, t)
                == Ok((Val.Other, q.value.1), ParseView(input, q.next, q.value.1.recs).next)
  {
    hide GraphOk;
    hide DecodeElems;
    hide ParseHeader;
    hide ParseView;
    FirstKid(g, h, keys, n);
  }

  lemma BlobIs(c: Target, g: Graph, h: seq<nat>, keys: set<nat>, n: nat, input: seq<byte>, at: nat, t: Table,
               length: u64, dense: u64, next: nat)
    requires GraphOk(g, h, keys) && n < |g| && |t.strs| == |t.recs| && g[n].kind == KIND_BLOB && c.fits(n, at)
    requires at < |input| && input[at] / 16 == CLASS_BLOB
             && ParseHeader(input, at, CLASS_BLOB, 0) == Ok(Header(length, dense), next)
    requires next + dense <= |input| && (dense > 0 ==> input[next + dense - 1] != 0)
    ensures var v := ParseView(input, next + dense, t.Add(BlobRecord, length, []).recs);
            v.Ok? ==>
              Decode(c, g, h, keys, n, input, at, t) == Ok((Val.Other, t.Add(BlobRecord, length, [])), v.next)
  {
    hide GraphOk;
    hide ParseHeader;
    hide ParseView;
  }

  lemma MapIs(c: Target, g: Graph, h: seq<nat>, keys: set<nat>, n: nat, input: seq<byte>, at: nat, t: Table,
              count: u64, next: nat)
    requires GraphOk(g, h, keys) && n < |g| && |t.strs| == |t.recs| && g[n].kind == KIND_MAP && c.fits(n, at)
    requires at < |input| && input[at] / 16 == CLASS_MAP && ParseToken(input, at, CLASS_MAP) == Ok(count, next)
    ensures next <= |input|
    ensures var q := DecodePairs(c, g, h, keys, n, count, input, next, t.Add(MapRecord, 0, []), {});
            q.Ok? ==> Decode(c, g, h, keys, n, input, at, t) == Ok((Val.Other, q.value), q.next)
  {
    hide GraphOk;
    hide DecodePairs;
    hide ParseToken;
  }

  // ---------------------------------------------------------------- every value

  lemma HeaderHead(input: seq<byte>, at: nat, cls: byte, length: u64, dense: u64)
    requires cls < 16 && At(input, at, HeaderBytes(cls, length, dense))
    ensures at < |input| && input[at] / 16 == cls
  {
    hide ArgForm;
    hide ArgPayload;
    hide ArgBytes;
    AtSplit(input, at, TokenBytes(cls, length), ArgBytes(dense));
    AtHead(input, at, cls * 16 + ArgForm(length), ArgPayload(length));
    FormSmall(length);
  }

  /** The bytes of a position with parts: head, parts, tail. */
  lemma PutIs(canon: Val -> seq<byte>, g: Graph, h: seq<nat>, keys: set<nat>, n: nat, x: Datum, p: Pen,
              input: seq<byte>, at: nat)
    requires GraphOk(g, h, keys) && n < |g| && g[n].kind != KIND_NAMED && HasParts(x)
             && Typed(canon, g, h, keys, n, x, p)
    requires At(input, at, Put(g, h, keys, n, x, p).1)
    ensures ShapeFits(canon, g, h, keys, n, x) && RestTyped(canon, g, h, keys, n, x, 0, Opened(x, p))
    ensures var o, r := Put(g, h, keys, n, x, p), PutRest(g, h, keys, n, x, 0, Opened(x, p));
            && o.0 == r.0 && |o.1| == |Head(x)| + |r.1| + |Tail(x, |p.recs|)| && Opened(x, p).recs <= o.0.recs
            && At(input, at, Head(x)) && At(input, at + |Head(x)|, r.1)
            && At(input, at + |Head(x)| + |r.1|, Tail(x, |p.recs|))
  {
    hide GraphOk;
    hide PutRest;
    hide ShapeFits;
    hide Head;
    hide Tail;
    hide Opened;
    hide At;
    var r := PutRest(g, h, keys, n, x, 0, Opened(x, p)).1;
    AtSplit(input, at, Head(x), r + Tail(x, |p.recs|));
    AtSplit(input, at + |Head(x)|, r, Tail(x, |p.recs|));
    RestGrows(g, h, keys, n, x, 0, Opened(x, p));
  }

  /** Decoding accepts every well-typed value where it was written, up to its exact end. */
  lemma {:induction false} DecodeAccepts(c: Target, g: Graph, h: seq<nat>, keys: set<nat>, n: nat, x: Datum, p: Pen,
                                         t: Table, input: seq<byte>, at: nat)
    requires GraphOk(g, h, keys) && n < |g| && Typed(c.canon, g, h, keys, n, x, p) && Welcoming(c) && Mirrored(p, t)
    requires |Put(g, h, keys, n, x, p).0.recs| <= U64 && At(input, at, Put(g, h, keys, n, x, p).1)
    ensures at <= |input|
            && Accepted(Decode(c, g, h, keys, n, input, at, t), ValOf(g, h, keys, n, x), Put(g, h, keys, n, x, p).0,
                        at + |Put(g, h, keys, n, x, p).1|)
    decreases x, 3, h[n]
  {
    hide Decode;
    hide GraphOk;
    hide Flat;
    hide FlatFits;
    hide PutRest;
    hide ShapeFits;
    hide RestTyped;
    hide ValOf;
    hide At;
    hide Mirrored;
    hide Typed;
    hide Put;
    hide Accepted;
    PutGrows(g, h, keys, n, x, p);
    AtPlace(input, at, Put(g, h, keys, n, x, p).1);
    if g[n].kind == KIND_NAMED {
      MirrorCounts(p, t);
      DecodeNamedIs(c, g, h, keys, n, x, p, input, at, t);
      DecodeAccepts(c, g, h, keys, g[n].refs[0], x, p, t, input, at);
    } else if !HasParts(x) {
      FlatIs(c.canon, g, h, keys, n, x, p);
      FlatAccepts(c, g, h, keys, n, x, p, t, input, at);
    } else {
      match x
      case Struct(_) => StructAccepts(c, g, h, keys, n, x, p, t, input, at);
      case Array(_) => ArrayAccepts(c, g, h, keys, n, x, p, t, input, at);
      case Backing(_, _, _, _) => SliceAccepts(c, g, h, keys, n, x, p, t, input, at);
      case Blob(_, _, _, _) => BlobAccepts(c, g, h, keys, n, x, p, t, input, at);
      case Pairs(_, _) => MapAccepts(c, g, h, keys, n, x, p, t, input, at);
    }
  }

  lemma AtPlace(input: seq<byte>, at: nat, b: seq<byte>)
    requires At(input, at, b)
    ensures at + |b| <= |input|
  {
  }

  lemma MirrorCounts(p: Pen, t: Table)
    requires Mirrored(p, t)
    ensures t.recs == p.recs && |t.strs| == |t.recs|
  {
  }

  lemma FlatIs(canon: Val -> seq<byte>, g: Graph, h: seq<nat>, keys: set<nat>, n: nat, x: Datum, p: Pen)
    requires GraphOk(g, h, keys) && n < |g| && g[n].kind != KIND_NAMED && !HasParts(x)
    ensures Put(g, h, keys, n, x, p) == Flat(g[n], x, p)
    ensures Typed(canon, g, h, keys, n, x, p) == FlatFits(g[n], x, p)
  {
    hide GraphOk;
    hide Flat;
    hide FlatFits;
  }

  lemma {:induction false} StructAccepts(c: Target, g: Graph, h: seq<nat>, keys: set<nat>, n: nat, x: Datum, p: Pen,
                                         t: Table, input: seq<byte>, at: nat)
    requires GraphOk(g, h, keys) && n < |g| && g[n].kind != KIND_NAMED && x.Struct?
             && Typed(c.canon, g, h, keys, n, x, p) && Welcoming(c) && Mirrored(p, t)
    requires |Put(g, h, keys, n, x, p).0.recs| <= U64 && At(input, at, Put(g, h, keys, n, x, p).1)
    ensures at <= |input|
            && Accepted(Decode(c, g, h, keys, n, input, at, t), ValOf(g, h, keys, n, x), Put(g, h, keys, n, x, p).0,
                        at + |Put(g, h, keys, n, x, p).1|)
    decreases x, 2
  {
    hide Decode;
    hide GraphOk;
    hide PutRest;
    hide RestTyped;
    hide RestVals;
    hide DecodeFields;
    hide Typed;
    hide Put;
    PutIs(c.canon, g, h, keys, n, x, p, input, at);
    AtHead(input, at, CLASS_STRUCT * 16, []);
    hide At;
    FieldsAccept(c, g, h, keys, n, x, 0, p, t, input, at + 1);
    StructIs(c, g, h, keys, n, input, at, t);
    StructVal(g, h, keys, n, x);
  }

  lemma StructVal(g: Graph, h: seq<nat>, keys: set<nat>, n: nat, x: Datum)
    requires GraphOk(g, h, keys) && n < |g| && g[n].kind != KIND_NAMED
    ensures x.Struct? || x.Array? ==> ValOf(g, h, keys, n, x) == Val.Parts(RestVals(g, h, keys, n, x, 0))
    ensures x.Backing? || x.Blob? || x.Pairs? ==> ValOf(g, h, keys, n, x) == Val.Other
  {
    hide GraphOk;
    hide RestVals;
  }

  lemma {:induction false} FieldsAccept(c: Target, g: Graph, h: seq<nat>, keys: set<nat>, n: nat, x: Datum, j: nat,
                                        p: Pen, t: Table, input: seq<byte>, at: nat)
    requires GraphOk(g, h, keys) && n < |g| && g[n].kind == KIND_STRUCT && x.Struct? && |x.fields| == Kids(g[n])
    requires j <= Parts(x) && RestTyped(c.canon, g, h, keys, n, x, j, p) && Welcoming(c) && Mirrored(p, t)
    requires |PutRest(g, h, keys, n, x, j, p).0.recs| <= U64 && At(input, at, PutRest(g, h, keys, n, x, j, p).1)
    ensures at <= |input| && |t.strs| == |t.recs|
    ensures var q, o := DecodeFields(c, g, h, keys, n, j, input, at, t), PutRest(g, h, keys, n, x, j, p);
            && q.Ok? && q.value.0 == RestVals(g, h, keys, n, x, j) && q.next == at + |o.1|
            && Mirrored(o.0, q.value.1)
    decreases x, 1, Parts(x) - j
  {
    hide Decode;
    hide GraphOk;
    hide At;
    hide Mirrored;
    hide PutRest;
    hide RestTyped;
    hide RestVals;
    hide Put;
    hide Typed;
    hide ValOf;
    MirrorCounts(p, t);
    AtPlace(input, at, PutRest(g, h, keys, n, x, j, p).1);
    if j == Parts(x) {
      RestEnds(g, h, keys, n, x, p);
    } else {
      RestNext(c.canon, g, h, keys, n, x, j, p);
      var m := Kid(g[n], j);
      var o := Put(g, h, keys, m, Part(x, j), p);
      AtSplit(input, at, o.1, PutRest(g, h, keys, n, x, j + 1, o.0).1);
      DecodeAccepts(c, g, h, keys, m, Part(x, j), p, t, input, at);
      var r := Decode(c, g, h, keys, m, input, at, t);
      FieldsAccept(c, g, h, keys, n, x, j + 1, o.0, r.value.1, input, r.next);
    }
  }

  lemma {:induction false} ElemsAccept(c: Target, g: Graph, h: seq<nat>, keys: set<nat>, n: nat, x: Datum, j: nat,
                                       p: Pen, t: Table, input: seq<byte>, at: nat)
    requires GraphOk(g, h, keys) && n < |g| && (g[n].kind == KIND_ARRAY || g[n].kind == KIND_SLICE)
             && Kids(g[n]) > 0 && Kid(g[n], 0) < |g| && (x.Array? || x.Backing?)
    requires j <= Parts(x) && RestTyped(c.canon, g, h, keys, n, x, j, p) && Welcoming(c) && Mirrored(p, t)
    requires |PutRest(g, h, keys, n, x, j, p).0.recs| <= U64 && At(input, at, PutRest(g, h, keys, n, x, j, p).1)
    ensures at <= |input| && |t.strs| == |t.recs|
    ensures var q, o := DecodeElems(c, g, h, keys, Kid(g[n], 0), Parts(x) - j, input, at, t),
                        PutRest(g, h, keys, n, x, j, p);
            && q.Ok? && q.value.0 == RestVals(g, h, keys, n, x, j) && q.next == at + |o.1|
            && Mirrored(o.0, q.value.1)
    decreases x, 1, Parts(x) - j
  {
    hide Decode;
    hide GraphOk;
    hide At;
    hide Mirrored;
    hide PutRest;
    hide RestTyped;
    hide RestVals;
    hide Put;
    hide Typed;
    hide ValOf;
    hide DenseCount;
    MirrorCounts(p, t);
    AtPlace(input, at, PutRest(g, h, keys, n, x, j, p).1);
    if j == Parts(x) {
      RestEnds(g, h, keys, n, x, p);
    } else {
      RestNext(c.canon, g, h, keys, n, x, j, p);
      var m := Kid(g[n], 0);
      var o := Put(g, h, keys, m, Part(x, j), p);
      AtSplit(input, at, o.1, PutRest(g, h, keys, n, x, j + 1, o.0).1);
      DecodeAccepts(c, g, h, keys, m, Part(x, j), p, t, input, at);
      var r := Decode(c, g, h, keys, m, input, at, t);
      ElemsAccept(c, g, h, keys, n, x, j + 1, o.0, r.value.1, input, r.next);
    }
  }

  lemma {:induction false} ArrayAccepts(c: Target, g: Graph, h: seq<nat>, keys: set<nat>, n: nat, x: Datum, p: Pen,
                                        t: Table, input: seq<byte>, at: nat)
    requires GraphOk(g, h, keys) && n < |g| && g[n].kind != KIND_NAMED && x.Array?
             && Typed(c.canon, g, h, keys, n, x, p) && Welcoming(c) && Mirrored(p, t)
    requires |Put(g, h, keys, n, x, p).0.recs| <= U64 && At(input, at, Put(g, h, keys, n, x, p).1)
    ensures at <= |input|
            && Accepted(Decode(c, g, h, keys, n, input, at, t), ValOf(g, h, keys, n, x), Put(g, h, keys, n, x, p).0,
                        at + |Put(g, h, keys, n, x, p).1|)
    decreases x, 2
  {
    hide Decode;
    hide GraphOk;
    hide PutRest;
    hide RestTyped;
    hide RestVals;
    hide DecodeElems;
    hide Typed;
    hide Put;
    hide At;
    hide Mirrored;
    hide DenseCount;
    hide HeaderBytes;
    PutIs(c.canon, g, h, keys, n, x, p, input, at);
    AtPlace(input, at, Head(x));
    MirrorCounts(p, t);
    FirstKid(g, h, keys, n);
    var dense := DenseCount(x.elems);
    HeaderRoundTrip(input, at, CLASS_ARRAY, |x.elems|, dense);
    AddMirrored(p, t, ArrayRecord, |x.elems|);
    ElemsAccept(c, g, h, keys, n, x, 0, Opened(x, p), t.Add(ArrayRecord, |x.elems|, []), input, at + |Head(x)|);
    ArrayIs(c, g, h, keys, n, input, at, t, dense, at + |Head(x)|);
    StructVal(g, h, keys, n, x);
  }

  lemma {:induction false} SliceAccepts(c: Target, g: Graph, h: seq<nat>, keys: set<nat>, n: nat, x: Datum, p: Pen,
                                        t: Table, input: seq<byte>, at: nat)
    requires GraphOk(g, h, keys) && n < |g| && g[n].kind != KIND_NAMED && x.Backing?
             && Typed(c.canon, g, h, keys, n, x, p) && Welcoming(c) && Mirrored(p, t)
    requires |Put(g, h, keys, n, x, p).0.recs| <= U64 && At(input, at, Put(g, h, keys, n, x, p).1)
    ensures at <= |input|
            && Accepted(Decode(c, g, h, keys, n, input, at, t), ValOf(g, h, keys, n, x), Put(g, h, keys, n, x, p).0,
                        at + |Put(g, h, keys, n, x, p).1|)
    decreases x, 2
  {
    hide Decode;
    hide GraphOk;
    hide PutRest;
    hide RestTyped;
    hide RestVals;
    hide DecodeElems;
    hide Typed;
    hide Put;
    hide At;
    hide Mirrored;
    hide DenseCount;
    hide HeaderBytes;
    hide ViewBytes;
    hide ParseView;
    PutIs(c.canon, g, h, keys, n, x, p, input, at);
    AtPlace(input, at, Head(x));
    MirrorCounts(p, t);
    FirstKid(g, h, keys, n);
    var dense, length, id := DenseCount(x.elems), |x.elems|, |p.recs|;
    HeaderHead(input, at, CLASS_ARRAY, length, dense);
    HeaderRoundTrip(input, at, CLASS_ARRAY, length, dense);
    AddMirrored(p, t, ArrayRecord, length);
    var r := PutRest(g, h, keys, n, x, 0, Opened(x, p));
    ElemsAccept(c, g, h, keys, n, x, 0, Opened(x, p), t.Add(ArrayRecord, length, []), input, at + |Head(x)|);
    var q := DecodeElems(c, g, h, keys, Kid(g[n], 0), dense, input, at + |Head(x)|, t.Add(ArrayRecord, length, []));
    MirrorCounts(r.0, q.value.1);
    OpenRecord(p, ArrayRecord, length, r.0);
    ViewRoundTrip(input, q.next, View(id, x.off, x.len, x.cap), q.value.1.recs);
    SliceIs(c, g, h, keys, n, input, at, t, length, dense, at + |Head(x)|);
    StructVal(g, h, keys, n, x);
  }

  /** The record opened first is still there when its window is written. */
  lemma OpenRecord(p: Pen, kind: RecordKind, length: u64, p': Pen)
    requires p.Add(kind, length).recs <= p'.recs
    ensures |p.recs| < |p'.recs| && p'.recs[|p.recs|] == Record(kind, length)
  {
    assert p.Add(kind, length).recs[|p.recs|] == Record(kind, length);
  }

  lemma {:induction false} BlobAccepts(c: Target, g: Graph, h: seq<nat>, keys: set<nat>, n: nat, x: Datum, p: Pen,
                                       t: Table, input: seq<byte>, at: nat)
    requires GraphOk(g, h, keys) && n < |g| && g[n].kind != KIND_NAMED && x.Blob? && Typed(c.canon, g, h, keys, n, x, p)
             && Welcoming(c) && Mirrored(p, t)
    requires |Put(g, h, keys, n, x, p).0.recs| <= U64 && At(input, at, Put(g, h, keys, n, x, p).1)
    ensures at <= |input|
            && Accepted(Decode(c, g, h, keys, n, input, at, t), ValOf(g, h, keys, n, x), Put(g, h, keys, n, x, p).0,
                        at + |Put(g, h, keys, n, x, p).1|)
    decreases x, 2
  {
    hide Decode;
    hide GraphOk;
    hide PutRest;
    hide RestTyped;
    hide Typed;
    hide Put;
    hide Mirrored;
    hide DenseBytes;
    hide HeaderBytes;
    hide ViewBytes;
    hide ParseView;
    hide At;
    hide ParseHeader;
    PutIs(c.canon, g, h, keys, n, x, p, input, at);
    RestEnds(g, h, keys, n, x, Opened(x, p));
    MirrorCounts(p, t);
    var dense, length, id := DenseBytes(x.b), |x.b|, |p.recs|;
    BlobHead(input, at, x.b);
    AddMirrored(p, t, BlobRecord, length);
    OpenRecord(p, BlobRecord, length, Opened(x, p));
    ViewRoundTrip(input, at + |Head(x)|, View(id, x.off, x.len, x.cap), t.Add(BlobRecord, length, []).recs);
    BlobIs(c, g, h, keys, n, input, at, t, length, dense, at + |Head(x)| - dense);
    StructVal(g, h, keys, n, x);
  }

  lemma BlobHead(input: seq<byte>, at: nat, b: seq<byte>)
    requires |b| < U64 && At(input, at, HeaderBytes(CLASS_BLOB, |b|, DenseBytes(b)) + b[..DenseBytes(b)])
    ensures var dense, next := DenseBytes(b), at + |HeaderBytes(CLASS_BLOB, |b|, DenseBytes(b))|;
            && at < |input| && input[at] / 16 == CLASS_BLOB
            && ParseHeader(input, at, CLASS_BLOB, 0) == Ok(Header(|b|, dense), next)
            && next + dense <= |input| && (dense > 0 ==> input[next + dense - 1] != 0)
  {
    hide DenseBytes;
    hide HeaderBytes;
    hide At;
    hide ParseHeader;
    var dense := DenseBytes(b);
    var head := HeaderBytes(CLASS_BLOB, |b|, dense);
    AtSplit(input, at, head, b[..dense]);
    BlobBytes(input, at + |head|, b, dense);
    HeaderHead(input, at, CLASS_BLOB, |b|, dense);
    HeaderRoundTrip(input, at, CLASS_BLOB, |b|, dense);
  }

  lemma BlobBytes(input: seq<byte>, at: nat, b: seq<byte>, dense: nat)
    requires dense <= |b| && At(input, at, b[..dense]) && (dense > 0 ==> b[dense - 1] != 0)
    ensures at + dense <= |input| && (dense > 0 ==> input[at + dense - 1] != 0)
  {
    if dense > 0 {
      assert input[at..at + dense][dense - 1] == b[..dense][dense - 1];
    }
  }

  // ---------------------------------------------------------------- maps

  ghost function Canons(c: Target, g: Graph, h: seq<nat>, keys: set<nat>, n: nat, ks: seq<Datum>): set<seq<byte>>
    requires GraphOk(g, h, keys) && n < |g| && g[n].kind == KIND_MAP
  {
    if ks == [] then {}
    else Canons(c, g, h, keys, n, ks[..|ks| - 1]) + {c.canon(KeyVal(g, h, keys, n, ks[|ks| - 1]))}
  }

  lemma {:induction false} CanonOf(c: Target, g: Graph, h: seq<nat>, keys: set<nat>, n: nat, ks: seq<Datum>,
                                   s: seq<byte>)
    requires GraphOk(g, h, keys) && n < |g| && g[n].kind == KIND_MAP && s in Canons(c, g, h, keys, n, ks)
    ensures exists i :: 0 <= i < |ks| && s == c.canon(KeyVal(g, h, keys, n, ks[i]))
  {
    hide GraphOk;
    hide KeyVal;
    var last := |ks| - 1;
    if s != c.canon(KeyVal(g, h, keys, n, ks[last])) {
      CanonOf(c, g, h, keys, n, ks[..last], s);
      var i :| 0 <= i < last && s == c.canon(KeyVal(g, h, keys, n, ks[..last][i]));
      assert ks[..last][i] == ks[i];
    }
  }

  /** A further key is new. */
  lemma NewCanon(c: Target, g: Graph, h: seq<nat>, keys: set<nat>, n: nat, ks: seq<Datum>, i: nat)
    requires GraphOk(g, h, keys) && n < |g| && g[n].kind == KIND_MAP && DistinctKeys(c.canon, g, h, keys, n, ks)
             && i < |ks|
    ensures c.canon(KeyVal(g, h, keys, n, ks[i])) !in Canons(c, g, h, keys, n, ks[..i])
    ensures Canons(c, g, h, keys, n, ks[..i + 1])
         == Canons(c, g, h, keys, n, ks[..i]) + {c.canon(KeyVal(g, h, keys, n, ks[i]))}
  {
    hide GraphOk;
    hide KeyVal;
    assert ks[..i + 1][..i] == ks[..i];
    var s := c.canon(KeyVal(g, h, keys, n, ks[i]));
    forall m | 0 <= m < |ks[..i]|
      ensures s != c.canon(KeyVal(g, h, keys, n, ks[..i][m]))
    {
      assert ks[..i][m] == ks[m] && c.canon(KeyVal(g, h, keys, n, ks[m])) != s;
    }
    if s in Canons(c, g, h, keys, n, ks[..i]) {
      CanonOf(c, g, h, keys, n, ks[..i], s);
    }
  }

  lemma KeyValIs(g: Graph, h: seq<nat>, keys: set<nat>, n: nat, k: Datum)
    requires GraphOk(g, h, keys) && n < |g| && g[n].kind == KIND_MAP
    ensures Kids(g[n]) >= 2 && Kid(g[n], 0) < |g| && Kid(g[n], 1) < |g|
    ensures KeyVal(g, h, keys, n, k) == ValOf(g, h, keys, Kid(g[n], 0), k)
  {
    hide GraphOk;
    hide ValOf;
    MapKids(g, h, keys, n);
  }

  /** One pair and the rest. */
  lemma PairsNext(c: Target, g: Graph, h: seq<nat>, keys: set<nat>, n: nat, k: nat, input: seq<byte>, at: nat, t: Table,
                  seen: set<seq<byte>>)
    requires GraphOk(g, h, keys) && n < |g| && g[n].kind == KIND_MAP && at <= |input| && |t.strs| == |t.recs| && k > 0
    requires Kids(g[n]) >= 2 && Kid(g[n], 0) < |g| && Kid(g[n], 1) < |g|
    requires Decode(c, g, h, keys, Kid(g[n], 0), input, at, t).Ok?
    requires var r := Decode(c, g, h, keys, Kid(g[n], 0), input, at, t);
      c.canon(r.value.0) !in seen && Decode(c, g, h, keys, Kid(g[n], 1), input, r.next, r.value.1).Ok?
    ensures var r := Decode(c, g, h, keys, Kid(g[n], 0), input, at, t);
            var v := Decode(c, g, h, keys, Kid(g[n], 1), input, r.next, r.value.1);
            DecodePairs(c, g, h, keys, n, k, input, at, t, seen)
              == DecodePairs(c, g, h, keys, n, k - 1, input, v.next, v.value.1, seen + {c.canon(r.value.0)})
  {
    hide GraphOk;
    hide Decode;
  }

  lemma {:induction false} PairsAccept(c: Target, g: Graph, h: seq<nat>, keys: set<nat>, n: nat, x: Datum, i: nat,
                                       p: Pen, t: Table, input: seq<byte>, at: nat)
    requires GraphOk(g, h, keys) && n < |g| && g[n].kind == KIND_MAP && x.Pairs? && |x.keys| == |x.vals|
             && DistinctKeys(c.canon, g, h, keys, n, x.keys)
    requires i <= |x.keys| && RestTyped(c.canon, g, h, keys, n, x, 2 * i, p) && Welcoming(c) && Mirrored(p, t)
    requires |PutRest(g, h, keys, n, x, 2 * i, p).0.recs| <= U64
             && At(input, at, PutRest(g, h, keys, n, x, 2 * i, p).1)
    ensures at <= |input| && |t.strs| == |t.recs|
    ensures var q := DecodePairs(c, g, h, keys, n, |x.keys| - i, input, at, t,
                                 Canons(c, g, h, keys, n, x.keys[..i]));
            var o := PutRest(g, h, keys, n, x, 2 * i, p);
            q.Ok? && q.next == at + |o.1| && Mirrored(o.0, q.value)
    decreases x, 1, Parts(x) - 2 * i
  {
    hide Decode;
    hide GraphOk;
    hide At;
    hide Mirrored;
    hide PutRest;
    hide RestTyped;
    hide RestVals;
    hide Put;
    hide Typed;
    hide ValOf;
    hide Canons;
    hide DistinctKeys;
    hide KeyVal;
    MirrorCounts(p, t);
    AtPlace(input, at, PutRest(g, h, keys, n, x, 2 * i, p).1);
    if i == |x.keys| {
      RestEnds(g, h, keys, n, x, p);
    } else {
      hide DecodePairs;
      KeyValIs(g, h, keys, n, x.keys[i]);
      var a, b := Kid(g[n], 0), Kid(g[n], 1);
      RestNext(c.canon, g, h, keys, n, x, 2 * i, p);
      var o := Put(g, h, keys, a, x.keys[i], p);
      RestNext(c.canon, g, h, keys, n, x, 2 * i + 1, o.0);
      var w := Put(g, h, keys, b, x.vals[i], o.0);
      AtSplit(input, at, o.1, PutRest(g, h, keys, n, x, 2 * i + 1, o.0).1);
      AtSplit(input, at + |o.1|, w.1, PutRest(g, h, keys, n, x, 2 * i + 2, w.0).1);
      DecodeAccepts(c, g, h, keys, a, Part(x, 2 * i), p, t, input, at);
      var r := Decode(c, g, h, keys, a, input, at, t);
      DecodeAccepts(c, g, h, keys, b, Part(x, 2 * i + 1), o.0, r.value.1, input, r.next);
      var v := Decode(c, g, h, keys, b, input, r.next, r.value.1);
      NewCanon(c, g, h, keys, n, x.keys, i);
      PairsNext(c, g, h, keys, n, |x.keys| - i, input, at, t, Canons(c, g, h, keys, n, x.keys[..i]));
      PairsAccept(c, g, h, keys, n, x, i + 1, w.0, v.value.1, input, v.next);
    }
  }

  lemma {:induction false} MapAccepts(c: Target, g: Graph, h: seq<nat>, keys: set<nat>, n: nat, x: Datum, p: Pen,
                                      t: Table, input: seq<byte>, at: nat)
    requires GraphOk(g, h, keys) && n < |g| && g[n].kind != KIND_NAMED && x.Pairs?
             && Typed(c.canon, g, h, keys, n, x, p) && Welcoming(c) && Mirrored(p, t)
    requires |Put(g, h, keys, n, x, p).0.recs| <= U64 && At(input, at, Put(g, h, keys, n, x, p).1)
    ensures at <= |input|
            && Accepted(Decode(c, g, h, keys, n, input, at, t), ValOf(g, h, keys, n, x), Put(g, h, keys, n, x, p).0,
                        at + |Put(g, h, keys, n, x, p).1|)
    decreases x, 2
  {
    hide Decode;
    hide GraphOk;
    hide PutRest;
    hide RestTyped;
    hide DecodePairs;
    hide Typed;
    hide Put;
    hide At;
    hide Mirrored;
    hide ArgForm;
    hide ArgPayload;
    hide DistinctKeys;
    PutIs(c.canon, g, h, keys, n, x, p, input, at);
    AtPlace(input, at, Head(x));
    MirrorCounts(p, t);
    var count: u64 := |x.keys|;
    AtHead(input, at, CLASS_MAP * 16 + ArgForm(count), ArgPayload(count));
    FormSmall(count);
    TokenRoundTrip(input, at, CLASS_MAP, count);
    AddMirrored(p, t, MapRecord, 0);
    assert x.keys[..0] == [];
    PairsAccept(c, g, h, keys, n, x, 0, Opened(x, p), t.Add(MapRecord, 0, []), input, at + |Head(x)|);
    MapIs(c, g, h, keys, n, input, at, t, count, at + |Head(x)|);
    StructVal(g, h, keys, n, x);
  }

  // ---------------------------------------------------------------- skipping

  /**
    Skipping accepts every well-typed value where it was written, up to its exact end, with its records, in whatever
    form its keys differ.
   */
  lemma SkipAccepts(canon: Val -> seq<byte>, g: Graph, h: seq<nat>, keys: set<nat>, n: nat, x: Datum, p: Pen, t: Table,
                    input: seq<byte>, at: nat)
    requires GraphOk(g, h, keys) && n < |g| && Typed(canon, g, h, keys, n, x, p) && Mirrored(p, t)
    requires |Put(g, h, keys, n, x, p).0.recs| <= U64 && At(input, at, Put(g, h, keys, n, x, p).1)
    ensures at <= |input|
    ensures var r, o := Skip(g, h, keys, n, input, at, t), Put(g, h, keys, n, x, p);
            r.Ok? && r.next == at + |o.1| && Mirrored(o.0, r.value)
  {
    hide GraphOk;
    hide Skip;
    hide Decode;
    hide Put;
    hide Typed;
    hide Mirrored;
    hide At;
    var c := Target((n, at) => true, id => true, (n, i) => false, canon);
    MirrorCounts(p, t);
    DecodeAccepts(c, g, h, keys, n, x, p, t, input, at);
    DecodeSkips(c, g, h, keys, n, input, at, t);
  }

  /**
    One such form tells all keys apart that decode to different values: each part is marked, and each byte string
    ended.
   */
  function Canon(v: Val): seq<byte>
    decreases v, 2, 0
  {
    [Mark(v)] + CanonBody(v)
  }

  function Mark(v: Val): byte { if v.Bits? then 0 else if v.Text? then 1 else if v.Parts? then 2 else 3 }

  function CanonBody(v: Val): seq<byte>
    decreases v, 1, 0
  {
    match v
    case Bits(b) => Ended(b)
    case Text(s) => Ended(s)
    case Parts(ks) => CanonFrom(v, |ks|)
    case Other => []
  }

  function Ended(b: seq<byte>): seq<byte> {
    if b == [] then [0] else [1, b[0]] + Ended(b[1..])
  }

  /** The last `m` parts. */
  function CanonFrom(v: Val, m: nat): seq<byte>
    requires v.Parts? && m <= |v.kids|
    decreases v, 0, m
  {
    if m == 0 then [0] else [1] + (Canon(v.kids[|v.kids| - m]) + CanonFrom(v, m - 1))
  }

  lemma HeadApart(k: byte, a: seq<byte>, m: byte, b: seq<byte>)
    requires [k] + a == [m] + b
    ensures k == m && a == b
  {
    assert ([k] + a)[0] == k && ([m] + b)[0] == m && ([k] + a)[1..] == a && ([m] + b)[1..] == b;
  }

  lemma {:induction false} EndedApart(a: seq<byte>, b: seq<byte>, x: seq<byte>, y: seq<byte>)
    requires Ended(a) + x == Ended(b) + y
    ensures a == b && x == y
    decreases |a|
  {
    var s := Ended(a) + x;
    assert s[0] == Ended(a)[0] == Ended(b)[0];
    if a != [] {
      assert s == [1, a[0]] + (Ended(a[1..]) + x) == [1, b[0]] + (Ended(b[1..]) + y);
      assert s[1] == a[0] == b[0];
      assert s[2..] == Ended(a[1..]) + x == Ended(b[1..]) + y;
      EndedApart(a[1..], b[1..], x, y);
      assert a == [a[0]] + a[1..] && b == [b[0]] + b[1..];
    } else {
      assert s[1..] == x == y;
    }
  }

  lemma {:induction false} CanonApart(u: Val, v: Val, x: seq<byte>, y: seq<byte>)
    requires Canon(u) + x == Canon(v) + y
    ensures u == v && x == y
    decreases u, 1, 0
  {
    hide CanonBody;
    assert Canon(u) + x == [Mark(u)] + (CanonBody(u) + x) && Canon(v) + y == [Mark(v)] + (CanonBody(v) + y);
    HeadApart(Mark(u), CanonBody(u) + x, Mark(v), CanonBody(v) + y);
    BodyApart(u, v, x, y);
  }

  lemma {:induction false} BodyApart(u: Val, v: Val, x: seq<byte>, y: seq<byte>)
    requires Mark(u) == Mark(v) && CanonBody(u) + x == CanonBody(v) + y
    ensures u == v && x == y
    decreases u, 0, 1
  {
    hide Ended;
    hide CanonFrom;
    match u
    case Bits(a) => EndedApart(a, v.b, x, y);
    case Text(a) => EndedApart(a, v.s, x, y);
    case Parts(ks) =>
      PartsApart(u, v, |ks|, |v.kids|, x, y);
      assert u.kids == u.kids[|u.kids| - |ks|..] && v.kids == v.kids[|v.kids| - |v.kids|..];
    case Other =>
      assert [] + x == x && [] + y == y;
  }

  lemma {:induction false} PartsApart(u: Val, v: Val, m: nat, k: nat, x: seq<byte>, y: seq<byte>)
    requires u.Parts? && v.Parts? && m <= |u.kids| && k <= |v.kids| && CanonFrom(u, m) + x == CanonFrom(v, k) + y
    ensures u.kids[|u.kids| - m..] == v.kids[|v.kids| - k..] && x == y
    decreases u, 0, 0, m
  {
    hide Canon;
    var s := CanonFrom(u, m) + x;
    assert s[0] == CanonFrom(u, m)[0] == CanonFrom(v, k)[0];
    if m > 0 {
      var a, b := u.kids[|u.kids| - m], v.kids[|v.kids| - k];
      assert s[1..] == Canon(a) + (CanonFrom(u, m - 1) + x) == Canon(b) + (CanonFrom(v, k - 1) + y);
      CanonApart(a, b, CanonFrom(u, m - 1) + x, CanonFrom(v, k - 1) + y);
      PartsApart(u, v, m - 1, k - 1, x, y);
      assert u.kids[|u.kids| - m..] == [a] + u.kids[|u.kids| - m + 1..];
      assert v.kids[|v.kids| - k..] == [b] + v.kids[|v.kids| - k + 1..];
    } else {
      assert s[1..] == x == y;
    }
  }

  /** So for skipping it is enough that keys are distinct as values. */
  lemma CanonExact(u: Val, v: Val)
    ensures Canon(u) == Canon(v) <==> u == v
  {
    hide Canon;
    if Canon(u) == Canon(v) {
      CanonApart(u, v, [], []);
    }
  }
}
