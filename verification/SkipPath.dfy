/**
  Skipping a value position without materializing it (codec_decode.go:2198-2428, 2541-2559) against decoding it
  (codec_decode.go:825-930, 1281-1476, 1827-1994), on descriptors without pointers, interfaces and coders and
  with budgets off: wherever decoding succeeds, skipping succeeds, at the same bytes and with the same records.
 */
module SkipPath {
  import opened Bytes
  import opened Args
  import opened Integers
  import opened Containers
  import opened Descriptors

  const CLASS_NIL: byte := 0
  const CLASS_STRING: byte := 6
  const CLASS_MAP: byte := 0xA
  const CLASS_STRUCT: byte := 0xB
  const CLASS_REF: byte := 0xC

  const KIND_BOOL := 7
  const KIND_STRING := 12
  const KIND_BLOB := 13
  const KIND_BIGINT := 15

  /** The intern space: the records, and the text of those that are strings. */
  datatype Table = Table(recs: seq<Record>, strs: seq<seq<byte>>) {
    function Add(kind: RecordKind, length: u64, s: seq<byte>): Table {
      Table(recs + [Record(kind, length)], strs + [s])
    }
  }

  /** Records are only added. */
  ghost predicate Grows(t: Table, t': Table) {
    t.recs <= t'.recs && t.strs <= t'.strs && (|t.strs| == |t.recs| ==> |t'.strs| == |t'.recs|)
  }

  /** What a decoded position is to the comparison of map keys: the bits of a scalar, a text, or parts. */
  datatype Val = Bits(b: seq<byte>) | Text(s: seq<byte>) | Parts(kids: seq<Val>) | Other

  /**
    Everything decoding depends on beyond the stream: whether a value fits its Go type, whether a backing or map
    record is there, which fields the Go type lacks, and the canonical bytes of a key. All of it is arbitrary.
   */
  datatype Target = Target(fits: (nat, nat) -> bool, present: nat -> bool, lacks: (nat, nat) -> bool,
                           canon: Val -> seq<byte>)

  // ---------------------------------------------------------------- tokens both paths read

  /** Kinds whose body is one token without interning. */
  predicate IsScalar(d: Desc) {
    d.kind == KIND_BOOL || d.kind == KIND_INT || d.kind == KIND_UINT || d.kind == KIND_FLOAT || d.kind == KIND_COMPLEX
      || d.kind == KIND_BIGINT
  }

  /** The end of a scalar body; width 16 floats are left to the skip path. */
  function ScalarEnd(d: Desc, input: seq<byte>, at: nat): (r: Parse<()>)
    requires at <= |input| && IsScalar(d)
    ensures r.Ok? ==> at < r.next <= |input|
  {
    if d.kind == KIND_BOOL then
      var (f, next) :- ParseFirst(input, at, CLASS_BOOL);
      if f > 1 then Err(MalformedOp) else Ok((), next)
    else if d.kind == KIND_INT then
      var (u, next) :- ParseToken(input, at, CLASS_INT);
      Ok((), next)
    else if d.kind == KIND_UINT then
      var (u, next) :- ParseToken(input, at, CLASS_UINT);
      Ok((), next)
    else if d.kind == KIND_BIGINT then
      var (v, next) :- ParseBigint(input, at, U64 - 1);
      Ok((), next)
    else if d.kind == KIND_FLOAT && d.width == 4 then
      var (b, next) :- ParseFixed(input, at, CLASS_FLOAT, 0, 4);
      Ok((), next)
    else if d.kind == KIND_FLOAT && d.width == 8 then
      var (b, next) :- ParseFixed(input, at, CLASS_FLOAT, 1, 8);
      Ok((), next)
    else if d.kind == KIND_COMPLEX && d.width == 4 then
      var (b, next) :- ParseFixed(input, at, CLASS_COMPLEX, 0, 8);
      Ok((), next)
    else if d.kind == KIND_COMPLEX && d.width == 8 then
      var (b, next) :- ParseFixed(input, at, CLASS_COMPLEX, 1, 16);
      Ok((), next)
    else Err(MalformedOp)
  }

  /** A registered id. */
  function ParseId(input: seq<byte>, at: nat, t: Table): (r: Parse<nat>)
    requires at <= |input|
    ensures r.Ok? ==> at < r.next <= |input| && r.value < |t.recs|
  {
    var (id, next) :- ParseToken(input, at, CLASS_REF);
    if id >= |t.recs| then Err(BadRef) else Ok(id, next)
  }

  function ParseText(input: seq<byte>, at: nat): (r: Parse<seq<byte>>)
    requires at <= |input|
    ensures r.Ok? ==> at < r.next <= |input|
  {
    var (n, next) :- ParseToken(input, at, CLASS_STRING);
    ParseRaw(input, next, n)
  }

  /** The class of the next token. */
  predicate Next(input: seq<byte>, at: nat, cls: byte) { at < |input| && input[at] / 16 == cls }

  // ---------------------------------------------------------------- graphs

  /**
    Descriptors the claim is about: no NAMED cycle (`h` falls along NAMED chains), and the nodes in `keys`, to
    which all map keys belong, are built of scalars, strings, arrays and structs.
   */
  ghost predicate GraphOk(g: Graph, h: seq<nat>, keys: set<nat>) {
    && Closed(g) && |h| == |g|
    && (forall n :: 0 <= n < |g| ==> Shaped(g[n]))
    && (forall n :: 0 <= n < |g| && g[n].kind == KIND_NAMED ==> Lower(g, h, n))
    && (forall n :: 0 <= n < |g| && g[n].kind == KIND_MAP ==> g[n].refs[0] in keys)
    && (forall n :: n in keys ==> n < |g| && KeyNode(g, keys, n))
  }

  predicate Shaped(d: Desc) {
    && (d.kind == KIND_NAMED || d.kind == KIND_SLICE || d.kind == KIND_ARRAY ==> |d.refs| == 1)
    && (d.kind == KIND_MAP ==> |d.refs| == 2) && (d.kind == KIND_STRUCT ==> d.refs == [])
  }

  ghost predicate Lower(g: Graph, h: seq<nat>, n: nat)
    requires n < |g| == |h| && |g[n].refs| == 1
  {
    g[n].refs[0] < |g| && h[g[n].refs[0]] < h[n]
  }

  ghost predicate KeyNode(g: Graph, keys: set<nat>, n: nat)
    requires n < |g|
  {
    && (IsScalar(g[n]) || g[n].kind == KIND_STRING || g[n].kind == KIND_NAMED || g[n].kind == KIND_ARRAY
        || g[n].kind == KIND_STRUCT)
    && forall i :: 0 <= i < Kids(g[n]) ==> Kid(g[n], i) in keys
  }

  // ---------------------------------------------------------------- skipping

  ghost function Skip(g: Graph, h: seq<nat>, keys: set<nat>, n: nat, input: seq<byte>, at: nat, t: Table):
    (r: Parse<Table>)
    requires GraphOk(g, h, keys) && n < |g| && at <= |input|
    ensures r.Ok? ==> at < r.next <= |input|
    ensures r.Ok? ==> Grows(t, r.value)
    decreases |input| - at, 0, h[n], 1
  {
    var d := g[n];
    if d.kind == KIND_NAMED then
      assert Lower(g, h, n);
      Skip(g, h, keys, d.refs[0], input, at, t)
    else if d.kind == KIND_FLOAT && d.width == 16 then
      var (b, next) :- ParseFixed(input, at, CLASS_FLOAT, 2, 16);
      Ok(t, next)
    else if IsScalar(d) then
      var (u, next) :- ScalarEnd(d, input, at);
      Ok(t, next)
    else if d.kind == KIND_STRING then
      if Next(input, at, CLASS_REF) then
        var (id, next) :- ParseId(input, at, t);
        Ok(t, next)
      else
        var (s, next) :- ParseText(input, at);
        Ok(t.Add(StringRecord, 0, s), next)
    else if d.kind == KIND_STRUCT then
      var (f, next) :- ParseFirst(input, at, CLASS_STRUCT);
      if f != 0 then Err(MalformedOp) else SkipFields(g, h, keys, n, 0, input, next, t)
    else if d.kind == KIND_ARRAY then
      var (hd, next) :- ParseHeader(input, at, CLASS_ARRAY, 0);
      if hd.length != d.len then Err(MalformedOp)
      else
        assert KidIn(g, n, 0);
        SkipElems(g, h, keys, Kid(d, 0), hd.dense, input, next, t.Add(ArrayRecord, hd.length, []))
    else if d.kind == KIND_SLICE || d.kind == KIND_BLOB || d.kind == KIND_MAP then
      SkipContainer(g, h, keys, n, input, at, t)
    else Err(MalformedOp)
  }

  /** A nil, a view or REF to a known record, or a record with its body. */
  ghost function SkipContainer(g: Graph, h: seq<nat>, keys: set<nat>, n: nat, input: seq<byte>, at: nat, t: Table):
    (r: Parse<Table>)
    requires GraphOk(g, h, keys) && n < |g|
             && (g[n].kind == KIND_SLICE || g[n].kind == KIND_BLOB || g[n].kind == KIND_MAP) && at <= |input|
    ensures r.Ok? ==> at < r.next <= |input|
    ensures r.Ok? ==> Grows(t, r.value)
    decreases |input| - at, 0, h[n], 0
  {
    var d := g[n];
    if Next(input, at, CLASS_NIL) then
      if input[at] % 16 > 3 then Err(MalformedOp) else Ok(t, at + 1)
    else if d.kind != KIND_MAP && Next(input, at, CLASS_VIEW) then
      var (v, next) :- ParseView(input, at, t.recs);
      Ok(t, next)
    else if d.kind == KIND_BLOB then
      var (hd, n1) :- ParseHeader(input, at, CLASS_BLOB, 0);
      var (b, n2) :- ParseRaw(input, n1, hd.dense);
      if hd.dense > 0 && b[hd.dense - 1] == 0 then Err(MalformedOp)
      else
        var (v, next) :- ParseView(input, n2, t.Add(BlobRecord, hd.length, []).recs);
        Ok(t.Add(BlobRecord, hd.length, []), next)
    else if d.kind == KIND_SLICE then
      var (hd, n1) :- ParseHeader(input, at, CLASS_ARRAY, 0);
      assert KidIn(g, n, 0);
      var (t', n2) :- SkipElems(g, h, keys, Kid(d, 0), hd.dense, input, n1, t.Add(ArrayRecord, hd.length, []));
      var (v, next) :- ParseView(input, n2, t'.recs);
      Ok(t', next)
    else if Next(input, at, CLASS_REF) then
      var (id, next) :- ParseId(input, at, t);
      if t.recs[id].kind.MapRecord? then Ok(t, next) else Err(BadRef)
    else
      var (count, next) :- ParseToken(input, at, CLASS_MAP);
      SkipPairs(g, h, keys, n, count, input, next, t.Add(MapRecord, 0, []), {})
  }

  /** Fields from `i` on. */
  ghost function SkipFields(g: Graph, h: seq<nat>, keys: set<nat>, n: nat, i: nat, input: seq<byte>, at: nat, t: Table):
    (r: Parse<Table>)
    requires GraphOk(g, h, keys) && n < |g| && i <= Kids(g[n]) && at <= |input|
    ensures r.Ok? ==> at <= r.next <= |input|
    ensures r.Ok? ==> Grows(t, r.value)
    decreases |input| - at, 1, Kids(g[n]) - i
  {
    if i == Kids(g[n]) then Ok(t, at)
    else
      assert KidIn(g, n, i);
      var (t', next) :- Skip(g, h, keys, Kid(g[n], i), input, at, t);
      SkipFields(g, h, keys, n, i + 1, input, next, t')
  }

  /** `k` elements of descriptor `n`. */
  ghost function SkipElems(g: Graph, h: seq<nat>, keys: set<nat>, n: nat, k: nat, input: seq<byte>, at: nat, t: Table):
    (r: Parse<Table>)
    requires GraphOk(g, h, keys) && n < |g| && at <= |input|
    ensures r.Ok? ==> at <= r.next <= |input|
    ensures r.Ok? ==> Grows(t, r.value)
    decreases |input| - at, 1, k
  {
    if k == 0 then Ok(t, at)
    else
      var (t', next) :- Skip(g, h, keys, n, input, at, t);
      SkipElems(g, h, keys, n, k - 1, input, next, t')
  }

  /** `k` pairs; a key whose bytes were seen before is a duplicate. */
  ghost function SkipPairs(g: Graph, h: seq<nat>, keys: set<nat>, n: nat, k: nat, input: seq<byte>, at: nat, t: Table,
                           seen: set<seq<byte>>): (r: Parse<Table>)
    requires GraphOk(g, h, keys) && n < |g| && g[n].kind == KIND_MAP && at <= |input|
    ensures r.Ok? ==> at <= r.next <= |input|
    ensures r.Ok? ==> Grows(t, r.value)
    decreases |input| - at, 1, k
  {
    if k == 0 then Ok(t, at)
    else
      assert KidIn(g, n, 0) && KidIn(g, n, 1);
      var (t1, n1) :- Skip(g, h, keys, Kid(g[n], 0), input, at, t);
      if input[at..n1] in seen then Err(MalformedOp)
      else
        var (t2, n2) :- Skip(g, h, keys, Kid(g[n], 1), input, n1, t1);
        SkipPairs(g, h, keys, n, k - 1, input, n2, t2, seen + {input[at..n1]})
  }

  // ---------------------------------------------------------------- decoding

  ghost function Decode(c: Target, g: Graph, h: seq<nat>, keys: set<nat>, n: nat, input: seq<byte>, at: nat, t: Table):
    (r: Parse<(Val, Table)>)
    requires GraphOk(g, h, keys) && n < |g| && at <= |input| && |t.strs| == |t.recs|
    ensures r.Ok? ==> at < r.next <= |input|
    ensures r.Ok? ==> Grows(t, r.value.1)
    decreases |input| - at, 0, h[n], 1
  {
    var d := g[n];
    if !c.fits(n, at) then Err(MalformedOp)
    else if d.kind == KIND_NAMED then
      assert Lower(g, h, n);
      Decode(c, g, h, keys, d.refs[0], input, at, t)
    else if IsScalar(d) then
      var (u, next) :- ScalarEnd(d, input, at);
      Ok((Bits(input[at..next]), t), next)
    else if d.kind == KIND_STRING then
      if Next(input, at, CLASS_REF) then
        var (id, next) :- ParseId(input, at, t);
        if t.recs[id].kind.StringRecord? then Ok((Text(t.strs[id]), t), next) else Err(BadRef)
      else
        var (s, next) :- ParseText(input, at);
        Ok((Text(s), t.Add(StringRecord, 0, s)), next)
    else if d.kind == KIND_STRUCT then
      var (f, next) :- ParseFirst(input, at, CLASS_STRUCT);
      if f != 0 then Err(MalformedOp)
      else
        var (p, end) :- DecodeFields(c, g, h, keys, n, 0, input, next, t);
        Ok((Parts(p.0), p.1), end)
    else if d.kind == KIND_ARRAY then
      var (hd, next) :- ParseHeader(input, at, CLASS_ARRAY, 0);
      if hd.length != d.len then Err(MalformedOp)
      else
        assert KidIn(g, n, 0);
        var (p, end) :- DecodeElems(c, g, h, keys, Kid(d, 0), hd.dense, input, next, t.Add(ArrayRecord, hd.length, []));
        Ok((Parts(p.0), p.1), end)
    else if d.kind == KIND_SLICE || d.kind == KIND_BLOB || d.kind == KIND_MAP then
      DecodeContainer(c, g, h, keys, n, input, at, t)
    else Err(MalformedOp)
  }

  /** A nil, a view or REF to a materialized record, or a record with its body. */
  ghost function DecodeContainer(c: Target, g: Graph, h: seq<nat>, keys: set<nat>, n: nat, input: seq<byte>, at: nat,
                                 t: Table): (r: Parse<(Val, Table)>)
    requires GraphOk(g, h, keys) && n < |g|
             && (g[n].kind == KIND_SLICE || g[n].kind == KIND_BLOB || g[n].kind == KIND_MAP) && at <= |input|
               && |t.strs| == |t.recs|
    ensures r.Ok? ==> at < r.next <= |input|
    ensures r.Ok? ==> Grows(t, r.value.1)
    decreases |input| - at, 0, h[n], 0
  {
    var d := g[n];
    if Next(input, at, CLASS_NIL) then
      if input[at] % 16 != (if d.kind == KIND_MAP then 2 else 1) then Err(MalformedOp) else Ok((Other, t), at + 1)
    else if d.kind != KIND_MAP && Next(input, at, CLASS_VIEW) then
      var (v, next) :- ParseView(input, at, t.recs);
      if c.present(v.id) then Ok((Other, t), next) else Err(BadRef)
    else if d.kind == KIND_BLOB then
      var (hd, n1) :- ParseHeader(input, at, CLASS_BLOB, 0);
      var (b, n2) :- ParseRaw(input, n1, hd.dense);
      if hd.dense > 0 && b[hd.dense - 1] == 0 then Err(MalformedOp)
      else
        var (v, next) :- ParseView(input, n2, t.Add(BlobRecord, hd.length, []).recs);
        Ok((Other, t.Add(BlobRecord, hd.length, [])), next)
    else if d.kind == KIND_SLICE then
      var (hd, n1) :- ParseHeader(input, at, CLASS_ARRAY, 0);
      assert KidIn(g, n, 0);
      var (p, n2) :- DecodeElems(c, g, h, keys, Kid(d, 0), hd.dense, input, n1, t.Add(ArrayRecord, hd.length, []));
      var (v, next) :- ParseView(input, n2, p.1.recs);
      Ok((Other, p.1), next)
    else if Next(input, at, CLASS_REF) then
      var (id, next) :- ParseId(input, at, t);
      if t.recs[id].kind.MapRecord? && c.present(id) then Ok((Other, t), next) else Err(BadRef)
    else
      var (count, next) :- ParseToken(input, at, CLASS_MAP);
      var (t', end) :- DecodePairs(c, g, h, keys, n, count, input, next, t.Add(MapRecord, 0, []), {});
      Ok((Other, t'), end)
  }

  /** Fields from `i` on; those the Go type lacks are skipped. */
  ghost function DecodeFields(c: Target, g: Graph, h: seq<nat>, keys: set<nat>, n: nat, i: nat, input: seq<byte>,
                              at: nat, t: Table): (r: Parse<(seq<Val>, Table)>)
    requires GraphOk(g, h, keys) && n < |g| && i <= Kids(g[n]) && at <= |input| && |t.strs| == |t.recs|
    ensures r.Ok? ==> at <= r.next <= |input|
    ensures r.Ok? ==> Grows(t, r.value.1)
    decreases |input| - at, 1, Kids(g[n]) - i
  {
    if i == Kids(g[n]) then Ok(([], t), at)
    else
      assert KidIn(g, n, i);
      var (p, next) :- DecodeField(c, g, h, keys, n, i, input, at, t);
      var (q, end) :- DecodeFields(c, g, h, keys, n, i + 1, input, next, p.1);
      Ok(([p.0] + q.0, q.1), end)
  }

  ghost function DecodeField(c: Target, g: Graph, h: seq<nat>, keys: set<nat>, n: nat, i: nat, input: seq<byte>,
                             at: nat, t: Table): (r: Parse<(Val, Table)>)
    requires GraphOk(g, h, keys) && n < |g| && i < Kids(g[n]) && Kid(g[n], i) < |g| && at <= |input|
             && |t.strs| == |t.recs|
    ensures r.Ok? ==> at < r.next <= |input|
    ensures r.Ok? ==> Grows(t, r.value.1)
    decreases |input| - at, 1, 0
  {
    if c.lacks(n, i) then
      var (t', next) :- Skip(g, h, keys, Kid(g[n], i), input, at, t);
      Ok((Other, t'), next)
    else Decode(c, g, h, keys, Kid(g[n], i), input, at, t)
  }

  ghost function DecodeElems(c: Target, g: Graph, h: seq<nat>, keys: set<nat>, n: nat, k: nat, input: seq<byte>,
                             at: nat, t: Table): (r: Parse<(seq<Val>, Table)>)
    requires GraphOk(g, h, keys) && n < |g| && at <= |input| && |t.strs| == |t.recs|
    ensures r.Ok? ==> at <= r.next <= |input|
    ensures r.Ok? ==> Grows(t, r.value.1)
    decreases |input| - at, 1, k
  {
    if k == 0 then Ok(([], t), at)
    else
      var (p, next) :- Decode(c, g, h, keys, n, input, at, t);
      var (q, end) :- DecodeElems(c, g, h, keys, n, k - 1, input, next, p.1);
      Ok(([p.0] + q.0, q.1), end)
  }

  /** `k` pairs; a key whose canonical bytes were seen before is a duplicate. */
  ghost function DecodePairs(c: Target, g: Graph, h: seq<nat>, keys: set<nat>, n: nat, k: nat, input: seq<byte>,
                             at: nat, t: Table, seen: set<seq<byte>>): (r: Parse<Table>)
    requires GraphOk(g, h, keys) && n < |g| && g[n].kind == KIND_MAP && at <= |input| && |t.strs| == |t.recs|
    ensures r.Ok? ==> at <= r.next <= |input|
    ensures r.Ok? ==> Grows(t, r.value)
    decreases |input| - at, 1, k
  {
    if k == 0 then Ok(t, at)
    else
      assert KidIn(g, n, 0) && KidIn(g, n, 1);
      var (p, n1) :- Decode(c, g, h, keys, Kid(g[n], 0), input, at, t);
      if c.canon(p.0) in seen then Err(MalformedOp)
      else
        var (q, n2) :- Decode(c, g, h, keys, Kid(g[n], 1), input, n1, p.1);
        DecodePairs(c, g, h, keys, n, k - 1, input, n2, q.1, seen + {c.canon(p.0)})
  }

  // ---------------------------------------------------------------- one level of each walk

  lemma FirstKid(g: Graph, h: seq<nat>, keys: set<nat>, n: nat)
    requires GraphOk(g, h, keys) && n < |g| && (g[n].kind == KIND_ARRAY || g[n].kind == KIND_SLICE)
    ensures Kids(g[n]) > 0 && Kid(g[n], 0) < |g|
  {
    assert Shaped(g[n]);
    assert |g[n].refs| == 1;
    assert KidIn(g, n, 0);
  }

  lemma SkipNamed(g: Graph, h: seq<nat>, keys: set<nat>, n: nat, input: seq<byte>, at: nat, t: Table)
    requires GraphOk(g, h, keys) && n < |g| && at <= |input| && g[n].kind == KIND_NAMED
    ensures |h| == |g| && |g[n].refs| == 1 && g[n].refs[0] < |g| && h[g[n].refs[0]] < h[n]
    ensures Skip(g, h, keys, n, input, at, t) == Skip(g, h, keys, g[n].refs[0], input, at, t)
  {
    hide ParseFixed;
    hide ScalarEnd;
    hide ParseText;
    hide ParseToken;
    hide ParseHeader;
    hide ParseView;
    hide ParseRaw;
    assert Lower(g, h, n);
  }

  lemma SkipStruct(g: Graph, h: seq<nat>, keys: set<nat>, n: nat, input: seq<byte>, at: nat, t: Table)
    requires GraphOk(g, h, keys) && n < |g| && at <= |input| && g[n].kind == KIND_STRUCT
    ensures var f, r := ParseFirst(input, at, CLASS_STRUCT), Skip(g, h, keys, n, input, at, t);
            && (r.Ok? ==> f.Ok? && f.value == 0)
            && (f.Ok? && f.value == 0 ==> r == SkipFields(g, h, keys, n, 0, input, f.next, t))
  {
    hide ParseFixed;
    hide ScalarEnd;
    hide ParseText;
    hide ParseToken;
    hide ParseHeader;
    hide ParseView;
    hide ParseRaw;
    hide SkipFields;
  }

  lemma SkipArray(g: Graph, h: seq<nat>, keys: set<nat>, n: nat, input: seq<byte>, at: nat, t: Table)
    requires GraphOk(g, h, keys) && n < |g| && at <= |input| && g[n].kind == KIND_ARRAY
    ensures Kids(g[n]) > 0 && Kid(g[n], 0) < |g|
    ensures var p, r := ParseHeader(input, at, CLASS_ARRAY, 0), Skip(g, h, keys, n, input, at, t);
            && (r.Ok? ==> p.Ok? && p.value.length == g[n].len)
            && (p.Ok? && p.value.length == g[n].len ==>
                  r == SkipElems(g, h, keys, Kid(g[n], 0), p.value.dense, input, p.next,
                                 t.Add(ArrayRecord, p.value.length, [])))
  {
    hide ParseFixed;
    hide ScalarEnd;
    hide ParseText;
    hide ParseToken;
    hide ParseHeader;
    hide ParseView;
    hide ParseRaw;
    hide SkipElems;
    FirstKid(g, h, keys, n);
  }

  lemma DecodeNamed(c: Target, g: Graph, h: seq<nat>, keys: set<nat>, n: nat, input: seq<byte>, at: nat, t: Table)
    requires GraphOk(g, h, keys) && n < |g| && at <= |input| && |t.strs| == |t.recs| && g[n].kind == KIND_NAMED
    ensures |g[n].refs| == 1 && g[n].refs[0] < |g| && h[g[n].refs[0]] < h[n]
    ensures Decode(c, g, h, keys, n, input, at, t).Ok? ==>
              Decode(c, g, h, keys, n, input, at, t) == Decode(c, g, h, keys, g[n].refs[0], input, at, t)
  {
    hide ParseFixed;
    hide ScalarEnd;
    hide ParseText;
    hide ParseToken;
    hide ParseHeader;
    hide ParseView;
    hide ParseRaw;
    assert Lower(g, h, n);
  }

  lemma DecodeStruct(c: Target, g: Graph, h: seq<nat>, keys: set<nat>, n: nat, input: seq<byte>, at: nat, t: Table)
    requires GraphOk(g, h, keys) && n < |g| && at <= |input| && |t.strs| == |t.recs| && g[n].kind == KIND_STRUCT
    ensures var f, r := ParseFirst(input, at, CLASS_STRUCT), Decode(c, g, h, keys, n, input, at, t);
            r.Ok? ==> f.Ok? && f.value == 0
                      && var q := DecodeFields(c, g, h, keys, n, 0, input, f.next, t);
                         q.Ok? && r == Ok((Parts(q.value.0), q.value.1), q.next)
  {
    hide ParseFixed;
    hide ScalarEnd;
    hide ParseText;
    hide ParseToken;
    hide ParseHeader;
    hide ParseView;
    hide ParseRaw;
    hide DecodeFields;
  }

  lemma DecodeArray(c: Target, g: Graph, h: seq<nat>, keys: set<nat>, n: nat, input: seq<byte>, at: nat, t: Table)
    requires GraphOk(g, h, keys) && n < |g| && at <= |input| && |t.strs| == |t.recs| && g[n].kind == KIND_ARRAY
    ensures Kids(g[n]) > 0 && Kid(g[n], 0) < |g|
    ensures var p, r := ParseHeader(input, at, CLASS_ARRAY, 0), Decode(c, g, h, keys, n, input, at, t);
            r.Ok? ==> p.Ok? && p.value.length == g[n].len
                      && var q := DecodeElems(c, g, h, keys, Kid(g[n], 0), p.value.dense, input, p.next,
                                              t.Add(ArrayRecord, p.value.length, []));
                         q.Ok? && r == Ok((Parts(q.value.0), q.value.1), q.next)
  {
    hide ParseFixed;
    hide ScalarEnd;
    hide ParseText;
    hide ParseToken;
    hide ParseHeader;
    hide ParseView;
    hide ParseRaw;
    hide DecodeElems;
    FirstKid(g, h, keys, n);
  }

  // ---------------------------------------------------------------- the same bytes read the same

  /** The `m` bytes at `a` and at `b` are the same. */
  ghost predicate Agree(input: seq<byte>, a: nat, b: nat, m: nat) {
    a + m <= |input| && b + m <= |input| && input[a..a + m] == input[b..b + m]
  }

  lemma AgreeTail(input: seq<byte>, a: nat, b: nat, m: nat, k: nat)
    requires Agree(input, a, b, m) && k <= m
    ensures Agree(input, a + k, b + k, m - k) && Agree(input, a, b, k) && (k < m ==> input[a + k] == input[b + k])
  {
    SliceParts(input, a, m, k);
    SliceParts(input, b, m, k);
  }

  lemma SliceParts(input: seq<byte>, a: nat, m: nat, k: nat)
    requires a + m <= |input| && k <= m
    ensures input[a..a + m][..k] == input[a..a + k]
    ensures input[a..a + m][k..] == input[a + k..a + m]
    ensures k < m ==> input[a..a + m][k] == input[a + k]
  {
    var x := input[a..a + m];
    assert |x[..k]| == |input[a..a + k]| && |x[k..]| == |input[a + k..a + m]|;
  }

  /** Two outcomes, read at `a` and `b`: the same value from the same number of bytes. */
  predicate Alike<T(==)>(p: Parse<T>, a: nat, q: Parse<T>, b: nat) {
    p.Ok? && q.Ok? && p.value == q.value && p.next - a == q.next - b
  }

  lemma PayloadAlike(input: seq<byte>, a: nat, b: nat, m: nat, form: byte)
    requires Agree(input, a, b, m) && ParsePayload(input, a, form).Ok? && ParsePayload(input, a, form).next <= a + m
    ensures Alike(ParsePayload(input, a, form), a, ParsePayload(input, b, form), b)
  {
    if INLINE_MAX < form <= ARG_U64 {
      AgreeTail(input, a, b, m, ArgWidth(form));
    }
  }

  lemma TokenAlike(input: seq<byte>, a: nat, b: nat, m: nat, cls: byte)
    requires Agree(input, a, b, m) && ParseToken(input, a, cls).Ok? && ParseToken(input, a, cls).next <= a + m
    ensures Alike(ParseToken(input, a, cls), a, ParseToken(input, b, cls), b)
  {
    hide ParsePayload;
    AgreeTail(input, a, b, m, 0);
    AgreeTail(input, a, b, m, 1);
    PayloadAlike(input, a + 1, b + 1, m - 1, input[a] % 16);
  }

  lemma ArgAlike(input: seq<byte>, a: nat, b: nat, m: nat)
    requires Agree(input, a, b, m) && ParseArg(input, a).Ok? && ParseArg(input, a).next <= a + m
    ensures Alike(ParseArg(input, a), a, ParseArg(input, b), b)
  {
    hide ParsePayload;
    AgreeTail(input, a, b, m, 0);
    AgreeTail(input, a, b, m, 1);
    PayloadAlike(input, a + 1, b + 1, m - 1, input[a]);
  }

  lemma RawAlike(input: seq<byte>, a: nat, b: nat, m: nat, n: nat)
    requires Agree(input, a, b, m) && n <= m
    ensures Alike(ParseRaw(input, a, n), a, ParseRaw(input, b, n), b)
  {
    AgreeTail(input, a, b, m, n);
  }

  lemma TextAlike(input: seq<byte>, a: nat, b: nat, m: nat)
    requires Agree(input, a, b, m) && ParseText(input, a).Ok? && ParseText(input, a).next <= a + m
    ensures Alike(ParseText(input, a), a, ParseText(input, b), b)
  {
    hide ParseToken;
    var p := ParseToken(input, a, CLASS_STRING);
    TokenAlike(input, a, b, m, CLASS_STRING);
    AgreeTail(input, a, b, m, p.next - a);
    RawAlike(input, p.next, b + (p.next - a), m - (p.next - a), p.value);
  }

  lemma FixedAlike(input: seq<byte>, a: nat, b: nat, m: nat, cls: byte, form: byte, n: nat)
    requires Agree(input, a, b, m) && ParseFixed(input, a, cls, form, n).Ok?
             && ParseFixed(input, a, cls, form, n).next <= a + m
    ensures Alike(ParseFixed(input, a, cls, form, n), a, ParseFixed(input, b, cls, form, n), b)
  {
    AgreeTail(input, a, b, m, 0);
    AgreeTail(input, a, b, m, 1);
    RawAlike(input, a + 1, b + 1, m - 1, n);
  }

  lemma ExtAlike(input: seq<byte>, a: nat, b: nat, m: nat, max: u64)
    requires Agree(input, a, b, m) && ParseExt(input, a, max).Ok? && ParseExt(input, a, max).next <= a + m
    ensures Alike(ParseExt(input, a, max), a, ParseExt(input, b, max), b)
  {
    hide ParseArg;
    var p := ParseArg(input, a);
    ArgAlike(input, a, b, m);
    AgreeTail(input, a, b, m, p.next - a);
    RawAlike(input, p.next, b + (p.next - a), m - (p.next - a), p.value);
  }

  /** A big integer by its first byte. */
  lemma BigintBy(input: seq<byte>, at: nat, max: u64)
    requires at < |input|
    ensures input[at] == 0 ==> ParseBigint(input, at, max) == Ok(NilInt, at + 1)
    ensures input[at] != 0 && input[at] != ARG_EXT ==>
              var p := ParsePayload(input, at + 1, input[at]);
              && (p.Err? ==> ParseBigint(input, at, max).Err?)
              && (p.Ok? ==> ParseBigint(input, at, max) == Ok(Int(Unzigzag(p.value)), p.next))
    ensures input[at] == ARG_EXT ==>
              var p := ParseExt(input, at + 1, max);
              && (p.Err? ==> ParseBigint(input, at, max).Err?)
              && (p.Ok? ==> ParseBigint(input, at, max) == Ok(Int(UnzigzagBig(FromBigEndian(p.value))), p.next))
  {
    hide ParsePayload;
    hide ParseExt;
    hide FromBigEndian;
    hide Unzigzag;
    hide UnzigzagBig;
  }

  lemma BigintAlike(input: seq<byte>, a: nat, b: nat, m: nat, max: u64)
    requires Agree(input, a, b, m) && ParseBigint(input, a, max).Ok? && ParseBigint(input, a, max).next <= a + m
    ensures Alike(ParseBigint(input, a, max), a, ParseBigint(input, b, max), b)
  {
    hide ParsePayload;
    hide ParseExt;
    hide FromBigEndian;
    hide Unzigzag;
    hide UnzigzagBig;
    AgreeTail(input, a, b, m, 0);
    AgreeTail(input, a, b, m, 1);
    hide Agree;
    hide ParseBigint;
    BigintBy(input, a, max);
    BigintBy(input, b, max);
    if input[a] == ARG_EXT {
      ExtAlike(input, a + 1, b + 1, m - 1, max);
    } else if input[a] != 0 {
      PayloadAlike(input, a + 1, b + 1, m - 1, input[a]);
    }
  }

  lemma ScalarAlike(d: Desc, input: seq<byte>, a: nat, b: nat, m: nat)
    requires IsScalar(d) && Agree(input, a, b, m) && ScalarEnd(d, input, a).Ok? && ScalarEnd(d, input, a).next <= a + m
    ensures Alike(ScalarEnd(d, input, a), a, ScalarEnd(d, input, b), b)
  {
    hide ParseToken;
    hide ParseFixed;
    hide ParseBigint;
    AgreeTail(input, a, b, m, 0);
    AgreeTail(input, a, b, m, if m > 0 then 1 else 0);
    if d.kind == KIND_INT {
      TokenAlike(input, a, b, m, CLASS_INT);
    } else if d.kind == KIND_UINT {
      TokenAlike(input, a, b, m, CLASS_UINT);
    } else if d.kind == KIND_BIGINT {
      BigintAlike(input, a, b, m, U64 - 1);
    } else if d.kind == KIND_FLOAT {
      FixedAlike(input, a, b, m, CLASS_FLOAT, if d.width == 4 then 0 else 1, if d.width == 4 then 4 else 8);
    } else if d.kind == KIND_COMPLEX {
      FixedAlike(input, a, b, m, CLASS_COMPLEX, if d.width == 4 then 0 else 1, if d.width == 4 then 8 else 16);
    }
  }

  lemma HeaderAlike(input: seq<byte>, a: nat, b: nat, m: nat, cls: byte)
    requires Agree(input, a, b, m) && ParseHeader(input, a, cls, 0).Ok? && ParseHeader(input, a, cls, 0).next <= a + m
    ensures Alike(ParseHeader(input, a, cls, 0), a, ParseHeader(input, b, cls, 0), b)
  {
    hide ParseToken;
    hide ParseArg;
    var p := ParseToken(input, a, cls);
    TokenAlike(input, a, b, m, cls);
    AgreeTail(input, a, b, m, p.next - a);
    ArgAlike(input, p.next, b + (p.next - a), m - (p.next - a));
  }

  lemma FirstAlike(input: seq<byte>, a: nat, b: nat, m: nat, cls: byte)
    requires Agree(input, a, b, m) && ParseFirst(input, a, cls).Ok? && ParseFirst(input, a, cls).next <= a + m
    ensures Alike(ParseFirst(input, a, cls), a, ParseFirst(input, b, cls), b)
  {
    AgreeTail(input, a, b, m, 0);
  }

  lemma KeyKid(g: Graph, h: seq<nat>, keys: set<nat>, n: nat, i: nat)
    requires GraphOk(g, h, keys) && n in keys && i < Kids(g[n])
    ensures n < |g| && Kid(g[n], i) in keys && Kid(g[n], i) < |g|
  {
    assert KeyNode(g, keys, n);
  }

  /** Key bytes that agree are skipped alike. */
  lemma {:induction false} SkipSame(g: Graph, h: seq<nat>, keys: set<nat>, n: nat, input: seq<byte>, a: nat, b: nat,
                                    m: nat, t: Table, u: Table)
    requires GraphOk(g, h, keys) && n in keys && Agree(input, a, b, m) && Skip(g, h, keys, n, input, a, t).Ok?
             && Skip(g, h, keys, n, input, b, u).Ok?
    requires Skip(g, h, keys, n, input, a, t).next <= a + m
    ensures Skip(g, h, keys, n, input, a, t).next - a == Skip(g, h, keys, n, input, b, u).next - b
    decreases |input| - a, 0, h[n]
  {
    hide Agree;
    hide Skip;
    hide SkipFields;
    hide SkipElems;
    hide GraphOk;
    hide ParseHeader;
    hide ParseFirst;
    KeyKind(g, h, keys, n);
    var d := g[n];
    if d.kind == KIND_NAMED {
      SkipNamed(g, h, keys, n, input, a, t);
      SkipNamed(g, h, keys, n, input, b, u);
      KeyKid(g, h, keys, n, 0);
      SkipSame(g, h, keys, d.refs[0], input, a, b, m, t, u);
    } else if d.kind == KIND_STRUCT {
      SkipStruct(g, h, keys, n, input, a, t);
      SkipStruct(g, h, keys, n, input, b, u);
      FirstAlike(input, a, b, m, CLASS_STRUCT);
      AgreeTail(input, a, b, m, 1);
      SkipFieldsSame(g, h, keys, n, 0, input, a + 1, b + 1, m - 1, t, u);
    } else if d.kind == KIND_ARRAY {
      SkipArray(g, h, keys, n, input, a, t);
      SkipArray(g, h, keys, n, input, b, u);
      HeaderAlike(input, a, b, m, CLASS_ARRAY);
      var p := ParseHeader(input, a, CLASS_ARRAY, 0);
      AgreeTail(input, a, b, m, p.next - a);
      KeyKid(g, h, keys, n, 0);
      SkipElemsSame(g, h, keys, Kid(d, 0), p.value.dense, input, p.next, b + (p.next - a), m - (p.next - a),
                    t.Add(ArrayRecord, p.value.length, []), u.Add(ArrayRecord, p.value.length, []));
    } else {
      SkipLeafSame(g, h, keys, n, input, a, b, m, t, u);
    }
  }

  lemma KeyKind(g: Graph, h: seq<nat>, keys: set<nat>, n: nat)
    requires GraphOk(g, h, keys) && n in keys
    ensures n < |g| && |h| == |g|
    ensures IsScalar(g[n]) || g[n].kind == KIND_STRING || g[n].kind == KIND_NAMED || g[n].kind == KIND_ARRAY
            || g[n].kind == KIND_STRUCT
    ensures (g[n].kind == KIND_NAMED || g[n].kind == KIND_ARRAY ==> |g[n].refs| == 1 && Kid(g[n], 0) == g[n].refs[0])
  {
    assert KeyNode(g, keys, n) && Shaped(g[n]);
  }

  lemma SkipLeafSame(g: Graph, h: seq<nat>, keys: set<nat>, n: nat, input: seq<byte>, a: nat, b: nat, m: nat, t: Table,
                     u: Table)
    requires GraphOk(g, h, keys) && n < |g| && (IsScalar(g[n]) || g[n].kind == KIND_STRING) && Agree(input, a, b, m)
    requires Skip(g, h, keys, n, input, a, t).Ok? && Skip(g, h, keys, n, input, b, u).Ok?
             && Skip(g, h, keys, n, input, a, t).next <= a + m
    ensures Skip(g, h, keys, n, input, a, t).next - a == Skip(g, h, keys, n, input, b, u).next - b
  {
    hide ParseFixed;
    hide ScalarEnd;
    hide ParseText;
    hide ParseToken;
    hide GraphOk;
    var d := g[n];
    if d.kind == KIND_FLOAT && d.width == 16 {
      FixedAlike(input, a, b, m, CLASS_FLOAT, 2, 16);
    } else if IsScalar(d) {
      ScalarAlike(d, input, a, b, m);
    } else {
      AgreeTail(input, a, b, m, 0);
      if Next(input, a, CLASS_REF) {
        TokenAlike(input, a, b, m, CLASS_REF);
      } else {
        TextAlike(input, a, b, m);
      }
    }
  }

  lemma {:induction false} SkipFieldsSame(g: Graph, h: seq<nat>, keys: set<nat>, n: nat, i: nat, input: seq<byte>,
                                          a: nat, b: nat, m: nat, t: Table, u: Table)
    requires GraphOk(g, h, keys) && n in keys && i <= Kids(g[n]) && Agree(input, a, b, m)
    requires SkipFields(g, h, keys, n, i, input, a, t).Ok? && SkipFields(g, h, keys, n, i, input, b, u).Ok?
    requires SkipFields(g, h, keys, n, i, input, a, t).next <= a + m
    ensures SkipFields(g, h, keys, n, i, input, a, t).next - a == SkipFields(g, h, keys, n, i, input, b, u).next - b
    decreases |input| - a, 1, Kids(g[n]) - i
  {
    hide Skip;
    if i < Kids(g[n]) {
      KeyKid(g, h, keys, n, i);
      var p, q := Skip(g, h, keys, Kid(g[n], i), input, a, t), Skip(g, h, keys, Kid(g[n], i), input, b, u);
      SkipSame(g, h, keys, Kid(g[n], i), input, a, b, m, t, u);
      AgreeTail(input, a, b, m, p.next - a);
      SkipFieldsSame(g, h, keys, n, i + 1, input, p.next, q.next, m - (p.next - a), p.value, q.value);
    }
  }

  lemma {:induction false} SkipElemsSame(g: Graph, h: seq<nat>, keys: set<nat>, n: nat, k: nat, input: seq<byte>,
                                         a: nat, b: nat, m: nat, t: Table, u: Table)
    requires GraphOk(g, h, keys) && n in keys && Agree(input, a, b, m)
    requires SkipElems(g, h, keys, n, k, input, a, t).Ok? && SkipElems(g, h, keys, n, k, input, b, u).Ok?
    requires SkipElems(g, h, keys, n, k, input, a, t).next <= a + m
    ensures SkipElems(g, h, keys, n, k, input, a, t).next - a == SkipElems(g, h, keys, n, k, input, b, u).next - b
    decreases |input| - a, 1, k
  {
    hide Skip;
    if k > 0 {
      var p, q := Skip(g, h, keys, n, input, a, t), Skip(g, h, keys, n, input, b, u);
      SkipSame(g, h, keys, n, input, a, b, m, t, u);
      AgreeTail(input, a, b, m, p.next - a);
      SkipElemsSame(g, h, keys, n, k - 1, input, p.next, q.next, m - (p.next - a), p.value, q.value);
    }
  }

  lemma GrowsTrans(t: Table, u: Table, v: Table)
    requires Grows(t, u) && Grows(u, v)
    ensures Grows(t, v)
  {
  }

  /** A string known to a table is the same in every later one. */
  lemma TextKept(t: Table, u: Table, id: nat)
    requires Grows(t, u) && id < |t.recs| == |t.strs|
    ensures |u.recs| == |u.strs| && id < |u.recs| && u.recs[id] == t.recs[id] && u.strs[id] == t.strs[id]
  {
  }

  /** The same key bytes, read later in the stream, decode to the same key. */
  lemma {:induction false} DecodeSame(c: Target, g: Graph, h: seq<nat>, keys: set<nat>, n: nat, input: seq<byte>,
                                      a: nat, b: nat, m: nat, t: Table, u: Table)
    requires GraphOk(g, h, keys) && n in keys && Agree(input, a, b, m) && |t.strs| == |t.recs| && |u.strs| == |u.recs|
    requires Decode(c, g, h, keys, n, input, a, t).Ok? && Decode(c, g, h, keys, n, input, b, u).Ok?
    requires Decode(c, g, h, keys, n, input, a, t).next <= a + m
             && Grows(Decode(c, g, h, keys, n, input, a, t).value.1, u)
    ensures var p, q := Decode(c, g, h, keys, n, input, a, t), Decode(c, g, h, keys, n, input, b, u);
            p.next - a == q.next - b && p.value.0 == q.value.0
    decreases |input| - a, 0, h[n]
  {
    hide Agree;
    hide Decode;
    hide DecodeFields;
    hide DecodeElems;
    hide GraphOk;
    hide ParseHeader;
    hide ParseFirst;
    hide Grows;
    KeyKind(g, h, keys, n);
    var d := g[n];
    if d.kind == KIND_NAMED {
      DecodeNamed(c, g, h, keys, n, input, a, t);
      DecodeNamed(c, g, h, keys, n, input, b, u);
      KeyKid(g, h, keys, n, 0);
      DecodeSame(c, g, h, keys, d.refs[0], input, a, b, m, t, u);
    } else if d.kind == KIND_STRUCT {
      DecodeStruct(c, g, h, keys, n, input, a, t);
      DecodeStruct(c, g, h, keys, n, input, b, u);
      FirstAlike(input, a, b, m, CLASS_STRUCT);
      AgreeTail(input, a, b, m, 1);
      FieldsSame(c, g, h, keys, n, 0, input, a + 1, b + 1, m - 1, t, u);
    } else if d.kind == KIND_ARRAY {
      DecodeArray(c, g, h, keys, n, input, a, t);
      DecodeArray(c, g, h, keys, n, input, b, u);
      HeaderAlike(input, a, b, m, CLASS_ARRAY);
      var p := ParseHeader(input, a, CLASS_ARRAY, 0);
      AgreeTail(input, a, b, m, p.next - a);
      KeyKid(g, h, keys, n, 0);
      var u' := u.Add(ArrayRecord, p.value.length, []);
      AddGrows(u, ArrayRecord, p.value.length, []);
      GrowsTrans(Decode(c, g, h, keys, n, input, a, t).value.1, u, u');
      ElemsSame(c, g, h, keys, Kid(d, 0), p.value.dense, input, p.next, b + (p.next - a), m - (p.next - a),
                t.Add(ArrayRecord, p.value.length, []), u');
    } else {
      DecodeLeafSame(c, g, h, keys, n, input, a, b, m, t, u);
    }
  }

  /** What decoding a scalar or a string consists of. */
  lemma DecodeLeaf(c: Target, g: Graph, h: seq<nat>, keys: set<nat>, n: nat, input: seq<byte>, at: nat, t: Table)
    requires GraphOk(g, h, keys) && n < |g| && at <= |input| && |t.strs| == |t.recs|
    requires (IsScalar(g[n]) || g[n].kind == KIND_STRING) && Decode(c, g, h, keys, n, input, at, t).Ok?
    ensures var r := Decode(c, g, h, keys, n, input, at, t);
            && (IsScalar(g[n]) ==> ScalarEnd(g[n], input, at).Ok? && r.next == ScalarEnd(g[n], input, at).next
                                   && r.value.0 == Bits(input[at..r.next]))
            && (g[n].kind == KIND_STRING && Next(input, at, CLASS_REF) ==>
                  && ParseToken(input, at, CLASS_REF).Ok? && ParseToken(input, at, CLASS_REF).value < |t.recs|
                  && r.next == ParseToken(input, at, CLASS_REF).next && r.value.1 == t
                  && r.value.0 == Text(t.strs[ParseToken(input, at, CLASS_REF).value]))
            && (g[n].kind == KIND_STRING && !Next(input, at, CLASS_REF) ==>
                  && ParseText(input, at).Ok? && r.next == ParseText(input, at).next
                  && r.value.0 == Text(ParseText(input, at).value))
  {
    hide ScalarEnd;
    hide ParseText;
    hide ParseToken;
    hide DecodeFields;
    hide DecodeElems;
    hide DecodeContainer;
  }

  lemma DecodeLeafSame(c: Target, g: Graph, h: seq<nat>, keys: set<nat>, n: nat, input: seq<byte>, a: nat, b: nat,
                       m: nat, t: Table, u: Table)
    requires GraphOk(g, h, keys) && n < |g| && (IsScalar(g[n]) || g[n].kind == KIND_STRING) && Agree(input, a, b, m)
    requires |t.strs| == |t.recs| && |u.strs| == |u.recs|
    requires Decode(c, g, h, keys, n, input, a, t).Ok? && Decode(c, g, h, keys, n, input, b, u).Ok?
    requires Decode(c, g, h, keys, n, input, a, t).next <= a + m
             && Grows(Decode(c, g, h, keys, n, input, a, t).value.1, u)
    ensures var p, q := Decode(c, g, h, keys, n, input, a, t), Decode(c, g, h, keys, n, input, b, u);
            p.next - a == q.next - b && p.value.0 == q.value.0
  {
    hide ScalarEnd;
    hide ParseText;
    hide ParseToken;
    hide GraphOk;
    hide Grows;
    hide Decode;
    DecodeLeaf(c, g, h, keys, n, input, a, t);
    DecodeLeaf(c, g, h, keys, n, input, b, u);
    var d := g[n];
    if IsScalar(d) {
      ScalarAlike(d, input, a, b, m);
      AgreeTail(input, a, b, m, ScalarEnd(d, input, a).next - a);
    } else {
      AgreeTail(input, a, b, m, 0);
      if Next(input, a, CLASS_REF) {
        TokenAlike(input, a, b, m, CLASS_REF);
        TextKept(t, u, ParseToken(input, a, CLASS_REF).value);
      } else {
        TextAlike(input, a, b, m);
      }
    }
  }

  lemma AddGrows(u: Table, kind: RecordKind, length: u64, s: seq<byte>)
    ensures Grows(u, u.Add(kind, length, s))
  {
  }

  lemma {:induction false} FieldsSame(c: Target, g: Graph, h: seq<nat>, keys: set<nat>, n: nat, i: nat,
                                      input: seq<byte>, a: nat, b: nat, m: nat, t: Table, u: Table)
    requires GraphOk(g, h, keys) && n in keys && i <= Kids(g[n]) && Agree(input, a, b, m) && |t.strs| == |t.recs|
             && |u.strs| == |u.recs|
    requires DecodeFields(c, g, h, keys, n, i, input, a, t).Ok? && DecodeFields(c, g, h, keys, n, i, input, b, u).Ok?
    requires DecodeFields(c, g, h, keys, n, i, input, a, t).next <= a + m
             && Grows(DecodeFields(c, g, h, keys, n, i, input, a, t).value.1, u)
    ensures var p, q := DecodeFields(c, g, h, keys, n, i, input, a, t), DecodeFields(c, g, h, keys, n, i, input, b, u);
            p.next - a == q.next - b && p.value.0 == q.value.0
    decreases |input| - a, 1, Kids(g[n]) - i
  {
    hide Decode;
    hide Skip;
    hide Agree;
    if i < Kids(g[n]) {
      KeyKid(g, h, keys, n, i);
      var p, q := DecodeField(c, g, h, keys, n, i, input, a, t), DecodeField(c, g, h, keys, n, i, input, b, u);
      var rest := DecodeFields(c, g, h, keys, n, i + 1, input, p.next, p.value.1);
      GrowsTrans(p.value.1, rest.value.1, u);
      if c.lacks(n, i) {
        SkipSame(g, h, keys, Kid(g[n], i), input, a, b, m, t, u);
      } else {
        DecodeSame(c, g, h, keys, Kid(g[n], i), input, a, b, m, t, u);
      }
      AgreeTail(input, a, b, m, p.next - a);
      GrowsTrans(rest.value.1, u, q.value.1);
      FieldsSame(c, g, h, keys, n, i + 1, input, p.next, q.next, m - (p.next - a), p.value.1, q.value.1);
    }
  }

  lemma {:induction false} ElemsSame(c: Target, g: Graph, h: seq<nat>, keys: set<nat>, n: nat, k: nat, input: seq<byte>,
                                     a: nat, b: nat, m: nat, t: Table, u: Table)
    requires GraphOk(g, h, keys) && n in keys && Agree(input, a, b, m) && |t.strs| == |t.recs| && |u.strs| == |u.recs|
    requires DecodeElems(c, g, h, keys, n, k, input, a, t).Ok? && DecodeElems(c, g, h, keys, n, k, input, b, u).Ok?
    requires DecodeElems(c, g, h, keys, n, k, input, a, t).next <= a + m
             && Grows(DecodeElems(c, g, h, keys, n, k, input, a, t).value.1, u)
    ensures var p, q := DecodeElems(c, g, h, keys, n, k, input, a, t), DecodeElems(c, g, h, keys, n, k, input, b, u);
            p.next - a == q.next - b && p.value.0 == q.value.0
    decreases |input| - a, 1, k
  {
    hide Decode;
    if k > 0 {
      var p, q := Decode(c, g, h, keys, n, input, a, t), Decode(c, g, h, keys, n, input, b, u);
      var rest := DecodeElems(c, g, h, keys, n, k - 1, input, p.next, p.value.1);
      GrowsTrans(p.value.1, rest.value.1, u);
      DecodeSame(c, g, h, keys, n, input, a, b, m, t, u);
      AgreeTail(input, a, b, m, p.next - a);
      GrowsTrans(rest.value.1, u, q.value.1);
      ElemsSame(c, g, h, keys, n, k - 1, input, p.next, q.next, m - (p.next - a), p.value.1, q.value.1);
    }
  }

  // ---------------------------------------------------------------- decoding succeeds only where skipping does

  /** A slice or a map whose record stands here, not a nil, a view or a REF. */
  predicate FreshContainer(d: Desc, input: seq<byte>, at: nat) {
    && !Next(input, at, CLASS_NIL)
    && ((d.kind == KIND_SLICE && !Next(input, at, CLASS_VIEW)) || (d.kind == KIND_MAP && !Next(input, at, CLASS_REF)))
  }

  /** Positions without positions inside. */
  lemma FlatSkips(c: Target, g: Graph, h: seq<nat>, keys: set<nat>, n: nat, input: seq<byte>, at: nat, t: Table)
    requires GraphOk(g, h, keys) && n < |g| && at <= |input| && |t.strs| == |t.recs|
             && Decode(c, g, h, keys, n, input, at, t).Ok?
    requires g[n].kind != KIND_NAMED && g[n].kind != KIND_STRUCT && g[n].kind != KIND_ARRAY
             && !FreshContainer(g[n], input, at)
    ensures var r := Decode(c, g, h, keys, n, input, at, t); Skip(g, h, keys, n, input, at, t) == Ok(r.value.1, r.next)
  {
    hide ParseFixed;
    hide ScalarEnd;
    hide ParseText;
    hide ParseToken;
    hide ParseHeader;
    hide ParseView;
    hide ParseRaw;
    hide GraphOk;
    if g[n].kind == KIND_FLOAT {
      FloatWidth(g[n], input, at);
    }
  }

  lemma FloatWidth(d: Desc, input: seq<byte>, at: nat)
    requires at <= |input| && d.kind == KIND_FLOAT && ScalarEnd(d, input, at).Ok?
    ensures d.width != 16
  {
  }

  lemma SkipSlice(c: Target, g: Graph, h: seq<nat>, keys: set<nat>, n: nat, input: seq<byte>, at: nat, t: Table)
    requires GraphOk(g, h, keys) && n < |g| && at <= |input| && |t.strs| == |t.recs|
             && Decode(c, g, h, keys, n, input, at, t).Ok?
    requires g[n].kind == KIND_SLICE && FreshContainer(g[n], input, at)
    ensures Kids(g[n]) > 0 && Kid(g[n], 0) < |g|
    ensures var p := ParseHeader(input, at, CLASS_ARRAY, 0);
            && p.Ok?
            && var t0 := t.Add(ArrayRecord, p.value.length, []);
            var e, q := DecodeElems(c, g, h, keys, Kid(g[n], 0), p.value.dense, input, p.next, t0),
                SkipElems(g, h, keys, Kid(g[n], 0), p.value.dense, input, p.next, t0);
            e.Ok? && (q == Ok(e.value.1, e.next) ==>
              Skip(g, h, keys, n, input, at, t)
                == Ok(Decode(c, g, h, keys, n, input, at, t).value.1, Decode(c, g, h, keys, n, input, at, t).next))
  {
    hide ParseFixed;
    hide ScalarEnd;
    hide ParseText;
    hide ParseToken;
    hide ParseHeader;
    hide ParseView;
    hide ParseRaw;
    hide DecodeElems;
    hide SkipElems;
    FirstKid(g, h, keys, n);
  }

  lemma SkipMap(c: Target, g: Graph, h: seq<nat>, keys: set<nat>, n: nat, input: seq<byte>, at: nat, t: Table)
    requires GraphOk(g, h, keys) && n < |g| && at <= |input| && |t.strs| == |t.recs|
             && Decode(c, g, h, keys, n, input, at, t).Ok?
    requires g[n].kind == KIND_MAP && FreshContainer(g[n], input, at)
    ensures var p := ParseToken(input, at, CLASS_MAP);
            && p.Ok?
            && var t0 := t.Add(MapRecord, 0, []);
            var e := DecodePairs(c, g, h, keys, n, p.value, input, p.next, t0, {});
            && e.Ok? && Decode(c, g, h, keys, n, input, at, t) == Ok((Other, e.value), e.next)
            && Skip(g, h, keys, n, input, at, t) == SkipPairs(g, h, keys, n, p.value, input, p.next, t0, {})
  {
    hide ParseFixed;
    hide ScalarEnd;
    hide ParseText;
    hide ParseToken;
    hide ParseHeader;
    hide ParseView;
    hide ParseRaw;
    hide DecodePairs;
    hide SkipPairs;
    hide GraphOk;
  }

  /** Key bytes `r` seen before: decoded at `a` from table `tj`, known to later tables, canonical bytes noted. */
  ghost predicate KeyAt(c: Target, g: Graph, h: seq<nat>, keys: set<nat>, n: nat, input: seq<byte>, r: seq<byte>,
                        t: Table, canons: set<seq<byte>>, a: nat, tj: Table)
    requires GraphOk(g, h, keys) && n < |g|
  {
    && a <= |input| && |tj.strs| == |tj.recs|
    && var p := Decode(c, g, h, keys, n, input, a, tj);
       p.Ok? && input[a..p.next] == r && Grows(p.value.1, t) && c.canon(p.value.0) in canons
  }

  ghost predicate Known(c: Target, g: Graph, h: seq<nat>, keys: set<nat>, n: nat, input: seq<byte>, r: seq<byte>,
                        t: Table, canons: set<seq<byte>>)
    requires GraphOk(g, h, keys) && n < |g|
  {
    exists a: nat, tj: Table :: KeyAt(c, g, h, keys, n, input, r, t, canons, a, tj)
  }

  ghost predicate AllKnown(c: Target, g: Graph, h: seq<nat>, keys: set<nat>, n: nat, input: seq<byte>,
                           raws: set<seq<byte>>, t: Table, canons: set<seq<byte>>)
    requires GraphOk(g, h, keys) && n < |g|
  {
    forall r :: r in raws ==> Known(c, g, h, keys, n, input, r, t, canons)
  }

  lemma SameBytes(input: seq<byte>, a: nat, x: nat, b: nat, y: nat)
    requires a <= x <= |input| && b <= y <= |input| && input[a..x] == input[b..y]
    ensures x - a == y - b && Agree(input, a, b, y - b)
  {
  }

  /** Key bytes that repeat decode to a key whose canonical bytes repeat. */
  lemma RepeatedKey(c: Target, g: Graph, h: seq<nat>, keys: set<nat>, n: nat, input: seq<byte>, at: nat, t: Table,
                    raws: set<seq<byte>>, canons: set<seq<byte>>)
    requires GraphOk(g, h, keys) && n in keys && n < |g| && at <= |input| && |t.strs| == |t.recs|
    requires AllKnown(c, g, h, keys, n, input, raws, t, canons) && Decode(c, g, h, keys, n, input, at, t).Ok?
    ensures var p := Decode(c, g, h, keys, n, input, at, t); input[at..p.next] in raws ==> c.canon(p.value.0) in canons
  {
    hide Decode;
    hide GraphOk;
    hide Grows;
    hide Agree;
    var p := Decode(c, g, h, keys, n, input, at, t);
    var r := input[at..p.next];
    if r in raws {
      assert Known(c, g, h, keys, n, input, r, t, canons);
      var a: nat, tj: Table :| KeyAt(c, g, h, keys, n, input, r, t, canons, a, tj);
      SameBytes(input, a, Decode(c, g, h, keys, n, input, a, tj).next, at, p.next);
      DecodeSame(c, g, h, keys, n, input, a, at, |r|, tj, t);
    }
  }

  lemma KnownLater(c: Target, g: Graph, h: seq<nat>, keys: set<nat>, n: nat, input: seq<byte>, at: nat, t: Table,
                   raws: set<seq<byte>>, canons: set<seq<byte>>, u: Table)
    requires GraphOk(g, h, keys) && n < |g| && at <= |input| && |t.strs| == |t.recs|
    requires AllKnown(c, g, h, keys, n, input, raws, t, canons) && Decode(c, g, h, keys, n, input, at, t).Ok?
    requires Grows(Decode(c, g, h, keys, n, input, at, t).value.1, u)
    ensures var p := Decode(c, g, h, keys, n, input, at, t);
            AllKnown(c, g, h, keys, n, input, raws + {input[at..p.next]}, u, canons + {c.canon(p.value.0)})
  {
    hide Decode;
    hide GraphOk;
    hide Grows;
    var p := Decode(c, g, h, keys, n, input, at, t);
    var cs := canons + {c.canon(p.value.0)};
    GrowsTrans(t, p.value.1, u);
    forall r | r in raws + {input[at..p.next]}
      ensures Known(c, g, h, keys, n, input, r, u, cs)
    {
      if r in raws {
        assert Known(c, g, h, keys, n, input, r, t, canons);
        var a: nat, tj: Table :| KeyAt(c, g, h, keys, n, input, r, t, canons, a, tj);
        GrowsTrans(Decode(c, g, h, keys, n, input, a, tj).value.1, t, u);
        assert KeyAt(c, g, h, keys, n, input, r, u, cs, a, tj);
      } else {
        assert KeyAt(c, g, h, keys, n, input, r, u, cs, at, t);
      }
    }
  }

  /**
    Wherever decoding succeeds, whatever the Go types, skipping succeeds, consumes the same bytes and registers the
    same records with the same kinds, lengths and strings.
   */
  lemma {:induction false} DecodeSkips(c: Target, g: Graph, h: seq<nat>, keys: set<nat>, n: nat, input: seq<byte>,
                                       at: nat, t: Table)
    requires GraphOk(g, h, keys) && n < |g| && at <= |input| && |t.strs| == |t.recs|
             && Decode(c, g, h, keys, n, input, at, t).Ok?
    ensures var r := Decode(c, g, h, keys, n, input, at, t); Skip(g, h, keys, n, input, at, t) == Ok(r.value.1, r.next)
    decreases |input| - at, 0, h[n]
  {
    hide Decode;
    hide Skip;
    hide DecodeFields;
    hide SkipFields;
    hide DecodeElems;
    hide SkipElems;
    hide DecodePairs;
    hide SkipPairs;
    hide GraphOk;
    hide ParseHeader;
    hide ParseToken;
    hide ParseFirst;
    var d := g[n];
    if d.kind == KIND_NAMED {
      DecodeNamed(c, g, h, keys, n, input, at, t);
      SkipNamed(g, h, keys, n, input, at, t);
      DecodeSkips(c, g, h, keys, d.refs[0], input, at, t);
    } else if d.kind == KIND_STRUCT {
      DecodeStruct(c, g, h, keys, n, input, at, t);
      SkipStruct(g, h, keys, n, input, at, t);
      FieldsSkip(c, g, h, keys, n, 0, input, at + 1, t);
    } else if d.kind == KIND_ARRAY {
      DecodeArray(c, g, h, keys, n, input, at, t);
      SkipArray(g, h, keys, n, input, at, t);
      var p := ParseHeader(input, at, CLASS_ARRAY, 0);
      ElemsSkip(c, g, h, keys, Kid(d, 0), p.value.dense, input, p.next, t.Add(ArrayRecord, p.value.length, []));
    } else if !FreshContainer(d, input, at) {
      FlatSkips(c, g, h, keys, n, input, at, t);
    } else if d.kind == KIND_SLICE {
      SkipSlice(c, g, h, keys, n, input, at, t);
      var p := ParseHeader(input, at, CLASS_ARRAY, 0);
      ElemsSkip(c, g, h, keys, Kid(d, 0), p.value.dense, input, p.next, t.Add(ArrayRecord, p.value.length, []));
    } else {
      SkipMap(c, g, h, keys, n, input, at, t);
      MapKids(g, h, keys, n);
      var p := ParseToken(input, at, CLASS_MAP);
      PairsSkip(c, g, h, keys, n, p.value, input, p.next, t.Add(MapRecord, 0, []), {}, {});
    }
  }

  lemma MapKids(g: Graph, h: seq<nat>, keys: set<nat>, n: nat)
    requires GraphOk(g, h, keys) && n < |g| && g[n].kind == KIND_MAP
    ensures Kids(g[n]) >= 2 && Kid(g[n], 0) in keys && Kid(g[n], 0) < |g| && Kid(g[n], 1) < |g|
  {
    assert Shaped(g[n]);
    assert |g[n].refs| == 2;
    assert KidIn(g, n, 0) && KidIn(g, n, 1);
  }

  lemma InGraph(g: Graph, h: seq<nat>, keys: set<nat>, n: nat, i: nat)
    requires GraphOk(g, h, keys) && n < |g| && i < Kids(g[n])
    ensures Kid(g[n], i) < |g|
  {
    assert KidIn(g, n, i);
  }

  lemma {:induction false} FieldsSkip(c: Target, g: Graph, h: seq<nat>, keys: set<nat>, n: nat, i: nat,
                                      input: seq<byte>, at: nat, t: Table)
    requires GraphOk(g, h, keys) && n < |g| && i <= Kids(g[n]) && at <= |input| && |t.strs| == |t.recs|
    requires DecodeFields(c, g, h, keys, n, i, input, at, t).Ok?
    ensures var r := DecodeFields(c, g, h, keys, n, i, input, at, t);
            SkipFields(g, h, keys, n, i, input, at, t) == Ok(r.value.1, r.next)
    decreases |input| - at, 1, Kids(g[n]) - i
  {
    hide Decode;
    hide Skip;
    hide GraphOk;
    if i < Kids(g[n]) {
      InGraph(g, h, keys, n, i);
      if !c.lacks(n, i) {
        DecodeSkips(c, g, h, keys, Kid(g[n], i), input, at, t);
      }
      var p := DecodeField(c, g, h, keys, n, i, input, at, t);
      FieldsSkip(c, g, h, keys, n, i + 1, input, p.next, p.value.1);
    }
  }

  lemma {:induction false} ElemsSkip(c: Target, g: Graph, h: seq<nat>, keys: set<nat>, n: nat, k: nat, input: seq<byte>,
                                     at: nat, t: Table)
    requires GraphOk(g, h, keys) && n < |g| && at <= |input| && |t.strs| == |t.recs|
    requires DecodeElems(c, g, h, keys, n, k, input, at, t).Ok?
    ensures var r := DecodeElems(c, g, h, keys, n, k, input, at, t);
            SkipElems(g, h, keys, n, k, input, at, t) == Ok(r.value.1, r.next)
    decreases |input| - at, 1, k
  {
    hide Decode;
    hide Skip;
    hide GraphOk;
    if k > 0 {
      DecodeSkips(c, g, h, keys, n, input, at, t);
      var p := Decode(c, g, h, keys, n, input, at, t);
      ElemsSkip(c, g, h, keys, n, k - 1, input, p.next, p.value.1);
    }
  }

  lemma {:induction false} PairsSkip(c: Target, g: Graph, h: seq<nat>, keys: set<nat>, n: nat, k: nat, input: seq<byte>,
                                     at: nat, t: Table, canons: set<seq<byte>>, raws: set<seq<byte>>)
    requires GraphOk(g, h, keys) && n < |g| && g[n].kind == KIND_MAP && at <= |input| && |t.strs| == |t.recs|
    requires Kids(g[n]) >= 2 && Kid(g[n], 0) < |g| && Kid(g[n], 1) < |g| && Kid(g[n], 0) in keys
    requires DecodePairs(c, g, h, keys, n, k, input, at, t, canons).Ok?
             && AllKnown(c, g, h, keys, Kid(g[n], 0), input, raws, t, canons)
    ensures var r := DecodePairs(c, g, h, keys, n, k, input, at, t, canons);
            SkipPairs(g, h, keys, n, k, input, at, t, raws) == Ok(r.value, r.next)
    decreases |input| - at, 1, k
  {
    hide Decode;
    hide Skip;
    hide GraphOk;
    hide AllKnown;
    if k > 0 {
      var key, val := Kid(g[n], 0), Kid(g[n], 1);
      var p := Decode(c, g, h, keys, key, input, at, t);
      DecodeSkips(c, g, h, keys, key, input, at, t);
      RepeatedKey(c, g, h, keys, key, input, at, t, raws, canons);
      var q := Decode(c, g, h, keys, val, input, p.next, p.value.1);
      DecodeSkips(c, g, h, keys, val, input, p.next, p.value.1);
      KnownLater(c, g, h, keys, key, input, at, t, raws, canons, q.value.1);
      PairsSkip(c, g, h, keys, n, k - 1, input, q.next, q.value.1, canons + {c.canon(p.value.0)},
                raws + {input[at..p.next]});
    }
  }
}
