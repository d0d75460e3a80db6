/**
  Descriptors on the wire (internal/wire/desc.go:64-150, 204-354; internal/wire/value.go:288-392): a literal on
  first encounter, a REF to its id afterwards. A literal takes its id before its children are written, so
  cycles close through REFs.
 */
module DescWire {
  import opened Bytes
  import opened Args
  import opened Descriptors

  const CLASS_STRING: byte := 6
  const CLASS_REF: byte := 0xC
  const CLASS_DESC: byte := 0xD

  type Name = seq<byte>

  function Low(n: nat): u64 { n % U64 }

  // ---------------------------------------------------------------- which descriptors can be written

  function RefCount(kind: nat): nat {
    if kind == KIND_SLICE || kind == KIND_POINTER || kind == KIND_NAMED || kind == KIND_ARRAY then 1
    else if kind == KIND_MAP then 2
    else 0
  }

  /** The widths a numeric kind admits; other kinds have none. */
  predicate WidthOk(kind: nat, width: u64) {
    if kind == KIND_INT || kind == KIND_UINT then width == 1 || width == 2 || width == 4 || width == 8
    else if kind == KIND_FLOAT then width == 4 || width == 8 || width == 16
    else if kind == KIND_COMPLEX then width == 4 || width == 8
    else width == 0
  }

  /** A descriptor that carries exactly what its kind calls for. */
  predicate WellFormed(d: Desc) {
    && d.kind < MAX_KIND && |d.refs| == RefCount(d.kind) && WidthOk(d.kind, d.width)
    && (d.kind != KIND_STRUCT ==> d.fields == []) && (d.kind != KIND_ARRAY ==> d.len == 0)
      && (d.kind != KIND_CODER ==> d.tag == 0)
    && |d.name| < U64 && |d.fields| < U64 && forall i :: 0 <= i < |d.fields| ==> |d.fields[i].name| < U64
  }

  ghost predicate GraphOk(g: Graph) { Closed(g) && forall n :: 0 <= n < |g| ==> WellFormed(g[n]) }

  /** Kinds whose body opens with an argument. */
  predicate HasArg(kind: nat) {
    kind == KIND_STRUCT || kind == KIND_ARRAY || kind == KIND_INT || kind == KIND_UINT || kind == KIND_FLOAT
      || kind == KIND_COMPLEX
    || kind == KIND_CODER
  }

  function BodyArg(d: Desc): u64 {
    if d.kind == KIND_STRUCT then Low(|d.fields|)
    else if d.kind == KIND_ARRAY then d.len
    else if d.kind == KIND_CODER then d.tag
    else d.width
  }

  // ---------------------------------------------------------------- writer

  datatype Claim = Claim(id: nat, node: nat)

  /** Ids of the strings and descriptors written so far, and the next id. */
  datatype Writer = Writer(strs: map<Name, nat>, descs: map<Name, Claim>, nextID: nat)

  datatype Written = Wrote(w: Writer, b: seq<byte>) | Failed

  function RefBytes(id: nat): seq<byte> { TokenBytes(CLASS_REF, Low(id)) }

  function LiteralBytes(s: Name): seq<byte> { TokenBytes(CLASS_STRING, Low(|s|)) + s }

  /** The kind in the first byte, or in a byte of its own from 12 on. */
  function KindBytes(kind: nat): seq<byte>
    requires kind < MAX_KIND
  {
    if kind <= 11 then [CLASS_DESC * 16 + kind] else [CLASS_DESC * 16 + ARG_U8, kind]
  }

  function WriteString(w: Writer, s: Name): (Writer, seq<byte>) {
    if s in w.strs then (w, RefBytes(w.strs[s]))
    else (Writer(w.strs[s := w.nextID], w.descs, w.nextID + 1), LiteralBytes(s))
  }

  ghost function Names(g: Graph): set<Name> { set n | 0 <= n < |g| :: g[n].name }

  /** The writer with the descriptor's name claimed. */
  function Claimed(g: Graph, n: nat, w: Writer): Writer
    requires n < |g|
  {
    Writer(w.strs, w.descs[g[n].name := Claim(w.nextID, n)], w.nextID + 1)
  }

  /** What stands before the type positions: kind, name, body argument. */
  function Opening(d: Desc, w: Writer): (Writer, seq<byte>)
    requires d.kind < MAX_KIND
  {
    var (w', b) := WriteString(w, d.name);
    (w', KindBytes(d.kind) + (b + (if HasArg(d.kind) then ArgBytes(BodyArg(d)) else [])))
  }

  lemma NextName(g: Graph, n: nat, w: Writer)
    requires n < |g| && g[n].name !in w.descs
    ensures Names(g) - Claimed(g, n, w).descs.Keys < Names(g) - w.descs.Keys
  {
    var x := g[n].name;
    assert x in Names(g) - w.descs.Keys && x !in Names(g) - Claimed(g, n, w).descs.Keys;
  }

  /** Writes a type-ref position. */
  ghost function WriteDesc(g: Graph, n: nat, w: Writer): (r: Written)
    requires GraphOk(g) && n < |g| && (forall m :: m in w.descs ==> w.descs[m].node < |g|)
    ensures r.Wrote? ==> w.descs.Keys <= r.w.descs.Keys && w.nextID <= r.w.nextID
    ensures r.Wrote? ==> forall m :: m in r.w.descs ==> r.w.descs[m].node < |g|
    decreases Names(g) - w.descs.Keys, 0
  {
    var x := g[n].name;
    if x in w.descs then
      if DescEqual(g, w.descs[x].node, n) then Wrote(w, RefBytes(w.descs[x].id)) else Failed
    else
      NextName(g, n, w);
      var (w1, head) := Opening(g[n], Claimed(g, n, w));
      var rest := WriteKids(g, n, 0, w1);
      if rest.Failed? then Failed else Wrote(rest.w, head + rest.b)
  }

  /** Writes the type positions from `i` on, a field's after its name. */
  ghost function WriteKids(g: Graph, n: nat, i: nat, w: Writer): (r: Written)
    requires GraphOk(g) && n < |g| && i <= Kids(g[n]) && (forall m :: m in w.descs ==> w.descs[m].node < |g|)
    ensures r.Wrote? ==> w.descs.Keys <= r.w.descs.Keys && w.nextID <= r.w.nextID
    ensures r.Wrote? ==> forall m :: m in r.w.descs ==> r.w.descs[m].node < |g|
    decreases Names(g) - w.descs.Keys, 1 + Kids(g[n]) - i
  {
    if i == Kids(g[n]) then Wrote(w, [])
    else
      assert KidIn(g, n, i);
      var (w1, b) := if g[n].kind == KIND_STRUCT then WriteString(w, g[n].fields[i].name) else (w, []);
      var kid := WriteDesc(g, Kid(g[n], i), w1);
      if kid.Failed? then Failed
      else
        var rest := WriteKids(g, n, i + 1, kid.w);
        if rest.Failed? then Failed else Wrote(rest.w, b + (kid.b + rest.b))
  }

  // ---------------------------------------------------------------- reader

  /** One record of the reader's intern space; a descriptor's type positions hold record ids. */
  datatype Rec = StrRec(s: Name) | DescRec(d: Desc) | OtherRec

  function ParseRef(input: seq<byte>, at: nat, recs: seq<Rec>): (r: Parse<nat>)
    requires at <= |input|
    ensures r.Ok? ==> at < r.next <= |input| && r.value < |recs|
  {
    var (id, next) :- ParseToken(input, at, CLASS_REF);
    if id >= |recs| then Err(BadRef) else Ok(id, next)
  }

  function ParseString(input: seq<byte>, at: nat, recs: seq<Rec>): (r: Parse<(Name, seq<Rec>)>)
    requires at <= |input|
    ensures r.Ok? ==> at < r.next <= |input| && |recs| <= |r.value.1|
  {
    if at == |input| then Err(Truncated)
    else if input[at] / 16 == CLASS_STRING then
      var (n, next) :- ParseToken(input, at, CLASS_STRING);
      if |input| < next + n then Err(Truncated)
      else Ok((input[next..next + n], recs + [StrRec(input[next..next + n])]), next + n)
    else if input[at] / 16 == CLASS_REF then
      var (id, next) :- ParseRef(input, at, recs);
      if recs[id].StrRec? then Ok((recs[id].s, recs), next) else Err(BadRef)
    else Err(MalformedOp)
  }

  /** The kind of a literal: inline up to 11, a minimal byte from 12 on. */
  function ParseKind(input: seq<byte>, at: nat): (r: Parse<nat>)
    requires at <= |input|
    ensures r.Ok? ==> at < r.next <= |input| && r.value < MAX_KIND
  {
    var (form, next) :- ParseFirst(input, at, CLASS_DESC);
    if form <= 11 then Ok(form, next)
    else if form != ARG_U8 then Err(MalformedOp)
    else
      var (v, end) :- ParsePayload(input, next, form);
      if v < 12 then Err(MalformedArg) else if v >= MAX_KIND then Err(MalformedOp) else Ok(v, end)
  }

  /** How many type positions follow. */
  function KidCount(kind: nat, arg: u64): nat { if kind == KIND_STRUCT then arg else RefCount(kind) }

  /** The descriptor as far as its body argument and type positions fill it. */
  function Built(kind: nat, name: Name, arg: u64, kids: seq<Field>): Desc {
    Desc(kind, name,
         if kind == KIND_INT || kind == KIND_UINT || kind == KIND_FLOAT || kind == KIND_COMPLEX then arg else 0,
         if kind == KIND_ARRAY then arg else 0,
         if kind == KIND_CODER then arg else 0,
         if kind == KIND_STRUCT then kids else [],
         if kind == KIND_STRUCT then [] else seq(|kids|, i requires 0 <= i < |kids| => kids[i].typ))
  }

  /** Reads a type-ref position: the record id of the descriptor, and the records. */
  function ParseDesc(input: seq<byte>, at: nat, recs: seq<Rec>): (r: Parse<(nat, seq<Rec>)>)
    requires at <= |input|
    ensures r.Ok? ==> at < r.next <= |input| && |recs| <= |r.value.1|
    decreases |input| - at, 0
  {
    if at == |input| then Err(Truncated)
    else if input[at] / 16 == CLASS_REF then
      var (id, next) :- ParseRef(input, at, recs);
      if recs[id].DescRec? then Ok((id, recs), next) else Err(BadRef)
    else if input[at] / 16 != CLASS_DESC then Err(MalformedOp)
    else
      var id := |recs|;
      var (kind, n1) :- ParseKind(input, at);
      var (s, n2) :- ParseString(input, n1, recs + [DescRec(Built(kind, [], 0, []))]);
      var (arg, n3) :- (if HasArg(kind) then ParseArg(input, n2) else Ok(0, n2));
      if !WidthOk(kind, Built(kind, [], arg, []).width) then Err(MalformedOp)
      else
        var (kids, end) :- ParseKids(input, n3, s.1, kind == KIND_STRUCT, KidCount(kind, arg));
        Ok((id, kids.1[id := DescRec(Built(kind, s.0, arg, kids.0))]), end)
  }

  /** Reads `n` type positions, each after a field name when `named`. */
  function ParseKids(input: seq<byte>, at: nat, recs: seq<Rec>, named: bool, n: nat): (r: Parse<(seq<Field>, seq<Rec>)>)
    requires at <= |input|
    ensures r.Ok? ==> at <= r.next <= |input| && |r.value.0| == n && |recs| <= |r.value.1|
    decreases |input| - at, 1
  {
    if n == 0 then Ok(([], recs), at)
    else
      var (s, n1) :- (if named then ParseString(input, at, recs) else Ok(([], recs), at));
      var (kid, n2) :- ParseDesc(input, n1, s.1);
      var (rest, end) :- ParseKids(input, n2, kid.1, named, n - 1);
      Ok(([Field(s.0, kid.0)] + rest.0, rest.1), end)
  }

  // ---------------------------------------------------------------- writer and reader in step

  /** The writer stands for descriptor `n` by record `id`: the one it claimed the name for is bisimilar to it. */
  ghost predicate Denotes(g: Graph, w: Writer, n: nat, id: nat) {
    n < |g| && g[n].name in w.descs && w.descs[g[n].name].id == id && Bisimilar(g, w.descs[g[n].name].node, n)
  }

  /** The record says what the descriptor says, its type positions by record id. */
  ghost predicate Reads(g: Graph, w: Writer, d: Desc, e: Desc) {
    SameLocal(d, e) && forall i :: 0 <= i < Kids(d) ==> Denotes(g, w, Kid(d, i), Kid(e, i))
  }

  /** The claim of name `x`: its record is a descriptor, complete unless its literal is still being written. */
  ghost predicate ClaimOk(g: Graph, w: Writer, recs: seq<Rec>, open: set<Name>, x: Name)
    requires x in w.descs
  {
    var c := w.descs[x];
    && c.id < |recs| && recs[c.id].DescRec? && c.node < |g| && g[c.node].name == x
    && (x !in open ==> Reads(g, w, g[c.node], recs[c.id].d))
  }

  /** Next id and record count agree, and every id names the same thing on both sides; a string has one record. */
  ghost predicate InStep(g: Graph, w: Writer, recs: seq<Rec>, open: set<Name>) {
    && |recs| == w.nextID
    && (forall s :: s in w.strs ==> w.strs[s] < |recs| && recs[w.strs[s]] == StrRec(s))
    && (forall i :: 0 <= i < |recs| && recs[i].StrRec? ==> recs[i].s in w.strs && w.strs[recs[i].s] == i)
    && (forall x :: x in w.descs ==> ClaimOk(g, w, recs, open, x))
    && (forall x, y :: x in w.descs && y in w.descs && x != y ==> w.descs[x].id != w.descs[y].id)
  }

  /** Only new names and new records. */
  ghost predicate Extends(w: Writer, w': Writer) {
    && w.nextID <= w'.nextID
    && (forall s :: s in w.strs ==> s in w'.strs && w'.strs[s] == w.strs[s])
    && (forall x :: x in w.descs ==> x in w'.descs && w'.descs[x] == w.descs[x])
    && (forall x :: x in w'.descs && x !in w.descs ==> w.nextID <= w'.descs[x].id)
  }

  ghost predicate Keeps(recs: seq<Rec>, recs': seq<Rec>) {
    |recs| <= |recs'| && forall i :: 0 <= i < |recs| ==> recs'[i] == recs[i]
  }

  lemma ReadsLater(g: Graph, w: Writer, w': Writer, d: Desc, e: Desc)
    requires Reads(g, w, d, e) && Extends(w, w')
    ensures Reads(g, w', d, e)
  {
    forall i | 0 <= i < Kids(d)
      ensures Denotes(g, w', Kid(d, i), Kid(e, i))
    {
      assert Denotes(g, w, Kid(d, i), Kid(e, i));
    }
  }

  // ---------------------------------------------------------------- strings and openings

  lemma RefRoundTrip(input: seq<byte>, at: nat, recs: seq<Rec>, id: nat)
    requires id < |recs| <= U64 && At(input, at, RefBytes(id))
    ensures at < |input| && input[at] / 16 == CLASS_REF && ParseRef(input, at, recs) == Ok(id, at + |RefBytes(id)|)
  {
    hide ParsePayload;
    hide At;
    hide ParseToken;
    hide ArgForm;
    hide ArgPayload;
    TokenRoundTrip(input, at, CLASS_REF, id);
    AtHead(input, at, CLASS_REF * 16 + ArgForm(id), ArgPayload(id));
  }

  lemma LiteralRoundTrip(input: seq<byte>, at: nat, recs: seq<Rec>, s: Name)
    requires |s| < U64 && At(input, at, LiteralBytes(s))
    ensures at < |input| && ParseString(input, at, recs) == Ok((s, recs + [StrRec(s)]), at + |LiteralBytes(s)|)
  {
    hide ParsePayload;
    hide ParseRef;
    var n: u64 := |s|;
    AtSplit(input, at, TokenBytes(CLASS_STRING, n), s);
    TokenRoundTrip(input, at, CLASS_STRING, n);
    AtHead(input, at, CLASS_STRING * 16 + ArgForm(n), ArgPayload(n));
  }

  lemma StringRoundTrip(input: seq<byte>, at: nat, g: Graph, w: Writer, recs: seq<Rec>, open: set<Name>, s: Name)
    requires InStep(g, w, recs, open) && |s| < U64 && WriteString(w, s).0.nextID <= U64
             && At(input, at, WriteString(w, s).1)
    ensures at < |input|
    ensures var r, w' := ParseString(input, at, recs), WriteString(w, s).0;
            && r.Ok? && r.next == at + |WriteString(w, s).1| && r.value.0 == s
            && InStep(g, w', r.value.1, open) && Extends(w, w') && Keeps(recs, r.value.1)
  {
    hide At;
    hide Reads;
    hide RefBytes;
    hide LiteralBytes;
    hide ParseRef;
    if s in w.strs {
      RefRoundTrip(input, at, recs, w.strs[s]);
    } else {
      LiteralRoundTrip(input, at, recs, s);
      var w', recs' := WriteString(w, s).0, recs + [StrRec(s)];
      forall x | x in w'.descs
        ensures ClaimOk(g, w', recs', open, x)
      {
        assert ClaimOk(g, w, recs, open, x);
        if x !in open {
          ReadsLater(g, w, w', g[w.descs[x].node], recs[w.descs[x].id].d);
        }
      }
    }
  }

  lemma KindRoundTrip(input: seq<byte>, at: nat, kind: nat)
    requires kind < MAX_KIND && At(input, at, KindBytes(kind))
    ensures at < |input| && input[at] / 16 == CLASS_DESC && ParseKind(input, at) == Ok(kind, at + |KindBytes(kind)|)
  {
    if kind <= 11 {
      AtHead(input, at, CLASS_DESC * 16 + kind, []);
    } else {
      assert KindBytes(kind) == [CLASS_DESC * 16 + ARG_U8] + [kind];
      AtHead(input, at, CLASS_DESC * 16 + ARG_U8, [kind]);
      AtHead(input, at + 1, kind, []);
      assert [kind] + [] == [kind];
      assert ArgForm(kind) == ARG_U8;
      assert BigEndian(kind, 1) == [kind] by {
        assert BigEndian(kind / 256, 0) == [];
      }
      PayloadRoundTrip(input, at + 1, kind);
    }
  }

  lemma OpeningRoundTrip(input: seq<byte>, at: nat, g: Graph, d: Desc, w: Writer, recs: seq<Rec>, open: set<Name>)
    requires InStep(g, w, recs, open) && WellFormed(d) && Opening(d, w).0.nextID <= U64
             && At(input, at, Opening(d, w).1)
    ensures at < |input| && input[at] / 16 == CLASS_DESC
    ensures var k, w' := ParseKind(input, at), Opening(d, w).0;
            && k.Ok? && k.value == d.kind
            && var s := ParseString(input, k.next, recs);
            && s.Ok? && s.value.0 == d.name && InStep(g, w', s.value.1, open) && Extends(w, w')
              && Keeps(recs, s.value.1)
            && (if HasArg(d.kind) then ParseArg(input, s.next) == Ok(BodyArg(d), at + |Opening(d, w).1|)
                else s.next == at + |Opening(d, w).1|)
  {
    hide At;
    hide InStep;
    hide ParseString;
    hide ParseKind;
    hide ParseArg;
    hide KindBytes;
    hide ArgBytes;
    hide WriteString;
    hide Extends;
    hide Keeps;
    var b := WriteString(w, d.name).1;
    var tail := if HasArg(d.kind) then ArgBytes(BodyArg(d)) else [];
    AtSplit(input, at, KindBytes(d.kind), b + tail);
    AtSplit(input, at + |KindBytes(d.kind)|, b, tail);
    KindRoundTrip(input, at, d.kind);
    StringRoundTrip(input, at + |KindBytes(d.kind)|, g, w, recs, open, d.name);
    if HasArg(d.kind) {
      ArgRoundTrip(input, at + |KindBytes(d.kind)| + |b|, BodyArg(d));
    }
  }

  /** A claim opens the name; its record is a placeholder. */
  lemma ClaimInStep(g: Graph, n: nat, w: Writer, recs: seq<Rec>, open: set<Name>, e: Desc)
    requires InStep(g, w, recs, open) && n < |g| && g[n].name !in w.descs
    ensures InStep(g, Claimed(g, n, w), recs + [DescRec(e)], open + {g[n].name}) && Extends(w, Claimed(g, n, w))
    ensures Keeps(recs, recs + [DescRec(e)])
  {
    hide Reads;
    var w', recs' := Claimed(g, n, w), recs + [DescRec(e)];
    forall x | x in w'.descs
      ensures ClaimOk(g, w', recs', open + {g[n].name}, x)
      ensures x != g[n].name ==> w'.descs[x].id < |recs|
    {
      if x != g[n].name {
        assert ClaimOk(g, w, recs, open, x);
        if x !in open {
          ReadsLater(g, w, w', g[w.descs[x].node], recs[w.descs[x].id].d);
        }
      }
    }
  }

  /** Once the record is complete the name is closed. */
  lemma CloseInStep(g: Graph, n: nat, w: Writer, recs: seq<Rec>, open: set<Name>, id: nat, e: Desc)
    requires n < |g| && InStep(g, w, recs, open + {g[n].name}) && g[n].name in w.descs
             && w.descs[g[n].name] == Claim(id, n)
    requires Reads(g, w, g[n], e)
    ensures id < |recs| && InStep(g, w, recs[id := DescRec(e)], open)
  {
    hide Reads;
    assert ClaimOk(g, w, recs, open + {g[n].name}, g[n].name);
    var recs' := recs[id := DescRec(e)];
    forall x | x in w.descs
      ensures ClaimOk(g, w, recs', open, x)
    {
      assert ClaimOk(g, w, recs, open + {g[n].name}, x);
    }
  }

  lemma ExtendsTrans(a: Writer, b: Writer, c: Writer)
    requires Extends(a, b) && Extends(b, c)
    ensures Extends(a, c)
  {
  }

  lemma KeepsTrans(a: seq<Rec>, b: seq<Rec>, c: seq<Rec>)
    requires Keeps(a, b) && Keeps(b, c)
    ensures Keeps(a, c)
  {
  }

  /** The descriptor rebuilt from its parts is the one written. */
  lemma BuiltSame(d: Desc, kids: seq<Field>)
    requires WellFormed(d) && |kids| == Kids(d)
    requires d.kind == KIND_STRUCT ==> forall i :: 0 <= i < |kids| ==> kids[i].name == d.fields[i].name
    ensures var e := Built(d.kind, d.name, if HasArg(d.kind) then BodyArg(d) else 0, kids);
            SameLocal(d, e) && forall i :: 0 <= i < Kids(d) ==> Kid(e, i) == kids[i].typ
    ensures WidthOk(d.kind, Built(d.kind, [], if HasArg(d.kind) then BodyArg(d) else 0, []).width)
    ensures KidCount(d.kind, if HasArg(d.kind) then BodyArg(d) else 0) == Kids(d)
  {
  }

  ghost predicate KidsRead(g: Graph, w: Writer, d: Desc, i: nat, ks: seq<Field>) {
    && i + |ks| == Kids(d)
    && (forall j :: 0 <= j < |ks| ==> Denotes(g, w, Kid(d, i + j), ks[j].typ))
    && (d.kind == KIND_STRUCT && d.refs == [] ==> forall j :: 0 <= j < |ks| ==> ks[j].name == d.fields[i + j].name)
  }

  lemma DenotesLater(g: Graph, w: Writer, w': Writer, n: nat, id: nat)
    requires Denotes(g, w, n, id) && Extends(w, w')
    ensures Denotes(g, w', n, id)
  {
  }

  lemma KidsReadNext(g: Graph, w: Writer, w': Writer, d: Desc, i: nat, first: Field, rest: seq<Field>)
    requires i < Kids(d) && Denotes(g, w, Kid(d, i), first.typ) && Extends(w, w') && KidsRead(g, w', d, i + 1, rest)
    requires d.kind == KIND_STRUCT && d.refs == [] ==> first.name == d.fields[i].name
    ensures KidsRead(g, w', d, i, [first] + rest)
  {
    hide Denotes;
    DenotesLater(g, w, w', Kid(d, i), first.typ);
    var ks := [first] + rest;
    forall j | 0 <= j < |ks|
      ensures Denotes(g, w', Kid(d, i + j), ks[j].typ)
      ensures d.kind == KIND_STRUCT && d.refs == [] ==> ks[j].name == d.fields[i + j].name
    {
      if j > 0 {
        assert Denotes(g, w', Kid(d, i + 1 + (j - 1)), rest[j - 1].typ);
      }
    }
  }

  /** A literal reads as its parts read. */
  lemma LiteralParses(input: seq<byte>, at: nat, recs: seq<Rec>, kind: nat, n1: nat, name: Name, recs2: seq<Rec>,
                      n2: nat, arg: u64, n3: nat,
                      kids: seq<Field>, recs3: seq<Rec>, end: nat)
    requires at < |input| && input[at] / 16 == CLASS_DESC && ParseKind(input, at) == Ok(kind, n1)
    requires n1 <= |input| && ParseString(input, n1, recs + [DescRec(Built(kind, [], 0, []))]) == Ok((name, recs2), n2)
    requires n2 <= |input| && (if HasArg(kind) then ParseArg(input, n2) == Ok(arg, n3) else arg == 0 && n3 == n2)
    requires WidthOk(kind, Built(kind, [], arg, []).width)
    requires n3 <= |input|
             && ParseKids(input, n3, recs2, kind == KIND_STRUCT, KidCount(kind, arg)) == Ok((kids, recs3), end)
    ensures |recs| < |recs3|
            && ParseDesc(input, at, recs) == Ok((|recs|, recs3[|recs| := DescRec(Built(kind, name, arg, kids))]), end)
  {
    hide ParseKind;
    hide ParseString;
    hide ParseArg;
    hide Built;
    hide WidthOk;
    hide ParseKids;
    hide ParseRef;
  }

  /** What holds after a type-ref position has been written and read. */
  ghost predicate DescDone(g: Graph, w: Writer, recs: seq<Rec>, open: set<Name>, n: nat, w': Writer, id: nat,
                           recs': seq<Rec>) {
    InStep(g, w', recs', open) && Extends(w, w') && Keeps(recs, recs') && Denotes(g, w', n, id)
  }

  /** A name met before: a REF to its record. */
  lemma KnownName(input: seq<byte>, at: nat, g: Graph, n: nat, w: Writer, recs: seq<Rec>, open: set<Name>)
    requires GraphOk(g) && n < |g| && InStep(g, w, recs, open) && (forall m :: m in w.descs ==> w.descs[m].node < |g|)
    requires g[n].name in w.descs && WriteDesc(g, n, w).Wrote? && w.nextID <= U64 && At(input, at, WriteDesc(g, n, w).b)
    ensures at < |input|
    ensures var r, o := ParseDesc(input, at, recs), WriteDesc(g, n, w);
            r.Ok? && r.next == at + |o.b| && DescDone(g, w, recs, open, n, o.w, r.value.0, r.value.1)
  {
    hide At;
    hide Reads;
    hide RefBytes;
    hide ParseRef;
    hide Bisimilar;
    hide DescEqual;
    var c := w.descs[g[n].name];
    assert ClaimOk(g, w, recs, open, g[n].name);
    RefRoundTrip(input, at, recs, c.id);
    DescEqualIffBisimilar(g, c.node, n);
  }

  /** The literal is complete: its record is filled in and its name closed. */
  lemma LiteralDone(g: Graph, n: nat, w: Writer, w1: Writer, w': Writer, recs: seq<Rec>, recs1: seq<Rec>,
                    recs': seq<Rec>,
                    open: set<Name>, ks: seq<Field>, holder: Desc, e: Desc)
    requires n < |g| && g[n].name !in w.descs && InStep(g, w, recs, open)
    requires Extends(Claimed(g, n, w), w1) && Extends(w1, w') && recs1 == recs + [DescRec(holder)]
             && Keeps(recs1, recs')
    requires InStep(g, w', recs', open + {g[n].name}) && KidsRead(g, w', g[n], 0, ks)
    requires SameLocal(g[n], e) && Kids(g[n]) == Kids(e) && forall i :: 0 <= i < Kids(g[n]) ==> Kid(e, i) == ks[i].typ
    ensures |recs| < |recs'| && DescDone(g, w, recs, open, n, w', |recs|, recs'[|recs| := DescRec(e)])
  {
    hide Bisimilar;
    hide SameLocal;
    hide InStep;
    RecordCount(g, w, recs, open);
    forall i | 0 <= i < Kids(g[n])
      ensures Denotes(g, w', Kid(g[n], i), Kid(e, i))
    {
      assert Denotes(g, w', Kid(g[n], 0 + i), ks[i].typ);
    }
    CloseInStep(g, n, w', recs', open, |recs|, e);
    BisimilarSelf(g, n);
  }

  lemma RecordCount(g: Graph, w: Writer, recs: seq<Rec>, open: set<Name>)
    requires InStep(g, w, recs, open)
    ensures |recs| == w.nextID
  {
  }

  lemma KindFits(g: Graph, n: nat)
    requires GraphOk(g) && n < |g|
    ensures g[n].kind < MAX_KIND
  {
  }

  lemma OpeningKeeps(d: Desc, w: Writer)
    requires d.kind < MAX_KIND
    ensures Opening(d, w).0.descs == w.descs
  {
  }

  lemma StringKeeps(w: Writer, d: Desc, i: nat)
    ensures d.kind == KIND_STRUCT && i < |d.fields| ==> WriteString(w, d.fields[i].name).0.descs == w.descs
  {
  }

  lemma KidNames(g: Graph, w: Writer, n: nat, ks: seq<Field>)
    requires GraphOk(g) && n < |g| && KidsRead(g, w, g[n], 0, ks)
    ensures WellFormed(g[n]) && |ks| == Kids(g[n])
    ensures g[n].kind == KIND_STRUCT ==> |g[n].fields| == |ks|
    ensures g[n].kind == KIND_STRUCT ==> forall i :: 0 <= i < |ks| ==> ks[i].name == g[n].fields[i].name
  {
  }

  lemma NothingMore(g: Graph, w: Writer, recs: seq<Rec>, d: Desc)
    ensures Extends(w, w) && Keeps(recs, recs) && KidsRead(g, w, d, Kids(d), [])
  {
  }

  /** A struct's type positions are its fields. */
  lemma KidShape(g: Graph, n: nat, i: nat)
    requires GraphOk(g) && n < |g| && i < Kids(g[n])
    ensures g[n].kind == KIND_STRUCT ==> g[n].refs == [] && i < |g[n].fields| && |g[n].fields[i].name| < U64
  {
  }

  /** A field's name before its type position; nothing elsewhere. */
  ghost function NameWritten(d: Desc, i: nat, w: Writer): (Writer, seq<byte>)
    requires d.kind == KIND_STRUCT ==> i < |d.fields|
  {
    if d.kind == KIND_STRUCT then WriteString(w, d.fields[i].name) else (w, [])
  }

  function NameParsed(input: seq<byte>, at: nat, recs: seq<Rec>, named: bool): Parse<(Name, seq<Rec>)>
    requires at <= |input|
  {
    if named then ParseString(input, at, recs) else Ok(([], recs), at)
  }

  lemma NameRoundTrip(input: seq<byte>, at: nat, g: Graph, n: nat, i: nat, w: Writer, recs: seq<Rec>, open: set<Name>)
    requires GraphOk(g) && n < |g| && i < Kids(g[n]) && InStep(g, w, recs, open)
    requires g[n].kind == KIND_STRUCT ==> i < |g[n].fields|
    requires NameWritten(g[n], i, w).0.nextID <= U64 && at <= |input| && At(input, at, NameWritten(g[n], i, w).1)
    ensures var r, w1 := NameParsed(input, at, recs, g[n].kind == KIND_STRUCT), NameWritten(g[n], i, w).0;
            && r.Ok? && at <= r.next == at + |NameWritten(g[n], i, w).1| <= |input| && w1.descs == w.descs
            && InStep(g, w1, r.value.1, open) && Extends(w, w1) && Keeps(recs, r.value.1)
            && (g[n].kind == KIND_STRUCT ==> r.value.0 == g[n].fields[i].name)
  {
    hide At;
    hide InStep;
    hide Extends;
    hide Keeps;
    hide ParseString;
    hide WriteString;
    KidShape(g, n, i);
    if g[n].kind == KIND_STRUCT {
      StringKeeps(w, g[n], i);
      StringRoundTrip(input, at, g, w, recs, open, g[n].fields[i].name);
    } else {
      NothingMore(g, w, recs, g[n]);
    }
  }

  lemma WriteKidsNext(g: Graph, n: nat, i: nat, w: Writer)
    requires GraphOk(g) && n < |g| && i < Kids(g[n]) && (forall m :: m in w.descs ==> w.descs[m].node < |g|)
    requires WriteKids(g, n, i, w).Wrote?
    ensures KidIn(g, n, i) && (g[n].kind == KIND_STRUCT ==> i < |g[n].fields|)
    ensures var (w1, b) := NameWritten(g[n], i, w);
            && w1.descs == w.descs && w.nextID <= w1.nextID && WriteDesc(g, Kid(g[n], i), w1).Wrote?
            && var o := WriteDesc(g, Kid(g[n], i), w1);
               var rest := WriteKids(g, n, i + 1, o.w);
               rest.Wrote? && WriteKids(g, n, i, w) == Wrote(rest.w, b + (o.b + rest.b))
  {
    hide WriteDesc;
    KidShape(g, n, i);
    StringKeeps(w, g[n], i);
    assert KidIn(g, n, i);
  }

  lemma ParseKidsNext(input: seq<byte>, at: nat, recs: seq<Rec>, named: bool, m: nat)
    requires at <= |input| && NameParsed(input, at, recs, named).Ok?
    requires var s := NameParsed(input, at, recs, named);
      && s.next <= |input| && ParseDesc(input, s.next, s.value.1).Ok?
      && var p := ParseDesc(input, s.next, s.value.1); ParseKids(input, p.next, p.value.1, named, m).Ok?
    ensures var s := NameParsed(input, at, recs, named);
            var p := ParseDesc(input, s.next, s.value.1);
            var q := ParseKids(input, p.next, p.value.1, named, m);
            ParseKids(input, at, recs, named, m + 1)
              == Ok(([Field(s.value.0, p.value.0)] + q.value.0, q.value.1), q.next)
  {
    hide ParseDesc;
    hide ParseString;
  }

  /** What writing a new descriptor consists of. */
  lemma WriteDescNext(g: Graph, n: nat, w: Writer)
    requires GraphOk(g) && n < |g| && (forall m :: m in w.descs ==> w.descs[m].node < |g|) && g[n].name !in w.descs
    requires WriteDesc(g, n, w).Wrote?
    ensures g[n].kind < MAX_KIND && WellFormed(g[n])
    ensures var c := Claimed(g, n, w);
            && (forall m :: m in c.descs ==> c.descs[m].node < |g|)
            && var w1 := Opening(g[n], c).0;
               && w1.descs == c.descs && c.nextID <= w1.nextID
               && var rest := WriteKids(g, n, 0, w1);
                  rest.Wrote? && WriteDesc(g, n, w) == Wrote(rest.w, Opening(g[n], c).1 + rest.b)
  {
    hide WriteKids;
    KindFits(g, n);
    OpeningKeeps(g[n], Claimed(g, n, w));
  }

  lemma NoKids(input: seq<byte>, at: nat, g: Graph, n: nat, w: Writer, recs: seq<Rec>)
    requires GraphOk(g) && n < |g| && at <= |input| && (forall m :: m in w.descs ==> w.descs[m].node < |g|)
    ensures WriteKids(g, n, Kids(g[n]), w) == Wrote(w, [])
    ensures ParseKids(input, at, recs, g[n].kind == KIND_STRUCT, 0) == Ok(([], recs), at)
  {
  }

  lemma DoneGives(g: Graph, w: Writer, recs: seq<Rec>, open: set<Name>, n: nat, w': Writer, id: nat, recs': seq<Rec>)
    requires DescDone(g, w, recs, open, n, w', id, recs')
    ensures InStep(g, w', recs', open) && Extends(w, w') && Keeps(recs, recs') && Denotes(g, w', n, id)
  {
    hide InStep;
    hide Extends;
    hide Keeps;
    hide Denotes;
  }

  lemma {:induction false} DescRoundTrip(input: seq<byte>, at: nat, g: Graph, n: nat, w: Writer, recs: seq<Rec>,
                                         open: set<Name>)
    requires GraphOk(g) && n < |g| && InStep(g, w, recs, open) && (forall m :: m in w.descs ==> w.descs[m].node < |g|)
    requires WriteDesc(g, n, w).Wrote? && WriteDesc(g, n, w).w.nextID <= U64 && At(input, at, WriteDesc(g, n, w).b)
    ensures at < |input|
    ensures var r, o := ParseDesc(input, at, recs), WriteDesc(g, n, w);
            r.Ok? && r.next == at + |o.b| && DescDone(g, w, recs, open, n, o.w, r.value.0, r.value.1)
    decreases Names(g) - w.descs.Keys, 0
  {
    hide At;
    hide InStep;
    hide Extends;
    hide Keeps;
    hide Opening;
    hide Bisimilar;
    hide ParseRef;
    hide ParseKind;
    hide ParseString;
    hide ParseArg;
    hide Built;
    hide WidthOk;
    hide WellFormed;
    hide Closed;
    hide RefBytes;
    hide DescEqual;
    hide DescDone;
    hide KidsRead;
    hide SameLocal;
    hide BodyArg;
    hide ParseDesc;
    hide ParseKids;
    hide KidCount;
    hide HasArg;
    hide Denotes;
    hide WriteDesc;
    hide WriteKids;
    hide GraphOk;
    hide Claimed;
    var x := g[n].name;
    if x in w.descs {
      KnownName(input, at, g, n, w, recs, open);
    } else {
      NextName(g, n, w);
      WriteDescNext(g, n, w);
      KindFits(g, n);
      var c := Claimed(g, n, w);
      var holder := Built(g[n].kind, [], 0, []);
      ClaimInStep(g, n, w, recs, open, holder);
      var recs1, open1 := recs + [DescRec(holder)], open + {x};
      var head := Opening(g[n], c).1;
      var w1 := Opening(g[n], c).0;
      var rest := WriteKids(g, n, 0, w1);
      AtSplit(input, at, head, rest.b);
      OpeningRoundTrip(input, at, g, g[n], c, recs1, open1);
      var recs2 := ParseString(input, ParseKind(input, at).next, recs1).value.1;
      KidsRoundTrip(input, at + |head|, g, n, 0, w1, recs2, open1);
      var kids := ParseKids(input, at + |head|, recs2, g[n].kind == KIND_STRUCT, Kids(g[n])).value;
      KidNames(g, rest.w, n, kids.0);
      BuiltSame(g[n], kids.0);
      var e := Built(g[n].kind, x, if HasArg(g[n].kind) then BodyArg(g[n]) else 0, kids.0);
      KeepsTrans(recs1, recs2, kids.1);
      LiteralDone(g, n, w, w1, rest.w, recs, recs1, kids.1, open, kids.0, holder, e);
      var k := ParseKind(input, at);
      var s := ParseString(input, k.next, recs1);
      LiteralParses(input, at, recs, g[n].kind, k.next, x, recs2, s.next,
                    if HasArg(g[n].kind) then BodyArg(g[n]) else 0, at + |head|,
                    kids.0, kids.1, at + |head| + |rest.b|);
    }
  }

  lemma {:induction false} KidsRoundTrip(input: seq<byte>, at: nat, g: Graph, n: nat, i: nat, w: Writer, recs: seq<Rec>,
                                         open: set<Name>)
    requires GraphOk(g) && n < |g| && i <= Kids(g[n]) && InStep(g, w, recs, open)
             && (forall m :: m in w.descs ==> w.descs[m].node < |g|)
    requires WriteKids(g, n, i, w).Wrote? && WriteKids(g, n, i, w).w.nextID <= U64 && at <= |input|
             && At(input, at, WriteKids(g, n, i, w).b)
    ensures var r, o := ParseKids(input, at, recs, g[n].kind == KIND_STRUCT, Kids(g[n]) - i), WriteKids(g, n, i, w);
            && r.Ok? && r.next == at + |o.b| && InStep(g, o.w, r.value.1, open) && Extends(w, o.w)
              && Keeps(recs, r.value.1)
            && KidsRead(g, o.w, g[n], i, r.value.0)
    decreases Names(g) - w.descs.Keys, 1 + Kids(g[n]) - i
  {
    hide At;
    hide InStep;
    hide Extends;
    hide Keeps;
    hide Denotes;
    hide WriteDesc;
    hide WriteString;
    hide ParseDesc;
    hide ParseString;
    hide WellFormed;
    hide KidsRead;
    hide Closed;
    hide WriteKids;
    hide ParseKids;
    hide NameWritten;
    hide NameParsed;
    hide GraphOk;
    if i == Kids(g[n]) {
      NothingMore(g, w, recs, g[n]);
      NoKids(input, at, g, n, w, recs);
    } else {
      KidShape(g, n, i);
      WriteKidsNext(g, n, i, w);
      var (w1, b) := NameWritten(g[n], i, w);
      var o := WriteDesc(g, Kid(g[n], i), w1);
      var rest := WriteKids(g, n, i + 1, o.w);
      AtSplit(input, at, b, o.b + rest.b);
      AtSplit(input, at + |b|, o.b, rest.b);
      NameRoundTrip(input, at, g, n, i, w, recs, open);
      var name := NameParsed(input, at, recs, g[n].kind == KIND_STRUCT);
      DescRoundTrip(input, name.next, g, Kid(g[n], i), w1, name.value.1, open);
      var p := ParseDesc(input, name.next, name.value.1);
      DoneGives(g, w1, name.value.1, open, Kid(g[n], i), o.w, p.value.0, p.value.1);
      KidsRoundTrip(input, p.next, g, n, i + 1, o.w, p.value.1, open);
      var q := ParseKids(input, p.next, p.value.1, g[n].kind == KIND_STRUCT, Kids(g[n]) - i - 1);
      ParseKidsNext(input, at, recs, g[n].kind == KIND_STRUCT, Kids(g[n]) - i - 1);
      KidsReadNext(g, o.w, rest.w, g[n], i, Field(name.value.0, p.value.0), q.value.0);
      ExtendsTrans(w, w1, o.w);
      ExtendsTrans(w, o.w, rest.w);
      KeepsTrans(recs, name.value.1, p.value.1);
      KeepsTrans(recs, p.value.1, q.value.1);
    }
  }

  // ---------------------------------------------------------------- the graph that comes back

  /** One step of the bisimulation between the writer's graph and the reader's records. */
  ghost predicate Mirrors(g: Graph, w: Writer, recs: seq<Rec>, n: nat, id: nat) {
    n < |g| && id < |recs| && recs[id].DescRec? && Reads(g, w, g[n], recs[id].d)
  }

  /** With nothing left open, the pairs the writer stands for are a bisimulation between graph and records. */
  lemma DenotesMirrors(g: Graph, w: Writer, recs: seq<Rec>, n: nat, id: nat)
    requires Closed(g) && InStep(g, w, recs, {}) && Denotes(g, w, n, id)
    ensures Mirrors(g, w, recs, n, id)
  {
    var m := w.descs[g[n].name].node;
    assert ClaimOk(g, w, recs, {}, g[n].name);
    BisimilarStep(g, m, n, Kids(g[n]));
    var e := recs[id].d;
    forall i | 0 <= i < Kids(g[n])
      ensures Denotes(g, w, Kid(g[n], i), Kid(e, i))
    {
      BisimilarStep(g, m, n, i);
      assert KidIn(g, n, i) && KidIn(g, m, i);
      assert Denotes(g, w, Kid(g[m], i), Kid(e, i));
      DenotesBisimilar(g, w, Kid(g[m], i), Kid(g[n], i), Kid(e, i));
    }
  }

  lemma DenotesBisimilar(g: Graph, w: Writer, a: nat, b: nat, id: nat)
    requires Denotes(g, w, a, id) && Bisimilar(g, a, b) && b < |g|
    ensures Denotes(g, w, b, id)
  {
    BisimilarStep(g, a, b, Kids(g[a]));
    BisimilarTrans(g, w.descs[g[a].name].node, a, b);
  }

  /**
    Writing any well-formed descriptor, cyclic or not, and reading it back yields a record bisimilar to it, and
    the writer's next id is the reader's record count.
   */
  lemma DescGraphRoundTrip(input: seq<byte>, at: nat, g: Graph, n: nat, w: Writer, recs: seq<Rec>)
    requires GraphOk(g) && n < |g| && InStep(g, w, recs, {}) && (forall m :: m in w.descs ==> w.descs[m].node < |g|)
    requires WriteDesc(g, n, w).Wrote? && WriteDesc(g, n, w).w.nextID <= U64 && At(input, at, WriteDesc(g, n, w).b)
    ensures at < |input|
    ensures var r, o := ParseDesc(input, at, recs), WriteDesc(g, n, w);
            && r.Ok? && r.next == at + |o.b| && |r.value.1| == o.w.nextID
            && InStep(g, o.w, r.value.1, {}) && Denotes(g, o.w, n, r.value.0)
            && forall m: nat, id: nat :: Denotes(g, o.w, m, id) ==> Mirrors(g, o.w, r.value.1, m, id)
  {
    hide At;
    hide WriteDesc;
    hide ParseDesc;
    hide Denotes;
    hide Mirrors;
    DescRoundTrip(input, at, g, n, w, recs, {});
    var r, o := ParseDesc(input, at, recs), WriteDesc(g, n, w);
    forall m: nat, id: nat | Denotes(g, o.w, m, id)
      ensures Mirrors(g, o.w, r.value.1, m, id)
    {
      DenotesMirrors(g, o.w, r.value.1, m, id);
    }
  }

  /** One name, one structure. */
  ghost predicate Coherent(g: Graph) {
    forall a, b :: 0 <= a < |g| && 0 <= b < |g| && g[a].name == g[b].name ==> Bisimilar(g, a, b)
  }

  ghost predicate ClaimsNamed(g: Graph, w: Writer) {
    forall x :: x in w.descs ==> w.descs[x].node < |g| && g[w.descs[x].node].name == x
  }

  /** The writer refuses only a name bound to two different structures. */
  lemma {:induction false} CoherentIsWritten(g: Graph, n: nat, w: Writer)
    requires GraphOk(g) && Coherent(g) && n < |g| && ClaimsNamed(g, w)
    ensures WriteDesc(g, n, w).Wrote? && ClaimsNamed(g, WriteDesc(g, n, w).w)
    decreases Names(g) - w.descs.Keys, 0
  {
    hide Bisimilar;
    hide DescEqual;
    hide WellFormed;
    hide Opening;
    var x := g[n].name;
    if x in w.descs {
      DescEqualIffBisimilar(g, w.descs[x].node, n);
    } else {
      NextName(g, n, w);
      KindFits(g, n);
      OpeningKeeps(g[n], Claimed(g, n, w));
      KidsAreWritten(g, n, 0, Opening(g[n], Claimed(g, n, w)).0);
    }
  }

  lemma {:induction false} KidsAreWritten(g: Graph, n: nat, i: nat, w: Writer)
    requires GraphOk(g) && Coherent(g) && n < |g| && i <= Kids(g[n]) && ClaimsNamed(g, w)
    ensures WriteKids(g, n, i, w).Wrote? && ClaimsNamed(g, WriteKids(g, n, i, w).w)
    decreases Names(g) - w.descs.Keys, 1 + Kids(g[n]) - i
  {
    hide Bisimilar;
    hide WellFormed;
    hide WriteDesc;
    hide WriteKids;
    hide WriteString;
    hide GraphOk;
    if i < Kids(g[n]) {
      KidShape(g, n, i);
      StringKeeps(w, g[n], i);
      KidsWritten(g, n, i, w);
      var w1 := NameWritten(g[n], i, w).0;
      CoherentIsWritten(g, Kid(g[n], i), w1);
      KidsAreWritten(g, n, i + 1, WriteDesc(g, Kid(g[n], i), w1).w);
    } else {
      NoKids([], 0, g, n, w, []);
    }
  }

  /** Type positions are written once the next one and all after it are. */
  lemma KidsWritten(g: Graph, n: nat, i: nat, w: Writer)
    requires GraphOk(g) && n < |g| && i < Kids(g[n]) && (forall m :: m in w.descs ==> w.descs[m].node < |g|)
    ensures KidIn(g, n, i) && (g[n].kind == KIND_STRUCT ==> i < |g[n].fields|)
    ensures var w1 := NameWritten(g[n], i, w).0;
            && w1.descs == w.descs
            && var o := WriteDesc(g, Kid(g[n], i), w1);
               o.Wrote? && WriteKids(g, n, i + 1, o.w).Wrote? ==>
                 WriteKids(g, n, i, w).Wrote? && WriteKids(g, n, i, w).w == WriteKids(g, n, i + 1, o.w).w
  {
    hide WriteDesc;
    KidShape(g, n, i);
    StringKeeps(w, g[n], i);
    assert KidIn(g, n, i);
  }

  // ---------------------------------------------------------------- what is written again

  /** What else may be written: a string, a descriptor, a record of another sort. */
  datatype Item = Text(s: Name) | Type(n: nat) | Record

  ghost predicate ItemsIn(g: Graph, items: seq<Item>) {
    forall i :: 0 <= i < |items| && items[i].Type? ==> items[i].n < |g|
  }

  ghost predicate ClaimsIn(g: Graph, w: Writer) { forall m :: m in w.descs ==> w.descs[m].node < |g| }

  ghost function WriteItem(g: Graph, item: Item, w: Writer): (r: Written)
    requires GraphOk(g) && ClaimsIn(g, w) && (item.Type? ==> item.n < |g|)
    ensures r.Wrote? ==> ClaimsIn(g, r.w)
  {
    match item
    case Text(s) => Wrote(WriteString(w, s).0, WriteString(w, s).1)
    case Type(n) => WriteDesc(g, n, w)
    case Record => Wrote(w.(nextID := w.nextID + 1), [])
  }

  ghost function WriteItems(g: Graph, items: seq<Item>, w: Writer): (r: Written)
    requires GraphOk(g) && ClaimsIn(g, w) && ItemsIn(g, items)
    ensures r.Wrote? ==> ClaimsIn(g, r.w)
  {
    if items == [] then Wrote(w, [])
    else
      var last := items[|items| - 1];
      var before := WriteItems(g, items[..|items| - 1], w);
      if before.Failed? then Failed
      else
        var r := WriteItem(g, last, before.w);
        if r.Failed? then Failed else Wrote(r.w, before.b + r.b)
  }

  lemma StringExtends(w: Writer, s: Name)
    ensures Extends(w, WriteString(w, s).0)
  {
  }

  lemma {:induction false} DescExtends(g: Graph, n: nat, w: Writer)
    requires GraphOk(g) && n < |g| && ClaimsIn(g, w) && WriteDesc(g, n, w).Wrote?
    ensures Extends(w, WriteDesc(g, n, w).w)
    decreases Names(g) - w.descs.Keys, 0
  {
    hide Extends;
    hide WriteKids;
    hide WriteString;
    hide WellFormed;
    hide Closed;
    hide DescEqual;
    var x := g[n].name;
    if x in w.descs {
      NothingMore(g, w, [], g[n]);
    } else {
      NextName(g, n, w);
      WriteDescNext(g, n, w);
      var c := Claimed(g, n, w);
      ClaimExtends(g, n, w);
      StringExtends(c, g[n].name);
      var w1 := Opening(g[n], c).0;
      KidsExtend(g, n, 0, w1);
      ExtendsTrans(w, c, w1);
      ExtendsTrans(w, w1, WriteKids(g, n, 0, w1).w);
    }
  }

  lemma ClaimExtends(g: Graph, n: nat, w: Writer)
    requires n < |g| && g[n].name !in w.descs
    ensures Extends(w, Claimed(g, n, w))
  {
  }

  lemma {:induction false} KidsExtend(g: Graph, n: nat, i: nat, w: Writer)
    requires GraphOk(g) && n < |g| && i <= Kids(g[n]) && ClaimsIn(g, w) && WriteKids(g, n, i, w).Wrote?
    ensures Extends(w, WriteKids(g, n, i, w).w)
    decreases Names(g) - w.descs.Keys, 1 + Kids(g[n]) - i
  {
    hide Extends;
    hide WriteDesc;
    hide WriteKids;
    hide WriteString;
    hide WellFormed;
    hide Closed;
    if i == Kids(g[n]) {
      NoKids([], 0, g, n, w, []);
      NothingMore(g, w, [], g[n]);
    } else {
      KidShape(g, n, i);
      WriteKidsNext(g, n, i, w);
      var w1 := NameWritten(g[n], i, w).0;
      if g[n].kind == KIND_STRUCT {
        StringExtends(w, g[n].fields[i].name);
      } else {
        NothingMore(g, w, [], g[n]);
      }
      var o := WriteDesc(g, Kid(g[n], i), w1);
      DescExtends(g, Kid(g[n], i), w1);
      KidsExtend(g, n, i + 1, o.w);
      ExtendsTrans(w, w1, o.w);
      ExtendsTrans(w, o.w, WriteKids(g, n, i, w).w);
    }
  }

  lemma ItemExtends(g: Graph, item: Item, w: Writer)
    requires GraphOk(g) && ClaimsIn(g, w) && (item.Type? ==> item.n < |g|) && WriteItem(g, item, w).Wrote?
    ensures Extends(w, WriteItem(g, item, w).w)
  {
    hide WriteDesc;
    hide WriteString;
    match item
    case Text(s) => StringExtends(w, s);
    case Type(n) => DescExtends(g, n, w);
    case Record =>
  }

  lemma {:induction false} ItemsExtend(g: Graph, items: seq<Item>, w: Writer)
    requires GraphOk(g) && ClaimsIn(g, w) && ItemsIn(g, items) && WriteItems(g, items, w).Wrote?
    ensures Extends(w, WriteItems(g, items, w).w)
  {
    hide Extends;
    hide WriteItem;
    hide GraphOk;
    if items == [] {
      NothingMore(g, w, [], Desc(0, [], 0, 0, 0, [], []));
    } else {
      var before := WriteItems(g, items[..|items| - 1], w);
      ItemsExtend(g, items[..|items| - 1], w);
      ItemExtends(g, items[|items| - 1], before.w);
      ExtendsTrans(w, before.w, WriteItems(g, items, w).w);
    }
  }

  /**
    Whatever is written in between, a string written again is a REF to the id it took the first time, and takes no
    id.
   */
  lemma StringWrittenAgain(g: Graph, w: Writer, s: Name, items: seq<Item>)
    requires GraphOk(g) && ClaimsIn(g, w) && ItemsIn(g, items) && WriteItems(g, items, WriteString(w, s).0).Wrote?
    ensures s !in w.strs ==> WriteString(w, s).0.nextID == w.nextID + 1
    ensures var r := WriteItems(g, items, WriteString(w, s).0).w;
            WriteString(r, s) == (r, RefBytes(if s in w.strs then w.strs[s] else w.nextID))
  {
    hide WriteItems;
    hide GraphOk;
    ItemsExtend(g, items, WriteString(w, s).0);
  }

  /** The same for descriptors: any that is equal to one written before is a REF to its record. */
  lemma TypeWrittenAgain(g: Graph, w: Writer, n: nat, m: nat, items: seq<Item>)
    requires GraphOk(g) && ClaimsNamed(g, w) && n < |g| && m < |g| && Bisimilar(g, n, m) && ItemsIn(g, items)
    requires WriteDesc(g, n, w).Wrote? && WriteItems(g, items, WriteDesc(g, n, w).w).Wrote?
    ensures var r := WriteItems(g, items, WriteDesc(g, n, w).w).w;
            WriteDesc(g, m, r)
              == Wrote(r, RefBytes(if g[n].name in w.descs then w.descs[g[n].name].id else w.nextID))
  {
    hide WriteItems;
    hide DescEqual;
    hide Bisimilar;
    hide WriteKids;
    hide Opening;
    hide Extends;
    hide WellFormed;
    hide Closed;
    var o := WriteDesc(g, n, w);
    var r := WriteItems(g, items, o.w).w;
    var x := g[n].name;
    ItemsExtend(g, items, o.w);
    DescExtends(g, n, w);
    BisimilarStep(g, n, m, 0);
    assert x in w.descs ==> Bisimilar(g, w.descs[x].node, n) by {
      if x in w.descs {
        DescEqualIffBisimilar(g, w.descs[x].node, n);
      }
    }
    ClaimStands(g, n, w);
    ExtendsGives(o.w, r, x);
    BisimilarSelf(g, n);
    BisimilarTrans(g, r.descs[x].node, n, m);
    DescEqualIffBisimilar(g, r.descs[x].node, m);
  }

  lemma ExtendsGives(w: Writer, w': Writer, x: Name)
    requires Extends(w, w') && x in w.descs
    ensures x in w'.descs && w'.descs[x] == w.descs[x]
  {
  }

  /** After a descriptor was written its name is claimed: as before, or by the id and the node just written. */
  lemma ClaimStands(g: Graph, n: nat, w: Writer)
    requires GraphOk(g) && ClaimsIn(g, w) && n < |g| && WriteDesc(g, n, w).Wrote?
    ensures var x, d := g[n].name, WriteDesc(g, n, w).w.descs;
            x in d && d[x] == if x in w.descs then w.descs[x] else Claim(w.nextID, n)
  {
    hide DescEqual;
    hide WriteKids;
    hide WellFormed;
    hide Closed;
    hide Extends;
    var x := g[n].name;
    if x !in w.descs {
      WriteDescNext(g, n, w);
      var w1 := Opening(g[n], Claimed(g, n, w)).0;
      KidsExtend(g, n, 0, w1);
      ExtendsGives(w1, WriteKids(g, n, 0, w1).w, x);
    }
  }
}
