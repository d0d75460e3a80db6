/**
  Backing records and slice views on the wire (internal/wire/container.go,
  codec_encode.go:2558-2571, codec_decode.go:1264-1276).
 */
module Containers {
  import opened Bytes
  import opened Args

  const CLASS_BOOL: byte := 1
  const CLASS_INT: byte := 2
  const CLASS_UINT: byte := 3
  const CLASS_FLOAT: byte := 4
  const CLASS_COMPLEX: byte := 5
  const CLASS_BLOB: byte := 7
  const CLASS_ARRAY: byte := 8
  const CLASS_VIEW: byte := 9

  datatype RecordKind = StringRecord | DescRecord | ArrayRecord | BlobRecord | ValueRecord | MapRecord

  /** One intern-space record as the reader keeps it: its sort and its backing length. */
  datatype Record = Record(kind: RecordKind, length: u64)

  /** A slice view: a window over the backing record `id`. */
  datatype View = View(id: u64, off: u64, len: u64, cap: u64)

  /** Machine addition on uint64. */
  function WrapAdd(a: u64, b: u64): u64 { (a + b) % U64 }

  /** The bounds check as the reader performs it, in wrapping arithmetic. */
  predicate ValidateView(v: View, length: u64) {
    && !(WrapAdd(v.off, v.len) < v.off)
    && !(WrapAdd(v.off, v.cap) < v.off)
    && !(WrapAdd(v.off, v.len) > WrapAdd(v.off, v.cap))
    && !(WrapAdd(v.off, v.cap) > length)
  }

  /** The second check, against the materialized backing. */
  predicate ViewWindow(v: View, length: u64) {
    && !(WrapAdd(v.off, v.len) < v.off || WrapAdd(v.off, v.cap) < v.off)
    && !(v.len > v.cap || WrapAdd(v.off, v.cap) > length)
  }

  /** The geometry a view over a backing of this length may have, in exact arithmetic. */
  predicate Fits(v: View, length: u64) {
    v.len <= v.cap && v.off + v.cap <= length
  }

  /** Both checks are exact: wrap-around lets nothing through and rejects nothing valid. */
  lemma ValidateExact(v: View, length: u64)
    ensures ValidateView(v, length) <==> Fits(v, length)
    ensures ViewWindow(v, length) <==> Fits(v, length)
  {
  }

  /** The view token in its smallest form. */
  function ViewBytes(v: View, length: u64): seq<byte> {
    if v.off == 0 && v.len == v.cap && v.len == length then [CLASS_VIEW * 16] + ArgBytes(v.id)
    else if v.cap == v.len then [CLASS_VIEW * 16 + 1] + (ArgBytes(v.id) + (ArgBytes(v.off) + ArgBytes(v.len)))
    else [CLASS_VIEW * 16 + 2] + (ArgBytes(v.id) + (ArgBytes(v.off) + (ArgBytes(v.len) + ArgBytes(v.cap))))
  }

  /** The geometry that follows the id in a view of the given form. */
  function ParseGeometry(input: seq<byte>, at: nat, form: byte, id: u64, length: u64): (r: Parse<View>)
    requires at <= |input| && form <= 2
    ensures r.Ok? ==> at <= r.next <= |input|
  {
    if form == 0 then Ok(View(id, 0, length, length), at)
    else
      var (off, n1) :- ParseArg(input, at);
      var (len, n2) :- ParseArg(input, n1);
      if form == 1 then Ok(View(id, off, len, len), n2)
      else
        var (cap, n3) :- ParseArg(input, n2);
        Ok(View(id, off, len, cap), n3)
  }

  /** Reads a view: the record must be a backing, the geometry must fit it, the form must be the smallest. */
  function ParseView(input: seq<byte>, at: nat, records: seq<Record>): (r: Parse<View>)
    requires at <= |input|
    ensures r.Ok? ==> at < r.next <= |input|
  {
    var (form, n0) :- ParseFirst(input, at, CLASS_VIEW);
    if form > 2 then Err(BadView)
    else
      var (id, n1) :- ParseArg(input, n0);
      if id >= |records| then Err(BadRef)
      else if !records[id].kind.ArrayRecord? && !records[id].kind.BlobRecord? then Err(BadRef)
      else
        var length := records[id].length;
        var (v, n2) :- ParseGeometry(input, n1, form, id, length);
        if !ValidateView(v, length) then Err(BadView)
        else if form == 1 && v.off == 0 && v.len == length then Err(BadView)
        else if form == 2 && v.cap == v.len then Err(BadView)
        else Ok(v, n2)
  }

  /** The record a view may stand over. */
  ghost predicate Backed(v: View, records: seq<Record>) {
    && v.id < |records| && (records[v.id].kind.ArrayRecord? || records[v.id].kind.BlobRecord?)
    && Fits(v, records[v.id].length)
  }

  /** Every geometry that fits its record reads back as written. */
  lemma ViewRoundTrip(input: seq<byte>, at: nat, v: View, records: seq<Record>)
    requires Backed(v, records) && At(input, at, ViewBytes(v, records[v.id].length))
    ensures ParseView(input, at, records) == Ok(v, at + |ViewBytes(v, records[v.id].length)|)
  {
    hide ParsePayload;
    hide ArgBytes;
    hide ParseArg;
    hide At;
    hide ParseGeometry;
    hide ValidateView;
    hide ViewBytes;
    hide GeometryTail;
    var length := records[v.id].length;
    var form := ViewForm(v, length);
    var tail := GeometryTail(v, form);
    ViewShape(v, length);
    AtHead(input, at, CLASS_VIEW * 16 + form, ArgBytes(v.id) + tail);
    AtSplit(input, at + 1, ArgBytes(v.id), tail);
    ArgRoundTrip(input, at + 1, v.id);
    GeometryRoundTrip(input, at + 1 + |ArgBytes(v.id)|, v, form, length);
    ValidateExact(v, length);
  }

  /** The smallest form that carries the geometry. */
  function ViewForm(v: View, length: u64): byte {
    if v.off == 0 && v.len == v.cap && v.len == length then 0 else if v.cap == v.len then 1 else 2
  }

  lemma ViewShape(v: View, length: u64)
    ensures ViewBytes(v, length) == [CLASS_VIEW * 16 + ViewForm(v, length)]
        + (ArgBytes(v.id) + GeometryTail(v, ViewForm(v, length)))
  {
    assert ArgBytes(v.id) + [] == ArgBytes(v.id);
  }

  /** What follows the id in each form. */
  function GeometryTail(v: View, form: byte): seq<byte> {
    if form == 0 then []
    else if form == 1 then ArgBytes(v.off) + ArgBytes(v.len)
    else ArgBytes(v.off) + (ArgBytes(v.len) + ArgBytes(v.cap))
  }

  lemma GeometryRoundTrip(input: seq<byte>, at: nat, v: View, form: byte, length: u64)
    requires at <= |input| && form <= 2 && (form == 0 ==> v.off == 0 && v.len == v.cap == length)
             && (form == 1 ==> v.cap == v.len)
    requires At(input, at, GeometryTail(v, form))
    ensures ParseGeometry(input, at, form, v.id, length) == Ok(v, at + |GeometryTail(v, form)|)
  {
    hide ParsePayload;
    hide ArgBytes;
    hide ParseArg;
    hide At;
    if form > 0 {
      var rest := if form == 1 then ArgBytes(v.len) else ArgBytes(v.len) + ArgBytes(v.cap);
      AtSplit(input, at, ArgBytes(v.off), rest);
      ArgRoundTrip(input, at, v.off);
      var n1 := at + |ArgBytes(v.off)|;
      if form == 2 {
        AtSplit(input, n1, ArgBytes(v.len), ArgBytes(v.cap));
        ArgRoundTrip(input, n1 + |ArgBytes(v.len)|, v.cap);
      }
      ArgRoundTrip(input, n1, v.len);
    }
  }

  /** One legal byte sequence per view: accepted bytes are those the writer chooses. */
  lemma ViewCanonical(input: seq<byte>, at: nat, records: seq<Record>)
    requires at <= |input| && ParseView(input, at, records).Ok?
    ensures var r := ParseView(input, at, records);
            Backed(r.value, records) && At(input, at, ViewBytes(r.value, records[r.value.id].length))
            && r.next == at + |ViewBytes(r.value, records[r.value.id].length)|
  {
    hide ParsePayload;
    hide ArgBytes;
    hide ParseArg;
    hide At;
    var r := ParseView(input, at, records);
    var form := input[at] % 16;
    var id := ParseArg(input, at + 1).value;
    var v, length := r.value, records[id].length;
    ArgCanonical(input, at + 1);
    var n1 := at + 1 + |ArgBytes(id)|;
    GeometryCanonical(input, n1, form, id, length);
    ValidateExact(v, length);
    var tail := GeometryTail(v, form);
    assert ViewBytes(v, length) == [input[at]] + (ArgBytes(id) + tail);
    AtSplit(input, at + 1, ArgBytes(id), tail);
    AtHead(input, at, input[at], ArgBytes(id) + tail);
  }

  lemma GeometryCanonical(input: seq<byte>, at: nat, form: byte, id: u64, length: u64)
    requires at <= |input| && form <= 2 && ParseGeometry(input, at, form, id, length).Ok?
    ensures var r := ParseGeometry(input, at, form, id, length);
            var v := r.value;
            && v.id == id && (form == 0 ==> v.off == 0 && v.len == v.cap == length) && (form == 1 ==> v.cap == v.len)
            && At(input, at, GeometryTail(v, form)) && r.next == at + |GeometryTail(v, form)|
  {
    hide ParsePayload;
    hide ArgBytes;
    hide ParseArg;
    hide At;
    AtNothing(input, at);
    if form > 0 {
      var off := ParseArg(input, at);
      ArgCanonical(input, at);
      var len := ParseArg(input, off.next);
      ArgCanonical(input, off.next);
      AtSplit(input, at, ArgBytes(off.value), ArgBytes(len.value));
      if form == 2 {
        var cap := ParseArg(input, len.next);
        ArgCanonical(input, len.next);
        AtSplit(input, off.next, ArgBytes(len.value), ArgBytes(cap.value));
        AtSplit(input, at, ArgBytes(off.value), ArgBytes(len.value) + ArgBytes(cap.value));
      }
    }
  }

  // ---------------------------------------------------------------- record headers

  /** The head of an ARRAY or BLOB record: backing length, then dense prefix. */
  function HeaderBytes(cls: byte, length: u64, dense: u64): seq<byte>
    requires cls < 16
  {
    TokenBytes(cls, length) + ArgBytes(dense)
  }

  datatype Header = Header(length: u64, dense: u64)

  /** Reads a record head; `budget` bounds the backing length, 0 for no bound. */
  function ParseHeader(input: seq<byte>, at: nat, cls: byte, budget: u64): (r: Parse<Header>)
    requires at <= |input|
    ensures r.Ok? ==> at < r.next <= |input| && r.value.dense <= r.value.length
  {
    var (length, n1) :- ParseToken(input, at, cls);
    var (dense, n2) :- ParseArg(input, n1);
    if dense > length then Err(MalformedOp)
    else if budget != 0 && length > budget then Err(Budget)
    else Ok(Header(length, dense), n2)
  }

  lemma HeaderRoundTrip(input: seq<byte>, at: nat, cls: byte, length: u64, dense: u64)
    requires cls < 16 && dense <= length && At(input, at, HeaderBytes(cls, length, dense))
    ensures ParseHeader(input, at, cls, 0) == Ok(Header(length, dense), at + |HeaderBytes(cls, length, dense)|)
  {
    hide ParsePayload;
    AtSplit(input, at, TokenBytes(cls, length), ArgBytes(dense));
    TokenRoundTrip(input, at, cls, length);
    ArgRoundTrip(input, at + |TokenBytes(cls, length)|, dense);
  }

  lemma HeaderCanonical(input: seq<byte>, at: nat, cls: byte, budget: u64)
    requires cls < 16 && at <= |input| && ParseHeader(input, at, cls, budget).Ok?
    ensures var r := ParseHeader(input, at, cls, budget);
            var b := HeaderBytes(cls, r.value.length, r.value.dense);
            At(input, at, b) && r.next == at + |b|
  {
    hide ParsePayload;
    hide At;
    hide TokenBytes;
    var t := ParseToken(input, at, cls);
    TokenCanonical(input, at, cls);
    ArgCanonical(input, t.next);
    AtSplit(input, at, TokenBytes(cls, t.value), ArgBytes(ParseArg(input, t.next).value));
  }
}
