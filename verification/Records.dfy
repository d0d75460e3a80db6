/**
  From components to bytes and back: each component becomes one ARRAY record, each
  slot a view over it, and the decoder rebuilds every window over one backing
  (codec_encode.go:2344-2571, 2660-2674; codec_decode.go:1365-1434).

  Elements are bit patterns of one primitive kind, any of them (Elements.dfy). The wire carries them exactly; what
  the decoder keeps of them is `Kept`.
 */
module Records {
  import opened Bytes
  import opened Args
  import opened Containers
  import opened Elements
  import opened Grouping

  // ---------------------------------------------------------------- record bodies

  /** Memory whose elements fit their type. */
  ghost predicate Typed(mem: Memory) { forall a :: mem(a) < Patterns(KIND) }

  /** Conversion to uint64. */
  function Low(n: int): u64 { n % U64 }

  /** The live contents of the addresses [lo, hi). */
  function Region(mem: Memory, lo: nat, hi: nat): (r: seq<Bits>)
    ensures lo <= hi ==> |r| == hi - lo
    ensures forall i :: 0 <= i < |r| ==> r[i] == Pattern(mem(lo + i))
  {
    if lo <= hi then seq<Bits>(hi - lo, i requires 0 <= i < hi - lo => Pattern(mem(lo + i))) else []
  }

  /** The dense prefix: one past the last element that is not zero. */
  function Dense(s: seq<Bits>): (e: nat)
    ensures e <= |s|
    ensures forall i :: e <= i < |s| ==> s[i] == 0
    ensures e > 0 ==> s[e - 1] != 0
  {
    if s == [] then 0
    else if s[|s| - 1] != 0 then |s|
    else Dense(s[..|s| - 1])
  }

  function ElemBytes(s: seq<Bits>): seq<byte> {
    if s == [] then [] else ElemBytes(s[..|s| - 1]) + ElemToken(s[|s| - 1])
  }

  /** An ARRAY record: backing length, dense prefix, the dense elements. */
  function RecordBytes(s: seq<Bits>): seq<byte> {
    HeaderBytes(CLASS_ARRAY, Low(|s|), Low(Dense(s))) + ElemBytes(s[..Dense(s)])
  }

  /** Reads `n` element tokens. */
  function ParseElems(input: seq<byte>, at: nat, n: nat): (r: Parse<seq<Bits>>)
    requires at <= |input|
    ensures r.Ok? ==> at <= r.next <= |input| && |r.value| == n
  {
    if n == 0 then Ok([], at)
    else
      var (s, next) :- ParseElems(input, at, n - 1);
      var (v, end) :- ParseElem(input, next);
      Ok(s + [v], end)
  }

  function Zeros(n: nat): seq<Bits> { seq(n, _ => 0) }

  /**
    Reads a record as it is spelled: the recorded length, zero past the dense prefix, whose last element must not be
    zero. The check is on the element as it is kept, which is zero exactly when the spelled one is.
   */
  function ParseRecord(input: seq<byte>, at: nat): (r: Parse<seq<Bits>>)
    requires at <= |input|
    ensures r.Ok? ==> at < r.next <= |input| && |r.value| < U64
  {
    var (h, n1) :- ParseHeader(input, at, CLASS_ARRAY, 0);
    var (s, n2) :- ParseElems(input, n1, h.dense);
    if h.dense > 0 && Kept(s[h.dense - 1]) == 0 then Err(MalformedOp)
    else Ok(s + Zeros(h.length - h.dense), n2)
  }

  /** The backing the decoder keeps for contents on the wire. */
  function KeptAll(s: seq<Bits>): (r: seq<Bits>)
    ensures |r| == |s| && forall i :: 0 <= i < |s| ==> r[i] == Kept(s[i])
  {
    seq(|s|, i requires 0 <= i < |s| => Kept(s[i]))
  }

  /** No element that the decoder cannot keep. */
  predicate Lossless(s: seq<Bits>) { forall i :: 0 <= i < |s| ==> !Loses(KIND, s[i]) }

  /** Reads a record into a backing. */
  function ReadRecord(input: seq<byte>, at: nat): (r: Parse<seq<Bits>>)
    requires at <= |input|
    ensures r.Ok? ==> at < r.next <= |input| && |r.value| < U64
  {
    var (s, next) :- ParseRecord(input, at);
    Ok(KeptAll(s), next)
  }

  lemma {:induction false} ElemsRoundTrip(input: seq<byte>, at: nat, s: seq<Bits>)
    requires at <= |input| && At(input, at, ElemBytes(s))
    ensures ParseElems(input, at, |s|) == Ok(s, at + |ElemBytes(s)|)
  {
    hide ParsePayload;
    hide At;
    hide ParseElem;
    hide ElemToken;
    if s != [] {
      var t, v := s[..|s| - 1], s[|s| - 1];
      AtSplit(input, at, ElemBytes(t), ElemToken(v));
      ElemsRoundTrip(input, at, t);
      ElemRoundTrip(input, at + |ElemBytes(t)|, v);
      assert t + [v] == s;
    }
  }

  /** A backing is what was written exactly if no element is lost, and never differs in its dense prefix. */
  lemma KeptExact(s: seq<Bits>)
    ensures KeptAll(s) == s <==> Lossless(s)
    ensures Dense(KeptAll(s)) == Dense(s)
  {
    hide Dense;
    hide Loses;
    hide Stored;
    DenseOfKept(s);
    if KeptAll(s) == s {
      assert forall i :: 0 <= i < |s| ==> KeptAll(s)[i] == Kept(s[i]);
    }
  }

  lemma {:induction false} DenseOfKept(s: seq<Bits>)
    ensures Dense(KeptAll(s)) == Dense(s)
  {
    hide Loses;
    hide Stored;
    if s != [] && s[|s| - 1] == 0 {
      DenseOfKept(s[..|s| - 1]);
      assert KeptAll(s)[..|s| - 1] == KeptAll(s[..|s| - 1]);
    }
  }

  /** The wire carries the whole contents a record was written from: elision loses nothing. */
  lemma RecordParses(input: seq<byte>, at: nat, s: seq<Bits>)
    requires |s| < U64 && At(input, at, RecordBytes(s))
    ensures ParseRecord(input, at) == Ok(s, at + |RecordBytes(s)|)
  {
    hide ParsePayload;
    hide At;
    hide ParseHeader;
    hide HeaderBytes;
    hide ParseElems;
    hide ElemBytes;
    hide Dense;
    var e := Dense(s);
    AtSplit(input, at, HeaderBytes(CLASS_ARRAY, |s|, e), ElemBytes(s[..e]));
    HeaderRoundTrip(input, at, CLASS_ARRAY, |s|, e);
    var n1 := at + |HeaderBytes(CLASS_ARRAY, |s|, e)|;
    assert n1 <= |input| by {
      assert ParseHeader(input, at, CLASS_ARRAY, 0).next == n1;
    }
    ElemsRoundTrip(input, n1, s[..e]);
    assert s[..e] + Zeros(|s| - e) == s;
  }

  /** A record reads back as what the decoder keeps of the contents it was written from, and exactly if lossless. */
  lemma RecordRoundTrip(input: seq<byte>, at: nat, s: seq<Bits>)
    requires |s| < U64 && At(input, at, RecordBytes(s))
    ensures ReadRecord(input, at) == Ok(KeptAll(s), at + |RecordBytes(s)|)
    ensures ReadRecord(input, at) == Ok(s, at + |RecordBytes(s)|) <==> Lossless(s)
  {
    hide ParseRecord;
    hide At;
    hide RecordBytes;
    hide Dense;
    RecordParses(input, at, s);
    KeptExact(s);
  }

  /**
    Whatever record is accepted, its bytes are those the writer produces for the contents they spell. Writing the
    backing that was kept gives the same bytes exactly if nothing was lost.
   */
  lemma RecordCanonical(input: seq<byte>, at: nat)
    requires at <= |input| && ReadRecord(input, at).Ok?
    ensures var s, r := ParseRecord(input, at).value, ReadRecord(input, at);
            && At(input, at, RecordBytes(s)) && r.next == at + |RecordBytes(s)| && r.value == KeptAll(s)
            && (At(input, at, RecordBytes(r.value)) <==> Lossless(s))
  {
    hide ParseRecord;
    hide At;
    hide RecordBytes;
    hide Dense;
    var s := ParseRecord(input, at).value;
    RecordSpelled(input, at);
    KeptExact(s);
    if At(input, at, RecordBytes(KeptAll(s))) {
      RecordParses(input, at, KeptAll(s));
    }
  }

  lemma RecordSpelled(input: seq<byte>, at: nat)
    requires at <= |input| && ParseRecord(input, at).Ok?
    ensures var r := ParseRecord(input, at);
            At(input, at, RecordBytes(r.value)) && r.next == at + |RecordBytes(r.value)|
  {
    hide ParsePayload;
    hide At;
    hide ParseHeader;
    hide HeaderBytes;
    hide ParseElems;
    hide ElemBytes;
    hide Dense;
    var h, n1 := ParseHeader(input, at, CLASS_ARRAY, 0).value, ParseHeader(input, at, CLASS_ARRAY, 0).next;
    var s := ParseElems(input, n1, h.dense).value;
    var r := ParseRecord(input, at);
    HeaderCanonical(input, at, CLASS_ARRAY, 0);
    ElemsCanonical(input, n1, h.dense);
    DenseOfPadded(s, h.length - h.dense);
    AtSplit(input, at, HeaderBytes(CLASS_ARRAY, h.length, h.dense), ElemBytes(s));
    assert r.value[..h.dense] == s;
  }

  lemma {:induction false} ElemsCanonical(input: seq<byte>, at: nat, n: nat)
    requires at <= |input| && ParseElems(input, at, n).Ok?
    ensures var r := ParseElems(input, at, n); At(input, at, ElemBytes(r.value)) && r.next == at + |ElemBytes(r.value)|
  {
    hide ParsePayload;
    hide At;
    hide ParseElem;
    hide ElemToken;
    if n == 0 {
      AtNothing(input, at);
    } else {
      var p := ParseElems(input, at, n - 1);
      var v := ParseElem(input, p.next);
      ElemsCanonical(input, at, n - 1);
      ElemCanonical(input, p.next);
      AtSplit(input, at, ElemBytes(p.value), ElemToken(v.value));
      assert (p.value + [v.value])[..n - 1] == p.value;
    }
  }

  lemma {:induction false} DenseOfPadded(s: seq<Bits>, n: nat)
    requires s == [] || s[|s| - 1] != 0
    ensures Dense(s + Zeros(n)) == |s|
  {
    if n > 0 {
      DenseOfPadded(s, n - 1);
      assert (s + Zeros(n))[..|s| + n - 1] == s + Zeros(n - 1);
    }
  }

  // ---------------------------------------------------------------- slots

  /** What the encoder knows of a record it wrote: the value it was written for and the address it starts at. */
  datatype Birth = Birth(gen: nat, origin: nat)

  /** The encoder between tokens: grouping state, and the records written so far, by id. */
  datatype Encoder = Encoder(st: State, born: seq<Birth>) {
    function NextID(): nat { |born| }
  }

  predicate Resolves(st: State, w: Window) {
    SlotKey(st.gen, w) in st.slots && st.slots[SlotKey(st.gen, w)] < |st.comps|
  }

  /** The component a window of the current value resolves to. */
  function GroupOf(st: State, w: Window): (ci: nat)
    requires Resolves(st, w)
    ensures ci < |st.comps|
  {
    st.slots[SlotKey(st.gen, w)]
  }

  /** The view a slot takes over record `id` of its component. */
  function ViewOf(c: Comp, id: nat, w: Window): View {
    View(Low(id), Low(w.ptr - c.origin), Low(w.len), Low(w.cap))
  }

  /** The encoder after one slice position: the component's record is written on first encounter. */
  function EncodeSlot(e: Encoder, w: Window, mem: Memory): Encoder {
    if !Resolves(e.st, w) then e
    else
      var ci := GroupOf(e.st, w);
      var c := e.st.comps[ci];
      if c.status.Emitted? then e
      else Encoder(Freeze(e.st, ci, e.NextID(), Dense(Region(mem, c.origin, c.end))),
                   e.born + [Birth(e.st.gen, c.origin)])
  }

  /** The bytes of one slice position: the record on first encounter, then the view. */
  function SlotBytes(e: Encoder, w: Window, mem: Memory): seq<byte> {
    if !Resolves(e.st, w) then []
    else
      var c := e.st.comps[GroupOf(e.st, w)];
      if c.status.Emitted? then ViewBytes(ViewOf(c, c.status.id, w), Low(c.Length()))
      else RecordBytes(Region(mem, c.origin, c.end)) + ViewBytes(ViewOf(c, e.NextID(), w), Low(c.Length()))
  }

  /** The decoder between tokens: the record table, and the backing materialized for each record. */
  datatype Decoder = Decoder(records: seq<Record>, shared: map<nat, seq<Bits>>)

  /** A decoded slice: a window over the backing of record `id`. */
  datatype Slice = Slice(id: nat, off: nat, len: nat, cap: nat)

  /** Reads one slice position: a bare view, or a record followed by its view. */
  function DecodeSlot(input: seq<byte>, at: nat, d: Decoder): (r: Parse<(Slice, Decoder)>)
    requires at <= |input|
    ensures r.Ok? ==> at < r.next <= |input|
  {
    if at == |input| then Err(Truncated)
    else if input[at] / 16 == CLASS_VIEW then
      var (v, next) :- ParseView(input, at, d.records);
      if v.id !in d.shared then Err(BadRef)
      else if !ViewWindow(v, Low(|d.shared[v.id]|)) then Err(BadView)
      else Ok((Slice(v.id, v.off, v.len, v.cap), d), next)
    else
      var id := |d.records|;
      var (s, n1) :- ReadRecord(input, at);
      var d' := Decoder(d.records + [Record(ArrayRecord, |s|)], d.shared[id := s]);
      var (v, next) :- ParseView(input, n1, d'.records);
      if !ViewWindow(v, |s|) then Err(BadView)
      else Ok((Slice(id, v.off, v.len, v.cap), d'), next)
  }

  lemma ViewHead(input: seq<byte>, at: nat, v: View, length: u64)
    requires At(input, at, ViewBytes(v, length))
    ensures at < |input| && input[at] / 16 == CLASS_VIEW
  {
    ViewShape(v, length);
    AtHead(input, at, CLASS_VIEW * 16 + ViewForm(v, length), ArgBytes(v.id) + GeometryTail(v, ViewForm(v, length)));
  }

  lemma RecordHead(input: seq<byte>, at: nat, s: seq<Bits>)
    requires At(input, at, RecordBytes(s))
    ensures at < |input| && input[at] / 16 == CLASS_ARRAY
  {
    hide Dense;
    hide ElemBytes;
    var e := Low(Dense(s));
    AtSplit(input, at, HeaderBytes(CLASS_ARRAY, Low(|s|), e), ElemBytes(s[..Dense(s)]));
    AtSplit(input, at, TokenBytes(CLASS_ARRAY, Low(|s|)), ArgBytes(e));
    AtHead(input, at, CLASS_ARRAY * 16 + ArgForm(Low(|s|)), ArgPayload(Low(|s|)));
  }

  /** A view over a known record. */
  lemma DecodeBare(input: seq<byte>, at: nat, d: Decoder, v: View)
    requires Backed(v, d.records) && v.id in d.shared && |d.shared[v.id]| == d.records[v.id].length
    requires At(input, at, ViewBytes(v, d.records[v.id].length))
    ensures at < |input|
    ensures DecodeSlot(input, at, d)
        == Ok((Slice(v.id, v.off, v.len, v.cap), d), at + |ViewBytes(v, d.records[v.id].length)|)
  {
    hide ParseView;
    hide At;
    hide ViewBytes;
    hide ReadRecord;
    hide ViewWindow;
    ViewHead(input, at, v, d.records[v.id].length);
    ViewRoundTrip(input, at, v, d.records);
    ValidateExact(v, d.records[v.id].length);
  }

  /** A record and the view that follows it. */
  lemma DecodeFresh(input: seq<byte>, at: nat, d: Decoder, s: seq<Bits>, v: View)
    requires |s| < U64 && v.id == |d.records| && Fits(v, |s|)
    requires At(input, at, RecordBytes(s) + ViewBytes(v, |s|))
    ensures at < |input|
    ensures var d' := Decoder(d.records + [Record(ArrayRecord, |s|)], d.shared[|d.records| := KeptAll(s)]);
            DecodeSlot(input, at, d)
              == Ok((Slice(v.id, v.off, v.len, v.cap), d'), at + |RecordBytes(s)| + |ViewBytes(v, |s|)|)
  {
    hide ParseView;
    hide At;
    hide ViewBytes;
    hide RecordBytes;
    hide ReadRecord;
    hide ViewWindow;
    var d' := Decoder(d.records + [Record(ArrayRecord, |s|)], d.shared[|d.records| := KeptAll(s)]);
    AtSplit(input, at, RecordBytes(s), ViewBytes(v, |s|));
    RecordHead(input, at, s);
    RecordRoundTrip(input, at, s);
    assert Backed(v, d'.records) && d'.records[v.id].length == |s|;
    ViewRoundTrip(input, at + |RecordBytes(s)|, v, d'.records);
    ValidateExact(v, |s|);
  }
}
