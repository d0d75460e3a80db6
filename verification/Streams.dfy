/**
  Streams of values: scanning, emission and decoding end to end. Every window comes
  back with its length and capacity, over a backing that keeps what memory held when
  the record was written, and windows share cells after decoding as they did before
  (codec_encode.go:2086-2571; codec_decode.go:1269-1276, 1365-1434).
 */
module Streams {
  import opened Bytes
  import opened Args
  import opened Containers
  import opened Elements
  import opened Grouping
  import opened GroupingRuns
  import opened Components
  import opened HostCache
  import opened Records

  // ---------------------------------------------------------------- the scan pass

  /** All slots and members are of generations before `g`, and all spans end below 2^64. */
  ghost predicate Timely(st: State, g: nat) {
    && (forall key :: key in st.slots ==> key.gen < g)
    && (forall i, m :: 0 <= i < |st.comps| && m in st.comps[i].members ==> m.gen < g)
    && (forall i :: 0 <= i < |st.comps| ==> st.comps[i].end < U64)
  }

  /** Every slot of the current value that resolves to a written record can be served by it. */
  ghost predicate Served(st: State, mem: Memory) {
    forall key :: key in st.slots && key.gen
      == st.gen && st.slots[key] < |st.comps| && st.comps[st.slots[key]].status.Emitted?
      ==> Representable(st.comps[st.slots[key]], key.win, mem)
  }

  lemma JoinTimely(st: State, w: Window, into: nat, gs: seq<nat>, g: nat)
    requires Timely(st, g) && st.gen < g && w.Send() < U64 && Mergeable(st, into, gs, w)
    ensures Timely(Extend(MergeAll(st, into, gs), into, w), g)
  {
    MergeAllFacts(st, into, gs, w);
    var m := MergeAll(st, into, gs);
    var r := Extend(m, into, w);
    assert r.comps[into].members == m.comps[into].members + [SlotKey(m.gen, w)];
    forall i, k | 0 <= i < |r.comps| && k in r.comps[i].members
      ensures k.gen < g
    {
      if i == into && k in m.comps[into].members {
        var j: nat :| Takes(st, into, gs, j) && k in st.comps[j].members;
      }
    }
  }

  /** The three ways a scan can end. */
  datatype Outcome = Founds | JoinsFrozen(host: nat) | JoinsLive(into: nat, gs: seq<nat>)

  ghost predicate Ends(st: State, w: Window, mem: Memory, r: State, o: Outcome) {
    match o
    case Founds => r == Create(st, w)
    case JoinsFrozen(h) =>
      h < |st.comps| && Representable(st.comps[h], w, mem) && r == st.(slots := st.slots[SlotKey(st.gen, w) := h])
    case JoinsLive(into, gs) => Mergeable(st, into, gs, w) && r == Extend(MergeAll(st, into, gs), into, w)
  }

  /** Which of the three it is: the oldest candidate decides, host or live. */
  ghost predicate Chosen(st: State, w: Window, mem: Memory, o: Outcome) {
    match o
    case Founds => Host(st, w, mem) == None && forall i: nat :: i < |st.comps| ==> !Joins(st.comps[i], w)
    case JoinsFrozen(h) => Host(st, w, mem) == Some(h)
      && forall i: nat :: i < h && i < |st.comps| ==> !Joins(st.comps[i], w)
    case JoinsLive(into, gs) =>
      && (forall i: nat :: Takes(st, into, gs, i) <==> i < |st.comps| && Joins(st.comps[i], w))
      && (forall i: nat :: i < |st.comps| && Joins(st.comps[i], w) ==> into <= i)
      && (Host(st, w, mem).Some? ==> into < Host(st, w, mem).value)
  }

  lemma ScanEnds(st: State, w: Window, mem: Memory) returns (st1: State, o: Outcome)
    requires Inv(st) && w.Valid()
    ensures st1 == st.(cache := CacheAfter(st, w, mem)) && Ends(st1, w, mem, Scan(st, w, mem), o)
            && Chosen(st, w, mem, o)
  {
    hide CacheAfter;
    hide Joins;
    hide Representable;
    hide Extend;
    hide Create;
    hide CompsOk;
    hide SlotOk;
    hide CacheSound;
    hide MergeAll;
    hide Mergeable;
    hide Takes;
    var host := Host(st, w, mem);
    st1 := st.(cache := CacheAfter(st, w, mem));
    var cs := Candidates(st.comps, w, host, |st.comps|);
    if cs == [] {
      assert forall i: nat :: i < |st.comps| && (Joins(st.comps[i], w) || host == Some(i)) ==> i in cs;
      o := Founds;
    } else {
      FirstIsLeast(st.comps, w, host, cs);
      FrozenNeverJoins(st.comps[cs[0]], w);
      RepresentableFrozen(st.comps, host, w, mem);
      if st.comps[cs[0]].status.Emitted? {
        MergeAllFrozen(st1, cs[0], cs[1..]);
        o := JoinsFrozen(cs[0]);
      } else {
        CandidatesMergeable(st1, w, host);
        TakesSame(st, st1, cs[0], cs[1..]);
        MergeTargetLive(st1, cs[0], cs[1..], w);
        o := JoinsLive(cs[0], cs[1..]);
      }
    }
  }

  lemma TakesSame(st: State, st1: State, into: nat, gs: seq<nat>)
    requires st1.comps == st.comps
    ensures forall i: nat :: Takes(st, into, gs, i) <==> Takes(st1, into, gs, i)
  {
  }

  lemma FirstIsLeast(comps: seq<Comp>, w: Window, host: Option<nat>, cs: seq<nat>)
    requires cs == Candidates(comps, w, host, |comps|) && cs != []
    ensures forall i: nat :: i < |comps| && (Joins(comps[i], w) || host == Some(i)) ==> cs[0] <= i
  {
    hide Joins;
    forall i: nat | i < |comps| && (Joins(comps[i], w) || host == Some(i))
      ensures cs[0] <= i
    {
      assert i in cs;
    }
  }

  lemma FrozenNeverJoins(c: Comp, w: Window)
    ensures c.status.Emitted? ==> !Joins(c, w)
  {
  }

  lemma RepresentableFrozen(comps: seq<Comp>, host: Option<nat>, w: Window, mem: Memory)
    requires host.Some? ==> host.value < |comps| && Representable(comps[host.value], w, mem)
    ensures host.Some? ==> comps[host.value].status.Emitted?
  {
  }

  lemma MergeTargetLive(st: State, into: nat, gs: seq<nat>, w: Window)
    requires Mergeable(st, into, gs, w)
    ensures !MergeAll(st, into, gs).comps[into].status.Emitted? && MergeAll(st, into, gs).gen == st.gen
  {
    MergeAllFacts(st, into, gs, w);
  }

  lemma ScanTimely(st: State, w: Window, mem: Memory, g: nat)
    requires Inv(st) && w.Valid() && w.Send() < U64 && st.gen < g && Timely(st, g)
    ensures Timely(Scan(st, w, mem), g) && Scan(st, w, mem).gen == st.gen
  {
    hide Inv;
    hide Representable;
    hide Mergeable;
    hide MergeAll;
    hide Scan;
    hide CacheAfter;
    var st1, o := ScanEnds(st, w, mem);
    assert Timely(st1, g);
    match o
    case Founds =>
    case JoinsFrozen(h) =>
    case JoinsLive(into, gs) =>
      JoinTimely(st1, w, into, gs, g);
      MergeTargetLive(st1, into, gs, w);
  }

  lemma JoinServed(st: State, w: Window, mem: Memory, into: nat, gs: seq<nat>)
    requires Served(st, mem) && Mergeable(st, into, gs, w)
    ensures var r := Extend(MergeAll(st, into, gs), into, w);
            Served(r, mem) && SlotKey(st.gen, w) in r.slots && forall key :: key in st.slots ==> key in r.slots
  {
    hide Partial;
    hide MergedSpan;
    hide MergedMembers;
    hide Representable;
    MergeAllFacts(st, into, gs, w);
    assert Merged(st, MergeAll(st, into, gs), into, gs, w);
    MergeTargetLive(st, into, gs, w);
  }

  lemma ScanServed(st: State, w: Window, mem: Memory)
    requires Inv(st) && w.Valid() && Served(st, mem)
    ensures Served(Scan(st, w, mem), mem) && SlotKey(st.gen, w) in Scan(st, w, mem).slots
    ensures forall key :: key in st.slots ==> key in Scan(st, w, mem).slots
  {
    hide Inv;
    hide Representable;
    hide Mergeable;
    hide MergeAll;
    hide Scan;
    hide CacheAfter;
    hide Extend;
    var st1, o := ScanEnds(st, w, mem);
    assert Served(st1, mem);
    match o
    case Founds =>
    case JoinsFrozen(h) =>
    case JoinsLive(into, gs) =>
      JoinServed(st1, w, mem, into, gs);
  }

  /** The window resolves to a component that holds it, and that can serve it if already written. */
  ghost predicate Ready(st: State, w: Window, mem: Memory) {
    && w.Valid() && Resolves(st, w) && Holds(st.comps[GroupOf(st, w)], w) && !st.comps[GroupOf(st, w)].status.Absorbed?
    && (st.comps[GroupOf(st, w)].status.Emitted? ==> Representable(st.comps[GroupOf(st, w)], w, mem))
  }

  ghost predicate Fit(ws: seq<Window>) {
    forall k :: 0 <= k < |ws| ==> ws[k].Valid() && ws[k].Send() < U64
  }

  /** Written components are untouched, and none is written. */
  ghost predicate FrozenAlike(st: State, r: State) {
    && |st.comps| <= |r.comps|
    && (forall i :: 0 <= i < |st.comps| ==> FrozenSame(st.comps[i], r.comps[i]))
    && (forall i :: 0 <= i < |r.comps| && r.comps[i].status.Emitted? ==> i < |st.comps| && st.comps[i].status.Emitted?)
  }

  lemma ScanFrozenAlike(st: State, w: Window, mem: Memory)
    requires Inv(st) && w.Valid()
    ensures FrozenAlike(st, Scan(st, w, mem))
  {
    ScanGrows(st, w, mem);
    forall i: nat | i < |Scan(st, w, mem).comps|
      ensures i < |st.comps| ==> FrozenSame(st.comps[i], Scan(st, w, mem).comps[i])
      ensures Scan(st, w, mem).comps[i].status.Emitted? ==> i < |st.comps| && st.comps[i].status.Emitted?
    {
      ScanFrozen(st, w, mem, i);
    }
  }

  lemma {:induction false} ScanAllReady(st: State, ws: seq<Window>, mem: Memory)
    requires Inv(st) && Timely(st, st.gen) && Fit(ws)
    ensures var r := ScanAll(st, ws, mem);
            && Inv(r) && Timely(r, st.gen + 1) && r.gen == st.gen && FrozenAlike(st, r) && Served(r, mem)
            && (forall k {:trigger ws[k]} :: 0 <= k < |ws| ==> Ready(r, ws[k], mem))
  {
    hide Inv;
    hide Scan;
    hide Timely;
    hide Served;
    hide FrozenAlike;
    hide Ready;
    if ws == [] {
      NothingScanned(st, mem);
    } else {
      var vs, w := ws[..|ws| - 1], ws[|ws| - 1];
      assert forall k :: 0 <= k < |vs| ==> vs[k] == ws[k];
      ScanAllReady(st, vs, mem);
      var s := ScanAll(st, vs, mem);
      var r := Scan(s, w, mem);
      ScanInv(s, w, mem);
      ScanTimely(s, w, mem, st.gen + 1);
      ScanServed(s, w, mem);
      ScanFrozenAlike(s, w, mem);
      FrozenAlikeTrans(st, s, r);
      forall k | 0 <= k < |ws|
        ensures Ready(r, ws[k], mem)
      {
        if k < |vs| {
          ReadyKey(s, vs[k], mem);
        }
        ScannedReady(r, ws[k], mem);
      }
    }
  }

  lemma NothingScanned(st: State, mem: Memory)
    requires Timely(st, st.gen)
    ensures Timely(st, st.gen + 1) && FrozenAlike(st, st) && Served(st, mem)
  {
  }

  lemma FrozenAlikeTrans(st: State, s: State, r: State)
    requires FrozenAlike(st, s) && FrozenAlike(s, r)
    ensures FrozenAlike(st, r)
  {
  }

  lemma ReadyKey(st: State, w: Window, mem: Memory)
    requires Ready(st, w, mem)
    ensures SlotKey(st.gen, w) in st.slots
  {
  }

  lemma ScannedReady(st: State, w: Window, mem: Memory)
    requires Inv(st) && Served(st, mem) && SlotKey(st.gen, w) in st.slots && w.Valid()
    ensures Ready(st, w, mem)
  {
    assert SlotOk(st, SlotKey(st.gen, w));
  }

  // ---------------------------------------------------------------- one slot on the wire

  /** The decoder has kept, for a written component, what memory held when it was written. */
  ghost predicate Backs(e: Encoder, d: Decoder, mems: seq<Memory>, c: Comp) {
    && c.status.Emitted? && c.origin <= c.end < U64
    && c.status.id < |e.born| <= |d.records| && c.status.id in d.shared
    && e.born[c.status.id].gen < |mems| && e.born[c.status.id].origin == c.origin
    && d.shared[c.status.id] == KeptAll(Region(mems[e.born[c.status.id].gen], c.origin, c.end))
    && c.status.elided == Dense(d.shared[c.status.id])
    && d.records[c.status.id] == Record(ArrayRecord, Low(c.Length()))
  }

  /** Encoder and decoder are in step: the same ids, one backing for each written component. */
  ghost predicate InStep(e: Encoder, d: Decoder, mems: seq<Memory>) {
    && |d.records| == |e.born|
    && (forall i :: 0 <= i < |e.st.comps| && e.st.comps[i].status.Emitted? ==> Backs(e, d, mems, e.st.comps[i]))
    && (forall i, j :: 0 <= i < j < |e.st.comps| && e.st.comps[i].status.Emitted? && e.st.comps[j].status.Emitted?
          ==> e.st.comps[i].status.id != e.st.comps[j].status.id)
  }

  /** The decoder only gained backings. */
  ghost predicate Grown(d: Decoder, d': Decoder) {
    |d.records| <= |d'.records|
      && forall id :: id in d.shared && id < |d.records| ==> id in d'.shared && d'.shared[id] == d.shared[id]
  }

  /** Where the decoder must place the window. */
  function SliceFor(st: State, w: Window): Slice
    requires Resolves(st, w) && st.comps[GroupOf(st, w)].status.Emitted? && st.comps[GroupOf(st, w)].origin <= w.ptr
  {
    var c := st.comps[GroupOf(st, w)];
    Slice(c.status.id, w.ptr - c.origin, w.len, w.cap)
  }

  /** The decoder after the slot: one more record and backing, if the slot's component was not yet written. */
  function DecoderAfter(e: Encoder, d: Decoder, w: Window, mem: Memory): Decoder
    requires Resolves(e.st, w)
  {
    var c := e.st.comps[GroupOf(e.st, w)];
    if c.status.Emitted? then d
    else Decoder(d.records + [Record(ArrayRecord, Low(c.Length()))],
                 d.shared[|d.records| := KeptAll(Region(mem, c.origin, c.end))])
  }

  lemma ViewExact(c: Comp, id: nat, w: Window)
    requires id < U64 && w.Valid() && Holds(c, w) && c.end < U64
    ensures ViewOf(c, id, w) == View(id, w.ptr - c.origin, w.len, w.cap)
    ensures c.Length() == c.end - c.origin == Low(c.Length()) && Fits(ViewOf(c, id, w), c.Length())
  {
  }

  /** Ids and lengths stay below 2^64. */
  ghost predicate Roomy(e: Encoder) {
    |e.born| < U64 && forall i :: 0 <= i < |e.st.comps| ==> e.st.comps[i].end < U64
  }

  lemma SlotRoundTrip(input: seq<byte>, at: nat, e: Encoder, d: Decoder, mems: seq<Memory>, w: Window, mem: Memory)
    requires InStep(e, d, mems) && Ready(e.st, w, mem) && Roomy(e) && Typed(mem)
    requires At(input, at, SlotBytes(e, w, mem))
    ensures at < |input|
    ensures var st := EncodeSlot(e, w, mem).st;
            && Ready(st, w, mem) && st.comps[GroupOf(st, w)].status.Emitted?
            && DecodeSlot(input, at, d)
              == Ok((SliceFor(st, w), DecoderAfter(e, d, w, mem)), at + |SlotBytes(e, w, mem)|)
  {
    hide DecodeSlot;
    hide At;
    hide ViewBytes;
    hide RecordBytes;
    hide ViewOf;
    hide Representable;
    hide Region;
    hide KeptAll;
    hide Dense;
    hide InStep;
    var c := e.st.comps[GroupOf(e.st, w)];
    if c.status.Emitted? {
      WrittenSlot(input, at, e, d, mems, w, mem);
    } else {
      SameIds(e, d, mems);
      ViewExact(c, e.NextID(), w);
      DecodeFresh(input, at, d, Region(mem, c.origin, c.end), ViewOf(c, e.NextID(), w));
      WrittenServes(c, e.NextID(), w, mem);
    }
  }

  lemma SameIds(e: Encoder, d: Decoder, mems: seq<Memory>)
    requires InStep(e, d, mems)
    ensures |d.records| == |e.born|
  {
  }

  /** A slot of a record written before: the bare view. */
  lemma WrittenSlot(input: seq<byte>, at: nat, e: Encoder, d: Decoder, mems: seq<Memory>, w: Window, mem: Memory)
    requires InStep(e, d, mems) && Ready(e.st, w, mem) && Roomy(e) && e.st.comps[GroupOf(e.st, w)].status.Emitted?
    requires At(input, at, SlotBytes(e, w, mem))
    ensures at < |input|
    ensures DecodeSlot(input, at, d) == Ok((SliceFor(e.st, w), d), at + |SlotBytes(e, w, mem)|)
  {
    hide DecodeSlot;
    hide At;
    hide ViewBytes;
    hide ViewOf;
    hide Representable;
    hide Region;
    hide Dense;
    var c := e.st.comps[GroupOf(e.st, w)];
    assert Backs(e, d, mems, c);
    ViewExact(c, c.status.id, w);
    DecodeBare(input, at, d, ViewOf(c, c.status.id, w));
  }

  /** A record just written serves every window it holds. */
  lemma WrittenServes(c: Comp, id: nat, w: Window, mem: Memory)
    requires Holds(c, w) && w.Valid() && Typed(mem)
    ensures Representable(c.(status := Emitted(id, Dense(Region(mem, c.origin, c.end)))), w, mem)
  {
    hide Typed;
    var s := Region(mem, c.origin, c.end);
    var e := Dense(s);
    hide Dense;
    hide Region;
    forall a | w.ptr <= a < w.ptr + w.len && c.origin + e <= a
      ensures mem(a) == 0
    {
      assert s[a - c.origin] == 0;
      TypedPattern(mem, a);
    }
  }

  lemma TypedPattern(mem: Memory, a: nat)
    requires Typed(mem)
    ensures Pattern(mem(a)) == mem(a)
  {
  }

  lemma SlotInStep(e: Encoder, d: Decoder, mems: seq<Memory>, w: Window, mem: Memory)
    requires InStep(e, d, mems) && Ready(e.st, w, mem) && Roomy(e) && Inv(e.st)
    requires e.st.gen < |mems| && mems[e.st.gen] == mem
    ensures InStep(EncodeSlot(e, w, mem), DecoderAfter(e, d, w, mem), mems) && Inv(EncodeSlot(e, w, mem).st)
  {
    hide Region;
    hide Dense;
    hide Covered;
    hide InStep;
    hide Backs;
    hide Representable;
    var ci := GroupOf(e.st, w);
    var c := e.st.comps[ci];
    if !c.status.Emitted? {
      FreezeInv(e.st, ci, e.NextID(), Dense(Region(mem, c.origin, c.end)));
      FreezeInStep(e, d, mems, ci, mem, EncodeSlot(e, w, mem), DecoderAfter(e, d, w, mem));
    }
  }

  lemma FreezeInStep(e: Encoder, d: Decoder, mems: seq<Memory>, ci: nat, mem: Memory, e': Encoder, d': Decoder)
    requires InStep(e, d, mems) && ci < |e.st.comps| && e.st.comps[ci].status.Live?
             && e.st.comps[ci].origin <= e.st.comps[ci].end < U64
    requires e.st.gen < |mems| && mems[e.st.gen] == mem
    requires var s := Region(mem, e.st.comps[ci].origin, e.st.comps[ci].end);
      && e' == Encoder(Freeze(e.st, ci, |e.born|, Dense(s)), e.born + [Birth(e.st.gen, e.st.comps[ci].origin)])
      && d' == Decoder(d.records + [Record(ArrayRecord, Low(e.st.comps[ci].Length()))],
                       d.shared[|d.records| := KeptAll(s)])
    ensures InStep(e', d', mems)
  {
    hide Region;
    hide Dense;
    hide Low;
    hide KeptAll;
    hide Backs;
    var c := e.st.comps[ci];
    KeptExact(Region(mem, c.origin, c.end));
    assert Backs(e', d', mems, e'.st.comps[ci]) by { JustBacked(e, d, mems, ci, mem, e', d'); }
    forall i | 0 <= i < |e'.st.comps| && i != ci && e'.st.comps[i].status.Emitted?
      ensures Backs(e', d', mems, e'.st.comps[i]) && e'.st.comps[i].status.id < |e.born|
    {
      assert Backs(e, d, mems, e.st.comps[i]);
      BacksLater(e, d, mems, e.st.comps[i], e', d');
    }
  }

  lemma JustBacked(e: Encoder, d: Decoder, mems: seq<Memory>, ci: nat, mem: Memory, e': Encoder, d': Decoder)
    requires |d.records| == |e.born| && ci < |e.st.comps|
             && e.st.comps[ci].origin <= e.st.comps[ci].end < U64
    requires e.st.gen < |mems| && mems[e.st.gen] == mem
    requires var s := Region(mem, e.st.comps[ci].origin, e.st.comps[ci].end);
      && Dense(KeptAll(s)) == Dense(s)
      && e' == Encoder(Freeze(e.st, ci, |e.born|, Dense(s)), e.born + [Birth(e.st.gen, e.st.comps[ci].origin)])
      && d' == Decoder(d.records + [Record(ArrayRecord, Low(e.st.comps[ci].Length()))],
                       d.shared[|d.records| := KeptAll(s)])
    ensures Backs(e', d', mems, e'.st.comps[ci])
  {
    hide Region;
    hide Dense;
    hide Low;
    hide KeptAll;
  }

  /** A backing stays one while births, records and backings are only added. */
  lemma BacksLater(e: Encoder, d: Decoder, mems: seq<Memory>, c: Comp, e': Encoder, d': Decoder)
    requires Backs(e, d, mems, c) && e.born <= e'.born && d.records <= d'.records && |e'.born| <= |d'.records|
    requires forall id :: id in d.shared && id < |e.born| ==> id in d'.shared && d'.shared[id] == d.shared[id]
    ensures Backs(e', d', mems, c) && c.status.id < |e.born|
  {
    hide Region;
    hide Dense;
    hide Low;
    hide KeptAll;
  }

  // ---------------------------------------------------------------- one value on the wire

  function EncodeSlots(e: Encoder, ws: seq<Window>, mem: Memory): Encoder {
    if ws == [] then e else EncodeSlot(EncodeSlots(e, ws[..|ws| - 1], mem), ws[|ws| - 1], mem)
  }

  function SlotsBytes(e: Encoder, ws: seq<Window>, mem: Memory): seq<byte> {
    if ws == [] then []
    else SlotsBytes(e, ws[..|ws| - 1], mem) + SlotBytes(EncodeSlots(e, ws[..|ws| - 1], mem), ws[|ws| - 1], mem)
  }

  /** Reads `n` slice positions. */
  function DecodeSlots(input: seq<byte>, at: nat, d: Decoder, n: nat): (r: Parse<(seq<Slice>, Decoder)>)
    requires at <= |input|
    ensures r.Ok? ==> at <= r.next <= |input| && |r.value.0| == n
  {
    if n == 0 then Ok(([], d), at)
    else
      var (p, next) :- DecodeSlots(input, at, d, n - 1);
      var (q, end) :- DecodeSlot(input, next, p.1);
      Ok((p.0 + [q.0], q.1), end)
  }

  /** The window came back as the slice the encoder meant. */
  ghost predicate Placed(st: State, w: Window, s: Slice, mem: Memory) {
    Ready(st, w, mem) && st.comps[GroupOf(st, w)].status.Emitted? && s == SliceFor(st, w)
  }

  /** Emission of a slot, as the others see it: nothing but one live component's status changes. */
  lemma SlotKeeps(e: Encoder, w: Window, mem: Memory, v: Window, s: Slice)
    requires Ready(e.st, v, mem) && Typed(mem)
    ensures Ready(EncodeSlot(e, w, mem).st, v, mem)
    ensures Placed(e.st, v, s, mem) ==> Placed(EncodeSlot(e, w, mem).st, v, s, mem)
  {
    hide Representable;
    hide Region;
    hide Dense;
    if Resolves(e.st, w) && GroupOf(e.st, w) == GroupOf(e.st, v) {
      WrittenServes(e.st.comps[GroupOf(e.st, v)], e.NextID(), v, mem);
    }
  }

  /** Components keep their spans; live ones may become written; births are only added, for the current value. */
  ghost predicate Emits(e: Encoder, e': Encoder) {
    && e'.st.gen == e.st.gen && e'.st.slots == e.st.slots && |e'.st.comps| == |e.st.comps|
    && (forall i :: 0 <= i < |e.st.comps| ==>
          e'.st.comps[i] == e.st.comps[i]
            || (e.st.comps[i].status.Live? && e'.st.comps[i] == e.st.comps[i].(status := e'.st.comps[i].status)))
    && e.born <= e'.born
    && (forall id :: |e.born| <= id < |e'.born| ==> e'.born[id].gen == e.st.gen)
  }

  lemma SlotEmits(e: Encoder, w: Window, mem: Memory, e0: Encoder)
    requires Emits(e0, e) && (Resolves(e.st, w) ==> !e.st.comps[GroupOf(e.st, w)].status.Absorbed?)
    ensures Emits(e0, EncodeSlot(e, w, mem)) && |EncodeSlot(e, w, mem).born| <= |e.born| + 1
  {
    hide Region;
    hide Dense;
  }

  /** What holds after the slots of a value have been written and read back. */
  ghost predicate SlotsDone(e0: Encoder, e: Encoder, d: Decoder, mems: seq<Memory>, ws: seq<Window>, ss: seq<Slice>,
                            mem: Memory)
  {
    && InStep(e, d, mems) && Inv(e.st) && Emits(e0, e) && |e.born| <= |e0.born| + |ws|
    && |ss| == |ws| && forall k :: 0 <= k < |ws| ==> Placed(e.st, ws[k], ss[k], mem)
  }

  lemma {:induction false} SlotsKeepReady(e: Encoder, ws: seq<Window>, mem: Memory, v: Window)
    requires Ready(e.st, v, mem) && Typed(mem)
    ensures Ready(EncodeSlots(e, ws, mem).st, v, mem)
  {
    hide Ready;
    hide EncodeSlot;
    if ws != [] {
      SlotsKeepReady(e, ws[..|ws| - 1], mem, v);
      SlotKeeps(EncodeSlots(e, ws[..|ws| - 1], mem), ws[|ws| - 1], mem, v, Slice(0, 0, 0, 0));
    }
  }

  lemma {:induction false} SlotsRoundTrip(input: seq<byte>, at: nat, e: Encoder, d: Decoder, mems: seq<Memory>,
                                          ws: seq<Window>, mem: Memory)
    requires InStep(e, d, mems) && Inv(e.st) && Typed(mem) && e.st.gen < |mems| && mems[e.st.gen] == mem
    requires forall k {:trigger ws[k]} :: 0 <= k < |ws| ==> Ready(e.st, ws[k], mem)
    requires forall i :: 0 <= i < |e.st.comps| ==> e.st.comps[i].end < U64
    requires |e.born| + |ws| < U64 && at <= |input| && At(input, at, SlotsBytes(e, ws, mem))
    ensures var r := DecodeSlots(input, at, d, |ws|);
            r.Ok? && r.next == at + |SlotsBytes(e, ws, mem)|
              && SlotsDone(e, EncodeSlots(e, ws, mem), r.value.1, mems, ws, r.value.0, mem)
  {
    hide At;
    hide InStep;
    hide Inv;
    hide Ready;
    hide SlotBytes;
    hide EncodeSlot;
    hide DecodeSlot;
    hide DecoderAfter;
    hide SliceFor;
    if ws != [] {
      var vs, w := ws[..|ws| - 1], ws[|ws| - 1];
      assert forall k :: 0 <= k < |vs| ==> vs[k] == ws[k];
      var p := EncodeSlots(e, vs, mem);
      AtSplit(input, at, SlotsBytes(e, vs, mem), SlotBytes(p, w, mem));
      SlotsRoundTrip(input, at, e, d, mems, vs, mem);
      SlotsKeepReady(e, vs, mem, w);
      var q := DecodeSlots(input, at, d, |vs|);
      LastSlot(input, q.next, e, p, q.value.1, mems, vs, w, q.value.0, mem);
      assert vs + [w] == ws;
    }
  }

  lemma LastSlot(input: seq<byte>, at: nat, e0: Encoder, e: Encoder, d: Decoder, mems: seq<Memory>, vs: seq<Window>,
                 w: Window, ss: seq<Slice>, mem: Memory)
    requires SlotsDone(e0, e, d, mems, vs, ss, mem) && Ready(e.st, w, mem) && Typed(mem)
    requires e0.st.gen < |mems| && mems[e0.st.gen] == mem && |e0.born| + |vs| < U64
    requires forall i :: 0 <= i < |e0.st.comps| ==> e0.st.comps[i].end < U64
    requires At(input, at, SlotBytes(e, w, mem))
    ensures at < |input|
    ensures var r := DecodeSlot(input, at, d);
            r.Ok? && r.next == at + |SlotBytes(e, w, mem)|
              && SlotsDone(e0, EncodeSlot(e, w, mem), r.value.1, mems, vs + [w], ss + [r.value.0], mem)
  {
    hide At;
    hide InStep;
    hide Inv;
    hide SlotBytes;
    hide EncodeSlot;
    hide DecodeSlot;
    hide DecoderAfter;
    hide SliceFor;
    hide Representable;
    SlotRoundTrip(input, at, e, d, mems, w, mem);
    SlotInStep(e, d, mems, w, mem);
    SlotEmits(e, w, mem, e0);
    var e', s := EncodeSlot(e, w, mem), DecodeSlot(input, at, d).value.0;
    forall k | 0 <= k < |vs + [w]|
      ensures Placed(e'.st, (vs + [w])[k], (ss + [s])[k], mem)
    {
      if k < |vs| {
        assert Placed(e.st, vs[k], ss[k], mem);
        SlotKeeps(e, w, mem, vs[k], ss[k]);
      }
    }
  }

  // ---------------------------------------------------------------- streams of values

  /**
    One value: the windows of the scan pass, the slice positions that are written, and memory meanwhile. The scan
    also visits what is never written: unexported and blank fields, and the entries of a map written as a REF.
   */
  datatype Value = Value(ws: seq<Window>, out: seq<Window>, mem: Memory)

  /** Whatever is written was scanned. */
  ghost predicate WellFormed(v: Value) {
    Fit(v.ws) && Typed(v.mem) && forall k :: 0 <= k < |v.out| ==> v.out[k] in v.ws
  }

  /** One value: scan everything, then emit the written positions. */
  function EncodeValue(e: Encoder, v: Value): Encoder {
    var r := EncodeSlots(Encoder(ScanAll(e.st, v.ws, v.mem), e.born), v.out, v.mem);
    Encoder(r.st.(gen := r.st.gen + 1), r.born)
  }

  function ValueBytes(e: Encoder, v: Value): seq<byte> {
    SlotsBytes(Encoder(ScanAll(e.st, v.ws, v.mem), e.born), v.out, v.mem)
  }

  function EncodeStream(vals: seq<Value>): Encoder {
    if |vals| == 0 then Encoder(EMPTY, []) else EncodeValue(EncodeStream(vals[..|vals| - 1]), vals[|vals| - 1])
  }

  function StreamBytes(vals: seq<Value>): seq<byte> {
    if |vals| == 0 then []
    else StreamBytes(vals[..|vals| - 1]) + ValueBytes(EncodeStream(vals[..|vals| - 1]), vals[|vals| - 1])
  }

  /** Reads a stream of values with the given numbers of slice positions. */
  function DecodeStream(input: seq<byte>, at: nat, counts: seq<nat>): (r: Parse<(seq<seq<Slice>>, Decoder)>)
    requires at <= |input|
    ensures r.Ok? ==> at <= r.next <= |input|
  {
    if counts == [] then Ok(([], Decoder([], map[])), at)
    else
      var (p, next) :- DecodeStream(input, at, counts[..|counts| - 1]);
      var (q, end) :- DecodeSlots(input, next, p.1, counts[|counts| - 1]);
      Ok((p.0 + [q.0], q.1), end)
  }

  function Counts(vals: seq<Value>): seq<nat> {
    if |vals| == 0 then [] else Counts(vals[..|vals| - 1]) + [|vals[|vals| - 1].out|]
  }

  function Mems(vals: seq<Value>): (r: seq<Memory>)
    ensures |r| == |vals| && forall i :: 0 <= i < |r| ==> r[i] == vals[i].mem
  {
    if |vals| == 0 then [] else Mems(vals[..|vals| - 1]) + [vals[|vals| - 1].mem]
  }

  function Total(vals: seq<Value>): nat {
    if |vals| == 0 then 0 else Total(vals[..|vals| - 1]) + |vals[|vals| - 1].out|
  }

  /** Element `j` of a decoded slice, up to its capacity. */
  function Cell(d: Decoder, s: Slice, j: nat): Bits {
    if s.id in d.shared && s.off + j < |d.shared[s.id]| then d.shared[s.id][s.off + j] else 0
  }

  /**
    The slice `s` stands for the window `w` of value `k`: the same length and capacity, at its place over a
    backing that starts at a known address; each cell holds what the decoder keeps of what memory held when the
    record was written, and past the record's dense prefix each cell of its length holds what memory holds now.
   */
  ghost predicate Serves(born: seq<Birth>, d: Decoder, mems: seq<Memory>, k: nat, w: Window, s: Slice) {
    && s.len == w.len && s.cap == w.cap && s.id < |born| && s.id < |d.records| && s.id in d.shared && k < |mems|
    && born[s.id].gen <= k && born[s.id].origin + s.off == w.ptr && s.off + s.cap <= |d.shared[s.id]|
    && (forall j: nat {:trigger Cell(d, s, j)} :: j < w.cap ==> Cell(d, s, j) == Held(mems[born[s.id].gen](w.ptr + j)))
    && (forall j: nat {:trigger Cell(d, s, j)} :: j < w.len && Dense(d.shared[s.id]) <= s.off + j
          ==> Cell(d, s, j) == mems[k](w.ptr + j))
  }

  /** Every window of `ws` came back as the slice that stands for it. */
  ghost predicate Faithful(born: seq<Birth>, d: Decoder, mems: seq<Memory>, k: nat, ws: seq<Window>, ss: seq<Slice>) {
    |ss| == |ws| && forall i :: 0 <= i < |ws| ==> Serves(born, d, mems, k, ws[i], ss[i])
  }

  /** The slice lies in the record of the component its window resolved to when the scan pass ended in `s`. */
  ghost predicate Housed(st: State, s: State, w: Window, id: nat) {
    && Resolves(s, w) && GroupOf(s, w) < |st.comps|
    && st.comps[GroupOf(s, w)].status.Emitted? && st.comps[GroupOf(s, w)].status.id == id
  }

  ghost predicate AllHoused(st: State, s: State, ws: seq<Window>, ss: seq<Slice>) {
    |ss| == |ws| && forall i {:trigger ws[i]} {:trigger ss[i]} :: 0 <= i < |ws| ==> Housed(st, s, ws[i], ss[i].id)
  }

  /** The cells of a window over the backing kept for [lo, hi). */
  lemma CellsHeld(d: Decoder, s: Slice, mem: Memory, lo: nat, hi: nat, w: Window)
    requires s.id in d.shared && lo <= hi && d.shared[s.id] == KeptAll(Region(mem, lo, hi))
    requires lo + s.off == w.ptr && w.Send() <= hi
    ensures forall j: nat {:trigger Cell(d, s, j)} :: j < w.cap ==> Cell(d, s, j) == Held(mem(w.ptr + j))
  {
    hide Kept;
    forall j: nat {:trigger Cell(d, s, j)} | j < w.cap
      ensures Cell(d, s, j) == Held(mem(w.ptr + j))
    {
      assert Region(mem, lo, hi)[s.off + j] == Pattern(mem(lo + (s.off + j)));
    }
  }

  /** Past the dense prefix, where memory is zero if the record can serve the window. */
  lemma CellsElided(d: Decoder, s: Slice, mem: Memory, c: Comp, w: Window)
    requires s.id in d.shared && Representable(c, w, mem) && c.status.elided == Dense(d.shared[s.id])
    requires c.origin + s.off == w.ptr
    ensures forall j: nat {:trigger Cell(d, s, j)} ::
              j < w.len && Dense(d.shared[s.id]) <= s.off + j ==> Cell(d, s, j) == mem(w.ptr + j)
  {
    var e := Dense(d.shared[s.id]);
    hide Dense;
    forall j: nat {:trigger Cell(d, s, j)} | j < w.len && e <= s.off + j
      ensures Cell(d, s, j) == mem(w.ptr + j)
    {
      assert mem(w.ptr + j) == 0;
    }
  }

  lemma WrittenBacked(e: Encoder, d: Decoder, mems: seq<Memory>, i: nat)
    requires InStep(e, d, mems) && i < |e.st.comps| && e.st.comps[i].status.Emitted?
    ensures Backs(e, d, mems, e.st.comps[i])
  {
    hide Backs;
  }

  lemma PlacedServes(e: Encoder, d: Decoder, mems: seq<Memory>, k: nat, w: Window, s: Slice)
    requires InStep(e, d, mems) && k < |mems| && Placed(e.st, w, s, mems[k])
    requires forall id :: 0 <= id < |e.born| ==> e.born[id].gen <= k
    ensures Serves(e.born, d, mems, k, w, s)
  {
    hide Dense;
    hide Region;
    hide KeptAll;
    hide Representable;
    hide Cell;
    hide Held;
    hide InStep;
    var c := e.st.comps[GroupOf(e.st, w)];
    WrittenBacked(e, d, mems, GroupOf(e.st, w));
    CellsHeld(d, s, mems[e.born[s.id].gen], c.origin, c.end, w);
    CellsElided(d, s, mems[k], c, w);
  }

  /** Emission leaves the resolution of slots alone. */
  lemma PlacedHoused(e0: Encoder, e: Encoder, w: Window, s: Slice, mem: Memory)
    requires Emits(e0, e) && Placed(e.st, w, s, mem)
    ensures Housed(e.st, e0.st, w, s.id)
  {
    hide Representable;
  }

  /** Components written earlier are not touched by a later value. */
  ghost predicate KeepsWritten(st: State, st': State) {
    |st.comps| <= |st'.comps| && forall i :: 0 <= i < |st.comps| ==> FrozenSame(st.comps[i], st'.comps[i])
  }

  lemma ValueKeepsWritten(e: Encoder, e0: Encoder, f: Encoder, g: nat)
    requires FrozenAlike(e.st, e0.st) && Emits(e0, f)
    ensures KeepsWritten(e.st, f.st.(gen := g))
  {
  }

  lemma HousedLater(st: State, st': State, s: State, ws: seq<Window>, ss: seq<Slice>)
    requires AllHoused(st, s, ws, ss) && KeepsWritten(st, st')
    ensures AllHoused(st', s, ws, ss)
  {
    forall i | 0 <= i < |ws|
      ensures Housed(st', s, ws[i], ss[i].id)
    {
      assert Housed(st, s, ws[i], ss[i].id);
      assert FrozenSame(st.comps[GroupOf(s, ws[i])], st'.comps[GroupOf(s, ws[i])]);
    }
  }

  lemma GrownTrans(a: Decoder, b: Decoder, c: Decoder)
    requires Grown(a, b) && Grown(b, c)
    ensures Grown(a, c)
  {
  }

  lemma NoGrowth(d: Decoder)
    ensures Grown(d, d)
  {
  }

  /** Whatever it reads, the decoder never changes a backing it has handed out. */
  lemma {:induction false} DecodeSlotsGrow(input: seq<byte>, at: nat, d: Decoder, n: nat)
    requires at <= |input| && DecodeSlots(input, at, d, n).Ok?
    ensures Grown(d, DecodeSlots(input, at, d, n).value.1)
  {
    hide ParseView;
    hide ReadRecord;
    hide Grown;
    if n == 0 {
      NoGrowth(d);
    } else {
      DecodeSlotsGrow(input, at, d, n - 1);
      var p := DecodeSlots(input, at, d, n - 1);
      DecodeSlotGrows(input, p.next, p.value.1);
      GrownTrans(d, p.value.1, DecodeSlots(input, at, d, n).value.1);
    }
  }

  lemma DecodeSlotGrows(input: seq<byte>, at: nat, d: Decoder)
    requires at <= |input| && DecodeSlot(input, at, d).Ok?
    ensures Grown(d, DecodeSlot(input, at, d).value.1)
  {
    hide ParseView;
    hide ReadRecord;
  }

  /** Scanning before emission keeps encoder and decoder in step. */
  lemma ScannedInStep(e: Encoder, e0: Encoder, d: Decoder, mems: seq<Memory>, mem: Memory)
    requires InStep(e, d, mems) && FrozenAlike(e.st, e0.st) && e0.born == e.born
    ensures InStep(e0, d, mems + [mem])
  {
    hide Region;
    hide Dense;
    forall i | 0 <= i < |e0.st.comps| && e0.st.comps[i].status.Emitted?
      ensures Backs(e0, d, mems + [mem], e0.st.comps[i])
    {
      assert FrozenSame(e.st.comps[i], e0.st.comps[i]);
      assert Backs(e, d, mems, e.st.comps[i]);
    }
  }

  /** The state between values. */
  ghost predicate Between(e: Encoder, d: Decoder, mems: seq<Memory>) {
    && InStep(e, d, mems) && Inv(e.st) && Timely(e.st, e.st.gen) && e.st.gen == |mems|
    && (forall id :: 0 <= id < |e.born| ==> e.born[id].gen < |mems|)
    && (forall i :: 0 <= i < |mems| ==> Typed(mems[i]))
  }

  lemma NextBetween(e0: Encoder, e: Encoder, e': Encoder, d: Decoder, mems: seq<Memory>)
    requires InStep(e, d, mems) && Inv(e.st) && Emits(e0, e) && Timely(e0.st, e0.st.gen + 1) && |mems| == e0.st.gen + 1
    requires forall id :: 0 <= id < |e0.born| ==> e0.born[id].gen < e0.st.gen
    requires forall i :: 0 <= i < |mems| ==> Typed(mems[i])
    requires e' == Encoder(e.st.(gen := e.st.gen + 1), e.born)
    ensures Between(e', d, mems)
  {
    hide Region;
    hide Dense;
    hide Covered;
    hide Geometry;
    hide Apart;
    forall i | 0 <= i < |e'.st.comps| && e'.st.comps[i].status.Emitted?
      ensures Backs(e', d, mems, e'.st.comps[i])
    {
      assert Backs(e, d, mems, e.st.comps[i]);
    }
    forall key | key in e'.st.slots
      ensures SlotOk(e'.st, key)
    {
      assert SlotOk(e.st, key);
    }
  }

  /** One value, from scan to decoded slices. */
  lemma ValueRoundTrip(input: seq<byte>, at: nat, e: Encoder, d: Decoder, mems: seq<Memory>, v: Value)
    requires Between(e, d, mems) && WellFormed(v) && |e.born| + |v.out| < U64
    requires at <= |input| && At(input, at, ValueBytes(e, v))
    ensures var r, e' := DecodeSlots(input, at, d, |v.out|), EncodeValue(e, v);
            && r.Ok? && r.next == at + |ValueBytes(e, v)| && Between(e', r.value.1, mems + [v.mem])
            && e.born <= e'.born && |e'.born| <= |e.born| + |v.out| && Grown(d, r.value.1) && KeepsWritten(e.st, e'.st)
            && Faithful(e'.born, r.value.1, mems + [v.mem], |mems|, v.out, r.value.0)
            && AllHoused(e'.st, ScanAll(e.st, v.ws, v.mem), v.out, r.value.0)
  {
    hide At;
    hide InStep;
    hide Inv;
    hide Ready;
    hide SlotBytes;
    hide EncodeSlot;
    hide DecodeSlot;
    hide Typed;
    hide Served;
    hide FrozenAlike;
    hide Placed;
    hide Serves;
    hide Grown;
    hide KeepsWritten;
    hide Housed;
    var all := mems + [v.mem];
    ScanAllReady(e.st, v.ws, v.mem);
    var e0 := Encoder(ScanAll(e.st, v.ws, v.mem), e.born);
    ScannedInStep(e, e0, d, mems, v.mem);
    WrittenReady(e0.st, v);
    SlotsRoundTrip(input, at, e0, d, all, v.out, v.mem);
    DecodeSlotsGrow(input, at, d, |v.out|);
    var f, q := EncodeSlots(e0, v.out, v.mem), DecodeSlots(input, at, d, |v.out|);
    NextBetween(e0, f, EncodeValue(e, v), q.value.1, all);
    ValueKeepsWritten(e, e0, f, f.st.gen + 1);
    forall i | 0 <= i < |v.out|
      ensures Serves(f.born, q.value.1, all, |mems|, v.out[i], q.value.0[i])
      ensures Housed(f.st.(gen := f.st.gen + 1), e0.st, v.out[i], q.value.0[i].id)
    {
      PlacedServes(f, q.value.1, all, |mems|, v.out[i], q.value.0[i]);
      PlacedHoused(e0, f, v.out[i], q.value.0[i], v.mem);
      HousedGen(f.st, f.st.gen + 1, e0.st, v.out[i], q.value.0[i].id);
    }
  }

  lemma HousedGen(st: State, g: nat, s: State, w: Window, id: nat)
    requires Housed(st, s, w, id)
    ensures Housed(st.(gen := g), s, w, id)
  {
  }

  lemma WrittenReady(st: State, v: Value)
    requires WellFormed(v) && forall k {:trigger v.ws[k]} :: 0 <= k < |v.ws| ==> Ready(st, v.ws[k], v.mem)
    ensures forall k {:trigger v.out[k]} :: 0 <= k < |v.out| ==> Ready(st, v.out[k], v.mem)
  {
    hide Ready;
    assert forall w :: w in v.ws ==> Ready(st, w, v.mem);
  }

  lemma ServesLater(born: seq<Birth>, d: Decoder, mems: seq<Memory>, k: nat, w: Window, s: Slice, born': seq<Birth>,
                    d': Decoder, mem: Memory)
    requires Serves(born, d, mems, k, w, s) && born <= born' && Grown(d, d')
    ensures s.id < |born| && born'[s.id] == born[s.id] && Serves(born', d', mems + [mem], k, w, s)
  {
    hide Dense;
    assert d'.shared[s.id] == d.shared[s.id];
    assert (mems + [mem])[born[s.id].gen] == mems[born[s.id].gen] && (mems + [mem])[k] == mems[k];
    forall j: nat {:trigger Cell(d', s, j)}
      ensures Cell(d', s, j) == Cell(d, s, j)
    {
    }
  }

  lemma FaithfulLater(born: seq<Birth>, d: Decoder, mems: seq<Memory>, k: nat, ws: seq<Window>, ss: seq<Slice>,
                      born': seq<Birth>, d': Decoder, mem: Memory)
    requires Faithful(born, d, mems, k, ws, ss) && born <= born' && Grown(d, d')
    ensures Faithful(born', d', mems + [mem], k, ws, ss)
  {
    hide Serves;
    hide Grown;
    forall i | 0 <= i < |ws|
      ensures Serves(born', d', mems + [mem], k, ws[i], ss[i])
    {
      ServesLater(born, d, mems, k, ws[i], ss[i], born', d', mem);
    }
  }

  /** The state in which the scan pass of value `k` ends and its emission begins. */
  function AfterScan(vals: seq<Value>, k: nat): State
    requires k < |vals|
  {
    ScanAll(EncodeStream(vals[..k]).st, vals[k].ws, vals[k].mem)
  }

  /** Value `k` came back. */
  ghost predicate CameBack(e: Encoder, d: Decoder, vals: seq<Value>, k: nat, ss: seq<Slice>)
    requires k < |vals|
  {
    Faithful(e.born, d, Mems(vals), k, vals[k].out, ss) && AllHoused(e.st, AfterScan(vals, k), vals[k].out, ss)
  }

  /** All values read so far came back. */
  ghost predicate AllFaithful(e: Encoder, d: Decoder, vals: seq<Value>, out: seq<seq<Slice>>) {
    |out| == |vals| && forall k :: 0 <= k < |vals| ==> CameBack(e, d, vals, k, out[k])
  }

  lemma CameBackLater(e: Encoder, d: Decoder, prev: seq<Value>, k: nat, ss: seq<Slice>, e': Encoder, d': Decoder,
                      v: Value)
    requires k < |prev| && CameBack(e, d, prev, k, ss)
    requires e.born <= e'.born && Grown(d, d') && KeepsWritten(e.st, e'.st)
    ensures CameBack(e', d', prev + [v], k, ss)
  {
    hide Faithful;
    hide AllHoused;
    hide KeepsWritten;
    hide Grown;
    hide ScanAll;
    hide EncodeStream;
    var vals := prev + [v];
    assert vals[..|prev|] == prev && vals[k] == prev[k] && vals[..k] == prev[..k];
    FaithfulLater(e.born, d, Mems(prev), k, prev[k].out, ss, e'.born, d', v.mem);
    HousedLater(e.st, e'.st, AfterScan(prev, k), prev[k].out, ss);
  }

  lemma AllFaithfulNext(e: Encoder, d: Decoder, prev: seq<Value>, out: seq<seq<Slice>>, e': Encoder, d': Decoder,
                        v: Value, ss: seq<Slice>)
    requires AllFaithful(e, d, prev, out) && e == EncodeStream(prev)
    requires e.born <= e'.born && Grown(d, d') && KeepsWritten(e.st, e'.st)
    requires Faithful(e'.born, d', Mems(prev) + [v.mem], |prev|, v.out, ss)
    requires AllHoused(e'.st, ScanAll(e.st, v.ws, v.mem), v.out, ss)
    ensures AllFaithful(e', d', prev + [v], out + [ss])
  {
    hide CameBack;
    hide Faithful;
    hide AllHoused;
    hide KeepsWritten;
    hide Grown;
    hide ScanAll;
    hide EncodeStream;
    hide Mems;
    var vals := prev + [v];
    assert CameBack(e', d', vals, |prev|, ss) by {
      CameBackNow(e', d', prev, v, ss);
    }
    forall k | 0 <= k < |vals|
      ensures CameBack(e', d', vals, k, (out + [ss])[k])
    {
      if k < |prev| {
        CameBackLater(e, d, prev, k, out[k], e', d', v);
      }
    }
  }

  lemma CameBackNow(e': Encoder, d': Decoder, prev: seq<Value>, v: Value, ss: seq<Slice>)
    requires Faithful(e'.born, d', Mems(prev) + [v.mem], |prev|, v.out, ss)
    requires AllHoused(e'.st, ScanAll(EncodeStream(prev).st, v.ws, v.mem), v.out, ss)
    ensures CameBack(e', d', prev + [v], |prev|, ss)
  {
    hide Faithful;
    hide AllHoused;
    hide ScanAll;
    hide EncodeStream;
    var vals := prev + [v];
    assert vals[..|prev|] == prev;
  }

  /**
    The round trip. For every stream of values, whatever happens to memory between them, the decoder returns
    for every slice position a slice of the same length and capacity whose cells keep memory as it was when its
    record was written, and which lies in the record of the component its window resolved to.
   */
  lemma {:induction false} StreamRoundTrip(input: seq<byte>, at: nat, vals: seq<Value>)
    requires forall k {:trigger vals[k]} :: 0 <= k < |vals| ==> WellFormed(vals[k])
    requires Total(vals) < U64 && at <= |input| && At(input, at, StreamBytes(vals))
    ensures var r, e := DecodeStream(input, at, Counts(vals)), EncodeStream(vals);
            && r.Ok? && r.next == at + |StreamBytes(vals)| && |e.born| <= Total(vals)
            && Between(e, r.value.1, Mems(vals)) && AllFaithful(e, r.value.1, vals, r.value.0)
  {
    hide At;
    hide InStep;
    hide Inv;
    hide WellFormed;
    hide ValueBytes;
    hide EncodeValue;
    hide DecodeSlots;
    hide Typed;
    hide Grown;
    hide Faithful;
    hide AllFaithful;
    hide AllHoused;
    hide KeepsWritten;
    hide Between;
    hide ScanAll;
    hide EncodeStream;
    hide StreamBytes;
    hide Mems;
    hide Counts;
    if |vals| == 0 {
      NothingBetween();
      NothingFaithful(vals);
    } else {
      var prev, v := vals[..|vals| - 1], vals[|vals| - 1];
      assert forall k :: 0 <= k < |prev| ==> prev[k] == vals[k];
      assert vals == prev + [v];
      StreamNext(input, at, vals, prev, v);
      StreamRoundTrip(input, at, prev);
      var p := DecodeStream(input, at, Counts(prev));
      ValueRoundTrip(input, p.next, EncodeStream(prev), p.value.1, Mems(prev), v);
      var q := DecodeSlots(input, p.next, p.value.1, |v.out|);
      DecodeNext(input, at, Counts(prev), |v.out|);
      AllFaithfulNext(EncodeStream(prev), p.value.1, prev, p.value.0, EncodeStream(vals), q.value.1, v, q.value.0);
    }
  }

  /** A stream, and what is known of it, one value longer. */
  lemma StreamNext(input: seq<byte>, at: nat, vals: seq<Value>, prev: seq<Value>, v: Value)
    requires vals == prev + [v] && At(input, at, StreamBytes(vals))
    ensures At(input, at, StreamBytes(prev)) && At(input, at + |StreamBytes(prev)|, ValueBytes(EncodeStream(prev), v))
    ensures |StreamBytes(vals)| == |StreamBytes(prev)| + |ValueBytes(EncodeStream(prev), v)|
    ensures EncodeStream(vals) == EncodeValue(EncodeStream(prev), v) && Counts(vals) == Counts(prev) + [|v.out|]
    ensures Mems(vals) == Mems(prev) + [v.mem] && Total(vals) == Total(prev) + |v.out|
  {
    hide At;
    hide ValueBytes;
    hide EncodeValue;
    assert vals[..|vals| - 1] == prev;
    AtSplit(input, at, StreamBytes(prev), ValueBytes(EncodeStream(prev), v));
  }

  lemma DecodeNext(input: seq<byte>, at: nat, counts: seq<nat>, n: nat)
    requires at <= |input| && DecodeStream(input, at, counts).Ok?
    ensures var p := DecodeStream(input, at, counts);
            var q := DecodeSlots(input, p.next, p.value.1, n);
            q.Ok? ==> DecodeStream(input, at, counts + [n]) == Ok((p.value.0 + [q.value.0], q.value.1), q.next)
  {
    hide DecodeSlots;
    assert (counts + [n])[..|counts|] == counts;
  }

  lemma NothingFaithful(vals: seq<Value>)
    requires |vals| == 0
    ensures AllFaithful(EncodeStream(vals), Decoder([], map[]), vals, [])
    ensures EncodeStream(vals) == Encoder(EMPTY, []) && StreamBytes(vals) == [] && Counts(vals) == []
            && Mems(vals) == []
  {
  }

  lemma NothingBetween()
    ensures Between(Encoder(EMPTY, []), Decoder([], map[]), [])
  {
  }
}
