/**
  A written record is used whenever it can serve: what makes a window a view over an earlier record, in terms of
  memory and the records themselves, and what becomes of it on the wire (codec_encode.go:2040-2153, 2637-2650).
 */
module Reuse {
  import opened Bytes
  import opened Args
  import opened Containers
  import opened Elements
  import opened Grouping
  import opened GroupingRuns
  import opened Components
  import opened HostCache
  import opened Records
  import opened Streams
  import opened Homes
  import opened Sharing

  /** The span of the record covers all of the window. */
  predicate Spans(c: Comp, w: Window) { c.status.Emitted? && c.origin <= w.ptr && w.ptr + w.cap <= c.end }

  /** Some element under the window's length lies past the dense prefix and is not zero. */
  ghost predicate Lacks(c: Comp, w: Window, mem: Memory)
    requires c.status.Emitted?
  {
    exists a :: w.ptr <= a < w.ptr + w.len && c.origin + c.status.elided <= a && mem(a) != 0
  }

  /** No record hosts the window exactly if each that spans it lacks some of what memory holds under its length. */
  lemma HostNoneIff(st: State, w: Window, mem: Memory)
    ensures Host(st, w, mem).None?
        <==> forall i :: 0 <= i < |st.comps| && Spans(st.comps[i], w) ==> Lacks(st.comps[i], w, mem)
  {
    forall i | 0 <= i < |st.comps|
      ensures Representable(st.comps[i], w, mem) <==> Spans(st.comps[i], w) && !Lacks(st.comps[i], w, mem)
    {
      ServesIff(st.comps[i], w, mem);
    }
    hide Representable;
    hide Lacks;
  }

  lemma ServesIff(c: Comp, w: Window, mem: Memory)
    ensures Representable(c, w, mem) <==> Spans(c, w) && !Lacks(c, w, mem)
  {
  }

  /** The host is a record that spans the window and lacks nothing; uncached, the oldest such. */
  lemma HostIs(st: State, w: Window, mem: Memory, h: nat)
    requires Host(st, w, mem) == Some(h)
    ensures h < |st.comps| && Spans(st.comps[h], w) && !Lacks(st.comps[h], w, mem)
    ensures w !in st.cache ==> forall i :: 0 <= i < h && Spans(st.comps[i], w) ==> Lacks(st.comps[i], w, mem)
  {
    ServesIff(st.comps[h], w, mem);
    forall i | 0 <= i < h
      ensures Representable(st.comps[i], w, mem) <==> Spans(st.comps[i], w) && !Lacks(st.comps[i], w, mem)
    {
      ServesIff(st.comps[i], w, mem);
    }
    hide Representable;
    hide Lacks;
  }

  /** Nothing but the elements under the window's length decides: not the rest of its capacity. */
  lemma HostAgrees(st: State, w: Window, mem: Memory, mem': Memory)
    requires forall a :: w.ptr <= a < w.ptr + w.len ==> mem(a) == mem'(a)
    ensures Host(st, w, mem) == Host(st, w, mem')
  {
    forall i | 0 <= i < |st.comps|
      ensures Representable(st.comps[i], w, mem) <==> Representable(st.comps[i], w, mem')
    {
    }
    hide Representable;
    var f, f' := FirstRepresentable(st.comps, w, mem, 0), FirstRepresentable(st.comps, w, mem', 0);
    if f.Some? {
      FirstRepresentableIs(st.comps, w, mem', f.value);
    } else if f'.Some? {
      FirstRepresentableIs(st.comps, w, mem, f'.value);
    }
  }

  // ---------------------------------------------------------------- streams

  /** When value `k` begins, component `i` is written, spans the window, and memory under its length is as it was. */
  ghost predicate Unchanged(vals: seq<Value>, k: nat, i: nat, w: Window)
    requires k < |vals|
  {
    var e := EncodeStream(vals[..k]);
    && i < |e.st.comps| && Spans(e.st.comps[i], w) && e.st.comps[i].status.id < |e.born|
    && e.born[e.st.comps[i].status.id].gen < k
    && forall a :: w.ptr <= a < w.ptr + w.len
         ==> vals[e.born[e.st.comps[i].status.id].gen].mem(a) == vals[k].mem(a)
  }

  /** What is known of a record when value `k` begins: its value, its span, and zeros past its dense prefix. */
  lemma RecordKnown(vals: seq<Value>, k: nat, i: nat)
    requires Total(vals) < U64 && forall m {:trigger vals[m]} :: 0 <= m < |vals| ==> WellFormed(vals[m])
    requires k < |vals| && i < |Before(vals, k).comps| && Before(vals, k).comps[i].status.Emitted?
    ensures var e := EncodeStream(vals[..k]);
            var c := e.st.comps[i];
            && c.status.id < |e.born| && e.born[c.status.id].gen < k && c.origin <= c.end
            && forall a :: c.origin + c.status.elided <= a < c.end ==> vals[e.born[c.status.id].gen].mem(a) == 0
  {
    hide WellFormed;
    hide EncodeStream;
    hide DecodeStream;
    hide Inv;
    hide Timely;
    hide AllFaithful;
    hide InStep;
    var prev := vals[..k];
    TotalPrefix(vals, k);
    assert forall m :: 0 <= m < k ==> prev[m] == vals[m];
    StreamRoundTrip(StreamBytes(prev), 0, prev);
    var e, d := EncodeStream(prev), DecodeStream(StreamBytes(prev), 0, Counts(prev)).value.1;
    WrittenBacked(e, d, Mems(prev), i);
    var c := e.st.comps[i];
    var g := e.born[c.status.id].gen;
    assert Mems(prev)[g] == vals[g].mem;
    FormedTyped(vals[g]);
    ZeroPastDense(vals[g].mem, c.origin, c.end, d.shared[c.status.id]);
  }

  lemma ZeroPastDense(mem: Memory, lo: nat, hi: nat, s: seq<Bits>)
    requires lo <= hi && s == KeptAll(Region(mem, lo, hi)) && Typed(mem)
    ensures forall a :: lo + Dense(s) <= a < hi ==> mem(a) == 0
  {
    var e := Dense(s);
    hide Dense;
    forall a | lo + e <= a < hi
      ensures mem(a) == 0
    {
      assert s[a - lo] == 0;
      assert Region(mem, lo, hi)[a - lo] == Pattern(mem(lo + (a - lo)));
      TypedPattern(mem, a);
    }
  }

  /** A window over an unchanged record has a host. */
  lemma UnchangedHosted(vals: seq<Value>, k: nat, i: nat, w: Window)
    requires Total(vals) < U64 && forall m {:trigger vals[m]} :: 0 <= m < |vals| ==> WellFormed(vals[m])
    requires k < |vals| && w.Valid() && Unchanged(vals, k, i, w)
    ensures Host(Before(vals, k), w, vals[k].mem).Some?
  {
    hide WellFormed;
    hide EncodeStream;
    hide Host;
    RecordKnown(vals, k, i);
    var c := Before(vals, k).comps[i];
    assert !Lacks(c, w, vals[k].mem);
    HostNoneIff(Before(vals, k), w, vals[k].mem);
  }

  /** The encoder in value `k` when its first `i` positions have been written. */
  ghost function Midway(vals: seq<Value>, k: nat, i: nat): Encoder
    requires k < |vals| && i <= |vals[k].out|
  {
    EncodeSlots(Encoder(AfterScan(vals, k), EncodeStream(vals[..k]).born), vals[k].out[..i], vals[k].mem)
  }

  /** What was written before the value, or is written in it, stays as it is while the value is written. */
  lemma {:induction false} SlotsKeepWritten(e: Encoder, ws: seq<Window>, mem: Memory, i: nat)
    requires i < |e.st.comps| && e.st.comps[i].status.Emitted?
    ensures var f := EncodeSlots(e, ws, mem);
            && |f.st.comps| == |e.st.comps| && f.st.slots == e.st.slots && f.st.gen == e.st.gen
            && f.st.comps[i] == e.st.comps[i]
  {
    hide Dense;
    hide Region;
    if ws != [] {
      SlotsKeepWritten(e, ws[..|ws| - 1], mem, i);
    }
  }

  /**
    A window that an earlier record hosts is written as a bare view over that record, at its place; no bytes of it are
    written again. Nothing live is older than a written component when the value begins.
   */
  lemma HostedIsBareView(vals: seq<Value>, k: nat, i: nat, h: nat)
    requires Total(vals) < U64 && forall m {:trigger vals[m]} :: 0 <= m < |vals| ==> WellFormed(vals[m])
    requires k < |vals| && i < |vals[k].out| && 0 < vals[k].out[i].cap && Settled(Before(vals, k))
    requires Host(Before(vals, k), vals[k].out[i], vals[k].mem) == Some(h)
    ensures h < |Before(vals, k).comps| && Before(vals, k).comps[h].status.Emitted?
    ensures var c, w := Before(vals, k).comps[h], vals[k].out[i];
            SlotBytes(Midway(vals, k, i), w, vals[k].mem)
              == ViewBytes(View(Low(c.status.id), Low(w.ptr - c.origin), Low(w.len), Low(w.cap)), Low(c.Length()))
  {
    hide EncodeStream;
    hide EncodeSlots;
    hide Home;
    hide Inv;
    hide Timely;
    hide Settled;
    hide Host;
    hide ScanAll;
    hide ViewBytes;
    hide RecordBytes;
    hide FrozenAlike;
    var v, w := vals[k], vals[k].out[i];
    HostIs(Before(vals, k), w, v.mem, h);
    assert WellFormed(v);
    AllValid(v);
    BeforeInv(vals, k);
    SettledHomes(Before(vals, k), v.ws, w, v.mem);
    EachAtHome(Before(vals, k), v.ws, w, v.mem);
    PassKeepsWritten(vals, k);
    KeptByPass(Before(vals, k), AfterScan(vals, k), h);
    SlotsKeepWritten(Encoder(AfterScan(vals, k), EncodeStream(vals[..k]).born), v.out[..i], v.mem, h);
  }

  lemma KeptByPass(st: State, r: State, i: nat)
    requires FrozenAlike(st, r) && i < |st.comps| && st.comps[i].status.Emitted?
    ensures i < |r.comps| && r.comps[i] == st.comps[i]
  {
    assert FrozenSame(st.comps[i], r.comps[i]);
  }

  /** So a window spanned by a record, and not written over its length since, comes out as a bare view. */
  lemma UnchangedIsBareView(vals: seq<Value>, k: nat, i: nat, j: nat)
    requires Total(vals) < U64 && forall m {:trigger vals[m]} :: 0 <= m < |vals| ==> WellFormed(vals[m])
    requires k < |vals| && i < |vals[k].out| && 0 < vals[k].out[i].cap && Settled(Before(vals, k))
    requires Unchanged(vals, k, j, vals[k].out[i])
    ensures exists h :: 0 <= h < |Before(vals, k).comps| && IsBareView(vals, k, i, h)
  {
    hide EncodeStream;
    hide Host;
    hide Settled;
    hide Unchanged;
    hide SlotBytes;
    hide ViewBytes;
    assert WellFormed(vals[k]);
    AllValid(vals[k]);
    UnchangedHosted(vals, k, j, vals[k].out[i]);
    var h := Host(Before(vals, k), vals[k].out[i], vals[k].mem).value;
    HostedIsBareView(vals, k, i, h);
    HostIs(Before(vals, k), vals[k].out[i], vals[k].mem, h);
    assert IsBareView(vals, k, i, h);
  }

  /** Position `i` of value `k` is written as a view over the record of component `h`, which spans it. */
  ghost predicate IsBareView(vals: seq<Value>, k: nat, i: nat, h: nat)
    requires k < |vals| && i < |vals[k].out| && h < |Before(vals, k).comps|
  {
    var c, w := Before(vals, k).comps[h], vals[k].out[i];
    && Spans(c, w)
    && SlotBytes(Midway(vals, k, i), w, vals[k].mem)
       == ViewBytes(View(Low(c.status.id), Low(w.ptr - c.origin), Low(w.len), Low(w.cap)), Low(c.Length()))
  }

  // ---------------------------------------------------------------- what decoding shows

  /** A component written in these positions takes an id that was free before. */
  lemma {:induction false} NewIds(e: Encoder, ws: seq<Window>, mem: Memory, i: nat)
    requires i < |e.st.comps| && e.st.comps[i].status.Live?
    ensures var f := EncodeSlots(e, ws, mem);
            && |f.st.comps| == |e.st.comps| && |e.born| <= |f.born|
            && (f.st.comps[i].status.Emitted? ==> |e.born| <= f.st.comps[i].status.id)
            && (f.st.comps[i].status.Emitted? || f.st.comps[i] == e.st.comps[i])
  {
    hide Dense;
    hide Region;
    if ws != [] {
      NewIds(e, ws[..|ws| - 1], mem, i);
    }
  }

  /** One more value leaves written components alone. */
  lemma ValueKeeps(prev: seq<Value>, v: Value)
    requires forall m {:trigger prev[m]} :: 0 <= m < |prev| ==> WellFormed(prev[m])
    requires WellFormed(v) && Total(prev) + |v.out| < U64
    ensures KeepsWritten(EncodeStream(prev).st, EncodeValue(EncodeStream(prev), v).st)
  {
    hide WellFormed;
    hide EncodeStream;
    hide DecodeStream;
    hide Between;
    hide ValueBytes;
    hide StreamBytes;
    hide EncodeValue;
    hide AllFaithful;
    hide KeepsWritten;
    hide At;
    hide Total;
    hide Mems;
    hide Counts;
    hide ScanAll;
    hide DecodeSlots;
    hide Faithful;
    hide AllHoused;
    hide Grown;
    AtWhole(StreamBytes(prev));
    StreamRoundTrip(StreamBytes(prev), 0, prev);
    var e, d := EncodeStream(prev), DecodeStream(StreamBytes(prev), 0, Counts(prev)).value.1;
    AtWhole(ValueBytes(e, v));
    ValueRoundTrip(ValueBytes(e, v), 0, e, d, Mems(prev), v);
  }

  lemma StreamByValue(vals: seq<Value>, k: nat)
    requires k < |vals|
    ensures EncodeStream(vals[..k + 1]) == EncodeValue(EncodeStream(vals[..k]), vals[k])
  {
    hide EncodeValue;
    assert vals[..k + 1][..k] == vals[..k];
  }

  lemma TotalNext(vals: seq<Value>, k: nat)
    requires k < |vals|
    ensures Total(vals[..k + 1]) == Total(vals[..k]) + |vals[k].out|
  {
    assert vals[..k + 1][..k] == vals[..k];
  }

  lemma {:induction false} StreamKeeps(vals: seq<Value>, k: nat, n: nat)
    requires Total(vals) < U64 && forall m {:trigger vals[m]} :: 0 <= m < |vals| ==> WellFormed(vals[m])
    requires k <= n <= |vals|
    ensures KeepsWritten(EncodeStream(vals[..k]).st, EncodeStream(vals[..n]).st)
    decreases n
  {
    hide WellFormed;
    hide EncodeStream;
    hide EncodeValue;
    hide Total;
    if k < n {
      StreamKeeps(vals, k, n - 1);
      StreamByValue(vals, n - 1);
      TotalPrefix(vals, n);
      TotalNext(vals, n - 1);
      ValueKeeps(vals[..n - 1], vals[n - 1]);
    }
  }

  /** Whatever the scan pass resolved a written position to has the id of the record the slice came from. */
  lemma SliceRecord(input: seq<byte>, at: nat, vals: seq<Value>, k: nat, i: nat)
    requires Sent(input, at, vals) && k < |vals| && i < |vals[k].out|
    ensures Resolves(AfterScan(vals, k), vals[k].out[i])
    ensures var r, f := DecodeStream(input, at, Counts(vals)), EncodeStream(vals[..k + 1]).st;
            var ci := GroupOf(AfterScan(vals, k), vals[k].out[i]);
            && r.Ok? && Shaped(vals, r.value.0) && ci < |f.comps| && f.comps[ci].status.Emitted?
            && f.comps[ci].status.id == r.value.0[k][i].id
  {
    hide DecodeStream;
    hide EncodeStream;
    hide AfterScan;
    hide InStep;
    hide Serves;
    hide At;
    hide StreamBytes;
    hide WellFormed;
    Received(input, at, vals);
    var r, e := DecodeStream(input, at, Counts(vals)), EncodeStream(vals);
    var w, s := vals[k].out[i], r.value.0[k][i];
    assert CameBack(e, r.value.1, vals, k, r.value.0[k]);
    assert Housed(e.st, AfterScan(vals, k), w, s.id);
    var prev := vals[..k + 1];
    WrittenNow(vals, k, i);
    StreamKeeps(vals, k + 1, |vals|);
    assert vals[..|vals|] == vals;
    KeptWritten(EncodeStream(prev).st, e.st, GroupOf(AfterScan(vals, k), w));
  }

  lemma KeptWritten(st: State, r: State, i: nat)
    requires KeepsWritten(st, r) && i < |st.comps| && st.comps[i].status.Emitted?
    ensures i < |r.comps| && r.comps[i] == st.comps[i]
  {
    assert FrozenSame(st.comps[i], r.comps[i]);
  }

  /** When the value is over, the components of its written positions are written. */
  lemma WrittenNow(vals: seq<Value>, k: nat, i: nat)
    requires Total(vals) < U64 && forall m {:trigger vals[m]} :: 0 <= m < |vals| ==> WellFormed(vals[m])
    requires k < |vals| && i < |vals[k].out| && Resolves(AfterScan(vals, k), vals[k].out[i])
    ensures var f, ci := EncodeStream(vals[..k + 1]).st, GroupOf(AfterScan(vals, k), vals[k].out[i]);
            ci < |f.comps| && f.comps[ci].status.Emitted?
  {
    hide WellFormed;
    hide EncodeStream;
    hide DecodeStream;
    hide InStep;
    hide Inv;
    hide Timely;
    hide Serves;
    hide ScanAll;
    hide StreamBytes;
    hide At;
    var prev := vals[..k + 1];
    TotalPrefix(vals, k + 1);
    assert prev[..k] == vals[..k] && forall m :: 0 <= m < k + 1 ==> prev[m] == vals[m];
    AtWhole(StreamBytes(prev));
    StreamRoundTrip(StreamBytes(prev), 0, prev);
    var p := DecodeStream(StreamBytes(prev), 0, Counts(prev)).value;
    assert CameBack(EncodeStream(prev), p.1, prev, k, p.0[k]);
    assert Housed(EncodeStream(prev).st, AfterScan(vals, k), vals[k].out[i], p.0[k][i].id);
  }

  /** A slice's id is old exactly if the scan pass left its window at a component that was written before. */
  lemma OldIdIff(input: seq<byte>, at: nat, vals: seq<Value>, k: nat, i: nat)
    requires Sent(input, at, vals) && k < |vals| && i < |vals[k].out|
    ensures Resolves(AfterScan(vals, k), vals[k].out[i])
    ensures var r, ci := DecodeStream(input, at, Counts(vals)), GroupOf(AfterScan(vals, k), vals[k].out[i]);
            && r.Ok? && Shaped(vals, r.value.0)
            && (AfterScan(vals, k).comps[ci].status.Emitted?
                ==> r.value.0[k][i].id < |EncodeStream(vals[..k]).born|)
            && (AfterScan(vals, k).comps[ci].status.Live?
                ==> |EncodeStream(vals[..k]).born| <= r.value.0[k][i].id)
  {
    hide DecodeStream;
    hide EncodeStream;
    hide InStep;
    hide At;
    hide StreamBytes;
    hide WellFormed;
    hide EncodeSlots;
    hide ScanAll;
    hide FrozenAlike;
    SliceRecord(input, at, vals, k, i);
    StreamByValue(vals, k);
    var e0 := Encoder(AfterScan(vals, k), EncodeStream(vals[..k]).born);
    var ci := GroupOf(AfterScan(vals, k), vals[k].out[i]);
    if AfterScan(vals, k).comps[ci].status.Emitted? {
      SlotsKeepWritten(e0, vals[k].out, vals[k].mem, ci);
      PassKeepsWritten(vals, k);
      NoneWrittenByPass(Before(vals, k), AfterScan(vals, k), ci);
      RecordKnown(vals, k, ci);
    }
    if AfterScan(vals, k).comps[ci].status.Live? {
      NewIds(e0, vals[k].out, vals[k].mem, ci);
    }
  }

  lemma NoneWrittenByPass(st: State, r: State, i: nat)
    requires FrozenAlike(st, r) && i < |r.comps| && r.comps[i].status.Emitted?
    ensures i < |st.comps| && st.comps[i].status.Emitted? && r.comps[i] == st.comps[i]
  {
    assert FrozenSame(st.comps[i], r.comps[i]);
  }

  /** In general, old exactly if the window's home, decided at its last scan, is a written component. */
  lemma ReusedIffHome(input: seq<byte>, at: nat, vals: seq<Value>, k: nat, i: nat)
    requires Sent(input, at, vals) && k < |vals| && i < |vals[k].out| && 0 < vals[k].out[i].cap
    ensures vals[k].out[i] in vals[k].ws
    ensures var r, v := DecodeStream(input, at, Counts(vals)), vals[k];
            && r.Ok? && Shaped(vals, r.value.0)
            && (r.value.0[k][i].id < |EncodeStream(vals[..k]).born|
                <==> Home(Before(vals, k), v.ws, v.out[i], v.mem).Some?)
  {
    hide DecodeStream;
    hide EncodeStream;
    hide Home;
    hide Inv;
    hide Timely;
    hide ScanAll;
    hide At;
    hide StreamBytes;
    OldIdIff(input, at, vals, k, i);
    assert WellFormed(vals[k]);
    AllValid(vals[k]);
    BeforeInv(vals, k);
    EachAtHome(Before(vals, k), vals[k].ws, vals[k].out[i], vals[k].mem);
  }

  /**
    What decoding shows of it: with such a start, a decoded slice lies in a record of an earlier value exactly if some
    record that spans its window lacks nothing of what memory holds under its length.
   */
  lemma ReusedIff(input: seq<byte>, at: nat, vals: seq<Value>, k: nat, i: nat)
    requires Sent(input, at, vals) && k < |vals| && i < |vals[k].out| && 0 < vals[k].out[i].cap
             && Settled(Before(vals, k))
    ensures var r, st, w := DecodeStream(input, at, Counts(vals)), Before(vals, k), vals[k].out[i];
            && r.Ok? && Shaped(vals, r.value.0)
            && (r.value.0[k][i].id < |EncodeStream(vals[..k]).born|
                <==> exists h :: 0 <= h < |st.comps| && Spans(st.comps[h], w) && !Lacks(st.comps[h], w, vals[k].mem))
  {
    hide DecodeStream;
    hide EncodeStream;
    hide Home;
    hide Inv;
    hide Timely;
    hide Settled;
    hide Host;
    hide ScanAll;
    hide Lacks;
    hide At;
    hide StreamBytes;
    ReusedIffHome(input, at, vals, k, i);
    var v, w := vals[k], vals[k].out[i];
    assert WellFormed(v);
    AllValid(v);
    BeforeInv(vals, k);
    SettledHomes(Before(vals, k), v.ws, w, v.mem);
    HostNoneIff(Before(vals, k), w, v.mem);
  }
}
