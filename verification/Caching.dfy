/**
  What whole streams make of the host cache: streams that write all they scan never depend on it, and a stream
  that leaves a scanned slot unwritten may (codec_encode.go:1985-1992, 2086-2153). Empty windows are the other
  way to leave a live component behind.
 */
module Caching {
  import opened Bytes
  import opened Args
  import opened Containers
  import opened Grouping
  import opened GroupingRuns
  import opened Components
  import opened HostCache
  import opened Records
  import opened Streams
  import opened Homes
  import opened Sharing

  // ---------------------------------------------------------------- the encoder without a cache

  function LinearAll(st: State, ws: seq<Window>, mem: Memory): State {
    if ws == [] then st else LinearScan(LinearAll(st, ws[..|ws| - 1], mem), ws[|ws| - 1], mem)
  }

  function LinearValue(e: Encoder, v: Value): Encoder {
    var r := EncodeSlots(Encoder(LinearAll(e.st, v.ws, v.mem), e.born), v.out, v.mem);
    Encoder(r.st.(gen := r.st.gen + 1), r.born)
  }

  function LinearValueBytes(e: Encoder, v: Value): seq<byte> {
    SlotsBytes(Encoder(LinearAll(e.st, v.ws, v.mem), e.born), v.out, v.mem)
  }

  function LinearStream(vals: seq<Value>): Encoder {
    if |vals| == 0 then Encoder(EMPTY, []) else LinearValue(LinearStream(vals[..|vals| - 1]), vals[|vals| - 1])
  }

  function LinearStreamBytes(vals: seq<Value>): seq<byte> {
    if |vals| == 0 then []
    else LinearStreamBytes(vals[..|vals| - 1]) + LinearValueBytes(LinearStream(vals[..|vals| - 1]), vals[|vals| - 1])
  }

  /** Equal up to the cache. */
  ghost predicate SameButCache(st: State, t: State) { t == st.(cache := t.cache) }

  lemma LinearIgnoresCache(st: State, t: State, w: Window, mem: Memory)
    requires SameButCache(st, t)
    ensures SameButCache(LinearScan(st, w, mem), LinearScan(t, w, mem))
  {
    JoinCache(st, w, Candidates(st.comps, w, FirstRepresentable(st.comps, w, mem, 0), |st.comps|), t.cache);
    assert st.(cache := t.cache) == t;
  }

  lemma ScanGen(st: State, w: Window, mem: Memory)
    ensures Scan(st, w, mem).gen == st.gen && LinearScan(st, w, mem).gen == st.gen
  {
  }

  /** What keeps the cache exact: hosts are older than all that is live. */
  ghost predicate Exact(st: State) { Inv(st) && CacheExact(st) && CacheOlder(st) }

  /** A scan pass over a settled state has the linear outcome. */
  lemma {:induction false} PassIsLinear(st: State, t: State, ws: seq<Window>, mem: Memory)
    requires Exact(st) && Settled(st) && SameButCache(st, t) && forall k :: 0 <= k < |ws| ==> ws[k].Valid()
    ensures Exact(ScanAll(st, ws, mem)) && SameButCache(ScanAll(st, ws, mem), LinearAll(t, ws, mem))
  {
    hide Inv;
    hide Scan;
    hide LinearScan;
    hide CacheExact;
    hide CacheOlder;
    hide Settled;
    if ws != [] {
      var vs, w := ws[..|ws| - 1], ws[|ws| - 1];
      assert forall k :: 0 <= k < |vs| ==> vs[k] == ws[k];
      PassIsLinear(st, t, vs, mem);
      PassKeepsSettled(st, vs, mem);
      var s, l := ScanAll(st, vs, mem), LinearAll(t, vs, mem);
      ScanInv(s, w, mem);
      ScanKeepsExact(s, w, mem);
      ScanKeepsOlder(s, w, mem);
      ExactAt(s, w);
      ScanIsLinear(s, w, mem);
      ScanGen(s, w, mem);
      LinearIgnoresCache(s, l, w, mem);
    }
  }

  lemma ExactAt(st: State, w: Window)
    requires CacheExact(st)
    ensures CachedOldest(st, w)
  {
  }

  /** Encoders that differ only in the cache write the same bytes. */
  lemma {:induction false} EmissionIgnoresCache(e: Encoder, f: Encoder, ws: seq<Window>, mem: Memory)
    requires SameButCache(e.st, f.st) && e.born == f.born
    ensures SlotsBytes(e, ws, mem) == SlotsBytes(f, ws, mem)
    ensures SameButCache(EncodeSlots(e, ws, mem).st, EncodeSlots(f, ws, mem).st)
    ensures EncodeSlots(e, ws, mem).born == EncodeSlots(f, ws, mem).born
  {
    hide Dense;
    hide Region;
    hide RecordBytes;
    hide ViewBytes;
    if ws != [] {
      EmissionIgnoresCache(e, f, ws[..|ws| - 1], mem);
    }
  }

  /** Emission of live components keeps the cache exact. */
  lemma {:induction false} EmissionKeepsExact(e: Encoder, ws: seq<Window>, mem: Memory)
    requires Exact(e.st)
    ensures Exact(EncodeSlots(e, ws, mem).st)
  {
    hide EncodeSlot;
    hide Exact;
    if ws != [] {
      EmissionKeepsExact(e, ws[..|ws| - 1], mem);
      SlotKeepsExact(EncodeSlots(e, ws[..|ws| - 1], mem), ws[|ws| - 1], mem);
    }
  }

  lemma SlotKeepsExact(e: Encoder, w: Window, mem: Memory)
    requires Exact(e.st)
    ensures Exact(EncodeSlot(e, w, mem).st)
  {
    hide CompsOk;
    hide CacheExact;
    hide Dense;
    hide Region;
    if Resolves(e.st, w) && !e.st.comps[GroupOf(e.st, w)].status.Emitted? {
      var ci := GroupOf(e.st, w);
      var elided := Dense(Region(mem, e.st.comps[ci].origin, e.st.comps[ci].end));
      assert SlotOk(e.st, SlotKey(e.st.gen, w));
      FreezeInv(e.st, ci, e.NextID(), elided);
      FreezeKeepsExactIff(e.st, ci, e.NextID(), elided);
    }
  }

  /** Every value begins with nothing live older than a written component. */
  ghost predicate Calm(vals: seq<Value>) {
    forall k {:trigger Before(vals, k)} :: 0 <= k < |vals| ==> Settled(Before(vals, k))
  }

  lemma CalmPrefix(vals: seq<Value>)
    requires |vals| > 0 && Calm(vals)
    ensures Calm(vals[..|vals| - 1]) && Settled(EncodeStream(vals[..|vals| - 1]).st)
  {
    hide Settled;
    hide EncodeStream;
    var prev := vals[..|vals| - 1];
    assert Settled(Before(vals, |prev|));
    forall k | 0 <= k < |prev|
      ensures Settled(Before(prev, k))
    {
      assert prev[..k] == vals[..k] && Settled(Before(vals, k));
    }
  }

  /** Cached hosts are written, so they are older than whatever is live in a settled state. */
  lemma SettledOlder(st: State)
    requires CacheSound(st) && Settled(st)
    ensures CacheOlder(st)
  {
  }

  /** Such a stream never depends on the cache: state, births and bytes are those of linear first-fit. */
  lemma {:induction false} CalmNeedsNoCache(vals: seq<Value>)
    requires Calm(vals) && forall k {:trigger vals[k]} :: 0 <= k < |vals| ==> WellFormed(vals[k])
    ensures Inv(EncodeStream(vals).st) && CacheExact(EncodeStream(vals).st)
    ensures SameButCache(EncodeStream(vals).st, LinearStream(vals).st)
            && EncodeStream(vals).born == LinearStream(vals).born
    ensures StreamBytes(vals) == LinearStreamBytes(vals)
  {
    hide WellFormed;
    hide Calm;
    hide Inv;
    hide CacheExact;
    hide Settled;
    hide ScanAll;
    hide LinearAll;
    hide EncodeSlots;
    hide SlotsBytes;
    hide CacheOlder;
    if |vals| == 0 {
      assert Inv(EMPTY) && CacheExact(EMPTY) by { NothingExact(); }
    } else {
      var prev, v := vals[..|vals| - 1], vals[|vals| - 1];
      assert forall k :: 0 <= k < |prev| ==> prev[k] == vals[k];
      CalmPrefix(vals);
      CalmNeedsNoCache(prev);
      ValueNeedsNoCache(EncodeStream(prev), LinearStream(prev), v);
    }
  }

  lemma NothingExact()
    ensures Inv(EMPTY) && CacheExact(EMPTY)
  {
  }

  lemma ValueNeedsNoCache(e: Encoder, f: Encoder, v: Value)
    requires Inv(e.st) && CacheExact(e.st) && Settled(e.st) && SameButCache(e.st, f.st) && e.born == f.born
             && WellFormed(v)
    ensures Inv(EncodeValue(e, v).st) && CacheExact(EncodeValue(e, v).st)
    ensures SameButCache(EncodeValue(e, v).st, LinearValue(f, v).st) && EncodeValue(e, v).born == LinearValue(f, v).born
    ensures ValueBytes(e, v) == LinearValueBytes(f, v)
  {
    hide CacheExact;
    hide Settled;
    hide ScanAll;
    hide LinearAll;
    hide EncodeSlots;
    hide SlotsBytes;
    hide CacheOlder;
    hide CompsOk;
    hide SlotOk;
    AllValid(v);
    SettledOlder(e.st);
    PassIsLinear(e.st, f.st, v.ws, v.mem);
    var e0, f0 := Encoder(ScanAll(e.st, v.ws, v.mem), e.born), Encoder(LinearAll(f.st, v.ws, v.mem), f.born);
    EmissionIgnoresCache(e0, f0, v.out, v.mem);
    EmissionKeepsExact(e0, v.out, v.mem);
    NextKeepsExact(EncodeSlots(e0, v.out, v.mem).st);
  }

  lemma NextKeepsExact(st: State)
    requires Inv(st) && CacheExact(st)
    ensures Inv(st.(gen := st.gen + 1)) && CacheExact(st.(gen := st.gen + 1))
  {
    var r := st.(gen := st.gen + 1);
    StepInv(st, NextValue);
    forall v
      ensures CachedOldest(r, v)
    {
      assert CachedOldest(st, v);
    }
  }

  // ---------------------------------------------------------------- streams that write what they scan

  /** Every scanned window is written and not empty. */
  ghost predicate Whole(v: Value) {
    WellFormed(v) && forall k {:trigger v.ws[k]} :: 0 <= k < |v.ws| ==> 0 < v.ws[k].cap && v.ws[k] in v.out
  }

  ghost predicate NoneLive(st: State) { forall i :: 0 <= i < |st.comps| ==> !st.comps[i].status.Live? }

  /** Live components consist of windows of the current value. */
  ghost predicate Recent(st: State, ws: seq<Window>) {
    forall i, m :: 0 <= i < |st.comps| && st.comps[i].status.Live? && m in st.comps[i].members
        ==> m.gen == st.gen && m.win in ws
  }

  lemma RecentMore(st: State, vs: seq<Window>, ws: seq<Window>)
    requires Recent(st, vs) && forall v :: v in vs ==> v in ws
    ensures Recent(st, ws)
  {
  }

  lemma JoinRecent(st: State, p: State, w: Window, into: nat, gs: seq<nat>, ws: seq<Window>)
    requires Bridged(st, p, into, gs) && Recent(st, ws) && w in ws
    ensures Recent(Extend(p, into, w), ws)
  {
    hide Extend;
    var r := Extend(p, into, w);
    ExtendIs(p, into, w, r);
    forall i: nat, m | i < |r.comps| && r.comps[i].status.Live? && m in r.comps[i].members
      ensures m.gen == r.gen && m.win in ws
    {
      if i != into {
        assert r.comps[i] == st.comps[i];
      } else if m in p.comps[into].members {
        var j: nat :| Takes(st, into, gs, j) && m in st.comps[j].members;
      }
    }
  }

  lemma ScanRecent(st: State, w: Window, mem: Memory, ws: seq<Window>)
    requires Inv(st) && w.Valid() && Recent(st, ws) && w in ws
    ensures Recent(Scan(st, w, mem), ws)
  {
    hide Inv;
    hide Representable;
    hide Mergeable;
    hide MergeAll;
    hide Scan;
    hide CacheAfter;
    hide Extend;
    hide Host;
    hide Bridged;
    hide Takes;
    var st1, o := ScanEnds(st, w, mem);
    assert Recent(st1, ws);
    match o
    case Founds =>
    case JoinsFrozen(h) =>
    case JoinsLive(into, gs) =>
      MergeBridges(st1, w, into, gs);
      MergeableTakes(st1, w, into, gs);
      JoinRecent(st1, MergeAll(st1, into, gs), w, into, gs, ws);
  }

  lemma {:induction false} PassRecent(st: State, ws: seq<Window>, mem: Memory)
    requires Inv(st) && NoneLive(st) && forall k :: 0 <= k < |ws| ==> ws[k].Valid()
    ensures Inv(ScanAll(st, ws, mem)) && Recent(ScanAll(st, ws, mem), ws)
  {
    hide Inv;
    hide Scan;
    hide Recent;
    if ws == [] {
      assert Recent(st, ws) by { NothingRecent(st, ws); }
    } else {
      var vs, w := ws[..|ws| - 1], ws[|ws| - 1];
      assert forall k :: 0 <= k < |vs| ==> vs[k] == ws[k];
      PassRecent(st, vs, mem);
      ScanInv(ScanAll(st, vs, mem), w, mem);
      RecentMore(ScanAll(st, vs, mem), vs, ws);
      ScanRecent(ScanAll(st, vs, mem), w, mem, ws);
    }
  }

  lemma NothingRecent(st: State, ws: seq<Window>)
    requires NoneLive(st)
    ensures Recent(st, ws)
  {
  }

  /** Emission only writes: what is not live stays so, and each written window's component is not live any more. */
  lemma {:induction false} EmissionWrites(e: Encoder, ws: seq<Window>, mem: Memory, i: nat)
    requires i < |e.st.comps|
    ensures var f := EncodeSlots(e, ws, mem);
            && |f.st.comps| == |e.st.comps| && f.st.slots == e.st.slots && f.st.gen == e.st.gen
            && (f.st.comps[i].status.Live? ==> e.st.comps[i].status.Live?)
            && forall w :: w in ws && Resolves(e.st, w) && GroupOf(e.st, w) == i ==> !f.st.comps[i].status.Live?
  {
    hide Dense;
    hide Region;
    if ws != [] {
      var vs := ws[..|ws| - 1];
      assert ws == vs + [ws[|ws| - 1]];
      EmissionWrites(e, vs, mem, i);
    }
  }

  /** A value that writes all it scans leaves nothing live. */
  lemma WholeLeavesNone(e: Encoder, v: Value)
    requires Inv(e.st) && Timely(e.st, e.st.gen) && NoneLive(e.st) && Whole(v)
    ensures NoneLive(EncodeValue(e, v).st)
  {
    hide EncodeSlots;
    hide ScanAll;
    hide Timely;
    hide Covered;
    hide Geometry;
    hide Apart;
    hide SlotOk;
    hide CacheSound;
    hide Host;
    AllValid(v);
    PassRecent(e.st, v.ws, v.mem);
    PassKeeps(e.st, v.ws, v.mem);
    var e0 := Encoder(ScanAll(e.st, v.ws, v.mem), e.born);
    var f := EncodeSlots(e0, v.out, v.mem);
    SameCount(e0, v.out, v.mem);
    forall i: nat | i < |f.st.comps|
      ensures !f.st.comps[i].status.Live?
    {
      EmissionWrites(e0, v.out, v.mem, i);
      if e0.st.comps[i].status.Live? {
        SomeMember(e0.st, i);
        var m := e0.st.comps[i].members[0];
        assert m in e0.st.comps[i].members;
        assert m.win in v.ws;
        var k :| 0 <= k < |v.ws| && v.ws[k] == m.win;
        assert m == SlotKey(e0.st.gen, m.win) && e0.st.slots[m] == i;
      }
    }
  }

  lemma {:induction false} SameCount(e: Encoder, ws: seq<Window>, mem: Memory)
    ensures |EncodeSlots(e, ws, mem).st.comps| == |e.st.comps|
  {
    hide Dense;
    hide Region;
    if ws != [] {
      SameCount(e, ws[..|ws| - 1], mem);
    }
  }

  lemma SomeMember(st: State, i: nat)
    requires Inv(st) && i < |st.comps| && st.comps[i].status.Live?
    ensures |st.comps[i].members| > 0
  {
    assert Hull(st.comps[i]);
  }

  /** Streams whose values write all they scan, without empty windows, are settled throughout. */
  lemma {:induction false} WholeIsCalm(vals: seq<Value>)
    requires Total(vals) < U64 && forall k {:trigger vals[k]} :: 0 <= k < |vals| ==> Whole(vals[k])
    ensures NoneLive(EncodeStream(vals).st) && Calm(vals)
  {
    hide WellFormed;
    hide EncodeStream;
    hide Inv;
    hide Timely;
    hide NoneLive;
    hide Whole;
    if |vals| == 0 {
      assert NoneLive(EncodeStream(vals).st) by { EmptyStream(vals); }
    } else {
      var prev, v := vals[..|vals| - 1], vals[|vals| - 1];
      assert forall k :: 0 <= k < |prev| ==> prev[k] == vals[k];
      TotalPrefix(vals, |prev|);
      WholeIsCalm(prev);
      WholeAre(vals);
      BeforeInv(vals, |prev|);
      WholeLeavesNone(EncodeStream(prev), v);
      EncodeStreamNext(vals);
      forall k | 0 <= k < |vals|
        ensures Settled(Before(vals, k))
      {
        if k < |prev| {
          assert prev[..k] == vals[..k] && Settled(Before(prev, k));
        } else {
          NoneLiveSettled(Before(vals, k));
        }
      }
    }
  }

  lemma EmptyStream(vals: seq<Value>)
    requires |vals| == 0
    ensures EncodeStream(vals) == Encoder(EMPTY, []) && NoneLive(EMPTY)
  {
  }

  lemma WholeAre(vals: seq<Value>)
    requires forall k {:trigger vals[k]} :: 0 <= k < |vals| ==> Whole(vals[k])
    ensures forall k {:trigger vals[k]} :: 0 <= k < |vals| ==> WellFormed(vals[k])
  {
    hide WellFormed;
  }

  lemma EncodeStreamNext(vals: seq<Value>)
    requires |vals| > 0
    ensures EncodeStream(vals) == EncodeValue(EncodeStream(vals[..|vals| - 1]), vals[|vals| - 1])
  {
    hide EncodeValue;
  }

  lemma NoneLiveSettled(st: State)
    requires NoneLive(st)
    ensures Settled(st)
  {
  }

  /** So their encoding never depends on the cache. */
  lemma WholeNeedsNoCache(vals: seq<Value>)
    requires Total(vals) < U64 && forall k {:trigger vals[k]} :: 0 <= k < |vals| ==> Whole(vals[k])
    ensures StreamBytes(vals) == LinearStreamBytes(vals)
    ensures SameButCache(EncodeStream(vals).st, LinearStream(vals).st)
            && EncodeStream(vals).born == LinearStream(vals).born
  {
    hide WellFormed;
    hide Whole;
    WholeAre(vals);
    WholeIsCalm(vals);
    CalmNeedsNoCache(vals);
  }

  // ---------------------------------------------------------------- streams as runs

  ghost predicate Reached(evs: seq<Event>, sts: seq<State>, st: State) { Run(evs, sts) && sts[|sts| - 1] == st }

  /** A run goes on, and stays settled if a slot is only scanned in a settled state. */
  lemma Goes(evs: seq<Event>, sts: seq<State>, ev: Event) returns (evs': seq<Event>, sts': seq<State>)
    requires Run(evs, sts) && Allowed(sts[|sts| - 1], ev)
    ensures Reached(evs', sts', Step(sts[|sts| - 1], ev))
    ensures SettledRun(evs, sts) && (ev.Slot? ==> Settled(sts[|sts| - 1])) ==> SettledRun(evs', sts')
  {
    hide Settled;
    hide Scan;
    hide Leads;
    assert Leads(sts[|sts| - 1], ev, Step(sts[|sts| - 1], ev)) by {
      LeadsOn(sts[|sts| - 1], ev);
    }
    evs', sts' := RunNext(evs, sts, ev, Step(sts[|sts| - 1], ev));
  }

  lemma LeadsOn(st: State, ev: Event)
    requires Allowed(st, ev)
    ensures Leads(st, ev, Step(st, ev))
  {
  }

  lemma {:induction false} PassRuns(evs: seq<Event>, sts: seq<State>, st: State, ws: seq<Window>, mem: Memory)
    returns (evs': seq<Event>, sts': seq<State>)
    requires Reached(evs, sts, st) && Inv(st) && forall k :: 0 <= k < |ws| ==> ws[k].Valid()
    ensures Reached(evs', sts', ScanAll(st, ws, mem))
            && (SettledRun(evs, sts) && Settled(st) ==> SettledRun(evs', sts'))
  {
    hide Run;
    hide SettledRun;
    hide Settled;
    hide Scan;
    hide Inv;
    if ws == [] {
      evs', sts' := evs, sts;
    } else {
      var vs, w := ws[..|ws| - 1], ws[|ws| - 1];
      assert forall k :: 0 <= k < |vs| ==> vs[k] == ws[k];
      evs', sts' := PassRuns(evs, sts, st, vs, mem);
      if Settled(st) {
        PassKeepsSettled(st, vs, mem);
      }
      evs', sts' := Goes(evs', sts', Slot(w, mem));
    }
  }

  lemma {:induction false} EmissionRuns(evs: seq<Event>, sts: seq<State>, e: Encoder, ws: seq<Window>, mem: Memory)
    returns (evs': seq<Event>, sts': seq<State>)
    requires Reached(evs, sts, e.st) && Inv(e.st)
    ensures Reached(evs', sts', EncodeSlots(e, ws, mem).st) && (SettledRun(evs, sts) ==> SettledRun(evs', sts'))
    ensures Inv(EncodeSlots(e, ws, mem).st)
  {
    hide Run;
    hide SettledRun;
    hide Inv;
    hide Dense;
    hide Region;
    if ws == [] {
      evs', sts' := evs, sts;
    } else {
      var f, w := EncodeSlots(e, ws[..|ws| - 1], mem), ws[|ws| - 1];
      evs', sts' := EmissionRuns(evs, sts, e, ws[..|ws| - 1], mem);
      if Resolves(f.st, w) && !f.st.comps[GroupOf(f.st, w)].status.Emitted? {
        var ci := GroupOf(f.st, w);
        var elided := Dense(Region(mem, f.st.comps[ci].origin, f.st.comps[ci].end));
        assert f.st.comps[ci].status.Live? by { SlotOf(f.st, w); }
        StepInv(f.st, Emission(ci, f.NextID(), elided));
        evs', sts' := Goes(evs', sts', Emission(ci, f.NextID(), elided));
      }
    }
  }

  lemma SlotOf(st: State, w: Window)
    requires Inv(st) && Resolves(st, w)
    ensures !st.comps[GroupOf(st, w)].status.Absorbed?
  {
    assert SlotOk(st, SlotKey(st.gen, w));
  }

  /** Every stream is a run of the encoder, and a calm one is a settled run. */
  lemma {:induction false} StreamRuns(vals: seq<Value>) returns (evs: seq<Event>, sts: seq<State>)
    requires forall k {:trigger vals[k]} :: 0 <= k < |vals| ==> WellFormed(vals[k])
    ensures Reached(evs, sts, EncodeStream(vals).st) && Inv(EncodeStream(vals).st)
            && (Calm(vals) ==> SettledRun(evs, sts))
  {
    hide WellFormed;
    hide Calm;
    hide Inv;
    hide ScanAll;
    hide EncodeSlots;
    hide Settled;
    if |vals| == 0 {
      evs, sts := [], [EMPTY];
      NothingExact();
    } else {
      hide Run;
      hide SettledRun;
      var prev, v := vals[..|vals| - 1], vals[|vals| - 1];
      assert forall k :: 0 <= k < |prev| ==> prev[k] == vals[k];
      evs, sts := StreamRuns(prev);
      if Calm(vals) {
        CalmPrefix(vals);
      }
      var e := EncodeStream(prev);
      AllValid(v);
      evs, sts := PassRuns(evs, sts, e.st, v.ws, v.mem);
      PassInv(e.st, v.ws, v.mem);
      evs, sts := EmissionRuns(evs, sts, Encoder(ScanAll(e.st, v.ws, v.mem), e.born), v.out, v.mem);
      StepInv(sts[|sts| - 1], NextValue);
      evs, sts := Goes(evs, sts, NextValue);
    }
  }

  lemma {:induction false} PassInv(st: State, ws: seq<Window>, mem: Memory)
    requires Inv(st) && forall k :: 0 <= k < |ws| ==> ws[k].Valid()
    ensures Inv(ScanAll(st, ws, mem))
  {
    hide Inv;
    hide Scan;
    if ws != [] {
      var vs := ws[..|ws| - 1];
      assert forall k :: 0 <= k < |vs| ==> vs[k] == ws[k];
      PassInv(st, vs, mem);
      ScanInv(ScanAll(st, vs, mem), ws[|ws| - 1], mem);
    }
  }

  // ---------------------------------------------------------------- a stream that does depend on it

  /** `a` is scanned and not written; the next value grows its component over the record of `b`. */
  ghost function Unwritten(a: Window, b: Window, wide: Window, mem: Memory): seq<Value> {
    [Value([a, b], [b], mem), Value([wide, b], [wide], mem)]
  }

  lemma DenseOfZeros(mem: Memory, lo: nat, hi: nat)
    requires forall x :: mem(x) == 0
    ensures Dense(Region(mem, lo, hi)) == 0
  {
  }

  lemma WritesOne(e: Encoder, w: Window, mem: Memory, ci: nat)
    requires Stands(e.st, w, ci) && ci < |e.st.comps| && e.st.comps[ci].status.Live? && forall x :: mem(x) == 0
    ensures EncodeSlots(e, [w], mem).st == Freeze(e.st, ci, |e.born|, 0)
            && |EncodeSlots(e, [w], mem).born| == |e.born| + 1
  {
    hide Dense;
    hide Region;
    DenseOfZeros(mem, e.st.comps[ci].origin, e.st.comps[ci].end);
    assert [w][..0] == [];
    assert EncodeSlots(e, [], mem) == e && EncodeSlots(e, [w], mem) == EncodeSlot(e, w, mem);
  }

  lemma ScansTwo(st: State, w: Window, v: Window, mem: Memory)
    ensures ScanAll(st, [w, v], mem) == Scan(Scan(st, w, mem), v, mem)
  {
    hide Scan;
    assert [w, v][..1] == [w] && [w][..0] == [];
    assert ScanAll(st, [], mem) == st && ScanAll(st, [w], mem) == Scan(st, w, mem);
  }

  lemma EmitsTwo(e: Encoder, w: Window, v: Window, mem: Memory)
    ensures EncodeSlots(e, [w, v], mem) == EncodeSlot(EncodeSlot(e, w, mem), v, mem)
  {
    hide EncodeSlot;
    assert [w, v][..1] == [w] && [w][..0] == [];
    assert EncodeSlots(e, [], mem) == e && EncodeSlots(e, [w], mem) == EncodeSlot(e, w, mem);
  }

  /** After the first value. */
  lemma UnwrittenFirst(a: Window, b: Window, wide: Window, mem: Memory)
    requires Spread(a, b, wide) && forall x :: mem(x) == 0
    ensures var e := EncodeValue(Encoder(EMPTY, []), Value([a, b], [b], mem));
            Two(e.st, Founded(a), Frozen(Founded(b), 0), map[], 1) && |e.born| == 1
  {
    hide Scan;
    hide EncodeSlots;
    ScansTwo(EMPTY, a, b, mem);
    FoundTwo(a, b, wide, mem);
    WritesOne(Encoder(ScanAll(EMPTY, [a, b], mem), []), b, mem, 1);
  }

  /** A window that is not cached is scanned as first-fit scans it. */
  lemma UncachedIsLinear(s: State, l: State, w: Window, mem: Memory)
    requires w !in s.cache && SameButCache(s, l)
    ensures SameButCache(Scan(s, w, mem), LinearScan(l, w, mem))
  {
    JoinCache(s, w, Candidates(s.comps, w, Host(s, w, mem), |s.comps|), CacheAfter(s, w, mem));
    LinearIgnoresCache(s, l, w, mem);
  }

  lemma LinearTwo(st: State, w: Window, v: Window, mem: Memory)
    ensures LinearAll(st, [w], mem) == LinearScan(st, w, mem)
    ensures LinearAll(st, [w, v], mem) == LinearScan(LinearScan(st, w, mem), v, mem)
  {
    hide LinearScan;
    assert [w, v][..1] == [w] && [w][..0] == [];
    assert LinearAll(st, [], mem) == st && LinearAll(st, [w], mem) == LinearScan(st, w, mem);
  }

  /** A value of two windows that finds no cached host is encoded as without a cache. */
  lemma ValueAlike(e: Encoder, f: Encoder, w: Window, v: Window, out: seq<Window>, mem: Memory)
    requires SameButCache(e.st, f.st) && e.born == f.born && e.st.cache == map[] == Scan(e.st, w, mem).cache
    ensures var x := Value([w, v], out, mem);
            && ValueBytes(e, x) == LinearValueBytes(f, x) && EncodeValue(e, x).born == LinearValue(f, x).born
            && SameButCache(EncodeValue(e, x).st, LinearValue(f, x).st)
  {
    hide Scan;
    hide LinearScan;
    hide ScanAll;
    hide LinearAll;
    hide EncodeSlots;
    hide SlotsBytes;
    ScansTwo(e.st, w, v, mem);
    LinearTwo(f.st, w, v, mem);
    UncachedIsLinear(e.st, f.st, w, mem);
    UncachedIsLinear(Scan(e.st, w, mem), LinearScan(f.st, w, mem), v, mem);
    EmissionIgnoresCache(Encoder(ScanAll(e.st, [w, v], mem), e.born), Encoder(LinearAll(f.st, [w, v], mem), f.born),
                         out, mem);
  }

  /** One more value. */
  lemma BothNext(prev: seq<Value>, v: Value)
    ensures EncodeStream(prev + [v]) == EncodeValue(EncodeStream(prev), v)
            && LinearStream(prev + [v]) == LinearValue(LinearStream(prev), v)
    ensures StreamBytes(prev + [v]) == StreamBytes(prev) + ValueBytes(EncodeStream(prev), v)
    ensures LinearStreamBytes(prev + [v]) == LinearStreamBytes(prev) + LinearValueBytes(LinearStream(prev), v)
  {
    hide EncodeValue;
    hide LinearValue;
    hide ValueBytes;
    hide LinearValueBytes;
    assert (prev + [v])[..|prev|] == prev;
  }

  /** The record of `wide` is frozen over that of `b`, under the next id. */
  ghost predicate Overlaid(st: State, b: Window) {
    && |st.comps| == 2 && st.comps[0].status == Emitted(1, 0) && st.comps[1] == Frozen(Founded(b), 0)
    && Contains(st.comps[0], b) && Contains(st.comps[1], b) && st.cache == map[b := 1]
  }

  lemma UnwrittenAlike(a: Window, b: Window, wide: Window, mem: Memory)
    requires Spread(a, b, wide) && forall x :: mem(x) == 0
    ensures var vals := Unwritten(a, b, wide, mem);
            && StreamBytes(vals) == LinearStreamBytes(vals) && Overlaid(EncodeStream(vals).st, b)
            && SameButCache(EncodeStream(vals).st, LinearStream(vals).st)
  {
    hide Scan;
    hide LinearScan;
    hide EncodeSlots;
    hide Contains;
    hide ValueBytes;
    hide LinearValueBytes;
    hide EncodeStream;
    hide StreamBytes;
    hide LinearStream;
    hide LinearStreamBytes;
    var v1, v2 := Value([a, b], [b], mem), Value([wide, b], [wide], mem);
    NoValues();
    assert [] + [v1] == [v1] && [v1] + [v2] == Unwritten(a, b, wide, mem);
    BothNext([], v1);
    FoundTwo(a, b, wide, mem);
    ValueAlike(Encoder(EMPTY, []), Encoder(EMPTY, []), a, b, [b], mem);
    UnwrittenFirst(a, b, wide, mem);
    var e, f := EncodeStream([v1]), LinearStream([v1]);
    var s5, s6 := FreezeOlder(a, b, wide, mem, e.st);
    BothNext([v1], v2);
    ValueAlike(e, f, wide, b, [wide], mem);
    ScansTwo(e.st, wide, b, mem);
    WritesOne(Encoder(s6, e.born), wide, mem, 0);
  }

  lemma NoValues()
    ensures EncodeStream([]) == Encoder(EMPTY, []) == LinearStream([]) && StreamBytes([]) == [] == LinearStreamBytes([])
  {
  }

  /** A value of one written window over frozen components is one view. */
  lemma OneView(st: State, b: Window, mem: Memory, ci: nat, born: seq<Birth>, id: nat)
    requires Stands(st, b, ci) && ci < |st.comps| && st.comps[ci].status.Emitted? && st.comps[ci].status.id == id
    requires id < INLINE_MAX
    ensures var bytes := SlotsBytes(Encoder(st, born), [b], mem); |bytes| > 1 && bytes[1] == id
  {
    hide Dense;
    hide Region;
    hide ViewBytes;
    hide RecordBytes;
    hide SlotsBytes;
    var e, c := Encoder(st, born), st.comps[ci];
    OneSlot(e, b, mem);
    ViewIDAt(ViewOf(c, id, b), Low(c.Length()));
  }

  lemma OneSlot(e: Encoder, w: Window, mem: Memory)
    ensures SlotsBytes(e, [w], mem) == SlotBytes(e, w, mem)
  {
    hide SlotBytes;
    assert [w][..0] == [];
    assert SlotsBytes(e, [], mem) == [] && EncodeSlots(e, [], mem) == e;
  }

  /** A small id is the second byte of a view. */
  lemma ViewIDAt(v: View, length: u64)
    requires v.id < INLINE_MAX
    ensures |ViewBytes(v, length)| > 1 && ViewBytes(v, length)[1] == v.id
  {
    hide ViewBytes;
    hide GeometryTail;
    ViewShape(v, length);
  }

  /**
    The cache then hosts `b` in the younger record, where first-fit takes the older: a third value that writes `b`
    refers to another record, so the bytes of the stream differ from those of the encoder without a cache.
   */
  lemma CacheShows(a: Window, b: Window, wide: Window, mem: Memory)
    requires Spread(a, b, wide) && forall x :: mem(x) == 0
    ensures var vals := Unwritten(a, b, wide, mem);
            && Stands(Scan(EncodeStream(vals).st, b, mem), b, 1)
            && Stands(LinearScan(EncodeStream(vals).st, b, mem), b, 0)
            && StreamBytes(vals) == LinearStreamBytes(vals)
            && StreamBytes(vals + [Value([b], [b], mem)]) != LinearStreamBytes(vals + [Value([b], [b], mem)])
  {
    hide Scan;
    hide LinearScan;
    hide EncodeStream;
    hide StreamBytes;
    hide LinearStream;
    hide LinearStreamBytes;
    hide Contains;
    hide SlotsBytes;
    hide EncodeValue;
    hide LinearValue;
    var vals, v := Unwritten(a, b, wide, mem), Value([b], [b], mem);
    UnwrittenAlike(a, b, wide, mem);
    var e, f := EncodeStream(vals), LinearStream(vals);
    CachedYounger(b, mem, e.st);
    LinearIgnoresCache(e.st, f.st, b, mem);
    BothNext(vals, v);
    ScansOne(e.st, b, mem);
    LinearTwo(f.st, b, b, mem);
    OneView(Scan(e.st, b, mem), b, mem, 1, e.born, 0);
    OneView(LinearScan(f.st, b, mem), b, mem, 0, f.born, 1);
    var n := |StreamBytes(vals)|;
    assert StreamBytes(vals + [v])[n + 1] == 0 && LinearStreamBytes(vals + [v])[n + 1] == 1;
  }

  /** Such streams are sent for all windows of 64-bit addresses. */
  lemma CacheShowsSent(a: Window, b: Window, wide: Window, mem: Memory)
    requires Spread(a, b, wide) && wide.Send() < U64 && forall x :: mem(x) == 0
    ensures var vals := Unwritten(a, b, wide, mem) + [Value([b], [b], mem)]; Sent(StreamBytes(vals), 0, vals)
  {
    hide StreamBytes;
    var v1, v2, v3 := Value([a, b], [b], mem), Value([wide, b], [wide], mem), Value([b], [b], mem);
    var vals := [v1, v2, v3];
    assert vals == Unwritten(a, b, wide, mem) + [v3];
    assert vals[..2] == [v1, v2] && [v1, v2][..1] == [v1] && [v1][..0] == [];
    assert Total([]) == 0 && Total([v1]) == 1 && Total([v1, v2]) == 2 && Total(vals) == 3;
  }

  lemma ScansOne(st: State, w: Window, mem: Memory)
    ensures ScanAll(st, [w], mem) == Scan(st, w, mem)
  {
    hide Scan;
    assert [w][..0] == [];
    assert ScanAll(st, [], mem) == st;
  }
}

/**
  Empty windows. They join a live component only strictly inside its span, so two scans of one empty window
  found two components, unless something already takes it (codec_encode.go:2074-2076, 2154-2187).
 */
module EmptyWindows {
  import opened Bytes
  import opened Grouping
  import opened GroupingRuns
  import opened Components
  import opened HostCache
  import opened Records
  import opened Streams
  import opened Homes
  import opened Caching

  /** Strictly inside a live component. */
  ghost predicate Inside(c: Comp, w: Window) { c.status.Live? && c.origin < w.ptr < c.end }

  /** Some component takes the empty window: a live one strictly around it, or a written one that contains it. */
  ghost predicate Taken(st: State, w: Window) {
    exists i: nat :: i < |st.comps| && (Inside(st.comps[i], w) || Contains(st.comps[i], w))
  }

  lemma EmptyJoins(c: Comp, w: Window, mem: Memory)
    requires w.Valid() && w.cap == 0
    ensures Joins(c, w) <==> Inside(c, w)
    ensures Representable(c, w, mem) <==> Contains(c, w)
  {
  }

  lemma EmptyHost(st: State, w: Window, mem: Memory)
    requires CacheSound(st) && w.Valid() && w.cap == 0
    ensures Host(st, w, mem).None? <==> forall i: nat :: i < |st.comps| ==> !Contains(st.comps[i], w)
  {
    hide Representable;
    hide Contains;
    forall i: nat | i < |st.comps|
      ensures Representable(st.comps[i], w, mem) <==> Contains(st.comps[i], w)
    {
      EmptyJoins(st.comps[i], w, mem);
    }
  }

  /** An empty window founds a component exactly when nothing takes it. */
  lemma EmptyFoundsIff(st: State, w: Window, mem: Memory)
    requires Inv(st) && w.Valid() && w.cap == 0
    ensures var r := Scan(st, w, mem);
            && Resolves(r, w)
            && (Taken(st, w) ==> |r.comps| == |st.comps|)
            && (!Taken(st, w) ==> r == Create(st.(cache := CacheAfter(st, w, mem)), w) && GroupOf(r, w) == |st.comps|)
            && (Taken(st, w) ==> Inside(st.comps[GroupOf(r, w)], w) || Contains(st.comps[GroupOf(r, w)], w))
  {
    hide Scan;
    hide Inv;
    hide Host;
    hide Joins;
    hide Contains;
    hide Inside;
    hide Representable;
    hide CacheAfter;
    hide Mergeable;
    hide MergeAll;
    hide Takes;
    hide Bridged;
    var st1, o := ScanEnds(st, w, mem);
    CacheOk(st);
    EmptyHost(st, w, mem);
    forall i: nat | i < |st.comps|
      ensures Joins(st.comps[i], w) <==> Inside(st.comps[i], w)
      ensures Representable(st.comps[i], w, mem) <==> Contains(st.comps[i], w)
    {
      EmptyJoins(st.comps[i], w, mem);
    }
    match o
    case Founds =>
    case JoinsFrozen(h) =>
    case JoinsLive(into, gs) =>
      MergeBridges(st1, w, into, gs);
      MergeableTakes(st1, w, into, gs);
      TakenLive(st1, MergeAll(st1, into, gs), into, gs);
      ExtendIs(MergeAll(st1, into, gs), into, w, Scan(st, w, mem));
  }

  lemma CacheOk(st: State)
    requires Inv(st)
    ensures CacheSound(st)
  {
  }

  /** The component a live join ends up in still takes the window. */
  lemma JoinedAgain(st: State, w: Window, into: nat, gs: seq<nat>, r: State)
    requires Mergeable(st, into, gs, w) && r == Extend(MergeAll(st, into, gs), into, w) && w.cap == 0
    ensures |r.comps| == |st.comps| && Joins(r.comps[into], w) && r.slots[SlotKey(r.gen, w)] == into && r.gen == st.gen
    ensures forall i: nat :: i < |r.comps| && i != into && Joins(r.comps[i], w) ==> Joins(st.comps[i], w)
  {
    MergeAllFacts(st, into, gs, w);
    assert Merged(st, MergeAll(st, into, gs), into, gs, w);
  }

  /** Two scans of one empty window resolve to one component exactly when something took it before them. */
  lemma EmptyTwice(st: State, w: Window, mem: Memory)
    requires Inv(st) && w.Valid() && w.cap == 0
    ensures var r := Scan(st, w, mem);
            && Inv(r) && Resolves(r, w) && Resolves(Scan(r, w, mem), w)
            && (GroupOf(Scan(r, w, mem), w) == GroupOf(r, w) <==> Taken(st, w))
  {
    hide Scan;
    hide Inv;
    hide Contains;
    hide Inside;
    hide Joins;
    hide CacheAfter;
    hide Create;
    hide Taken;
    var r := Scan(st, w, mem);
    ScanInv(st, w, mem);
    EmptyFoundsIff(st, w, mem);
    EmptyFoundsIff(r, w, mem);
    if Taken(st, w) {
      TakenAgain(st, w, mem);
    } else {
      FoundedNotTaken(st.(cache := CacheAfter(st, w, mem)), st, w);
    }
  }

  lemma FoundedNotTaken(st1: State, st: State, w: Window)
    requires st1.comps == st.comps && w.cap == 0 && !Taken(st, w)
    ensures !Taken(Create(st1, w), w) && |Create(st1, w).comps| == |st.comps| + 1
  {
    var r := Create(st1, w);
    forall i: nat | i < |r.comps|
      ensures !Inside(r.comps[i], w) && !Contains(r.comps[i], w)
    {
      if i < |st.comps| {
        assert r.comps[i] == st.comps[i];
      }
    }
  }

  lemma TakenAgain(st: State, w: Window, mem: Memory)
    requires Inv(st) && w.Valid() && w.cap == 0 && Taken(st, w)
    ensures var r := Scan(st, w, mem);
            Resolves(r, w) && Resolves(Scan(r, w, mem), w) && GroupOf(Scan(r, w, mem), w) == GroupOf(r, w)
  {
    hide Scan;
    hide Inv;
    hide Contains;
    hide Inside;
    hide Joins;
    hide Representable;
    hide CacheAfter;
    hide Mergeable;
    hide MergeAll;
    hide Takes;
    hide Extend;
    hide Host;
    var r := Scan(st, w, mem);
    ScanInv(st, w, mem);
    EmptyFoundsIff(st, w, mem);
    EmptyFoundsIff(r, w, mem);
    HostStable(st, w, mem, w);
    var st1, o := ScanEnds(st, w, mem);
    var r1, q := ScanEnds(r, w, mem);
    if o.JoinsLive? {
      MergeableTakes(st1, w, o.into, o.gs);
      JoinedAgain(st1, w, o.into, o.gs, r);
    }
    if q.JoinsLive? {
      MergeableTakes(r1, w, q.into, q.gs);
      JoinedAgain(r1, w, q.into, q.gs, Scan(r, w, mem));
    }
  }

  /**
    One empty window at two positions of a stream's first value: the first scan's component stays live, is older
    than the written one, and no slot resolves to it.
   */
  lemma EmptyOrphan(p: nat, mem: Memory)
    ensures var w := Window(p, 0, 0);
            var st := EncodeStream([Value([w, w], [w, w], mem)]).st;
            && |st.comps| == 2 && st.comps[0].status.Live? && st.comps[1].status.Emitted? && !Settled(st)
            && forall key :: key in st.slots ==> st.slots[key] == 1
  {
    hide ScanAll;
    hide EncodeSlots;
    var w := Window(p, 0, 0);
    var v := Value([w, w], [w, w], mem);
    EmptyScans(w, mem);
    EmptyWritten(Encoder(ScanAll(EMPTY, [w, w], mem), []), w, mem);
    assert [v][..0] == [] && EncodeStream([]) == Encoder(EMPTY, []);
    var st := EncodeStream([v]).st;
    assert st.comps[1].status.Emitted? && st.comps[0].status.Live?;
  }

  /** Two scans of an empty window, from nothing. */
  lemma EmptyScans(w: Window, mem: Memory)
    requires w.Valid() && w.cap == 0
    ensures var s := ScanAll(EMPTY, [w, w], mem);
            && |s.comps| == 2 && s.comps[0].status.Live? && s.comps[1].status.Live? && s.gen == 0
            && s.slots == map[SlotKey(0, w) := 1]
  {
    hide Scan;
    hide CacheAfter;
    var s1 := Scan(EMPTY, w, mem);
    ScansTwo(EMPTY, w, w, mem);
    EmptyInv(w);
    ScanInv(EMPTY, w, mem);
    EmptyFoundsIff(EMPTY, w, mem);
    EmptyFoundsIff(s1, w, mem);
    FoundedNotTaken(EMPTY.(cache := CacheAfter(EMPTY, w, mem)), EMPTY, w);
  }

  /** Both positions are written from the second component. */
  lemma EmptyWritten(e: Encoder, w: Window, mem: Memory)
    requires |e.st.comps| == 2 && e.st.comps[0].status.Live? && e.st.comps[1].status.Live? && e.st.gen == 0
    requires e.st.slots == map[SlotKey(0, w) := 1]
    ensures var f := EncodeSlots(e, [w, w], mem).st;
            |f.comps| == 2 && f.comps[0].status.Live? && f.comps[1].status.Emitted? && f.slots == e.st.slots
  {
    hide Dense;
    hide Region;
    EmitsTwo(e, w, w, mem);
  }

  lemma EmptyInv(w: Window)
    ensures Inv(EMPTY) && !Taken(EMPTY, w)
  {
  }
}
