/**
  Runs of the encoder, and when the host cache may stand in for the full search
  over emitted components (codec_encode.go:990-1000, 2110-2153).
 */
module HostCache {
  import opened Grouping
  import opened GroupingRuns

  /** What may happen to one class during a stream of values. */
  datatype Event =
    | Slot(win: Window, mem: Memory)
    | Emission(ci: nat, id: nat, elided: nat)
    | NextValue

  /** Windows are well formed, and only a live component is written. */
  ghost predicate Allowed(st: State, ev: Event) {
    match ev
    case Slot(w, _) => w.Valid()
    case Emission(ci, _, _) => ci < |st.comps| && st.comps[ci].status.Live?
    case NextValue => true
  }

  ghost function Step(st: State, ev: Event): State
    requires Allowed(st, ev)
  {
    match ev
    case Slot(w, mem) => Scan(st, w, mem)
    case Emission(ci, id, elided) => Freeze(st, ci, id, elided)
    case NextValue => st.(gen := st.gen + 1)
  }

  ghost predicate Leads(pre: State, ev: Event, st: State) { Allowed(pre, ev) && st == Step(pre, ev) }

  /** The states `sts` are visited by the events `evs`, starting from nothing. */
  ghost predicate Run(evs: seq<Event>, sts: seq<State>) {
    && |sts| == |evs| + 1 && sts[0] == EMPTY
    && forall i, j :: 0 <= i < |evs| && j == i + 1 ==> Leads(sts[i], evs[i], sts[j])
  }

  lemma StepInv(st: State, ev: Event)
    requires Inv(st) && Allowed(st, ev)
    ensures Inv(Step(st, ev))
  {
    match ev
    case Slot(w, mem) => ScanInv(st, w, mem);
    case Emission(ci, id, elided) => FreezeInv(st, ci, id, elided);
    case NextValue =>
      var r := Step(st, ev);
      forall key | key in r.slots
        ensures SlotOk(r, key)
      {
        assert SlotOk(st, key);
      }
  }

  /** Every state of every run satisfies the invariant. */
  lemma {:induction false} RunInv(evs: seq<Event>, sts: seq<State>, i: nat)
    requires Run(evs, sts) && i < |sts|
    ensures Inv(sts[i])
  {
    if i > 0 {
      RunInv(evs, sts, i - 1);
      assert Leads(sts[i - 1], evs[i - 1], sts[i]);
      StepInv(sts[i - 1], evs[i - 1]);
    }
  }

  // ---------------------------------------------------------------- what stays frozen

  ghost predicate FrozenSame(c: Comp, d: Comp) { c.status.Emitted? ==> d == c }

  /** A scan changes no emitted component and emits none. */
  lemma ScanFrozen(st: State, w: Window, mem: Memory, i: nat)
    requires Inv(st) && w.Valid() && i < |Scan(st, w, mem).comps|
    ensures |st.comps| <= |Scan(st, w, mem).comps|
    ensures i < |st.comps| ==> FrozenSame(st.comps[i], Scan(st, w, mem).comps[i])
    ensures Scan(st, w, mem).comps[i].status.Emitted? ==> i < |st.comps| && st.comps[i].status.Emitted?
    ensures Scan(st, w, mem).comps[i].status.Live? ==> i == |st.comps| || (i < |st.comps| && st.comps[i].status.Live?)
  {
    hide Covered;
    hide Geometry;
    hide Apart;
    hide SlotOk;
    hide CacheAfter;
    hide CoveredAt;
    hide Hull;
    hide MergedSpan;
    hide MergedMembers;
    hide MergedSlots;
    hide MergeAll;
    var host := Host(st, w, mem);
    var st1 := st.(cache := CacheAfter(st, w, mem));
    var cs := Candidates(st.comps, w, host, |st.comps|);
    if cs != [] {
      if st.comps[cs[0]].status.Emitted? {
        MergeAllFrozen(st1, cs[0], cs[1..]);
      } else {
        CandidatesMergeable(st1, w, host);
        MergeAllFacts(st1, cs[0], cs[1..], w);
      }
    }
  }

  // ---------------------------------------------------------------- the cache against first-fit

  /** The cached host of `w` is the oldest emitted component that contains it. */
  ghost predicate CachedOldest(st: State, w: Window) {
    w in st.cache ==> FirstContaining(st.comps, w, 0) == Some(st.cache[w])
  }

  ghost predicate CacheExact(st: State) {
    forall w {:trigger CachedOldest(st, w)} :: CachedOldest(st, w)
  }

  lemma FirstContainingIs(comps: seq<Comp>, w: Window, i: nat)
    requires i < |comps| && Contains(comps[i], w) && forall j: nat :: j < i ==> !Contains(comps[j], w)
    ensures FirstContaining(comps, w, 0) == Some(i)
  {
  }

  lemma FirstRepresentableIs(comps: seq<Comp>, w: Window, mem: Memory, i: nat)
    requires i < |comps| && Representable(comps[i], w, mem)
             && forall j: nat :: j < i ==> !Representable(comps[j], w, mem)
    ensures FirstRepresentable(comps, w, mem, 0) == Some(i)
  {
  }

  /** With the oldest containing component cached, the cache and the full search agree for every memory. */
  lemma HostIsFirstFit(st: State, w: Window, mem: Memory)
    requires CacheSound(st) && CachedOldest(st, w)
    ensures Host(st, w, mem) == FirstRepresentable(st.comps, w, mem, 0)
  {
    if w in st.cache && Representable(st.comps[st.cache[w]], w, mem) {
      FirstRepresentableIs(st.comps, w, mem, st.cache[w]);
    }
  }

  /** Exactly then: any other cached host is returned wrongly for some contents of memory. */
  lemma HostIsFirstFitIff(st: State, w: Window)
    requires CacheSound(st)
    ensures CachedOldest(st, w) <==> forall mem: Memory :: Host(st, w, mem) == FirstRepresentable(st.comps, w, mem, 0)
  {
    if CachedOldest(st, w) {
      forall mem: Memory
        ensures Host(st, w, mem) == FirstRepresentable(st.comps, w, mem, 0)
      {
        HostIsFirstFit(st, w, mem);
      }
    } else {
      var zero: Memory := _ => 0;
      var j := FirstContaining(st.comps, w, 0).value;
      assert Representable(st.comps[st.cache[w]], w, zero) && Representable(st.comps[j], w, zero);
      FirstRepresentableIs(st.comps, w, zero, j);
      assert Host(st, w, zero) != FirstRepresentable(st.comps, w, zero, 0);
    }
  }

  /** Whenever the cached host is the oldest, the encoder's scan is the linear one, up to the cache itself. */
  lemma ScanIsLinear(st: State, w: Window, mem: Memory)
    requires Inv(st) && w.Valid() && CachedOldest(st, w)
    ensures Scan(st, w, mem).comps == LinearScan(st, w, mem).comps
    ensures Scan(st, w, mem).slots == LinearScan(st, w, mem).slots
  {
    HostIsFirstFit(st, w, mem);
    JoinCache(st, w, Candidates(st.comps, w, Host(st, w, mem), |st.comps|), CacheAfter(st, w, mem));
  }

  lemma JoinCache(st: State, w: Window, cands: seq<nat>, cache: map<Window, nat>)
    requires forall k :: 0 <= k < |cands| ==> cands[k] < |st.comps|
    ensures Join(st.(cache := cache), w, cands) == Join(st, w, cands).(cache := cache)
  {
    if cands != [] {
      MergeAllCache(st, cands[0], cands[1..], cache);
    }
  }

  /** Merging neither reads nor writes the cache. */
  lemma {:induction false} MergeAllCache(st: State, into: nat, gs: seq<nat>, cache: map<Window, nat>)
    requires into < |st.comps| && forall k :: 0 <= k < |gs| ==> gs[k] < |st.comps|
    ensures MergeAll(st.(cache := cache), into, gs) == MergeAll(st, into, gs).(cache := cache)
  {
    if gs != [] {
      MergeAllCache(st, into, gs[..|gs| - 1], cache);
    }
  }

  lemma ScanCache(st: State, w: Window, mem: Memory)
    requires Inv(st) && w.Valid()
    ensures Scan(st, w, mem).cache == CacheAfter(st, w, mem)
  {
  }

  /** Containment of a window in emitted components is not affected by a scan. */
  lemma ScanContaining(st: State, w: Window, mem: Memory, v: Window)
    requires Inv(st) && w.Valid()
    ensures FirstContaining(Scan(st, w, mem).comps, v, 0) == FirstContaining(st.comps, v, 0)
  {
    var r := Scan(st, w, mem);
    forall i: nat | i < |r.comps|
      ensures Contains(r.comps[i], v) <==> i < |st.comps| && Contains(st.comps[i], v)
    {
      ScanFrozen(st, w, mem, i);
    }
    ScanGrows(st, w, mem);
    match FirstContaining(st.comps, v, 0)
    case Some(i) => FirstContainingIs(r.comps, v, i);
    case None =>
  }

  lemma ScanGrows(st: State, w: Window, mem: Memory)
    requires Inv(st) && w.Valid()
    ensures |st.comps| <= |Scan(st, w, mem).comps|
  {
    if |Scan(st, w, mem).comps| > 0 {
      ScanFrozen(st, w, mem, 0);
    }
  }

  /** A scan never makes the cache inexact. */
  lemma ScanKeepsExact(st: State, w: Window, mem: Memory)
    requires Inv(st) && w.Valid() && CacheExact(st)
    ensures CacheExact(Scan(st, w, mem))
  {
    var r := Scan(st, w, mem);
    ScanCache(st, w, mem);
    forall v
      ensures CachedOldest(r, v)
    {
      assert CachedOldest(st, v);
      ScanContaining(st, w, mem, v);
    }
  }

  /** No cached window lies in the span about to be frozen unless its host is older. */
  ghost predicate HostsOlder(st: State, ci: nat)
    requires ci < |st.comps|
  {
    forall w :: w in st.cache && st.comps[ci].origin <= w.ptr && w.Send() <= st.comps[ci].end ==> st.cache[w] < ci
  }

  lemma FreezeContaining(st: State, ci: nat, id: nat, elided: nat, v: Window)
    requires ci < |st.comps| && st.comps[ci].status.Live?
    ensures var r := Freeze(st, ci, id, elided);
            forall i: nat :: i < |r.comps|
                ==> (Contains(r.comps[i], v) <==> Contains(st.comps[i], v) || (i == ci && Holds(st.comps[ci], v)))
  {
  }

  /** An emission keeps the cache exact exactly when every cached window it covers has an older host. */
  lemma FreezeKeepsExactIff(st: State, ci: nat, id: nat, elided: nat)
    requires CacheSound(st) && CacheExact(st) && ci < |st.comps| && st.comps[ci].status.Live?
    ensures CacheExact(Freeze(st, ci, id, elided)) <==> HostsOlder(st, ci)
  {
    var r := Freeze(st, ci, id, elided);
    if HostsOlder(st, ci) {
      forall v
        ensures CachedOldest(r, v)
      {
        assert CachedOldest(st, v);
        FreezeContaining(st, ci, id, elided, v);
        if v in r.cache {
          FirstContainingIs(r.comps, v, st.cache[v]);
        }
      }
    } else {
      var v :| v in st.cache && Holds(st.comps[ci], v) && ci <= st.cache[v];
      assert CachedOldest(st, v);
      FreezeContaining(st, ci, id, elided, v);
      assert !CachedOldest(r, v);
    }
  }

  // ---------------------------------------------------------------- whole runs

  /** Every live component is younger than every emitted one. */
  ghost predicate Settled(st: State) {
    forall i, j :: 0 <= i < |st.comps| && 0 <= j < |st.comps| && st.comps[i].status.Emitted? && st.comps[j].status.Live?
      ==> i < j
  }

  /** A run in which no slot is scanned while a live component is older than an emitted one. */
  ghost predicate SettledRun(evs: seq<Event>, sts: seq<State>) {
    Run(evs, sts) && forall i :: 0 <= i < |evs| && evs[i].Slot? ==> Settled(sts[i])
  }

  /** Every cached host is older than every live component. */
  ghost predicate CacheOlder(st: State) {
    forall w, i :: w in st.cache && 0 <= i < |st.comps| && st.comps[i].status.Live? ==> st.cache[w] < i
  }

  lemma ScanKeepsOlder(st: State, w: Window, mem: Memory)
    requires Inv(st) && w.Valid() && CacheOlder(st) && Settled(st)
    ensures CacheOlder(Scan(st, w, mem))
  {
    var r := Scan(st, w, mem);
    ScanCache(st, w, mem);
    ScanInv(st, w, mem);
    forall v, i | v in r.cache && 0 <= i < |r.comps| && r.comps[i].status.Live?
      ensures r.cache[v] < i
    {
      ScanFrozen(st, w, mem, i);
      ScanFrozen(st, w, mem, r.cache[v]);
    }
  }

  lemma {:induction false} SettledRunExact(evs: seq<Event>, sts: seq<State>, i: nat)
    requires SettledRun(evs, sts) && i < |sts|
    ensures Inv(sts[i]) && CacheExact(sts[i]) && CacheOlder(sts[i])
  {
    if i > 0 {
      hide Inv;
      hide CacheExact;
      hide CacheOlder;
      hide Allowed;
      hide Step;
      hide Settled;
      SettledRunExact(evs, sts, i - 1);
      assert Leads(sts[i - 1], evs[i - 1], sts[i]);
      StepKeepsExact(sts[i - 1], evs[i - 1]);
    }
  }

  /** One step of a settled run. */
  lemma StepKeepsExact(pre: State, ev: Event)
    requires Inv(pre) && CacheExact(pre) && CacheOlder(pre) && Allowed(pre, ev) && (ev.Slot? ==> Settled(pre))
    ensures Inv(Step(pre, ev)) && CacheExact(Step(pre, ev)) && CacheOlder(Step(pre, ev))
  {
    hide CompsOk;
    hide SlotOk;
    var st := Step(pre, ev);
    StepInv(pre, ev);
    match ev {
      case Slot(w, mem) =>
        hide CacheExact;
        hide CacheOlder;
        hide Scan;
        ScanKeepsExact(pre, w, mem);
        ScanKeepsOlder(pre, w, mem);
      case Emission(ci, id, elided) =>
        FreezeKeepsExactIff(pre, ci, id, elided);
      case NextValue =>
        forall v
          ensures CachedOldest(st, v)
        {
          assert CachedOldest(pre, v);
        }
    }
  }

  /** In such a run every scan, cached or not, has the outcome of the linear first-fit. */
  lemma SettledRunIsLinear(evs: seq<Event>, sts: seq<State>, i: nat, w: Window, mem: Memory)
    requires SettledRun(evs, sts) && i < |sts| && w.Valid()
    ensures Scan(sts[i], w, mem).comps == LinearScan(sts[i], w, mem).comps
    ensures Scan(sts[i], w, mem).slots == LinearScan(sts[i], w, mem).slots
  {
    SettledRunExact(evs, sts, i);
    assert CachedOldest(sts[i], w);
    ScanIsLinear(sts[i], w, mem);
  }

  // ---------------------------------------------------------------- where the two differ

  /** Two windows apart, and a third that starts with the first and reaches over the second. */
  ghost predicate Spread(a: Window, b: Window, wide: Window) {
    && a.Valid() && b.Valid() && wide.Valid() && 0 < a.cap && 0 < b.cap
    && a.Send() <= b.ptr && wide.ptr == a.ptr && b.Send() <= wide.Send()
  }

  function Founded(w: Window): Comp { Comp(w.ptr, w.Send(), w.ptr, [SlotKey(0, w)], Live) }

  function Joined(c: Comp, w: Window, gen: nat): Comp {
    c.(origin := Min(c.origin, w.ptr), end := Max(c.end, w.Send()), members := c.members + [SlotKey(gen, w)])
  }

  function Frozen(c: Comp, id: nat): Comp { c.(status := Emitted(id, 0)) }

  /** The slot of `w` in the current value stands at component `ci`. */
  ghost predicate Stands(st: State, w: Window, ci: nat) {
    SlotKey(st.gen, w) in st.slots && st.slots[SlotKey(st.gen, w)] == ci
  }

  ghost predicate Two(st: State, c0: Comp, c1: Comp, cache: map<Window, nat>, gen: nat) {
    st.comps == [c0, c1] && st.cache == cache && st.gen == gen
  }

  lemma CandidatesOfTwo(comps: seq<Comp>, w: Window, host: Option<nat>)
    requires |comps| == 2
    ensures var x, y := Joins(comps[0], w) || host == Some(0), Joins(comps[1], w) || host == Some(1);
            Candidates(comps, w, host, |comps|) == if x && y then [0, 1] else if x then [0] else if y then [1] else []
  {
    assert Candidates(comps, w, host, 0) == [];
    assert Candidates(comps, w, host, 1) == if Joins(comps[0], w) || host == Some(0) then [0] else [];
    assert [0] + [1] == [0, 1] && [] + [1] == [1];
  }

  lemma HostOfTwo(st: State, w: Window, mem: Memory, i: nat)
    requires |st.comps| == 2 && i < 2 && forall x :: mem(x) == 0
    requires Contains(st.comps[i], w) && (i == 0 || !Contains(st.comps[0], w))
    ensures FirstRepresentable(st.comps, w, mem, 0) == Some(i) == FirstContaining(st.comps, w, 0)
  {
    FirstRepresentableIs(st.comps, w, mem, i);
    FirstContainingIs(st.comps, w, i);
  }

  lemma FoundTwo(a: Window, b: Window, wide: Window, mem: Memory)
    requires Spread(a, b, wide)
    ensures Scan(EMPTY, a, mem).cache == map[]
    ensures var s2 := Scan(Scan(EMPTY, a, mem), b, mem); Two(s2, Founded(a), Founded(b), map[], 0) && Stands(s2, b, 1)
  {
    var s1 := Scan(EMPTY, a, mem);
    assert s1.comps == [Founded(a)] && s1.cache == map[] && s1.gen == 0;
    assert Candidates(s1.comps, b, None, 0) == [];
  }

  lemma JoinOneLive(st: State, w: Window)
    requires |st.comps| == 2 && st.comps[0].status.Live?
    ensures Join(st, w, [0]) == Extend(st, 0, w)
  {
    assert [0][1..] == [];
    assert MergeAll(st, 0, []) == st;
  }

  lemma JoinLiveOverHost(st: State, w: Window)
    requires |st.comps| == 2 && st.comps[0].status.Live? && st.comps[1].status.Emitted?
    ensures Join(st, w, [0, 1]) == Extend(st, 0, w)
  {
    var gs: seq<nat> := [1];
    assert [0, 1][1..] == gs && gs[..0] == [];
    assert MergeAll(st, 0, []) == st;
    assert MergeAll(st, 0, gs) == st;
  }

  lemma ScanBy(st: State, w: Window, mem: Memory, host: Option<nat>, cands: seq<nat>)
    requires Host(st, w, mem) == host && Candidates(st.comps, w, host, |st.comps|) == cands
    ensures Scan(st, w, mem) == Join(st.(cache := CacheAfter(st, w, mem)), w, cands)
  {
  }

  lemma ExtendOfTwo(st: State, w: Window)
    requires |st.comps| == 2
    ensures Two(Extend(st, 0, w), Joined(st.comps[0], w, st.gen), st.comps[1], st.cache, st.gen)
    ensures Extend(st, 0, w).slots == st.slots[SlotKey(st.gen, w) := 0]
  {
  }

  lemma NoHost(st: State, w: Window, mem: Memory)
    requires st.cache == map[] && forall i: nat :: i < |st.comps| ==> !Contains(st.comps[i], w)
    ensures Host(st, w, mem) == None && CacheAfter(st, w, mem) == map[]
  {
  }

  lemma GrowOver(wide: Window, mem: Memory, s3: State)
    requires |s3.comps| == 2 && Joins(s3.comps[0], wide)
    requires s3.comps[1].status.Emitted? && !Contains(s3.comps[1], wide) && s3.cache == map[]
    ensures var s4 := Scan(s3, wide, mem);
            Two(s4, Joined(s3.comps[0], wide, s3.gen), s3.comps[1], map[], s3.gen) && Stands(s4, wide, 0)
  {
    NoHost(s3, wide, mem);
    CandidatesOfTwo(s3.comps, wide, None);
    ScanBy(s3, wide, mem, None, [0]);
    JoinOneLive(s3.(cache := map[]), wide);
    ExtendOfTwo(s3.(cache := map[]), wide);
  }

  lemma JoinGrown(b: Window, mem: Memory, s4: State)
    requires |s4.comps| == 2 && Joins(s4.comps[0], b) && Contains(s4.comps[1], b)
    requires s4.cache == map[] && forall x :: mem(x) == 0
    ensures var s5 := Scan(s4, b, mem);
            && Two(s5, Joined(s4.comps[0], b, s4.gen), s4.comps[1], map[b := 1], s4.gen)
            && forall w :: w != b && Stands(s4, w, 0) ==> Stands(s5, w, 0)
  {
    HostOfTwo(s4, b, mem, 1);
    CandidatesOfTwo(s4.comps, b, Some(1));
    ScanBy(s4, b, mem, Some(1), [0, 1]);
    JoinLiveOverHost(s4.(cache := map[b := 1]), b);
    ExtendOfTwo(s4.(cache := map[b := 1]), b);
  }

  lemma FrozenJoin(st: State, w: Window, i: nat)
    requires i < |st.comps| && st.comps[i].status.Emitted?
    ensures Stands(Join(st, w, [i]), w, i) && Join(st, w, [i]).comps == st.comps && Join(st, w, [i]).gen == st.gen
  {
    assert [i][1..] == [];
  }

  /** Once both are frozen the cache answers with the younger component, first-fit with the older. */
  lemma CachedYounger(b: Window, mem: Memory, st: State)
    requires |st.comps| == 2 && Contains(st.comps[0], b) && Contains(st.comps[1], b) && st.cache == map[b := 1]
    requires forall x :: mem(x) == 0
    ensures Stands(Scan(st, b, mem), b, 1) && Stands(LinearScan(st, b, mem), b, 0)
    ensures Scan(st, b, mem).comps == st.comps == LinearScan(st, b, mem).comps
    ensures Scan(st, b, mem).gen == st.gen == LinearScan(st, b, mem).gen
  {
    HostOfTwo(st, b, mem, 0);
    assert Host(st, b, mem) == Some(1) && CacheAfter(st, b, mem) == st.cache;
    CandidatesOfTwo(st.comps, b, Some(1));
    CandidatesOfTwo(st.comps, b, Some(0));
    assert st.(cache := st.cache) == st;
    FrozenJoin(st, b, 1);
    FrozenJoin(st, b, 0);
  }

  /** The first value scans `a` and `b` and writes only `b`. */
  lemma FreezeYounger(a: Window, b: Window, wide: Window, mem: Memory) returns (evs: seq<Event>, sts: seq<State>)
    requires Spread(a, b, wide)
    ensures Run(evs, sts) && evs == [Slot(a, mem), Slot(b, mem), Emission(1, 0, 0), NextValue]
    ensures |sts| == 5 && Two(sts[4], Founded(a), Frozen(Founded(b), 0), map[], 1)
  {
    hide Scan;
    FoundTwo(a, b, wide, mem);
    var s1 := Scan(EMPTY, a, mem);
    var s2 := Scan(s1, b, mem);
    var s3 := Freeze(s2, 1, 0, 0);
    evs, sts := [], [EMPTY];
    evs, sts := RunNext(evs, sts, Slot(a, mem), s1);
    evs, sts := RunNext(evs, sts, Slot(b, mem), s2);
    evs, sts := RunNext(evs, sts, Emission(1, 0, 0), s3);
    evs, sts := RunNext(evs, sts, NextValue, s3.(gen := 1));
  }

  /** The second scans `wide` and `b` and writes `wide`. */
  lemma FreezeOlder(a: Window, b: Window, wide: Window, mem: Memory, st: State) returns (s5: State, s6: State)
    requires Spread(a, b, wide) && forall x :: mem(x) == 0
    requires Two(st, Founded(a), Frozen(Founded(b), 0), map[], 1)
    ensures s5 == Scan(st, wide, mem) && s6 == Scan(s5, b, mem) && s5.cache == map[]
    ensures |s6.comps| == 2 && s6.cache == map[b := 1] && s6.gen == 1 && s6.comps[0].status.Live? && Stands(s6, wide, 0)
    ensures s6.comps[1] == Frozen(Founded(b), 0)
    ensures var s7 := Freeze(s6, 0, 1, 0); Contains(s7.comps[0], b) && Contains(s7.comps[1], b)
  {
    GrowOver(wide, mem, st);
    s5 := Scan(st, wide, mem);
    JoinGrown(b, mem, s5);
    s6 := Scan(s5, b, mem);
  }

  /**
    Runs after which a cached host overrides the older component that first-fit picks. What makes them possible is
    a slot that is scanned and not written in its value: its component stays live while younger ones are written.
   */
  lemma CacheOverridesFirstFit(a: Window, b: Window, wide: Window, mem: Memory)
    returns (evs: seq<Event>, sts: seq<State>)
    requires Spread(a, b, wide) && forall x :: mem(x) == 0
    ensures evs == [Slot(a, mem), Slot(b, mem), Emission(1, 0, 0), NextValue,
                    Slot(wide, mem), Slot(b, mem), Emission(0, 1, 0), NextValue]
    ensures Run(evs, sts) && |sts| == 9 && !Settled(sts[4])
    ensures Stands(Scan(sts[8], b, mem), b, 1) && Stands(LinearScan(sts[8], b, mem), b, 0)
  {
    hide Scan;
    hide LinearScan;
    hide Contains;
    hide Run;
    evs, sts := FreezeYounger(a, b, wide, mem);
    var st := sts[4];
    assert st.comps[1].status.Emitted? && st.comps[0].status.Live?;
    var s5, s6 := FreezeOlder(a, b, wide, mem, st);
    var s7 := Freeze(s6, 0, 1, 0);
    CachedYounger(b, mem, s7.(gen := 2));
    evs, sts := RunNext(evs, sts, Slot(wide, mem), s5);
    evs, sts := RunNext(evs, sts, Slot(b, mem), s6);
    evs, sts := RunNext(evs, sts, Emission(0, 1, 0), s7);
    evs, sts := RunNext(evs, sts, NextValue, s7.(gen := 2));
  }

  lemma RunNext(evs: seq<Event>, sts: seq<State>, ev: Event, st: State) returns (evs': seq<Event>, sts': seq<State>)
    requires Run(evs, sts) && Leads(sts[|sts| - 1], ev, st)
    ensures Run(evs', sts') && sts' == sts + [st] && evs' == evs + [ev]
  {
    evs', sts' := evs + [ev], sts + [st];
    forall i, j | 0 <= i < |evs'| && j == i + 1
      ensures Leads(sts'[i], evs'[i], sts'[j])
    {
      if i < |evs| {
        assert Leads(sts[i], evs[i], sts[j]);
      }
    }
  }
}
