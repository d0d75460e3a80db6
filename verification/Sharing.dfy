/**
  Which windows of a stream share cells after decoding. The scan pass resolves a window either to the
  earlier record that hosts it or to a component of live memory, and that choice alone decides
  (codec_encode.go:2058-2253, 2324-2337).
 */
module Homes {
  import opened Grouping
  import opened GroupingRuns
  import opened Components
  import opened HostCache
  import opened Records
  import opened Streams

  /** The written component that takes the window: its host, unless an older live component meets the window. */
  ghost function FrozenHome(st: State, w: Window, mem: Memory): Option<nat> {
    match Host(st, w, mem)
    case None => None
    case Some(h) => if exists i: nat :: i < h && i < |st.comps| && Joins(st.comps[i], w) then None else Some(h)
  }

  /** The written component a window of a scan pass ends up in, decided at its last scan; None if a live one. */
  ghost function Home(st: State, ws: seq<Window>, w: Window, mem: Memory): Option<nat>
    requires w in ws
  {
    var vs, u := ws[..|ws| - 1], ws[|ws| - 1];
    if u == w then FrozenHome(ScanAll(st, vs, mem), w, mem)
    else
      assert w in vs by { assert ws == vs + [u]; }
      Home(st, vs, w, mem)
  }

  // ---------------------------------------------------------------- hosts do not change during a scan pass

  lemma ScanContains(st: State, u: Window, mem: Memory, w: Window)
    requires Inv(st) && u.Valid()
    ensures var r := Scan(st, u, mem);
            && |st.comps| <= |r.comps|
            && (forall i: nat :: i < |st.comps| && (st.comps[i].status.Emitted? || r.comps[i].status.Emitted?)
                  ==> r.comps[i] == st.comps[i])
            && forall i: nat :: |st.comps| <= i < |r.comps| ==> !r.comps[i].status.Emitted?
  {
    hide Scan;
    hide Inv;
    ScanGrows(st, u, mem);
    forall i: nat | i < |Scan(st, u, mem).comps|
      ensures i < |st.comps| && st.comps[i].status.Emitted? ==> Scan(st, u, mem).comps[i] == st.comps[i]
      ensures Scan(st, u, mem).comps[i].status.Emitted? ==> i < |st.comps| && st.comps[i].status.Emitted?
    {
      ScanFrozen(st, u, mem, i);
    }
  }

  /** Components that agree wherever either is written have the same representable ones. */
  lemma SameFirst(comps: seq<Comp>, comps': seq<Comp>, w: Window, mem: Memory)
    requires |comps| <= |comps'|
    requires forall i: nat :: i < |comps| && (comps[i].status.Emitted? || comps'[i].status.Emitted?)
              ==> comps'[i] == comps[i]
    requires forall i: nat :: |comps| <= i < |comps'| ==> !comps'[i].status.Emitted?
    ensures FirstRepresentable(comps', w, mem, 0) == FirstRepresentable(comps, w, mem, 0)
  {
    forall i: nat | i < |comps'|
      ensures Representable(comps'[i], w, mem) <==> i < |comps| && Representable(comps[i], w, mem)
    {
      OnlyWritten(comps'[i], w, mem);
      if i < |comps| {
        OnlyWritten(comps[i], w, mem);
      }
    }
    hide Representable;
    match FirstRepresentable(comps, w, mem, 0)
    case Some(i) => FirstRepresentableIs(comps', w, mem, i);
    case None =>
  }

  lemma OnlyWritten(c: Comp, w: Window, mem: Memory)
    ensures Representable(c, w, mem) ==> c.status.Emitted?
  {
  }

  lemma HostStable(st: State, u: Window, mem: Memory, w: Window)
    requires Inv(st) && u.Valid()
    ensures Host(Scan(st, u, mem), w, mem) == Host(st, w, mem)
  {
    hide Scan;
    hide Representable;
    hide CompsOk;
    hide SlotOk;
    var r := Scan(st, u, mem);
    ScanContains(st, u, mem, w);
    SameFirst(st.comps, r.comps, w, mem);
    ScanCache(st, u, mem);
    if w in st.cache {
      OnlyWritten(st.comps[st.cache[w]], w, mem);
      OnlyWritten(r.comps[st.cache[w]], w, mem);
    }
    if w == u && !(w in st.cache && Representable(st.comps[st.cache[w]], w, mem)) {
      FirstBoth(st.comps, w, mem);
    }
  }

  /** If the oldest containing component can serve the window, it is the oldest that can. */
  lemma FirstBoth(comps: seq<Comp>, w: Window, mem: Memory)
    ensures match FirstContaining(comps, w, 0)
            case Some(i) => Representable(comps[i], w, mem) ==> FirstRepresentable(comps, w, mem, 0) == Some(i)
            case None => FirstRepresentable(comps, w, mem, 0) == None
  {
    match FirstContaining(comps, w, 0)
    case Some(i) =>
      if Representable(comps[i], w, mem) {
        FirstRepresentableIs(comps, w, mem, i);
      }
    case None =>
  }

  // ---------------------------------------------------------------- members resolve to their component

  /** The slot of a non-empty member of the current value. */
  ghost predicate Current(st: State, key: SlotKey) { key.gen == st.gen && 0 < key.win.cap }

  /** Members of live components resolve to them, and no older record hosts their window. */
  ghost predicate Settles(st: State, mem: Memory) {
    forall i, m :: 0 <= i < |st.comps| && st.comps[i].status.Live? && m in st.comps[i].members && Current(st, m)
      ==> m in st.slots && st.slots[m] == i && HostAbove(st, m.win, mem, i)
  }

  ghost predicate HostAbove(st: State, w: Window, mem: Memory, i: nat) {
    Host(st, w, mem).Some? ==> i < Host(st, w, mem).value
  }

  lemma MemberJoins(st: State, i: nat, m: SlotKey)
    requires Inv(st) && i < |st.comps| && st.comps[i].status.Live? && m in st.comps[i].members && 0 < m.win.cap
    ensures Joins(st.comps[i], m.win)
  {
    hide Apart;
    assert Covered(st.comps[i]);
    var k :| 0 <= k < |st.comps[i].members| && st.comps[i].members[k] == m;
    assert Holds(st.comps[i], st.comps[i].members[k].win);
  }

  /** What a bridge merge does, as far as slots and members go. */
  ghost predicate Bridged(st: State, p: State, into: nat, gs: seq<nat>) {
    && into < |p.comps| && MergedFrame(st, p, into, gs) && MergedMembers(st, p.comps[into], into, gs)
      && MergedSlots(st, p, into, gs)
    && p.comps[into].status.Live?
  }

  lemma MergeBridges(st: State, w: Window, into: nat, gs: seq<nat>)
    requires Mergeable(st, into, gs, w)
    ensures Bridged(st, MergeAll(st, into, gs), into, gs)
  {
    MergeAllFacts(st, into, gs, w);
    assert Merged(st, MergeAll(st, into, gs), into, gs, w);
  }

  lemma JoinSettles(st: State, p: State, w: Window, into: nat, gs: seq<nat>, r: State, mem: Memory)
    requires Inv(st) && Bridged(st, p, into, gs) && r == Extend(p, into, w) && Takes(st, into, gs, into)
    requires forall i: nat :: Takes(st, into, gs, i) <==> i < |st.comps| && Joins(st.comps[i], w)
    requires forall i: nat :: i < |st.comps| && Joins(st.comps[i], w) ==> into <= i
    requires Settles(st, mem) && HostAbove(st, w, mem, into)
    requires forall v :: Host(r, v, mem) == Host(st, v, mem)
    ensures Settles(r, mem)
  {
    hide Host;
    hide Inv;
    hide Joins;
    hide Extend;
    var key0 := SlotKey(st.gen, w);
    ExtendIs(p, into, w, r);
    forall i: nat, m | i < |r.comps| && r.comps[i].status.Live? && m in r.comps[i].members && Current(r, m)
      ensures m in r.slots && r.slots[m] == i && HostAbove(r, m.win, mem, i)
    {
      if i != into {
        assert r.comps[i] == st.comps[i] && st.slots[m] == i;
        assert !Takes(st, into, gs, i);
        if m == key0 {
          MemberJoins(st, i, m);
        }
        UntakenSlot(st, p, into, gs, i, m, mem);
      } else if m != key0 {
        var j: nat :| Takes(st, into, gs, j) && m in st.comps[j].members;
        assert st.slots[m] == j && into <= j;
        TakenSlot(st, p, into, gs, j, m);
      }
    }
  }

  lemma ExtendIs(p: State, into: nat, w: Window, r: State)
    requires into < |p.comps| && r == Extend(p, into, w)
    ensures |r.comps| == |p.comps| && r.gen == p.gen && r.slots == p.slots[SlotKey(p.gen, w) := into]
    ensures r.comps[into].members == p.comps[into].members + [SlotKey(p.gen, w)]
            && r.comps[into].status == p.comps[into].status
    ensures forall i :: 0 <= i < |p.comps| && i != into ==> r.comps[i] == p.comps[i]
  {
  }

  lemma TakenSlot(st: State, p: State, into: nat, gs: seq<nat>, j: nat, m: SlotKey)
    requires Bridged(st, p, into, gs) && Takes(st, into, gs, j) && m in st.comps[j].members && m in st.slots
             && st.slots[m] == j
    ensures m in p.slots && p.slots[m] == into
  {
  }

  /** A slot that resolves to a component outside the merge, live or written, keeps its resolution. */
  lemma UntakenSlot(st: State, p: State, into: nat, gs: seq<nat>, i: nat, m: SlotKey, mem: Memory)
    requires Bridged(st, p, into, gs) && Settles(st, mem) && Current(st, m) && m in st.slots && st.slots[m] == i
    requires into < |st.comps| && Takes(st, into, gs, into) && !Takes(st, into, gs, i)
    ensures m in p.slots && p.slots[m] == i
  {
    hide Host;
    hide Joins;
  }

  lemma CreateSettles(st: State, w: Window, r: State, mem: Memory)
    requires Inv(st) && r == Create(st, w) && Settles(st, mem) && Host(st, w, mem) == None
    requires forall i: nat :: i < |st.comps| ==> !Joins(st.comps[i], w)
    requires forall v :: Host(r, v, mem) == Host(st, v, mem)
    ensures Settles(r, mem)
  {
    hide Host;
    hide Joins;
    hide Covered;
    hide Geometry;
    hide Apart;
    hide SlotOk;
    hide CacheSound;
    forall i: nat, m | i < |r.comps| && r.comps[i].status.Live? && m in r.comps[i].members && Current(r, m)
      ensures m in r.slots && r.slots[m] == i && HostAbove(r, m.win, mem, i)
    {
      if i < |st.comps| && m == SlotKey(st.gen, w) {
        MemberJoins(st, i, m);
      }
    }
  }

  lemma FrozenSettles(st: State, w: Window, h: nat, r: State, mem: Memory)
    requires Inv(st) && r == st.(slots := st.slots[SlotKey(st.gen, w) := h]) && Settles(st, mem)
             && Host(st, w, mem) == Some(h)
    requires forall i: nat :: i < h && i < |st.comps| ==> !Joins(st.comps[i], w)
    requires forall v :: Host(r, v, mem) == Host(st, v, mem)
    ensures Settles(r, mem)
  {
    hide Host;
    hide Joins;
    hide Covered;
    hide Geometry;
    hide Apart;
    hide SlotOk;
    hide CacheSound;
    forall i: nat, m | i < |r.comps| && r.comps[i].status.Live? && m in r.comps[i].members && Current(r, m)
      ensures m in r.slots && r.slots[m] == i && HostAbove(r, m.win, mem, i)
    {
      if m == SlotKey(st.gen, w) {
        MemberJoins(st, i, m);
      }
    }
  }

  // ---------------------------------------------------------------- one scan

  /** Where the slot of `w` stands, given the home decided at its last scan. */
  ghost predicate AtHome(st: State, w: Window, home: Option<nat>) {
    && Resolves(st, w)
    && match home
       case Some(h) => GroupOf(st, w) == h && st.comps[h].status.Emitted?
       case None => st.comps[GroupOf(st, w)].status.Live?
  }

  lemma ScanSettles(st: State, u: Window, mem: Memory)
    requires Inv(st) && u.Valid() && Settles(st, mem)
    ensures Settles(Scan(st, u, mem), mem)
  {
    hide Inv;
    hide Joins;
    hide Representable;
    hide Mergeable;
    hide MergeAll;
    hide Scan;
    hide CacheAfter;
    hide Extend;
    hide Host;
    hide Settles;
    hide Bridged;
    hide Takes;
    var r := Scan(st, u, mem);
    var st1, o := ScanEnds(st, u, mem);
    forall v
      ensures Host(r, v, mem) == Host(st, v, mem) == Host(st1, v, mem)
    {
      HostStable(st, u, mem, v);
      CacheStable(st, u, mem, v);
    }
    CacheInv(st, u, mem);
    SettlesCache(st, st1, mem);
    match o
    case Founds =>
      CreateSettles(st1, u, r, mem);
    case JoinsFrozen(h) =>
      FrozenSettles(st1, u, h, r, mem);
    case JoinsLive(into, gs) =>
      MergeBridges(st1, u, into, gs);
      TakesSame(st, st1, into, gs);
      MergeableTakes(st1, u, into, gs);
      JoinSettles(st1, MergeAll(st1, into, gs), u, into, gs, r, mem);
  }

  lemma MergeableTakes(st: State, w: Window, into: nat, gs: seq<nat>)
    requires Mergeable(st, into, gs, w)
    ensures into < |st.comps| && Takes(st, into, gs, into) && Joins(st.comps[into], w)
    ensures forall k :: 0 <= k < |gs| ==> gs[k] < |st.comps|
  {
  }

  /** The scanned slot goes to its home. */
  lemma OwnHome(st: State, u: Window, mem: Memory)
    requires Inv(st) && u.Valid()
    ensures AtHome(Scan(st, u, mem), u, FrozenHome(st, u, mem))
  {
    hide Inv;
    hide Joins;
    hide Representable;
    hide Mergeable;
    hide MergeAll;
    hide Scan;
    hide CacheAfter;
    hide Extend;
    hide Host;
    hide Bridged;
    hide Takes;
    var r := Scan(st, u, mem);
    var st1, o := ScanEnds(st, u, mem);
    match o
    case Founds =>
    case JoinsFrozen(h) =>
      FrozenIs(st1.comps[h], u, mem);
    case JoinsLive(into, gs) =>
      MergeBridges(st1, u, into, gs);
      MergeableTakes(st1, u, into, gs);
      TakenLive(st1, MergeAll(st1, into, gs), into, gs);
      ExtendIs(MergeAll(st1, into, gs), into, u, r);
  }

  lemma FrozenIs(c: Comp, w: Window, mem: Memory)
    requires Representable(c, w, mem)
    ensures c.status.Emitted?
  {
  }

  lemma TakenLive(st: State, p: State, into: nat, gs: seq<nat>)
    requires Bridged(st, p, into, gs)
    ensures into < |p.comps| && p.comps[into].status.Live? && p.gen == st.gen && |p.comps| == |st.comps|
  {
  }

  /** A scan leaves the slot of every other window at its home. */
  lemma OtherHome(st: State, u: Window, mem: Memory, w: Window, home: Option<nat>)
    requires Inv(st) && u.Valid() && Settles(st, mem) && w != u && 0 < w.cap && AtHome(st, w, home)
    ensures AtHome(Scan(st, u, mem), w, home)
  {
    hide Inv;
    hide Joins;
    hide Representable;
    hide Mergeable;
    hide MergeAll;
    hide Scan;
    hide CacheAfter;
    hide Extend;
    hide Host;
    hide Bridged;
    hide Takes;
    hide Settles;
    var r, key := Scan(st, u, mem), SlotKey(st.gen, w);
    var st1, o := ScanEnds(st, u, mem);
    match o
    case Founds =>
    case JoinsFrozen(h) =>
    case JoinsLive(into, gs) =>
      MergeBridges(st1, u, into, gs);
      TakesSame(st, st1, into, gs);
      MergeableTakes(st1, u, into, gs);
      TakenLive(st1, MergeAll(st1, into, gs), into, gs);
      ExtendIs(MergeAll(st1, into, gs), into, u, r);
      assert Settles(st1, mem) by {
        forall v
          ensures Host(st1, v, mem) == Host(st, v, mem)
        {
          CacheStable(st, u, mem, v);
        }
        SettlesCache(st, st1, mem);
      }
      assert Inv(st1) by { CacheInv(st, u, mem); }
      BridgedHome(st1, MergeAll(st1, into, gs), into, gs, w, home, mem);
  }

  lemma ListedSlot(st: State, key: SlotKey)
    requires Inv(st) && key in st.slots && st.slots[key] < |st.comps| && st.comps[st.slots[key]].status.Live?
    ensures key in st.comps[st.slots[key]].members
  {
    assert SlotOk(st, key);
  }

  lemma BridgedHome(st: State, p: State, into: nat, gs: seq<nat>, w: Window, home: Option<nat>, mem: Memory)
    requires Bridged(st, p, into, gs) && Settles(st, mem) && AtHome(st, w, home) && 0 < w.cap
    requires into < |st.comps| && Takes(st, into, gs, into) && Inv(st)
    ensures AtHome(p, w, home)
  {
    hide Host;
    hide Joins;
    hide Inv;
    hide Settles;
    var i, key := GroupOf(st, w), SlotKey(st.gen, w);
    if !Takes(st, into, gs, i) {
      UntakenSlot(st, p, into, gs, i, key, mem);
    } else {
      ListedSlot(st, key);
      assert p.slots[key] == into;
    }
  }

  lemma CacheStable(st: State, u: Window, mem: Memory, v: Window)
    requires Inv(st)
    ensures Host(st.(cache := CacheAfter(st, u, mem)), v, mem) == Host(st, v, mem)
  {
    hide Representable;
    hide CompsOk;
    hide SlotOk;
    FirstBoth(st.comps, v, mem);
  }

  lemma CacheInv(st: State, u: Window, mem: Memory)
    requires Inv(st)
    ensures Inv(st.(cache := CacheAfter(st, u, mem)))
  {
    CacheAfterSound(st, u, mem);
    var st1 := st.(cache := CacheAfter(st, u, mem));
    forall key | key in st1.slots
      ensures SlotOk(st1, key)
    {
      assert SlotOk(st, key);
    }
  }

  lemma SettlesCache(st: State, st1: State, mem: Memory)
    requires st1 == st.(cache := st1.cache) && Settles(st, mem) && forall v :: Host(st1, v, mem) == Host(st, v, mem)
    ensures Settles(st1, mem)
  {
    hide Host;
  }

  // ---------------------------------------------------------------- the whole scan pass

  lemma {:induction false} PassKeeps(st: State, ws: seq<Window>, mem: Memory)
    requires Inv(st) && Timely(st, st.gen) && forall k :: 0 <= k < |ws| ==> ws[k].Valid()
    ensures Inv(ScanAll(st, ws, mem)) && Settles(ScanAll(st, ws, mem), mem)
    ensures forall w {:trigger Host(st, w, mem)} :: Host(ScanAll(st, ws, mem), w, mem) == Host(st, w, mem)
  {
    hide Inv;
    hide Scan;
    hide Host;
    hide Settles;
    hide Timely;
    if ws == [] {
      NothingSettles(st, mem);
    } else {
      var vs, u := ws[..|ws| - 1], ws[|ws| - 1];
      assert forall k :: 0 <= k < |vs| ==> vs[k] == ws[k];
      PassKeeps(st, vs, mem);
      var s := ScanAll(st, vs, mem);
      ScanInv(s, u, mem);
      ScanSettles(s, u, mem);
      forall w
        ensures Host(Scan(s, u, mem), w, mem) == Host(st, w, mem)
      {
        HostStable(s, u, mem, w);
      }
    }
  }

  lemma NothingSettles(st: State, mem: Memory)
    requires Timely(st, st.gen)
    ensures Settles(st, mem)
  {
    hide Host;
  }

  /** When a scan pass is over, every window of it stands at the home decided at its last scan. */
  lemma {:induction false} EachAtHome(st: State, ws: seq<Window>, w: Window, mem: Memory)
    requires Inv(st) && Timely(st, st.gen) && w in ws && 0 < w.cap && forall k :: 0 <= k < |ws| ==> ws[k].Valid()
    ensures AtHome(ScanAll(st, ws, mem), w, Home(st, ws, w, mem))
  {
    hide Inv;
    hide Scan;
    hide Host;
    hide Settles;
    hide Timely;
    hide AtHome;
    hide FrozenHome;
    var vs, u := ws[..|ws| - 1], ws[|ws| - 1];
    assert ws == vs + [u];
    assert forall k :: 0 <= k < |vs| ==> vs[k] == ws[k];
    var s := ScanAll(st, vs, mem);
    PassKeeps(st, vs, mem);
    if u == w {
      OwnHome(s, u, mem);
    } else {
      EachAtHome(st, vs, w, mem);
      OtherHome(s, u, mem, w, Home(st, vs, w, mem));
    }
  }

  /** Some address lies in both windows. */
  ghost predicate Meet(w: Window, v: Window) { Max(w.ptr, v.ptr) < Min(w.Send(), v.Send()) }

  /** Two windows of a pass that meet end up in one component exactly when they have one home. */
  lemma OneGroupIff(st: State, ws: seq<Window>, w: Window, v: Window, mem: Memory)
    requires Inv(st) && Timely(st, st.gen) && forall k :: 0 <= k < |ws| ==> ws[k].Valid()
    requires w in ws && v in ws && Meet(w, v)
    ensures var s := ScanAll(st, ws, mem);
            && Resolves(s, w) && Resolves(s, v)
            && (GroupOf(s, w) == GroupOf(s, v) <==> Home(st, ws, w, mem) == Home(st, ws, v, mem))
  {
    hide Home;
    hide Timely;
    hide Covered;
    hide Geometry;
    hide ScanAll;
    EachAtHome(st, ws, w, mem);
    EachAtHome(st, ws, v, mem);
    PassKeeps(st, ws, mem);
    var s := ScanAll(st, ws, mem);
    assert SlotOk(s, SlotKey(s.gen, w)) && SlotOk(s, SlotKey(s.gen, v));
    if Home(st, ws, w, mem).None? && Home(st, ws, v, mem).None? && GroupOf(s, w) != GroupOf(s, v) {
      LiveApart(s.comps, GroupOf(s, w), GroupOf(s, v));
    }
  }

  lemma ScanKeepsSettled(st: State, u: Window, mem: Memory)
    requires Inv(st) && u.Valid() && Settled(st)
    ensures Settled(Scan(st, u, mem))
  {
    hide Inv;
    hide Scan;
    var r := Scan(st, u, mem);
    forall i: nat, j: nat | i < |r.comps| && j < |r.comps| && r.comps[i].status.Emitted? && r.comps[j].status.Live?
      ensures i < j
    {
      ScanFrozen(st, u, mem, i);
      ScanFrozen(st, u, mem, j);
    }
  }

  lemma {:induction false} PassKeepsSettled(st: State, ws: seq<Window>, mem: Memory)
    requires Inv(st) && Settled(st) && forall k :: 0 <= k < |ws| ==> ws[k].Valid()
    ensures Inv(ScanAll(st, ws, mem)) && Settled(ScanAll(st, ws, mem))
  {
    hide Inv;
    hide Scan;
    hide Settled;
    if ws != [] {
      var vs := ws[..|ws| - 1];
      assert forall k :: 0 <= k < |vs| ==> vs[k] == ws[k];
      PassKeepsSettled(st, vs, mem);
      ScanInv(ScanAll(st, vs, mem), ws[|ws| - 1], mem);
      ScanKeepsSettled(ScanAll(st, vs, mem), ws[|ws| - 1], mem);
    }
  }

  /** With nothing live older than a written component, a host takes its window for certain. */
  lemma SettledHome(st: State, w: Window, mem: Memory)
    requires Settled(st)
    ensures FrozenHome(st, w, mem) == Host(st, w, mem)
  {
    hide Host;
    if Host(st, w, mem).Some? {
      FrozenIs(st.comps[Host(st, w, mem).value], w, mem);
    }
  }

  /** So in a settled state the homes of a whole pass are the hosts found before it. */
  lemma {:induction false} SettledHomes(st: State, ws: seq<Window>, w: Window, mem: Memory)
    requires Inv(st) && Timely(st, st.gen) && Settled(st) && w in ws && forall k :: 0 <= k < |ws| ==> ws[k].Valid()
    ensures Home(st, ws, w, mem) == Host(st, w, mem)
  {
    hide Inv;
    hide Scan;
    hide Host;
    hide Settled;
    hide Timely;
    hide FrozenHome;
    hide ScanAll;
    var vs, u := ws[..|ws| - 1], ws[|ws| - 1];
    assert ws == vs + [u];
    assert forall k :: 0 <= k < |vs| ==> vs[k] == ws[k];
    if u == w {
      PassKeeps(st, vs, mem);
      PassKeepsSettled(st, vs, mem);
      SettledHome(ScanAll(st, vs, mem), w, mem);
    } else {
      SettledHomes(st, vs, w, mem);
    }
  }
}

module Sharing {
  import opened Bytes
  import opened Args
  import opened Elements
  import opened Grouping
  import opened GroupingRuns
  import opened Components
  import opened HostCache
  import opened Records
  import opened Streams
  import opened Homes

  /** The bytes of the stream stand at `at`. */
  ghost predicate Sent(input: seq<byte>, at: nat, vals: seq<Value>) {
    && (forall k {:trigger vals[k]} :: 0 <= k < |vals| ==> WellFormed(vals[k]))
    && Total(vals) < U64 && at <= |input| && At(input, at, StreamBytes(vals))
  }

  /** One slice for every written position. */
  ghost predicate Shaped(vals: seq<Value>, out: seq<seq<Slice>>) {
    |out| == |vals| && forall k {:trigger vals[k]} {:trigger out[k]} :: 0 <= k < |vals| ==> |out[k]| == |vals[k].out|
  }

  /** Element `p` of written position `i` of value `k` lies inside the window's capacity. */
  ghost predicate Within(vals: seq<Value>, k: nat, i: nat, p: nat) {
    k < |vals| && i < |vals[k].out| && p < vals[k].out[i].cap
  }

  /** The address of that element. */
  ghost function Address(vals: seq<Value>, k: nat, i: nat, p: nat): nat
    requires Within(vals, k, i, p)
  {
    vals[k].out[i].ptr + p
  }

  /** After decoding, element `p` of one slice and element `q` of another are one cell. */
  ghost predicate SameCell(s: Slice, p: nat, t: Slice, q: nat) { s.id == t.id && s.off + p == t.off + q }

  /** The state of the encoder when value `k` begins. */
  ghost function Before(vals: seq<Value>, k: nat): State
    requires k < |vals|
  {
    EncodeStream(vals[..k]).st
  }

  lemma {:induction false} TotalPrefix(vals: seq<Value>, k: nat)
    requires k <= |vals|
    ensures Total(vals[..k]) <= Total(vals)
  {
    if k < |vals| {
      TotalPrefix(vals[..|vals| - 1], k);
      assert vals[..|vals| - 1][..k] == vals[..k];
    } else {
      assert vals[..k] == vals;
    }
  }

  /** What every value begins with: the grouping invariant, and slots of earlier values only. */
  lemma BeforeInv(vals: seq<Value>, k: nat)
    requires k < |vals| && Total(vals) < U64 && forall m {:trigger vals[m]} :: 0 <= m < |vals| ==> WellFormed(vals[m])
    ensures Inv(Before(vals, k)) && Timely(Before(vals, k), Before(vals, k).gen)
  {
    hide WellFormed;
    hide EncodeStream;
    hide DecodeStream;
    hide InStep;
    hide Inv;
    hide Timely;
    hide AllFaithful;
    TotalPrefix(vals, k);
    assert forall m :: 0 <= m < k ==> vals[..k][m] == vals[m];
    StreamRoundTrip(StreamBytes(vals[..k]), 0, vals[..k]);
  }

  lemma AllValid(v: Value)
    requires WellFormed(v)
    ensures forall k :: 0 <= k < |v.ws| ==> v.ws[k].Valid()
    ensures forall k :: 0 <= k < |v.out| ==> v.out[k] in v.ws && v.out[k].Valid()
  {
    assert forall w :: w in v.ws ==> w.Valid();
  }

  lemma Received(input: seq<byte>, at: nat, vals: seq<Value>)
    requires Sent(input, at, vals)
    ensures var r, e := DecodeStream(input, at, Counts(vals)), EncodeStream(vals);
            && r.Ok? && Shaped(vals, r.value.0) && InStep(e, r.value.1, Mems(vals))
              && AllFaithful(e, r.value.1, vals, r.value.0)
  {
    hide WellFormed;
    hide EncodeStream;
    hide DecodeStream;
    hide StreamBytes;
    hide At;
    hide InStep;
    hide Serves;
    hide Housed;
    StreamRoundTrip(input, at, vals);
    var r, e := DecodeStream(input, at, Counts(vals)), EncodeStream(vals);
    forall k | 0 <= k < |vals|
      ensures |r.value.0[k]| == |vals[k].out|
    {
      assert CameBack(e, r.value.1, vals, k, r.value.0[k]);
    }
  }

  /** Slices housed in components of one state lie in one record exactly when the components are one. */
  lemma OneRecord(e: Encoder, d: Decoder, mems: seq<Memory>, s: State, w: Window, id: nat, t: State, v: Window,
                  id': nat)
    requires InStep(e, d, mems) && Housed(e.st, s, w, id) && Housed(e.st, t, v, id')
    ensures id == id' <==> GroupOf(s, w) == GroupOf(t, v)
  {
    hide Backs;
  }

  /**
    Sharing over whole streams. Two elements, of one value or of two, are one cell after decoding exactly when
    they have one address and the scan passes resolved their windows to one component.
   */
  lemma SharingExact(input: seq<byte>, at: nat, vals: seq<Value>, k: nat, i: nat, p: nat, l: nat, j: nat, q: nat)
    requires Sent(input, at, vals) && Within(vals, k, i, p) && Within(vals, l, j, q)
    ensures Resolves(AfterScan(vals, k), vals[k].out[i]) && Resolves(AfterScan(vals, l), vals[l].out[j])
    ensures var r := DecodeStream(input, at, Counts(vals));
            && r.Ok? && Shaped(vals, r.value.0)
            && (SameCell(r.value.0[k][i], p, r.value.0[l][j], q)
                <==> Address(vals, k, i, p) == Address(vals, l, j, q)
                     && GroupOf(AfterScan(vals, k), vals[k].out[i]) == GroupOf(AfterScan(vals, l), vals[l].out[j]))
  {
    hide Sent;
    hide EncodeStream;
    hide DecodeStream;
    hide AfterScan;
    hide InStep;
    Received(input, at, vals);
    var r, e := DecodeStream(input, at, Counts(vals)), EncodeStream(vals);
    var w, v, s, t := vals[k].out[i], vals[l].out[j], r.value.0[k][i], r.value.0[l][j];
    assert CameBack(e, r.value.1, vals, k, r.value.0[k]) && CameBack(e, r.value.1, vals, l, r.value.0[l]);
    assert Housed(e.st, AfterScan(vals, k), w, s.id) && Housed(e.st, AfterScan(vals, l), v, t.id);
    assert Serves(e.born, r.value.1, Mems(vals), k, w, s) && Serves(e.born, r.value.1, Mems(vals), l, v, t);
    OneRecord(e, r.value.1, Mems(vals), AfterScan(vals, k), w, s.id, AfterScan(vals, l), v, t.id);
  }

  /** Decoding never makes two addresses one cell. */
  lemma NoFalseSharing(input: seq<byte>, at: nat, vals: seq<Value>, k: nat, i: nat, p: nat, l: nat, j: nat, q: nat)
    requires Sent(input, at, vals) && Within(vals, k, i, p) && Within(vals, l, j, q)
    requires Address(vals, k, i, p) != Address(vals, l, j, q)
    ensures var r := DecodeStream(input, at, Counts(vals));
            r.Ok? && Shaped(vals, r.value.0) && !SameCell(r.value.0[k][i], p, r.value.0[l][j], q)
  {
    hide Sent;
    hide DecodeStream;
    SharingExact(input, at, vals, k, i, p, l, j, q);
  }

  lemma MeetAt(w: Window, v: Window, p: nat, q: nat)
    requires p < w.cap && q < v.cap && w.ptr + p == v.ptr + q
    ensures Meet(w, v)
  {
  }

  /**
    Sharing within a value: cells at one address are shared exactly when their windows have one home, that is, the
    same earlier record hosts both at their last scan, or none does.
   */
  lemma SharedIffOneHome(input: seq<byte>, at: nat, vals: seq<Value>, k: nat, i: nat, p: nat, j: nat, q: nat)
    requires Sent(input, at, vals) && Within(vals, k, i, p) && Within(vals, k, j, q)
    ensures vals[k].out[i] in vals[k].ws && vals[k].out[j] in vals[k].ws
    ensures var r, v := DecodeStream(input, at, Counts(vals)), vals[k];
            && r.Ok? && Shaped(vals, r.value.0)
            && (SameCell(r.value.0[k][i], p, r.value.0[k][j], q)
                <==> Address(vals, k, i, p) == Address(vals, k, j, q)
                     && Home(Before(vals, k), v.ws, v.out[i], v.mem) == Home(Before(vals, k), v.ws, v.out[j], v.mem))
  {
    hide DecodeStream;
    hide EncodeStream;
    hide Home;
    hide At;
    hide Inv;
    hide Timely;
    hide ScanAll;
    SharingExact(input, at, vals, k, i, p, k, j, q);
    assert WellFormed(vals[k]);
    AllValid(vals[k]);
    BeforeInv(vals, k);
    if Address(vals, k, i, p) == Address(vals, k, j, q) {
      MeetAt(vals[k].out[i], vals[k].out[j], p, q);
      OneGroupIff(Before(vals, k), vals[k].ws, vals[k].out[i], vals[k].out[j], vals[k].mem);
    }
  }

  /**
    Where nothing live is older than a written record when the value begins, its sharing is lost exactly between
    windows that find different hosts among the earlier records, and known before the value is scanned.
   */
  lemma SharedIffOneHost(input: seq<byte>, at: nat, vals: seq<Value>, k: nat, i: nat, p: nat, j: nat, q: nat)
    requires Sent(input, at, vals) && Within(vals, k, i, p) && Within(vals, k, j, q) && Settled(Before(vals, k))
    ensures var r, v := DecodeStream(input, at, Counts(vals)), vals[k];
            && r.Ok? && Shaped(vals, r.value.0)
            && (SameCell(r.value.0[k][i], p, r.value.0[k][j], q)
                <==> Address(vals, k, i, p) == Address(vals, k, j, q)
                     && Host(Before(vals, k), v.out[i], v.mem) == Host(Before(vals, k), v.out[j], v.mem))
  {
    hide DecodeStream;
    hide EncodeStream;
    hide Home;
    hide At;
    hide Inv;
    hide Timely;
    hide Settled;
    hide Host;
    SharedIffOneHome(input, at, vals, k, i, p, j, q);
    assert WellFormed(vals[k]);
    AllValid(vals[k]);
    BeforeInv(vals, k);
    SettledHomes(Before(vals, k), vals[k].ws, vals[k].out[i], vals[k].mem);
    SettledHomes(Before(vals, k), vals[k].ws, vals[k].out[j], vals[k].mem);
  }

  /** What an earlier value wrote stands in a written component when a later value begins, and after its scan. */
  lemma WrittenBefore(vals: seq<Value>, k: nat, i: nat, l: nat)
    requires Total(vals) < U64 && forall m {:trigger vals[m]} :: 0 <= m < |vals| ==> WellFormed(vals[m])
    requires k < l < |vals| && i < |vals[k].out| && Resolves(AfterScan(vals, k), vals[k].out[i])
    ensures var ci := GroupOf(AfterScan(vals, k), vals[k].out[i]);
            ci < |AfterScan(vals, l).comps| && AfterScan(vals, l).comps[ci].status.Emitted?
  {
    hide WellFormed;
    hide EncodeStream;
    hide DecodeStream;
    hide InStep;
    hide Inv;
    hide Timely;
    hide Serves;
    hide Served;
    hide Ready;
    hide ScanAll;
    hide StreamBytes;
    hide At;
    var prev := vals[..l];
    TotalPrefix(vals, l);
    assert prev[..k] == vals[..k] && forall m :: 0 <= m < l ==> prev[m] == vals[m];
    assert At(StreamBytes(prev), 0, StreamBytes(prev)) by { AtWhole(StreamBytes(prev)); }
    StreamRoundTrip(StreamBytes(prev), 0, prev);
    var p := DecodeStream(StreamBytes(prev), 0, Counts(prev)).value;
    assert CameBack(EncodeStream(prev), p.1, prev, k, p.0[k]);
    assert Housed(Before(vals, l), AfterScan(vals, k), vals[k].out[i], p.0[k][i].id);
    PassKeepsWritten(vals, l);
  }

  lemma AtWhole(b: seq<byte>)
    ensures At(b, 0, b)
  {
  }

  lemma PassKeepsWritten(vals: seq<Value>, l: nat)
    requires Total(vals) < U64 && forall m {:trigger vals[m]} :: 0 <= m < |vals| ==> WellFormed(vals[m])
    requires l < |vals|
    ensures FrozenAlike(Before(vals, l), AfterScan(vals, l))
  {
    hide EncodeStream;
    hide Inv;
    hide Timely;
    hide Served;
    hide Ready;
    hide FrozenAlike;
    hide ScanAll;
    BeforeInv(vals, l);
    assert WellFormed(vals[l]);
    ScanAllReady(Before(vals, l), vals[l].ws, vals[l].mem);
  }

  /**
    Sharing across values: cells at one address are shared exactly when the later window's home, decided from the
    state in which its value begins, is the component that the earlier value's scan gave the earlier window.
   */
  lemma SharedAcross(input: seq<byte>, at: nat, vals: seq<Value>, k: nat, i: nat, p: nat, l: nat, j: nat, q: nat)
    requires Sent(input, at, vals) && Within(vals, k, i, p) && Within(vals, l, j, q) && k < l
    ensures vals[l].out[j] in vals[l].ws && Resolves(AfterScan(vals, k), vals[k].out[i])
    ensures var r, v := DecodeStream(input, at, Counts(vals)), vals[l];
            && r.Ok? && Shaped(vals, r.value.0)
            && (SameCell(r.value.0[k][i], p, r.value.0[l][j], q)
                <==> Address(vals, k, i, p) == Address(vals, l, j, q)
                     && Home(Before(vals, l), v.ws, v.out[j], v.mem)
                        == Some(GroupOf(AfterScan(vals, k), vals[k].out[i])))
  {
    hide DecodeStream;
    hide EncodeStream;
    hide Home;
    hide At;
    hide Inv;
    hide Timely;
    hide ScanAll;
    hide StreamBytes;
    SharingExact(input, at, vals, k, i, p, l, j, q);
    WrittenBefore(vals, k, i, l);
    assert WellFormed(vals[l]);
    AllValid(vals[l]);
    BeforeInv(vals, l);
    EachAtHome(Before(vals, l), vals[l].ws, vals[l].out[j], vals[l].mem);
  }

  /** Where nothing live is older than a written record when the later value begins, its host decides. */
  lemma SharedAcrossHost(input: seq<byte>, at: nat, vals: seq<Value>, k: nat, i: nat, p: nat, l: nat, j: nat, q: nat)
    requires Sent(input, at, vals) && Within(vals, k, i, p) && Within(vals, l, j, q) && k < l
             && Settled(Before(vals, l))
    ensures Resolves(AfterScan(vals, k), vals[k].out[i])
    ensures var r, v := DecodeStream(input, at, Counts(vals)), vals[l];
            && r.Ok? && Shaped(vals, r.value.0)
            && (SameCell(r.value.0[k][i], p, r.value.0[l][j], q)
                <==> Address(vals, k, i, p) == Address(vals, l, j, q)
                     && Host(Before(vals, l), v.out[j], v.mem) == Some(GroupOf(AfterScan(vals, k), vals[k].out[i])))
  {
    hide DecodeStream;
    hide EncodeStream;
    hide Home;
    hide At;
    hide Inv;
    hide Timely;
    hide Settled;
    hide Host;
    hide AfterScan;
    hide StreamBytes;
    SharedAcross(input, at, vals, k, i, p, l, j, q);
    assert WellFormed(vals[l]);
    AllValid(vals[l]);
    BeforeInv(vals, l);
    SettledHomes(Before(vals, l), vals[l].ws, vals[l].out[j], vals[l].mem);
  }

  /**
    A stream's first value: sharing exactly as in memory, and contents over the whole capacity, to the bit exactly
    where the decoder loses no NaN.
   */
  lemma FirstValue(input: seq<byte>, at: nat, vals: seq<Value>, i: nat, p: nat, j: nat, q: nat)
    requires Sent(input, at, vals) && Within(vals, 0, i, p) && Within(vals, 0, j, q)
    ensures var r := DecodeStream(input, at, Counts(vals));
            && r.Ok? && Shaped(vals, r.value.0)
            && r.value.0[0][i].len == vals[0].out[i].len && r.value.0[0][i].cap == vals[0].out[i].cap
            && Cell(r.value.1, r.value.0[0][i], p) == Held(vals[0].mem(Address(vals, 0, i, p)))
            && (Cell(r.value.1, r.value.0[0][i], p) == vals[0].mem(Address(vals, 0, i, p))
                <==> !Loses(KIND, Pattern(vals[0].mem(Address(vals, 0, i, p)))))
            && (SameCell(r.value.0[0][i], p, r.value.0[0][j], q) <==> Address(vals, 0, i, p) == Address(vals, 0, j, q))
  {
    hide Sent;
    hide DecodeStream;
    hide EncodeStream;
    hide InStep;
    hide Serves;
    hide Host;
    FirstBefore(vals);
    SharedIffOneHost(input, at, vals, 0, i, p, j, q);
    Received(input, at, vals);
    var r, e := DecodeStream(input, at, Counts(vals)), EncodeStream(vals);
    assert CameBack(e, r.value.1, vals, 0, r.value.0[0]);
    ServedAtOnce(e.born, r.value.1, Mems(vals), vals[0].out[i], r.value.0[0][i], p);
    SentTyped(input, at, vals, 0);
    HeldExact(vals[0].mem, Address(vals, 0, i, p));
  }

  lemma FormedTyped(v: Value)
    requires WellFormed(v)
    ensures Typed(v.mem)
  {
    hide Typed;
  }

  lemma SentTyped(input: seq<byte>, at: nat, vals: seq<Value>, k: nat)
    requires Sent(input, at, vals) && k < |vals|
    ensures Typed(vals[k].mem)
  {
    hide At;
    hide StreamBytes;
    FormedTyped(vals[k]);
  }

  /** The decoder keeps an element of typed memory as it is exactly if it is no NaN that is lost. */
  lemma HeldExact(mem: Memory, a: nat)
    requires Typed(mem)
    ensures Held(mem(a)) == mem(a) <==> !Loses(KIND, Pattern(mem(a)))
  {
    TypedPattern(mem, a);
  }

  lemma FirstBefore(vals: seq<Value>)
    requires |vals| > 0
    ensures Before(vals, 0) == EMPTY && Settled(EMPTY)
    ensures forall w, mem :: Host(EMPTY, w, mem) == None
  {
    assert vals[..0] == [];
  }

  lemma ServedAtOnce(born: seq<Birth>, d: Decoder, mems: seq<Memory>, w: Window, s: Slice, p: nat)
    requires Serves(born, d, mems, 0, w, s) && p < w.cap
    ensures s.len == w.len && s.cap == w.cap && Cell(d, s, p) == Held(mems[0](w.ptr + p))
  {
    hide Dense;
  }

  // ---------------------------------------------------------------- contents

  ghost predicate UnwrittenAt(mems: seq<Memory>, g: nat, k: nat, a: nat)
    requires g < |mems| && k < |mems|
  {
    mems[g](a) == mems[k](a)
  }

  /** The dense addresses under the window's length: below it, and below the record's dense prefix. */
  ghost predicate DenseUnder(born: seq<Birth>, d: Decoder, w: Window, s: Slice, a: nat)
    requires s.id < |born| && s.id in d.shared
  {
    w.ptr <= a < w.ptr + w.len && a < born[s.id].origin + Dense(d.shared[s.id])
  }

  /** The dense part of the record under the window's length is as it was when the record was written. */
  ghost predicate DenseUnwritten(born: seq<Birth>, d: Decoder, mems: seq<Memory>, k: nat, w: Window, s: Slice)
    requires s.id < |born| && born[s.id].gen < |mems| && k < |mems| && s.id in d.shared
  {
    forall a: nat :: DenseUnder(born, d, w, s, a) ==> UnwrittenAt(mems, born[s.id].gen, k, a)
  }

  /** Nothing in the dense part under the window's length was lost when the record was read. */
  ghost predicate DenseKept(born: seq<Birth>, d: Decoder, mems: seq<Memory>, w: Window, s: Slice)
    requires s.id < |born| && born[s.id].gen < |mems| && s.id in d.shared
  {
    forall a: nat :: DenseUnder(born, d, w, s, a) ==> !Loses(KIND, Pattern(mems[born[s.id].gen](a)))
  }

  /** Memory now holds what the decoder kept, throughout the dense part under the window's length. */
  ghost predicate DenseAsKept(born: seq<Birth>, d: Decoder, mems: seq<Memory>, k: nat, w: Window, s: Slice)
    requires s.id < |born| && born[s.id].gen < |mems| && k < |mems| && s.id in d.shared
  {
    forall a: nat :: DenseUnder(born, d, w, s, a) ==> Held(mems[born[s.id].gen](a)) == mems[k](a)
  }

  /** Every element of the slice's length is what memory holds while value `k` is encoded. */
  ghost predicate ShowsLive(d: Decoder, mem: Memory, w: Window, s: Slice) {
    forall j: nat {:trigger Cell(d, s, j)} :: j < w.len ==> Cell(d, s, j) == mem(w.ptr + j)
  }

  lemma ServesKnown(born: seq<Birth>, d: Decoder, mems: seq<Memory>, k: nat, w: Window, s: Slice)
    requires Serves(born, d, mems, k, w, s)
    ensures s.id < |born| && born[s.id].gen < |mems| && k < |mems| && s.id in d.shared
  {
    hide Dense;
    hide Held;
  }

  /** A slice shows live contents exactly when memory holds, over the dense part, what was kept of it. */
  lemma LiveIffAsKept(born: seq<Birth>, d: Decoder, mems: seq<Memory>, k: nat, w: Window, s: Slice)
    requires Serves(born, d, mems, k, w, s) && w.Valid()
    ensures ShowsLive(d, mems[k], w, s) <==> DenseAsKept(born, d, mems, k, w, s)
  {
    hide Dense;
    hide Held;
    var g := born[s.id].gen;
    if DenseAsKept(born, d, mems, k, w, s) {
      forall j: nat {:trigger Cell(d, s, j)} | j < w.len
        ensures Cell(d, s, j) == mems[k](w.ptr + j)
      {
        if s.off + j < Dense(d.shared[s.id]) {
          assert DenseUnder(born, d, w, s, w.ptr + j);
        }
      }
    }
    if ShowsLive(d, mems[k], w, s) {
      forall a: nat | DenseUnder(born, d, w, s, a)
        ensures Held(mems[g](a)) == mems[k](a)
      {
        assert Cell(d, s, a - w.ptr) == mems[k](w.ptr + (a - w.ptr));
      }
    }
  }

  /**
    If nothing dense was lost, a slice shows live contents exactly when the dense part of its record was not written
    since; if nothing dense was written since, exactly when nothing was lost.
   */
  lemma LiveIffUnwritten(born: seq<Birth>, d: Decoder, mems: seq<Memory>, k: nat, w: Window, s: Slice)
    requires Serves(born, d, mems, k, w, s) && w.Valid() && Typed(mems[born[s.id].gen])
    ensures ShowsLive(d, mems[k], w, s) <==> DenseAsKept(born, d, mems, k, w, s)
    ensures DenseKept(born, d, mems, w, s)
        ==> (ShowsLive(d, mems[k], w, s) <==> DenseUnwritten(born, d, mems, k, w, s))
    ensures DenseUnwritten(born, d, mems, k, w, s)
        ==> (ShowsLive(d, mems[k], w, s) <==> DenseKept(born, d, mems, w, s))
  {
    hide Serves;
    hide ShowsLive;
    hide DenseUnder;
    hide Held;
    hide Loses;
    ServesKnown(born, d, mems, k, w, s);
    LiveIffAsKept(born, d, mems, k, w, s);
    var g := born[s.id].gen;
    forall a: nat
      ensures Held(mems[g](a)) == mems[g](a) <==> !Loses(KIND, Pattern(mems[g](a)))
    {
      HeldExact(mems[g], a);
    }
    assert forall a: nat :: UnwrittenAt(mems, g, k, a) <==> mems[g](a) == mems[k](a);
  }

  /** The same over whole streams. */
  lemma LiveContents(input: seq<byte>, at: nat, vals: seq<Value>, k: nat, i: nat)
    requires Sent(input, at, vals) && k < |vals| && i < |vals[k].out|
    ensures var r, e := DecodeStream(input, at, Counts(vals)), EncodeStream(vals);
            && r.Ok? && Shaped(vals, r.value.0)
            && Serves(e.born, r.value.1, Mems(vals), k, vals[k].out[i], r.value.0[k][i])
    ensures var p, born, w := DecodeStream(input, at, Counts(vals)).value, EncodeStream(vals).born, vals[k].out[i];
            && (ShowsLive(p.1, vals[k].mem, w, p.0[k][i])
                <==> DenseAsKept(born, p.1, Mems(vals), k, w, p.0[k][i]))
            && (DenseKept(born, p.1, Mems(vals), w, p.0[k][i])
                ==> (ShowsLive(p.1, vals[k].mem, w, p.0[k][i])
                     <==> DenseUnwritten(born, p.1, Mems(vals), k, w, p.0[k][i])))
            && (DenseUnwritten(born, p.1, Mems(vals), k, w, p.0[k][i])
                ==> (ShowsLive(p.1, vals[k].mem, w, p.0[k][i])
                     <==> DenseKept(born, p.1, Mems(vals), w, p.0[k][i])))
  {
    hide DecodeStream;
    hide EncodeStream;
    hide At;
    hide InStep;
    hide Serves;
    hide ShowsLive;
    hide DenseUnwritten;
    hide DenseKept;
    hide DenseAsKept;
    Received(input, at, vals);
    var r, e := DecodeStream(input, at, Counts(vals)), EncodeStream(vals);
    assert CameBack(e, r.value.1, vals, k, r.value.0[k]);
    assert WellFormed(vals[k]);
    AllValid(vals[k]);
    BornTyped(vals, e.born, r.value.1, k, vals[k].out[i], r.value.0[k][i]);
    LiveIffUnwritten(e.born, r.value.1, Mems(vals), k, vals[k].out[i], r.value.0[k][i]);
  }

  lemma BornTyped(vals: seq<Value>, born: seq<Birth>, d: Decoder, k: nat, w: Window, s: Slice)
    requires Serves(born, d, Mems(vals), k, w, s)
    requires forall m {:trigger vals[m]} :: 0 <= m < |vals| ==> WellFormed(vals[m])
    ensures s.id < |born| && born[s.id].gen < |vals| && Typed(Mems(vals)[born[s.id].gen])
  {
    hide Typed;
    hide Serves;
    hide WellFormed;
    hide Mems;
    ServesKnown(born, d, Mems(vals), k, w, s);
    FormedTyped(vals[born[s.id].gen]);
  }

  // ---------------------------------------------------------------- where sharing is lost

  /** `wide` covers all of `a`, and more. */
  ghost predicate Wider(a: Window, wide: Window) {
    && a.Valid() && wide.Valid() && 0 < a.cap && wide.Send() < U64
    && wide.ptr <= a.ptr && a.Send() <= wide.Send() && a.cap < wide.cap
  }

  /** The second of two values holds the window of the first again, and a wider one over it. */
  ghost function Widened(a: Window, wide: Window, mem: Memory): seq<Value> {
    [Value([a], [a], mem), Value([a, wide], [a, wide], mem)]
  }

  lemma ScanFounds(a: Window, mem: Memory)
    ensures Scan(EMPTY, a, mem) == Create(EMPTY, a)
  {
    assert CacheAfter(EMPTY, a, mem) == map[];
  }

  lemma FirstWritten(a: Window, wide: Window, mem: Memory)
    requires Wider(a, wide) && Typed(mem)
    ensures var c := Comp(a.ptr, a.Send(), a.ptr, [SlotKey(0, a)], Emitted(0, Dense(Region(mem, a.ptr, a.Send()))));
            Before(Widened(a, wide, mem), 1).comps == [c] && Before(Widened(a, wide, mem), 1).cache == map[]
  {
    hide Dense;
    hide Region;
    var v := Value([a], [a], mem);
    assert Widened(a, wide, mem)[..1] == [v] && [v][..0] == [] && [a][..0] == [];
    ScanFounds(a, mem);
    assert ScanAll(EMPTY, [], mem) == EMPTY && ScanAll(EMPTY, [a], mem) == Create(EMPTY, a);
    var e0 := Encoder(Create(EMPTY, a), []);
    assert EncodeSlots(e0, [], mem) == e0 && EncodeSlots(e0, [a], mem) == EncodeSlot(e0, a, mem);
    assert EncodeStream([]) == Encoder(EMPTY, []);
    assert EncodeStream([v]).st == EncodeSlot(e0, a, mem).st.(gen := 1);
  }

  /** The narrow window joins the first record and the wide one founds its own: memory they share comes back apart. */
  lemma SharingLost(input: seq<byte>, at: nat, a: Window, wide: Window, mem: Memory, p: nat, q: nat)
    requires Wider(a, wide) && Typed(mem) && Sent(input, at, Widened(a, wide, mem))
    requires p < a.cap && q < wide.cap && a.ptr + p == wide.ptr + q
    ensures var r := DecodeStream(input, at, Counts(Widened(a, wide, mem)));
            r.Ok? && Shaped(Widened(a, wide, mem), r.value.0) && !SameCell(r.value.0[1][0], p, r.value.0[1][1], q)
  {
    hide Sent;
    hide DecodeStream;
    hide EncodeStream;
    hide Dense;
    hide Region;
    var vals := Widened(a, wide, mem);
    FirstWritten(a, wide, mem);
    var st := Before(vals, 1);
    WrittenServes(Comp(a.ptr, a.Send(), a.ptr, [SlotKey(0, a)], Live), 0, a, mem);
    assert Host(st, a, mem) == Some(0) && Host(st, wide, mem) == None;
    SharedIffOneHost(input, at, vals, 1, 0, p, 1, q);
  }

  /** Such streams are sent for every pair of such windows. */
  lemma SharingLostSent(a: Window, wide: Window, mem: Memory)
    requires Wider(a, wide) && Typed(mem)
    ensures Sent(StreamBytes(Widened(a, wide, mem)), 0, Widened(a, wide, mem))
  {
    hide StreamBytes;
    var vals := Widened(a, wide, mem);
    assert vals[..1] == [vals[0]] && [vals[0]][..0] == [];
    assert Total([]) == 0 && Total([vals[0]]) == 1 && Total(vals) == 3;
  }
}
