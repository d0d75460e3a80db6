/**
  Without emissions the scan computes the connected components of window
  overlap, whatever the order of the scan.
 */
module Components {
  import opened Grouping
  import opened GroupingRuns

  ghost predicate Overlap(a: Window, b: Window) { a.ptr < b.Send() && b.ptr < a.Send() }

  ghost predicate Path(s: set<Window>, path: seq<Window>) {
    && 0 < |path|
    && (forall k :: 0 <= k < |path| ==> path[k] in s)
    && (forall i, j :: 0 <= i && j == i + 1 < |path| ==> Overlap(path[i], path[j]))
  }

  ghost predicate Links(s: set<Window>, path: seq<Window>, a: Window, b: Window) {
    Path(s, path) && path[0] == a && path[|path| - 1] == b
  }

  /** A chain of pairwise overlapping windows of `s` leads from `a` to `b`. */
  ghost predicate Connected(s: set<Window>, a: Window, b: Window) {
    exists path :: Links(s, path, a, b)
  }

  lemma ConnectedSelf(s: set<Window>, a: Window)
    requires a in s
    ensures Connected(s, a, a)
  {
    assert Links(s, [a], a, a);
  }

  lemma ConnectedStep(s: set<Window>, a: Window, b: Window)
    requires a in s && b in s && Overlap(a, b)
    ensures Connected(s, a, b)
  {
    assert Links(s, [a, b], a, b);
  }

  lemma ConnectedWider(s: set<Window>, t: set<Window>, a: Window, b: Window)
    requires Connected(s, a, b) && s <= t
    ensures Connected(t, a, b)
  {
    var path :| Links(s, path, a, b);
    assert Links(t, path, a, b);
  }

  lemma ConnectedTrans(s: set<Window>, a: Window, b: Window, c: Window)
    requires Connected(s, a, b) && Connected(s, b, c)
    ensures Connected(s, a, c)
  {
    var p :| Links(s, p, a, b);
    var q :| Links(s, q, b, c);
    var r := p + q[1..];
    forall i, j | 0 <= i && j == i + 1 < |r|
      ensures Overlap(r[i], r[j])
    {
      if j >= |p| {
        assert r[j] == q[j - |p| + 1] && r[i] == q[i - |p| + 1];
      }
    }
    assert r[|r| - 1] == c;
    assert Links(s, r, a, c);
  }

  lemma ConnectedSym(s: set<Window>, a: Window, b: Window)
    requires Connected(s, a, b)
    ensures Connected(s, b, a)
  {
    var p :| Links(s, p, a, b);
    var r := seq(|p|, k requires 0 <= k < |p| => p[|p| - 1 - k]);
    forall i, j | 0 <= i && j == i + 1 < |r|
      ensures Overlap(r[i], r[j])
    {
      assert Overlap(p[|p| - 1 - j], p[|p| - 1 - i]);
    }
    assert Links(s, r, b, a);
  }

  // ---------------------------------------------------------------- scans without emission

  /** Scans the windows in order. */
  function ScanAll(st: State, ws: seq<Window>, mem: Memory): State {
    if ws == [] then st else Scan(ScanAll(st, ws[..|ws| - 1], mem), ws[|ws| - 1], mem)
  }

  ghost predicate Member(s: set<Window>, gen: nat, m: SlotKey) {
    m.gen == gen && m.win in s && 0 < m.win.cap
  }

  ghost predicate MembersConnected(s: set<Window>, c: Comp) {
    forall k, m {:trigger Connected(s, c.members[k].win, c.members[m].win)} ::
      0 <= k < |c.members| && 0 <= m < |c.members| ==> Connected(s, c.members[k].win, c.members[m].win)
  }

  ghost predicate CompOver(s: set<Window>, gen: nat, c: Comp) {
    (forall k :: 0 <= k < |c.members| ==> Member(s, gen, c.members[k])) && MembersConnected(s, c)
  }

  /** The windows of `s` have been scanned and nothing has been emitted. */
  ghost predicate Scanned(st: State, s: set<Window>) {
    && Inv(st) && st.cache == map[]
    && (forall i :: 0 <= i < |st.comps| ==> !st.comps[i].status.Emitted? && CompOver(s, st.gen, st.comps[i]))
    && (forall w {:trigger Resolved(st, w)} :: w in s ==> Resolved(st, w))
  }

  ghost predicate Resolved(st: State, w: Window) { w.Valid() && 0 < w.cap && SlotKey(st.gen, w) in st.slots }

  /** A member of a component that meets `w` is connected to `w`. */
  lemma MeetsWindow(s: set<Window>, gen: nat, c: Comp, w: Window, m: SlotKey)
    requires Joins(c, w) && Covered(c) && CompOver(s, gen, c) && w in s && 0 < w.cap && m in c.members
    ensures Connected(s, m.win, w)
  {
    var k0 :| 0 <= k0 < |c.members| && c.members[k0].win.ptr == c.origin;
    assert Holds(c, c.members[k0].win) && Member(s, gen, c.members[k0]);
    var x := Max(c.origin, w.ptr);
    assert CoveredAt(c, x);
    var k :| 0 <= k < |c.members| && Covers(c.members[k], x);
    assert Member(s, gen, c.members[k]);
    ConnectedStep(s, c.members[k].win, w);
    var i :| 0 <= i < |c.members| && c.members[i] == m;
    ConnectedTrans(s, m.win, c.members[k].win, w);
  }

  lemma CompOverWider(s: set<Window>, t: set<Window>, gen: nat, c: Comp)
    requires CompOver(s, gen, c) && s <= t
    ensures CompOver(t, gen, c)
  {
    forall k, m | 0 <= k < |c.members| && 0 <= m < |c.members|
      ensures Connected(t, c.members[k].win, c.members[m].win)
    {
      ConnectedWider(s, t, c.members[k].win, c.members[m].win);
    }
    assert forall k :: 0 <= k < |c.members| ==> Member(s, gen, c.members[k]);
  }

  /** If every member is connected to `w`, all of them together with `w` are. */
  lemma StarConnected(s: set<Window>, gen: nat, c: Comp, w: Window)
    requires w in s && 0 < w.cap
    requires forall k :: 0 <= k < |c.members| ==> Member(s, gen, c.members[k]) && Connected(s, c.members[k].win, w)
    ensures CompOver(s, gen, c)
  {
    forall k, m | 0 <= k < |c.members| && 0 <= m < |c.members|
      ensures Connected(s, c.members[k].win, c.members[m].win)
    {
      ConnectedSym(s, c.members[m].win, w);
      ConnectedTrans(s, c.members[k].win, w, c.members[m].win);
    }
  }

  lemma JoinedConnected(st: State, s: set<Window>, w: Window, into: nat, gs: seq<nat>)
    requires Scanned(st, s) && w.Valid() && 0 < w.cap && Mergeable(st, into, gs, w)
    requires forall i: nat :: Takes(st, into, gs, i) <==> i < |st.comps| && Joins(st.comps[i], w)
    ensures CompOver(s + {w}, st.gen, Extend(MergeAll(st, into, gs), into, w).comps[into])
  {
    MergeAllFacts(st, into, gs, w);
    var t, m := s + {w}, MergeAll(st, into, gs);
    var u := Extend(m, into, w).comps[into];
    forall k | 0 <= k < |u.members|
      ensures Member(t, st.gen, u.members[k]) && Connected(t, u.members[k].win, w)
    {
      if k < |m.comps[into].members| {
        var key := m.comps[into].members[k];
        assert u.members[k] == key && key in m.comps[into].members;
        var i: nat :| Takes(st, into, gs, i) && key in st.comps[i].members;
        CompOverWider(s, t, st.gen, st.comps[i]);
        MeetsWindow(t, st.gen, st.comps[i], w, key);
      } else {
        ConnectedSelf(t, w);
      }
    }
    StarConnected(t, st.gen, u, w);
  }

  lemma LiveJoinScanned(st: State, s: set<Window>, w: Window, into: nat, gs: seq<nat>)
    requires Scanned(st, s) && w.Valid() && 0 < w.cap && Mergeable(st, into, gs, w)
    requires forall i: nat :: Takes(st, into, gs, i) <==> i < |st.comps| && Joins(st.comps[i], w)
    ensures Scanned(Extend(MergeAll(st, into, gs), into, w), s + {w})
  {
    LiveJoinInv(st, w, into, gs);
    MergeAllFacts(st, into, gs, w);
    JoinedConnected(st, s, w, into, gs);
    var r := Extend(MergeAll(st, into, gs), into, w);
    forall i: nat | i < |r.comps|
      ensures !r.comps[i].status.Emitted? && CompOver(s + {w}, r.gen, r.comps[i])
    {
      if i != into {
        CompOverWider(s, s + {w}, st.gen, st.comps[i]);
        assert r.comps[i].members == st.comps[i].members;
      }
    }
    forall v | v in s + {w}
      ensures Resolved(r, v)
    {
      assert v in s ==> Resolved(st, v);
    }
  }

  lemma CreateScanned(st: State, s: set<Window>, w: Window)
    requires Scanned(st, s) && w.Valid() && 0 < w.cap && forall i: nat :: i < |st.comps| ==> !Joins(st.comps[i], w)
    ensures Scanned(Create(st, w), s + {w})
  {
    CreateInv(st, w);
    ConnectedSelf(s + {w}, w);
    var r := Create(st, w);
    forall i: nat | i < |r.comps|
      ensures !r.comps[i].status.Emitted? && CompOver(s + {w}, r.gen, r.comps[i])
    {
      if i < |st.comps| {
        CompOverWider(s, s + {w}, st.gen, st.comps[i]);
      }
    }
    forall v | v in s + {w}
      ensures Resolved(r, v)
    {
      assert v in s ==> Resolved(st, v);
    }
  }

  lemma ScanScanned(st: State, s: set<Window>, w: Window, mem: Memory)
    requires Scanned(st, s) && w.Valid() && 0 < w.cap
    ensures Scanned(Scan(st, w, mem), s + {w})
  {
    assert Host(st, w, mem) == None && CacheAfter(st, w, mem) == map[];
    assert st.(cache := map[]) == st;
    var cs := Candidates(st.comps, w, None, |st.comps|);
    if cs == [] {
      assert forall i: nat :: i < |st.comps| && Joins(st.comps[i], w) ==> i in cs;
      CreateScanned(st, s, w);
    } else {
      CandidatesMergeable(st, w, None);
      LiveJoinInv(st, w, cs[0], cs[1..]);
      LiveJoinScanned(st, s, w, cs[0], cs[1..]);
    }
  }

  function WindowsOf(ws: seq<Window>): set<Window> { set w | w in ws }

  /** Scanning any sequence of non-empty windows from an empty state. */
  lemma {:induction false} ScanAllScanned(ws: seq<Window>, mem: Memory)
    requires forall k :: 0 <= k < |ws| ==> ws[k].Valid() && 0 < ws[k].cap
    ensures Scanned(ScanAll(EMPTY, ws, mem), WindowsOf(ws))
  {
    if ws != [] {
      var vs, w := ws[..|ws| - 1], ws[|ws| - 1];
      ScanAllScanned(vs, mem);
      ScanScanned(ScanAll(EMPTY, vs, mem), WindowsOf(vs), w, mem);
      assert ws == vs + [w];
      assert WindowsOf(ws) == WindowsOf(vs) + {w};
    }
  }

  // ---------------------------------------------------------------- the partition

  /** The component a scanned window resolves to; no component at all for a window never scanned. */
  function Resolve(st: State, w: Window): nat {
    var key := SlotKey(st.gen, w);
    if key in st.slots then st.slots[key] else |st.comps|
  }

  lemma ResolvedSlot(st: State, s: set<Window>, a: Window)
    requires Scanned(st, s) && a in s
    ensures SlotKey(st.gen, a) in st.slots && Resolve(st, a) < |st.comps|
    ensures var c := st.comps[Resolve(st, a)];
            c.status.Live? && Covered(c) && CompOver(s, st.gen, c) && Holds(c, a) && SlotKey(st.gen, a) in c.members
  {
    assert Resolved(st, a);
    assert SlotOk(st, SlotKey(st.gen, a));
  }

  lemma OverlapSame(st: State, s: set<Window>, a: Window, b: Window)
    requires Scanned(st, s) && a in s && b in s && Overlap(a, b)
    ensures Resolve(st, a) == Resolve(st, b)
  {
    ResolvedSlot(st, s, a);
    ResolvedSlot(st, s, b);
    if Resolve(st, a) != Resolve(st, b) {
      LiveApart(st.comps, Resolve(st, a), Resolve(st, b));
    }
  }

  lemma {:induction false} PathSame(st: State, s: set<Window>, path: seq<Window>)
    requires Scanned(st, s) && Path(s, path)
    ensures Resolve(st, path[0]) == Resolve(st, path[|path| - 1])
    decreases |path|
  {
    if |path| > 1 {
      var p := path[..|path| - 1];
      assert forall k :: 0 <= k < |p| ==> p[k] == path[k];
      PathSame(st, s, p);
      OverlapSame(st, s, path[|path| - 2], path[|path| - 1]);
    }
  }

  /** Two windows share a component exactly when a chain of overlapping windows joins them. */
  lemma ResolveIffConnected(st: State, s: set<Window>, a: Window, b: Window)
    requires Scanned(st, s) && a in s && b in s
    ensures Resolve(st, a) == Resolve(st, b) <==> Connected(s, a, b)
  {
    if Resolve(st, a) == Resolve(st, b) {
      ResolvedSlot(st, s, a);
      ResolvedSlot(st, s, b);
      var c := st.comps[Resolve(st, a)];
      var k :| 0 <= k < |c.members| && c.members[k] == SlotKey(st.gen, a);
      var m :| 0 <= m < |c.members| && c.members[m] == SlotKey(st.gen, b);
      assert Connected(s, c.members[k].win, c.members[m].win);
    }
    if Connected(s, a, b) {
      var path :| Links(s, path, a, b);
      PathSame(st, s, path);
    }
  }

  /** The span of a window's component is the hull of the windows connected to it. */
  lemma SpanIsHull(st: State, s: set<Window>, a: Window)
    requires Scanned(st, s) && a in s
    ensures Resolve(st, a) < |st.comps|
    ensures forall b :: b in s && Connected(s, a, b) ==> Holds(st.comps[Resolve(st, a)], b)
    ensures exists b :: b in s && Connected(s, a, b) && b.ptr == st.comps[Resolve(st, a)].origin
    ensures exists b :: b in s && Connected(s, a, b) && b.Send() == st.comps[Resolve(st, a)].end
  {
    ResolvedSlot(st, s, a);
    var c := st.comps[Resolve(st, a)];
    forall b | b in s && Connected(s, a, b)
      ensures Holds(c, b)
    {
      ResolveIffConnected(st, s, a, b);
      ResolvedSlot(st, s, b);
    }
    var k :| 0 <= k < |c.members| && c.members[k] == SlotKey(st.gen, a);
    var k0 :| 0 <= k0 < |c.members| && c.members[k0].win.ptr == c.origin;
    var k1 :| 0 <= k1 < |c.members| && c.members[k1].win.Send() == c.end;
    assert Member(s, st.gen, c.members[k0]) && Member(s, st.gen, c.members[k1]);
    assert Connected(s, c.members[k].win, c.members[k0].win) && Connected(s, c.members[k].win, c.members[k1].win);
  }

  /** The partition and the spans depend only on the set of windows, not on the order of the scan. */
  lemma OrderIndependent(ws: seq<Window>, vs: seq<Window>, mem: Memory, s: State, t: State, a: Window, b: Window)
    requires forall k :: 0 <= k < |ws| ==> ws[k].Valid() && 0 < ws[k].cap
    requires forall k :: 0 <= k < |vs| ==> vs[k].Valid() && 0 < vs[k].cap
    requires WindowsOf(ws) == WindowsOf(vs) && a in ws && b in ws
    requires s == ScanAll(EMPTY, ws, mem) && t == ScanAll(EMPTY, vs, mem)
    ensures Resolve(s, a) == Resolve(s, b) <==> Resolve(t, a) == Resolve(t, b)
    ensures Resolve(s, a) < |s.comps| && Resolve(t, a) < |t.comps|
    ensures s.comps[Resolve(s, a)].origin == t.comps[Resolve(t, a)].origin
    ensures s.comps[Resolve(s, a)].end == t.comps[Resolve(t, a)].end
  {
    hide Connected;
    hide Scanned;
    hide ScanAll;
    var all := WindowsOf(ws);
    ScanAllScanned(ws, mem);
    ScanAllScanned(vs, mem);
    assert a in all && b in all;
    ResolveIffConnected(s, all, a, b);
    ResolveIffConnected(t, all, a, b);
    SpanIsHull(s, all, a);
    SpanIsHull(t, all, a);
  }
}
