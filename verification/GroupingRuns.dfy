/**
  What every run of scans and emissions keeps: live spans are disjoint, every
  component is covered by its member windows without a hole, and every slot
  resolves to a component that holds its window.
 */
module GroupingRuns {
  import opened Grouping

  ghost predicate Covers(key: SlotKey, x: int) { key.win.ptr <= x < key.win.Send() }

  ghost predicate Holds(c: Comp, w: Window) { c.origin <= w.ptr && w.Send() <= c.end }

  /** The creation key stays inside the span, and strictly below its end unless the span is empty. */
  ghost predicate Geometry(c: Comp) {
    c.origin <= c.sortKey <= c.end && (c.origin < c.end ==> c.sortKey < c.end)
  }

  /** The span is the hull of the member windows. */
  ghost predicate Hull(c: Comp) {
    && (forall k :: 0 <= k < |c.members| ==> Holds(c, c.members[k].win))
    && (exists k :: 0 <= k < |c.members| && c.members[k].win.ptr == c.origin)
    && (exists k :: 0 <= k < |c.members| && c.members[k].win.Send() == c.end)
  }

  /** Some member window covers `x`. */
  ghost predicate CoveredAt(c: Comp, x: int) {
    exists k :: 0 <= k < |c.members| && Covers(c.members[k], x)
  }

  /** The member windows cover the whole span: no hole. */
  ghost predicate Covered(c: Comp) {
    Hull(c) && forall x :: c.origin <= x < c.end ==> CoveredAt(c, x)
  }

  ghost predicate Apart(c: Comp, d: Comp) { c.end <= d.origin || d.end <= c.origin }

  ghost predicate CompsOk(comps: seq<Comp>) {
    && (forall i :: 0 <= i < |comps| && !comps[i].status.Absorbed? ==> Geometry(comps[i]) && Covered(comps[i]))
    && (forall i, j :: 0 <= i < j < |comps| && comps[i].status.Live? && comps[j].status.Live?
          ==> Apart(comps[i], comps[j]))
  }

  /** The slot resolves to a component that is not absorbed, holds the window, and lists it while live. */
  ghost predicate SlotOk(st: State, key: SlotKey)
    requires key in st.slots
  {
    var i := st.slots[key];
    && i < |st.comps| && !st.comps[i].status.Absorbed? && Holds(st.comps[i], key.win)
    && (st.comps[i].status.Live? ==> key in st.comps[i].members)
  }

  ghost predicate Inv(st: State) {
    CompsOk(st.comps) && (forall key :: key in st.slots ==> SlotOk(st, key)) && CacheSound(st)
  }

  // ---------------------------------------------------------------- merging

  /** Covered up to the window that is about to join. */
  ghost predicate Partial(c: Comp, w: Window) {
    Joins(c, w) && Hull(c) && forall x :: c.origin <= x < c.end ==> Covers(SlotKey(0, w), x) || CoveredAt(c, x)
  }

  ghost predicate United(c: Comp, d: Comp, u: Comp) {
    u == c.(origin := Min(c.origin, d.origin), end := Max(c.end, d.end), members := c.members + d.members)
  }

  lemma UniteCovers(c: Comp, d: Comp, u: Comp, x: int)
    requires United(c, d, u) && (CoveredAt(c, x) || CoveredAt(d, x))
    ensures CoveredAt(u, x)
  {
    if CoveredAt(c, x) {
      var k :| 0 <= k < |c.members| && Covers(c.members[k], x);
      assert u.members[k] == c.members[k];
    } else {
      var k :| 0 <= k < |d.members| && Covers(d.members[k], x);
      assert u.members[|c.members| + k] == d.members[k];
    }
  }

  /** The union of two components that both meet the window is covered up to that window. */
  lemma UnitePartial(c: Comp, d: Comp, u: Comp, w: Window)
    requires Partial(c, w) && Joins(d, w) && Covered(d) && United(c, d, u)
    ensures Partial(u, w)
  {
    UniteHull(c, d, u);
    forall x | u.origin <= x < u.end
      ensures Covers(SlotKey(0, w), x) || CoveredAt(u, x)
    {
      if CoveredAt(c, x) || CoveredAt(d, x) {
        UniteCovers(c, d, u, x);
      }
    }
  }

  lemma UniteHull(c: Comp, d: Comp, u: Comp)
    requires Hull(c) && Hull(d) && u.members == c.members + d.members
    requires u.origin == Min(c.origin, d.origin) && u.end == Max(c.end, d.end)
    ensures Hull(u)
  {
    var n := |c.members|;
    var k0 :| 0 <= k0 < n && c.members[k0].win.ptr == c.origin;
    var k1 :| 0 <= k1 < n && c.members[k1].win.Send() == c.end;
    var m0 :| 0 <= m0 < |d.members| && d.members[m0].win.ptr == d.origin;
    var m1 :| 0 <= m1 < |d.members| && d.members[m1].win.Send() == d.end;
    assert u.members[k0] == c.members[k0] && u.members[n + m0] == d.members[m0];
    assert u.members[k1] == c.members[k1] && u.members[n + m1] == d.members[m1];
    forall k | 0 <= k < |u.members|
      ensures Holds(u, u.members[k].win)
    {
      if k < n {
        assert Holds(c, c.members[k].win);
      } else {
        assert Holds(d, d.members[k - n].win);
      }
    }
  }

  /** Once the window itself is a member the span is covered. */
  lemma ExtendCovered(c: Comp, w: Window, key: SlotKey, u: Comp)
    requires Partial(c, w) && key.win == w
    requires u == c.(origin := Min(c.origin, w.ptr), end := Max(c.end, w.Send()), members := c.members + [key])
    ensures Covered(u)
  {
    var d := Comp(w.ptr, w.Send(), w.ptr, [key], Live);
    assert d.members[0] == key;
    UniteHull(c, d, u);
    forall x | u.origin <= x < u.end
      ensures CoveredAt(u, x)
    {
      assert Covers(SlotKey(0, w), x) ==> Covers(d.members[0], x);
      UniteCovers(c, d, u, x);
    }
  }

  /** The components a merge is allowed to see: live ones meeting the window, or an emitted host. */
  ghost predicate Mergeable(st: State, into: nat, gs: seq<nat>, w: Window) {
    && into < |st.comps| && Joins(st.comps[into], w) && Covered(st.comps[into])
    && (forall k :: 0 <= k < |gs| ==> gs[k] < |st.comps| && gs[k] != into)
    && (forall k :: 0 <= k < |gs|
          ==> st.comps[gs[k]].status.Emitted? || (Joins(st.comps[gs[k]], w) && Covered(st.comps[gs[k]])))
    && (forall k, m :: 0 <= k < m < |gs| ==> gs[k] != gs[m])
  }

  /** `i` is a live component that takes part in the merge. */
  ghost predicate Takes(st: State, into: nat, gs: seq<nat>, i: nat) {
    i < |st.comps| && st.comps[i].status.Live? && (i == into || i in gs)
  }

  /** Nothing else changes, and the live ones that take part are absorbed. */
  ghost predicate MergedFrame(st: State, r: State, into: nat, gs: seq<nat>) {
    && |r.comps| == |st.comps| && into < |r.comps| && r.cache == st.cache && r.gen == st.gen
    && forall i: nat :: i < |st.comps| && i != into ==>
         r.comps[i] == if Takes(st, into, gs, i) then st.comps[i].(status := Absorbed) else st.comps[i]
  }

  /** The united span is the hull of the spans that take part. */
  ghost predicate MergedSpan(st: State, c: Comp, into: nat, gs: seq<nat>) {
    && (exists i: nat :: Takes(st, into, gs, i) && c.origin == st.comps[i].origin)
    && (exists i: nat :: Takes(st, into, gs, i) && c.end == st.comps[i].end)
    && (forall i: nat :: Takes(st, into, gs, i) ==> c.origin <= st.comps[i].origin && st.comps[i].end <= c.end)
  }

  /** The united members are the members of those that take part. */
  ghost predicate MergedMembers(st: State, c: Comp, into: nat, gs: seq<nat>) {
    && (forall m :: m in c.members ==> exists i: nat :: Takes(st, into, gs, i) && m in st.comps[i].members)
    && (forall i: nat, m :: Takes(st, into, gs, i) && m in st.comps[i].members ==> m in c.members)
  }

  /** Exactly the slots of absorbed members are re-pointed. */
  ghost predicate MergedSlots(st: State, r: State, into: nat, gs: seq<nat>)
    requires into < |r.comps|
  {
    && (forall key :: key in st.slots ==> key in r.slots)
    && (forall key :: key in r.slots && r.slots[key] != into ==>
          && key in st.slots && r.slots[key] == st.slots[key]
          && forall i: nat :: Takes(st, into, gs, i) && i != into ==> key !in st.comps[i].members)
    && (forall key :: key in r.slots && r.slots[key] == into ==>
          (key in st.slots && st.slots[key] == into) || key in r.comps[into].members)
  }

  ghost predicate Merged(st: State, r: State, into: nat, gs: seq<nat>, w: Window) {
    && MergedFrame(st, r, into, gs)
    && Partial(r.comps[into], w) && r.comps[into].sortKey == st.comps[into].sortKey
    && MergedSpan(st, r.comps[into], into, gs)
    && MergedMembers(st, r.comps[into], into, gs)
    && MergedSlots(st, r, into, gs)
  }

  lemma MergeNothing(st: State, into: nat, w: Window)
    requires into < |st.comps| && Joins(st.comps[into], w) && Covered(st.comps[into])
    ensures Merged(st, st, into, [], w)
  {
    assert Takes(st, into, [], into);
    assert MergedSpan(st, st.comps[into], into, []);
  }

  /** A component that cannot take part changes nothing. */
  lemma MergeSkipped(st: State, prev: State, into: nat, hs: seq<nat>, w: Window, gs: seq<nat>)
    requires Merged(st, prev, into, hs, w)
    requires forall i: nat :: Takes(st, into, gs, i) <==> Takes(st, into, hs, i)
    ensures Merged(st, prev, into, gs, w)
  {
    var c := prev.comps[into];
    var i0: nat :| Takes(st, into, hs, i0) && c.origin == st.comps[i0].origin;
    var i1: nat :| Takes(st, into, hs, i1) && c.end == st.comps[i1].end;
    assert Takes(st, into, gs, i0) && Takes(st, into, gs, i1);
    forall m | m in c.members
      ensures exists i: nat :: Takes(st, into, gs, i) && m in st.comps[i].members
    {
      var i: nat :| Takes(st, into, hs, i) && m in st.comps[i].members;
      assert Takes(st, into, gs, i);
    }
  }

  lemma MergeablePrefix(st: State, into: nat, hs: seq<nat>, g: nat, w: Window)
    requires Mergeable(st, into, hs + [g], w)
    ensures Mergeable(st, into, hs, w) && g < |st.comps| && g != into && g !in hs
    ensures st.comps[g].status.Emitted? || (Joins(st.comps[g], w) && Covered(st.comps[g]))
  {
    var gs := hs + [g];
    assert gs[|hs|] == g;
    assert forall k :: 0 <= k < |hs| ==> gs[k] == hs[k];
  }

  lemma {:induction false} MergeAllFacts(st: State, into: nat, gs: seq<nat>, w: Window)
    requires Mergeable(st, into, gs, w)
    ensures Merged(st, MergeAll(st, into, gs), into, gs, w)
  {
    if gs == [] {
      MergeNothing(st, into, w);
    } else {
      var hs, g := gs[..|gs| - 1], gs[|gs| - 1];
      assert gs == hs + [g];
      MergeablePrefix(st, into, hs, g, w);
      MergeAllFacts(st, into, hs, w);
      var prev := MergeAll(st, into, hs);
      assert !Takes(st, into, hs, g);
      assert prev.comps[g] == st.comps[g];
      assert forall i: nat :: i in gs <==> i in hs || i == g;
      if st.comps[g].status.Emitted? {
        MergeSkipped(st, prev, into, hs, w, gs);
      } else {
        MergeOne(st, prev, into, hs, g, w, gs);
      }
    }
  }

  /** One more component joins the merge. */
  lemma MergeOne(st: State, prev: State, into: nat, hs: seq<nat>, g: nat, w: Window, gs: seq<nat>)
    requires Merged(st, prev, into, hs, w) && g < |st.comps| && g != into && g !in hs && prev.comps[g] == st.comps[g]
    requires Joins(st.comps[g], w) && Covered(st.comps[g])
    requires forall i: nat :: Takes(st, into, gs, i) <==> Takes(st, into, hs, i) || i == g
    ensures Merged(st, MergeInto(prev, into, g), into, gs, w)
  {
    var r := MergeInto(prev, into, g);
    var c, d, u := prev.comps[into], st.comps[g], r.comps[into];
    assert United(c, d, u);
    UnitePartial(c, d, u, w);
    MergeOneSpan(st, c, u, into, hs, g, gs);
    MergeOneMembers(st, c, u, into, hs, g, gs);
    MergeOneSlots(st, prev, into, hs, g, gs);
  }

  lemma MergeOneSpan(st: State, c: Comp, u: Comp, into: nat, hs: seq<nat>, g: nat, gs: seq<nat>)
    requires MergedSpan(st, c, into, hs) && g < |st.comps| && United(c, st.comps[g], u)
    requires forall i: nat :: Takes(st, into, gs, i) <==> Takes(st, into, hs, i) || i == g
    ensures MergedSpan(st, u, into, gs)
  {
    var i0: nat :| Takes(st, into, hs, i0) && c.origin == st.comps[i0].origin;
    var i1: nat :| Takes(st, into, hs, i1) && c.end == st.comps[i1].end;
    assert Takes(st, into, gs, i0) && Takes(st, into, gs, i1) && Takes(st, into, gs, g);
  }

  lemma MergeOneMembers(st: State, c: Comp, u: Comp, into: nat, hs: seq<nat>, g: nat, gs: seq<nat>)
    requires MergedMembers(st, c, into, hs) && g < |st.comps| && United(c, st.comps[g], u)
    requires forall i: nat :: Takes(st, into, gs, i) <==> Takes(st, into, hs, i) || i == g
    ensures MergedMembers(st, u, into, gs)
  {
    assert forall m :: m in u.members <==> m in c.members || m in st.comps[g].members;
    forall m | m in u.members
      ensures exists i: nat :: Takes(st, into, gs, i) && m in st.comps[i].members
    {
      if m in c.members {
        var i: nat :| Takes(st, into, hs, i) && m in st.comps[i].members;
        assert Takes(st, into, gs, i);
      } else {
        assert Takes(st, into, gs, g);
      }
    }
  }

  lemma MergeOneSlots(st: State, prev: State, into: nat, hs: seq<nat>, g: nat, gs: seq<nat>)
    requires MergedFrame(st, prev, into, hs) && MergedSlots(st, prev, into, hs)
    requires g < |st.comps| && g != into && prev.comps[g] == st.comps[g]
    requires forall i: nat :: Takes(st, into, gs, i) <==> Takes(st, into, hs, i) || i == g
    ensures MergedSlots(st, MergeInto(prev, into, g), into, gs)
  {
    var r := MergeInto(prev, into, g);
    assert r.comps[into].members == prev.comps[into].members + st.comps[g].members;
  }

  // ---------------------------------------------------------------- scanning

  /** With an emitted target nothing merges. */
  lemma {:induction false} MergeAllFrozen(st: State, into: nat, gs: seq<nat>)
    requires into < |st.comps| && (forall k :: 0 <= k < |gs| ==> gs[k] < |st.comps|)
    requires st.comps[into].status.Emitted?
    ensures MergeAll(st, into, gs) == st
  {
    if gs != [] {
      MergeAllFrozen(st, into, gs[..|gs| - 1]);
    }
  }

  /** The first candidate and the rest, by membership. */
  lemma CandidatesSplit(comps: seq<Comp>, w: Window, host: Option<nat>)
    requires Candidates(comps, w, host, |comps|) != []
    ensures var cs := Candidates(comps, w, host, |comps|);
            && (forall i: nat :: i == cs[0] || i in cs[1..] <==> i < |comps| && (Joins(comps[i], w) || host == Some(i)))
            && (forall k :: 0 <= k < |cs[1..]| ==> cs[1..][k] < |comps| && cs[1..][k] != cs[0])
            && (forall k, m :: 0 <= k < m < |cs[1..]| ==> cs[1..][k] != cs[1..][m])
  {
    hide Joins;
    var cs := Candidates(comps, w, host, |comps|);
    assert cs == [cs[0]] + cs[1..];
    forall i: nat
      ensures i == cs[0] || i in cs[1..] <==> i < |comps| && (Joins(comps[i], w) || host == Some(i))
    {
      assert i in cs <==> i == cs[0] || i in cs[1..];
    }
  }

  lemma CandidatesMergeable(st: State, w: Window, host: Option<nat>)
    requires CompsOk(st.comps)
    requires host.Some? ==> host.value < |st.comps| && st.comps[host.value].status.Emitted?
    requires Candidates(st.comps, w, host, |st.comps|) != []
    requires Joins(st.comps[Candidates(st.comps, w, host, |st.comps|)[0]], w)
    ensures var cs := Candidates(st.comps, w, host, |st.comps|); Mergeable(st, cs[0], cs[1..], w)
    ensures var cs := Candidates(st.comps, w, host, |st.comps|);
            forall i: nat :: Takes(st, cs[0], cs[1..], i) <==> i < |st.comps| && Joins(st.comps[i], w)
  {
    hide Candidates;
    hide Covered;
    hide Geometry;
    hide Apart;
    CandidatesSplit(st.comps, w, host);
    var gs := Candidates(st.comps, w, host, |st.comps|)[1..];
    forall k | 0 <= k < |gs|
      ensures st.comps[gs[k]].status.Emitted? || (Joins(st.comps[gs[k]], w) && Covered(st.comps[gs[k]]))
    {
      assert gs[k] in gs;
    }
  }

  /** A missed span is wholly to the right of the window and of `c`, or wholly to their left. */
  lemma OneSide(c: Comp, d: Comp, w: Window)
    requires Joins(c, w) && d.status.Live? && !Joins(d, w) && Apart(c, d) && Geometry(c) && Geometry(d)
    ensures if w.Send() <= d.origin then c.end <= d.origin else d.end <= w.ptr && d.end <= c.origin
  {
  }

  /** A live component the window does not meet stays apart from everything that meets it. */
  lemma MissedStaysApart(st: State, c: Comp, into: nat, gs: seq<nat>, w: Window, j: nat)
    requires CompsOk(st.comps) && MergedSpan(st, c, into, gs)
    requires forall i: nat :: Takes(st, into, gs, i) ==> Joins(st.comps[i], w)
    requires j < |st.comps| && st.comps[j].status.Live? && !Joins(st.comps[j], w)
    requires c.origin < w.Send()
    ensures Apart(c.(origin := Min(c.origin, w.ptr), end := Max(c.end, w.Send())), st.comps[j])
  {
    var d := st.comps[j];
    var i0: nat :| Takes(st, into, gs, i0) && c.origin == st.comps[i0].origin;
    var i1: nat :| Takes(st, into, gs, i1) && c.end == st.comps[i1].end;
    LiveApart(st.comps, i0, j);
    LiveApart(st.comps, i1, j);
    OneSide(st.comps[i0], d, w);
    OneSide(st.comps[i1], d, w);
  }

  lemma LiveApart(comps: seq<Comp>, i: nat, j: nat)
    requires CompsOk(comps) && i < |comps| && j < |comps| && i != j && comps[i].status.Live? && comps[j].status.Live?
    ensures Apart(comps[i], comps[j]) && Geometry(comps[i]) && Geometry(comps[j])
  {
  }

  lemma CreateInv(st: State, w: Window)
    requires Inv(st) && w.Valid() && forall i: nat :: i < |st.comps| ==> !Joins(st.comps[i], w)
    ensures Inv(Create(st, w))
  {
    var r := Create(st, w);
    var n, c := |st.comps|, r.comps[|st.comps|];
    assert c.members[0] == SlotKey(st.gen, w);
    forall x | c.origin <= x < c.end
      ensures CoveredAt(c, x)
    {
      assert Covers(c.members[0], x);
    }
    forall key | key in r.slots
      ensures SlotOk(r, key)
    {
      if key != SlotKey(st.gen, w) {
        assert SlotOk(st, key);
      }
    }
  }

  lemma FrozenJoinInv(st: State, w: Window, ci: nat)
    requires Inv(st) && ci < |st.comps| && Contains(st.comps[ci], w)
    ensures Inv(st.(slots := st.slots[SlotKey(st.gen, w) := ci]))
  {
    var r := st.(slots := st.slots[SlotKey(st.gen, w) := ci]);
    forall key | key in r.slots
      ensures SlotOk(r, key)
    {
      assert key != SlotKey(st.gen, w) ==> SlotOk(st, key);
    }
  }

  /** The comps after a live join, one by one. */
  lemma LiveJoinComps(st: State, w: Window, into: nat, gs: seq<nat>)
    requires Inv(st) && w.Valid() && Mergeable(st, into, gs, w)
    requires forall i: nat :: Takes(st, into, gs, i) <==> i < |st.comps| && Joins(st.comps[i], w)
    ensures CompsOk(Extend(MergeAll(st, into, gs), into, w).comps)
    ensures Covered(Extend(MergeAll(st, into, gs), into, w).comps[into])
  {
    MergeAllFacts(st, into, gs, w);
    var m := MergeAll(st, into, gs);
    var r := Extend(m, into, w);
    var c, u := m.comps[into], r.comps[into];
    ExtendCovered(c, w, SlotKey(m.gen, w), u);
    assert Takes(st, into, gs, into) && Geometry(st.comps[into]);
    assert Geometry(u);
    forall j: nat | j < |r.comps| && j != into && r.comps[j].status.Live?
      ensures Apart(u, r.comps[j]) && r.comps[j] == st.comps[j]
    {
      assert !Takes(st, into, gs, j);
      MissedStaysApart(st, c, into, gs, w, j);
    }
    forall i, j | 0 <= i < j < |r.comps| && r.comps[i].status.Live? && r.comps[j].status.Live?
      ensures Apart(r.comps[i], r.comps[j])
    {
      if i != into && j != into {
        assert r.comps[i] == st.comps[i] && r.comps[j] == st.comps[j];
      }
    }
    forall i | 0 <= i < |r.comps| && !r.comps[i].status.Absorbed?
      ensures Geometry(r.comps[i]) && Covered(r.comps[i])
    {
      if i != into {
        assert !Takes(st, into, gs, i) && r.comps[i] == st.comps[i];
      }
    }
  }

  lemma LiveJoinSlots(st: State, w: Window, into: nat, gs: seq<nat>)
    requires Inv(st) && Mergeable(st, into, gs, w)
    requires Covered(Extend(MergeAll(st, into, gs), into, w).comps[into])
    ensures var r := Extend(MergeAll(st, into, gs), into, w); forall key :: key in r.slots ==> SlotOk(r, key)
  {
    MergeAllFacts(st, into, gs, w);
    var m := MergeAll(st, into, gs);
    var r := Extend(m, into, w);
    var u, key0 := r.comps[into], SlotKey(m.gen, w);
    assert Takes(st, into, gs, into);
    assert u.members == m.comps[into].members + [key0] && u.members[|m.comps[into].members|] == key0;
    forall key | key in r.slots
      ensures SlotOk(r, key)
    {
      if r.slots[key] == into {
        if key != key0 && key in st.slots && st.slots[key] == into {
          assert SlotOk(st, key);
        }
        assert key in u.members;
        var k :| 0 <= k < |u.members| && u.members[k] == key;
        assert Holds(u, u.members[k].win);
      } else {
        assert key in m.slots && SlotOk(st, key);
        assert !Takes(st, into, gs, st.slots[key]);
      }
    }
  }

  lemma LiveJoinCache(st: State, w: Window, into: nat, gs: seq<nat>)
    requires CacheSound(st) && Mergeable(st, into, gs, w)
    ensures CacheSound(Extend(MergeAll(st, into, gs), into, w))
  {
    MergeAllFacts(st, into, gs, w);
    var r := Extend(MergeAll(st, into, gs), into, w);
    forall v | v in r.cache
      ensures r.cache[v] < |r.comps| && Contains(r.comps[r.cache[v]], v)
    {
      assert !Takes(st, into, gs, st.cache[v]) && st.cache[v] != into;
    }
  }

  lemma LiveJoinInv(st: State, w: Window, into: nat, gs: seq<nat>)
    requires Inv(st) && w.Valid() && Mergeable(st, into, gs, w)
    requires forall i: nat :: Takes(st, into, gs, i) <==> i < |st.comps| && Joins(st.comps[i], w)
    ensures Inv(Extend(MergeAll(st, into, gs), into, w)) && MergeAll(st, into, gs).comps[into].status.Live?
    ensures MergeAll(st, into, gs).gen == st.gen
  {
    LiveJoinComps(st, w, into, gs);
    LiveJoinSlots(st, w, into, gs);
    LiveJoinCache(st, w, into, gs);
    MergeAllFacts(st, into, gs, w);
  }

  /** Whatever host is chosen, joining by first-fit keeps the invariant. */
  lemma JoinInv(st: State, w: Window, host: Option<nat>)
    requires Inv(st) && w.Valid()
    requires host.Some? ==> host.value < |st.comps| && Contains(st.comps[host.value], w)
    ensures Inv(Join(st, w, Candidates(st.comps, w, host, |st.comps|)))
  {
    var cs := Candidates(st.comps, w, host, |st.comps|);
    if cs == [] {
      assert forall i: nat :: i < |st.comps| && Joins(st.comps[i], w) ==> i in cs;
      CreateInv(st, w);
    } else if st.comps[cs[0]].status.Emitted? {
      MergeAllFrozen(st, cs[0], cs[1..]);
      FrozenJoinInv(st, w, cs[0]);
    } else {
      CandidatesMergeable(st, w, host);
      LiveJoinInv(st, w, cs[0], cs[1..]);
    }
  }

  lemma CacheAfterSound(st: State, w: Window, mem: Memory)
    requires CacheSound(st)
    ensures CacheSound(st.(cache := CacheAfter(st, w, mem)))
  {
  }

  /** Scanning a slot keeps the invariant, whatever memory holds. */
  lemma ScanInv(st: State, w: Window, mem: Memory)
    requires Inv(st) && w.Valid()
    ensures Inv(Scan(st, w, mem))
  {
    CacheAfterSound(st, w, mem);
    var st1 := st.(cache := CacheAfter(st, w, mem));
    assert forall key :: key in st.slots ==> SlotOk(st, key);
    assert forall key :: key in st1.slots ==> SlotOk(st1, key);
    JoinInv(st1, w, Host(st, w, mem));
  }

  /** Freezing a live component keeps the invariant. */
  lemma FreezeInv(st: State, ci: nat, id: nat, elided: nat)
    requires Inv(st) && ci < |st.comps| && st.comps[ci].status.Live?
    ensures Inv(Freeze(st, ci, id, elided))
  {
    var r := Freeze(st, ci, id, elided);
    var c, d := st.comps[ci], r.comps[ci];
    assert Geometry(c) && Covered(c);
    forall x | d.origin <= x < d.end
      ensures CoveredAt(d, x)
    {
      assert CoveredAt(c, x);
    }
    assert Hull(d);
    forall key | key in r.slots
      ensures SlotOk(r, key)
    {
      assert SlotOk(st, key);
    }
  }
}
