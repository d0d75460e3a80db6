/**
  Writing a component's record through its member windows (codec_encode.go:2344-2518,
  2558-2571, 2660-2674): every element is read through a window that covers it, the
  windows are sorted and collapsed in place, and the bytes are those of the value-level
  encoder in Records.dfy.
 */
module MemberWindows {
  import opened Grouping
  import opened GroupingRuns

  /** A member window in the index space of its component; `pos` is its place in member order. */
  datatype MemWin = MemWin(off: nat, n: nat, ptr: nat, pos: nat) {
    function End(): nat { off + n }
  }

  /** By offset, and by member order among equal offsets. */
  ghost predicate Ordered(x: MemWin, y: MemWin) { x.off < y.off || (x.off == y.off && x.pos < y.pos) }

  ghost predicate Sorted(s: seq<MemWin>) { forall i, j :: 0 <= i < j < |s| ==> Ordered(s[i], s[j]) }

  ghost predicate ByPos(s: seq<MemWin>) { forall i, j :: 0 <= i < j < |s| ==> s[i].pos < s[j].pos }

  /** The window is the member at its position, clamped to the dense prefix. */
  ghost predicate Clamps(c: Comp, e: nat, x: MemWin) {
    && x.pos < |c.members| && x.ptr == c.members[x.pos].win.ptr && c.origin + x.off == x.ptr && x.off < e
    && x.n == Min(c.members[x.pos].win.cap, e - x.off)
  }

  ghost predicate AllClamp(c: Comp, e: nat, s: seq<MemWin>) { forall i :: 0 <= i < |s| ==> Clamps(c, e, s[i]) }

  /** Some window of `s` covers index `i`. */
  ghost predicate Reaches(s: seq<MemWin>, i: nat) { exists k :: 0 <= k < |s| && s[k].off <= i < s[k].End() }

  ghost predicate ReachesAll(s: seq<MemWin>, e: nat) { forall i: nat :: i < e ==> Reaches(s, i) }

  /** Window `b` takes over where `a` ends: it begins no later and reaches further. */
  ghost predicate Continues(a: MemWin, b: MemWin) { a.off <= b.off <= a.End() < b.End() }

  /** The windows tile [0, end) from left to right with nothing left out. */
  ghost predicate Tiles(s: seq<MemWin>, end: nat) {
    && (|s| == 0 ==> end == 0)
    && (|s| > 0 ==> s[0].off == 0 && s[|s| - 1].End() == end)
    && (forall i, j :: 0 <= i && j == i + 1 < |s| ==> Continues(s[i], s[j]))
  }

  /** `cur` is `was` with the window at `i` moved down to `j`. */
  ghost predicate Moved(was: seq<MemWin>, cur: seq<MemWin>, i: nat, j: nat) {
    && |cur| == |was| && j <= i < |was| && cur[j] == was[i]
    && (forall k :: 0 <= k < j || i < k < |was| ==> cur[k] == was[k])
    && (forall k :: j < k <= i ==> cur[k] == was[k - 1])
  }

  lemma MovedIs(was: seq<MemWin>, cur: seq<MemWin>, i: nat, j: nat)
    requires Moved(was, cur, i, j)
    ensures cur[..i + 1] == was[..j] + [was[i]] + was[j..i] && cur[i + 1..] == was[i + 1..]
    ensures multiset(cur[..i + 1]) == multiset(was[..i + 1])
  {
    assert was[..i + 1] == was[..j] + was[j..i] + [was[i]];
    assert cur[..i + 1] == was[..j] + [was[i]] + was[j..i];
  }

  lemma MovedSorted(was: seq<MemWin>, cur: seq<MemWin>, i: nat, j: nat)
    requires Moved(was, cur, i, j) && Sorted(was[..i]) && forall k :: 0 <= k < i ==> was[k].pos < was[i].pos
    requires j > 0 ==> was[j - 1].off <= was[i].off
    requires forall k :: j <= k < i ==> was[i].off < was[k].off
    ensures Sorted(cur[..i + 1])
  {
    var t := was[..i];
    forall k, m | 0 <= k < m < i + 1
      ensures Ordered(cur[k], cur[m])
    {
      var k0, m0 := if k > j then k - 1 else k, if m > j then m - 1 else m;
      if k == j {
        assert cur[m] == was[m - 1];
      } else if m == j {
        assert k < j - 1 ==> Ordered(t[k], t[j - 1]);
      } else {
        assert cur[k] == t[k0] && cur[m] == t[m0] && Ordered(t[k0], t[m0]);
      }
    }
  }

  /** Moves the window at `i` down past every window with a larger offset. */
  method SiftDown(a: array<MemWin>, i: nat) returns (j: nat)
    requires i < a.Length
    modifies a
    ensures j <= i && Moved(old(a[..]), a[..], i, j)
    ensures j > 0 ==> old(a[j - 1].off) <= old(a[i].off)
    ensures forall k :: j <= k < i ==> old(a[i].off) < old(a[k].off)
  {
    j := i;
    while j > 0 && a[j].off < a[j - 1].off
      invariant 0 <= j <= i && a[j] == old(a[i])
      invariant forall k :: 0 <= k < j || i < k < a.Length ==> a[k] == old(a[k])
      invariant forall k :: j < k <= i ==> a[k] == old(a[k - 1])
      invariant forall k :: j <= k < i ==> old(a[i].off) < old(a[k].off)
    {
      a[j], a[j - 1] := a[j - 1], a[j];
      j := j - 1;
    }
  }

  lemma SameElements(s: seq<MemWin>, t: seq<MemWin>)
    requires multiset(s) == multiset(t)
    ensures |s| == |t| && forall x :: x in s <==> x in t
  {
    forall x
      ensures x in s <==> x in t
    {
      assert x in multiset(s) <==> x in multiset(t);
    }
    assert |multiset(s)| == |s| && |multiset(t)| == |t|;
  }

  /** Stable insertion sort by offset, in place. */
  method SortWindows(a: array<MemWin>)
    requires ByPos(a[..])
    modifies a
    ensures Sorted(a[..]) && multiset(a[..]) == multiset(old(a[..]))
  {
    hide Sorted;
    hide Moved;
    ghost var was := a[..];
    assert Sorted(a[..0]) by { NothingSorted(a[..0]); }
    var i := 0;
    while i < a.Length
      invariant i <= a.Length && Sorted(a[..i])
      invariant multiset(a[..i]) == multiset(was[..i]) && a[i..] == was[i..]
    {
      ghost var cur := a[..];
      assert cur[..i] == a[..i] && cur[i..] == a[i..];
      LaterPos(cur, was, i);
      var j := SiftDown(a, i);
      MovedIs(cur, a[..], i, j);
      MovedSorted(cur, a[..], i, j);
      OneMore(cur, was, i);
      assert a[..][..i + 1] == a[..i + 1] && a[..][i + 1..] == a[i + 1..];
      i := i + 1;
    }
    assert a[..i] == a[..] && was[..i] == was;
  }

  lemma NothingSorted(s: seq<MemWin>)
    ensures |s| == 0 ==> Sorted(s)
  {
  }

  lemma LaterPos(cur: seq<MemWin>, was: seq<MemWin>, i: nat)
    requires i < |cur| == |was| && ByPos(was) && multiset(cur[..i]) == multiset(was[..i]) && cur[i..] == was[i..]
    ensures forall k :: 0 <= k < i ==> cur[k].pos < cur[i].pos
  {
    SameElements(cur[..i], was[..i]);
    assert cur[i..][0] == was[i..][0];
    forall k | 0 <= k < i
      ensures cur[k].pos < cur[i].pos
    {
      assert cur[k] == cur[..i][k] && cur[..i][k] in was[..i];
      var m :| 0 <= m < i && was[..i][m] == cur[k];
    }
  }

  lemma OneMore(cur: seq<MemWin>, was: seq<MemWin>, i: nat)
    requires i < |cur| == |was| && multiset(cur[..i]) == multiset(was[..i]) && cur[i..] == was[i..]
    ensures multiset(cur[..i + 1]) == multiset(was[..i + 1]) && cur[i + 1..] == was[i + 1..]
  {
    assert cur[i..][0] == was[i..][0];
    assert cur[..i + 1] == cur[..i] + [cur[i]] && was[..i + 1] == was[..i] + [was[i]];
    assert cur[i + 1..] == cur[i..][1..] && was[i + 1..] == was[i..][1..];
  }

  /** How far the windows reach. */
  function Reach(s: seq<MemWin>): nat {
    if s == [] then 0 else Max(Reach(s[..|s| - 1]), s[|s| - 1].End())
  }

  /** Keeps a window only where it reaches further than all before it. */
  function Collapsed(s: seq<MemWin>): (r: seq<MemWin>)
    ensures |r| <= |s|
  {
    if s == [] then []
    else
      var t, x := s[..|s| - 1], s[|s| - 1];
      if x.End() <= Reach(t) then Collapsed(t) else Collapsed(t) + [x]
  }

  lemma {:induction false} CollapsedFrom(s: seq<MemWin>, x: MemWin)
    requires x in Collapsed(s)
    ensures x in s
  {
    if s != [] {
      var t := s[..|s| - 1];
      if x in Collapsed(t) {
        CollapsedFrom(t, x);
      }
    }
  }

  lemma {:induction false} ReachBound(s: seq<MemWin>, k: nat)
    requires k < |s|
    ensures s[k].End() <= Reach(s)
  {
    if k < |s| - 1 {
      ReachBound(s[..|s| - 1], k);
    }
  }

  lemma {:induction false} ReachWithin(s: seq<MemWin>, e: nat)
    requires forall k :: 0 <= k < |s| ==> s[k].End() <= e
    ensures Reach(s) <= e
  {
    if s != [] {
      ReachWithin(s[..|s| - 1], e);
    }
  }

  /** A window that reaches further starts where the ones before it end, or sooner: the union has no hole. */
  lemma NoHole(s: seq<MemWin>, n: nat, e: nat)
    requires Sorted(s) && n < |s| && ReachesAll(s, e) && s[n].End() <= e && Reach(s[..n]) < s[n].End()
    ensures s[n].off <= Reach(s[..n])
  {
    var i := Reach(s[..n]);
    assert Reaches(s, i);
    var k :| 0 <= k < |s| && s[k].off <= i < s[k].End();
    if k < n {
      ReachBound(s[..n], k);
    } else if k > n {
      assert Ordered(s[n], s[k]);
    }
  }

  lemma {:induction false} CollapsedTiles(s: seq<MemWin>, n: nat, e: nat)
    requires Sorted(s) && ReachesAll(s, e) && n <= |s| && forall k :: 0 <= k < |s| ==> s[k].End() <= e
    ensures Tiles(Collapsed(s[..n]), Reach(s[..n]))
    ensures forall k :: 0 <= k < |Collapsed(s[..n])| ==> Collapsed(s[..n])[k].off <= (if n > 0 then s[n - 1].off else 0)
  {
    if n > 0 {
      CollapsedTiles(s, n - 1, e);
      var t, x := s[..n - 1], s[n - 1];
      assert s[..n][..n - 1] == t;
      assert n > 1 ==> Ordered(s[n - 2], x);
      if x.End() > Reach(t) {
        NoHole(s, n - 1, e);
        TilesMore(Collapsed(t), Reach(t), x);
      }
    }
  }

  /** A window that starts inside what is tiled, not left of the last tile, and reaches further is one more tile. */
  lemma TilesMore(r: seq<MemWin>, reach: nat, x: MemWin)
    requires Tiles(r, reach) && x.off <= reach < x.End() && (r != [] ==> r[|r| - 1].off <= x.off)
    ensures Tiles(r + [x], x.End())
  {
    forall i, j | 0 <= i && j == i + 1 < |r + [x]|
      ensures Continues((r + [x])[i], (r + [x])[j])
    {
      if j < |r| {
        assert Continues(r[i], r[j]);
      }
    }
  }

  /** Everything up to `e` is reached when some window reaches each index. */
  lemma ReachIsAll(s: seq<MemWin>, e: nat)
    requires ReachesAll(s, e) && forall k :: 0 <= k < |s| ==> s[k].End() <= e
    ensures Reach(s) == e
  {
    ReachWithin(s, e);
    if Reach(s) < e {
      assert Reaches(s, Reach(s));
      var k :| 0 <= k < |s| && s[k].off <= Reach(s) < s[k].End();
      ReachBound(s, k);
    }
  }

  /** Collapses overlaps in place: the kept windows move to the front, in order. */
  method CollapseWindows(a: array<MemWin>) returns (n: nat)
    modifies a
    ensures n <= a.Length && a[..n] == Collapsed(old(a[..]))
  {
    ghost var was := a[..];
    n := 0;
    var covered := 0;
    var i := 0;
    while i < a.Length
      invariant n <= i <= a.Length && a[i..] == was[i..]
      invariant a[..n] == Collapsed(was[..i]) && covered == Reach(was[..i])
    {
      var x := a[i];
      assert x == a[i..][0] == was[i..][0] && was[..i + 1][..i] == was[..i];
      assert a[i + 1..] == a[i..][1..] && was[i + 1..] == was[i..][1..];
      if covered < x.End() {
        a[n] := x;
        n := n + 1;
        covered := x.End();
      }
      i := i + 1;
    }
    assert was[..i] == was;
  }
}

module Emission {
  import opened Bytes
  import opened Args
  import opened Containers
  import opened Elements
  import opened Grouping
  import opened GroupingRuns
  import opened Arena
  import opened LiveArray
  import opened ClassIndexes
  import EmitSkips
  import opened Records
  import opened MemberWindows
  import opened Components
  import S = Streams

  /** The windows of the members before position `n` that begin inside the dense prefix. */
  ghost predicate Gathered(c: Comp, e: nat, s: seq<MemWin>, n: nat) {
    && AllClamp(c, e, s) && ByPos(s) && (forall i :: 0 <= i < |s| ==> s[i].pos < n)
    && forall k: nat :: k < n && k < |c.members| && c.origin <= c.members[k].win.ptr < c.origin + e ==> HasPos(s, k)
  }

  ghost predicate HasPos(s: seq<MemWin>, k: nat) { exists i :: 0 <= i < |s| && s[i].pos == k }

  /** The gathered windows reach every index of the prefix: the members cover the span. */
  lemma GatheredReach(c: Comp, e: nat, s: seq<MemWin>, t: seq<MemWin>)
    requires Covered(c) && e <= c.Length() && Gathered(c, e, s, |c.members|) && multiset(t) == multiset(s)
    ensures ReachesAll(t, e) && AllClamp(c, e, t) && forall k :: 0 <= k < |t| ==> t[k].End() <= e
  {
    SameElements(t, s);
    forall i: nat | i < e
      ensures Reaches(t, i)
    {
      assert CoveredAt(c, c.origin + i);
      var k :| 0 <= k < |c.members| && Covers(c.members[k], c.origin + i);
      assert Holds(c, c.members[k].win);
      assert HasPos(s, k);
      var m :| 0 <= m < |s| && s[m].pos == k;
      assert Clamps(c, e, s[m]) && s[m] in t;
      var j :| 0 <= j < |t| && t[j] == s[m];
    }
    forall j | 0 <= j < |t|
      ensures Clamps(c, e, t[j])
    {
      assert t[j] in s;
    }
  }

  /** Element `i` of the component lies in the tile that covers it. */
  lemma TileReads(c: Comp, e: nat, x: MemWin, i: nat)
    requires Clamps(c, e, x) && x.off <= i < x.End()
    ensures x.ptr + (i - x.off) == c.origin + i && x.pos < |c.members| && x.ptr == c.members[x.pos].win.ptr
    ensures c.members[x.pos].win.ptr <= x.ptr + (i - x.off) < c.members[x.pos].win.Send()
  {
  }

  /** The state of the element loop: windows before `k` are used up, and `k` is the first that may cover `i`. */
  ghost predicate AtTile(wins: seq<MemWin>, e: nat, i: nat, k: nat) {
    k < |wins| && wins[k].off <= i && (k + 1 == |wins| ==> wins[k].End() == e)
  }

  lemma TilesStart(wins: seq<MemWin>, e: nat)
    requires Tiles(wins, e)
    ensures e > 0 ==> AtTile(wins, e, 0, 0)
  {
  }

  lemma TilesNext(wins: seq<MemWin>, e: nat, i: nat, k: nat)
    requires Tiles(wins, e) && AtTile(wins, e, i, k) && k + 1 < |wins| && i >= wins[k].End()
    ensures AtTile(wins, e, i, k + 1)
  {
    assert Continues(wins[k], wins[k + 1]);
  }

  lemma ElemBytesNone(s: seq<Bits>)
    ensures |s| == 0 ==> ElemBytes(s) == []
  {
  }

  lemma ElemBytesNext(s: seq<Bits>, i: nat)
    requires i < |s|
    ensures ElemBytes(s[..i + 1]) == ElemBytes(s[..i]) + ElemToken(s[i])
  {
    assert s[..i + 1][..i] == s[..i];
  }

  lemma {:induction false} DenseIs(s: seq<Bits>, e: nat)
    requires e <= |s| && (forall k :: e <= k < |s| ==> s[k] == 0) && (e > 0 ==> s[e - 1] != 0)
    ensures Dense(s) == e
  {
    if e < |s| {
      DenseIs(s[..|s| - 1], e);
    }
  }

  lemma GatherOne(c: Comp, e: nat, s: seq<MemWin>, k: nat, x: MemWin)
    requires Gathered(c, e, s, k) && Clamps(c, e, x) && x.pos == k
    ensures Gathered(c, e, s + [x], k + 1)
  {
    var t := s + [x];
    assert t[|s|] == x;
    forall m: nat | m < k + 1 && m < |c.members| && c.origin <= c.members[m].win.ptr < c.origin + e
      ensures HasPos(t, m)
    {
      if m < k {
        assert HasPos(s, m);
        var i :| 0 <= i < |s| && s[i].pos == m;
        assert t[i].pos == m;
      }
    }
  }

  lemma GatherNone(c: Comp, e: nat, s: seq<MemWin>, k: nat)
    requires Gathered(c, e, s, k) && k < |c.members| && c.origin + e <= c.members[k].win.ptr
    ensures Gathered(c, e, s, k + 1)
  {
  }

  lemma GatheredByPos(c: Comp, e: nat, s: seq<MemWin>, n: nat)
    requires Gathered(c, e, s, n)
    ensures ByPos(s)
  {
  }

  lemma SpanOk(st: State, ci: nat)
    requires Inv(st) && ci < |st.comps| && !st.comps[ci].status.Absorbed?
    ensures Geometry(st.comps[ci]) && Covered(st.comps[ci]) && Hull(st.comps[ci])
    ensures st.comps[ci].origin <= st.comps[ci].end && st.comps[ci].Length() == st.comps[ci].end - st.comps[ci].origin
  {
  }

  lemma CoveredAny(c: Comp, x: nat)
    requires Covered(c) && c.origin <= x < c.end
    ensures CoveredAt(c, x)
  {
  }

  lemma HullHolds(c: Comp, k: nat)
    requires Hull(c) && k < |c.members|
    ensures Holds(c, c.members[k].win)
  {
  }

  lemma RecordIs(s: seq<Bits>, length: nat, e: nat, buf0: seq<byte>, buf: seq<byte>)
    requires |s| == length && e == Dense(s)
    requires buf == (buf0 + HeaderBytes(CLASS_ARRAY, Low(length), Low(e))) + ElemBytes(s[..e])
    ensures buf == buf0 + RecordBytes(s)
  {
    hide HeaderBytes;
    hide ElemBytes;
    hide Dense;
  }

  lemma ScanAllNext(st: State, ws: seq<Window>, mem: Memory, i: nat)
    requires i < |ws|
    ensures ScanAll(st, ws[..i + 1], mem) == Scan(ScanAll(st, ws[..i], mem), ws[i], mem)
  {
    hide Scan;
    assert ws[..i + 1][..i] == ws[..i];
  }

  lemma EncodeSlotsNext(e: Encoder, ws: seq<Window>, mem: Memory, i: nat)
    requires i < |ws|
    ensures S.EncodeSlots(e, ws[..i + 1], mem) == EncodeSlot(S.EncodeSlots(e, ws[..i], mem), ws[i], mem)
    ensures S.SlotsBytes(e, ws[..i + 1], mem) == S.SlotsBytes(e, ws[..i], mem)
        + SlotBytes(S.EncodeSlots(e, ws[..i], mem), ws[i], mem)
  {
    hide EncodeSlot;
    hide SlotBytes;
    assert ws[..i + 1][..i] == ws[..i];
  }

  /** A scan registers its slot and keeps all others. */
  lemma ScanResolves(st: State, w: Window, mem: Memory)
    requires Inv(st) && w.Valid()
    ensures SlotKey(st.gen, w) in Scan(st, w, mem).slots && Scan(st, w, mem).gen == st.gen
    ensures forall key :: key in st.slots ==> key in Scan(st, w, mem).slots
  {
    hide Inv;
    hide Representable;
    hide Mergeable;
    hide MergeAll;
    hide Scan;
    hide CacheAfter;
    var st1, o := S.ScanEnds(st, w, mem);
    match o
    case Founds =>
    case JoinsFrozen(h) =>
    case JoinsLive(into, gs) =>
      S.MergeTargetLive(st1, into, gs, w);
      MergeKeepsSlots(st1, into, gs, w);
  }

  lemma MergeKeepsSlots(st: State, into: nat, gs: seq<nat>, w: Window)
    requires Mergeable(st, into, gs, w)
    ensures forall key :: key in st.slots ==> key in MergeAll(st, into, gs).slots
  {
    MergeAllFacts(st, into, gs, w);
  }

  lemma EncodeKeepsSlots(e: Encoder, w: Window, mem: Memory)
    ensures EncodeSlot(e, w, mem).st.slots == e.st.slots && EncodeSlot(e, w, mem).st.gen == e.st.gen
  {
    hide Dense;
    hide Region;
  }

  lemma NextGen(st: State)
    requires Inv(st)
    ensures Inv(st.(gen := st.gen + 1))
  {
    var r := st.(gen := st.gen + 1);
    forall key | key in r.slots
      ensures SlotOk(r, key)
    {
      assert SlotOk(st, key);
    }
  }

  lemma SlotInside(st: State, w: Window)
    requires Inv(st) && SlotKey(st.gen, w) in st.slots
    ensures Resolves(st, w)
  {
    assert SlotOk(st, SlotKey(st.gen, w));
  }

  /** A slot never resolves to an absorbed component. */
  lemma SlotLive(st: State, w: Window)
    requires Inv(st) && Resolves(st, w)
    ensures !st.comps[GroupOf(st, w)].status.Absorbed?
  {
    assert SlotOk(st, SlotKey(st.gen, w));
  }

  /** The encoder of one class of slices: its index, and the writer's buffer and id counter. */
  class SliceWriter {
    const index: ClassIndex
    var buf: seq<byte>
    var nextID: nat
    ghost var born: seq<Birth>

    ghost predicate Valid()
      reads this, index, index.emit
    {
      index.Valid() && nextID == |born|
    }

    ghost function Abs(): Encoder
      reads this, index, index.emit
      requires Valid()
    {
      Encoder(index.Abs(), born)
    }

    constructor (skipLevel: nat -> nat)
      requires forall ci :: 1 <= skipLevel(ci) <= EmitSkips.SKIP_MAX_LEVEL
      ensures Valid() && buf == [] && Abs() == Encoder(EMPTY, []) && fresh(index) && fresh(index.emit)
    {
      hide Inv;
      hide LiveOk;
      hide EmitIndexed;
      hide InCreationOrder;
      hide SpansInOrder;
      hide ChainsApart;
      index := new ClassIndex(skipLevel);
      buf, nextID, born := [], 0, [];
    }

    /** The component's member chain, in encounter order. */
    method CompMembers(ci: nat) returns (ms: seq<SlotKey>)
      requires index.Valid() && ci < |index.comps| && !index.comps[ci].absorbed
      ensures ms == index.Abs().comps[ci].members
    {
      hide Inv;
      hide LiveOk;
      hide EmitIndexed;
      hide InCreationOrder;
      hide SpansInOrder;
      hide ChainsApart;
      ghost var c, chain := index.comps[ci], index.chains[ci];
      assert ChainOk(c, index.slots, chain);
      ms := [];
      var m := index.comps[ci].head;
      ghost var n: nat := 0;
      while m >= 0
        invariant n <= |chain| && m == (if n < |chain| then chain[n] else -1)
        invariant ms == MembersOf(index.slots, chain)[..n]
        decreases |chain| - n
      {
        assert n + 1 < |chain| ==> index.slots[chain[n]].next == chain[n + 1];
        ms := ms + [index.slots[m].key];
        m := index.slots[m].next;
        n := n + 1;
      }
    }

    /** Reads an element through a member window; the address must lie inside the window. */
    static method ReadThrough(ptr: nat, local: nat, ghost w: Window, mem: Memory) returns (v: Bits)
      requires ptr == w.ptr && local < w.cap && Typed(mem)
      ensures v == mem(ptr + local)
    {
      v := mem(ptr + local);
    }

    /** The member whose window contains index `i` of the component. */
    method Covering(ci: nat, i: nat) returns (m: nat)
      requires index.Valid() && ci < |index.comps| && !index.comps[ci].absorbed
      requires index.comps[ci].origin + i < index.comps[ci].end
      ensures m < |index.slots| && Covers(index.slots[m].key, index.comps[ci].origin + i)
      ensures index.comps[ci].origin <= index.slots[m].key.win.ptr
    {
      hide Inv;
      hide LiveOk;
      hide EmitIndexed;
      hide InCreationOrder;
      hide SpansInOrder;
      hide ChainsApart;
      hide Covered;
      hide Hull;
      var c := index.comps[ci];
      ghost var chain, d := index.chains[ci], index.Abs().comps[ci];
      assert ChainOk(c, index.slots, chain);
      SpanOk(index.Abs(), ci);
      CoveredAny(d, c.origin + i);
      ghost var hit :| 0 <= hit < |d.members| && Covers(d.members[hit], c.origin + i);
      var at := c.head;
      ghost var n: nat := 0;
      while at >= 0
        invariant n <= hit < |chain| && at == chain[n]
        decreases |chain| - n
      {
        var w := index.slots[at].key.win;
        assert d.members[n].win == w;
        HullHolds(d, n);
        var off := w.ptr - c.origin;
        if off <= i < off + w.cap {
          return at;
        }
        assert n + 1 < |chain| ==> index.slots[chain[n]].next == chain[n + 1];
        at := index.slots[at].next;
        n := n + 1;
      }
      assert false;
    }

    /** One past the last element that is not bitwise zero. */
    method DenseE(ci: nat, mem: Memory) returns (e: nat)
      requires index.Valid() && ci < |index.comps| && !index.comps[ci].absorbed && Typed(mem)
      ensures e == Dense(Region(mem, index.comps[ci].origin, index.comps[ci].end)) <= index.Abs().comps[ci].Length()
    {
      hide Inv;
      hide LiveOk;
      hide EmitIndexed;
      hide InCreationOrder;
      hide SpansInOrder;
      hide ChainsApart;
      hide Covered;
      hide Hull;
      hide Dense;
      var c := index.comps[ci];
      SpanOk(index.Abs(), ci);
      ghost var s := Region(mem, c.origin, c.end);
      e := c.end - c.origin;
      while e > 0
        invariant e <= |s| && forall k :: e <= k < |s| ==> s[k] == 0
      {
        var m := Covering(ci, e - 1);
        var w := index.slots[m].key.win;
        var v := ReadThrough(w.ptr, e - 1 - (w.ptr - c.origin), w, mem);
        assert v == s[e - 1];
        if v != 0 {
          break;
        }
        e := e - 1;
      }
      DenseIs(s, e);
    }

    /** The member windows that begin inside the dense prefix, clamped to it, in member order. */
    method GatherWindows(ms: seq<SlotKey>, origin: nat, e: nat, ghost c: Comp) returns (out: seq<MemWin>)
      requires c.members == ms && c.origin == origin && Hull(c)
      ensures Gathered(c, e, out, |ms|)
    {
      out := [];
      var k := 0;
      while k < |ms|
        invariant k <= |ms| && Gathered(c, e, out, k)
      {
        var w := ms[k].win;
        assert Holds(c, w);
        var off := w.ptr - origin;
        if off < e {
          GatherOne(c, e, out, k, MemWin(off, if off + w.cap > e then e - off else w.cap, w.ptr, k));
          out := out + [MemWin(off, if off + w.cap > e then e - off else w.cap, w.ptr, k)];
        } else {
          GatherNone(c, e, out, k);
        }
        k := k + 1;
      }
    }

    /** The tiles through which the dense prefix is read. */
    method CompWindows(ci: nat, e: nat) returns (wins: seq<MemWin>)
      requires index.Valid() && ci < |index.comps| && !index.comps[ci].absorbed && e <= index.Abs().comps[ci].Length()
      ensures Tiles(wins, e) && AllClamp(index.Abs().comps[ci], e, wins)
    {
      hide Inv;
      hide LiveOk;
      hide EmitIndexed;
      hide InCreationOrder;
      hide SpansInOrder;
      hide ChainsApart;
      hide Hull;
      hide Covered;
      hide Gathered;
      hide Tiles;
      hide AllClamp;
      ghost var c := index.Abs().comps[ci];
      SpanOk(index.Abs(), ci);
      var ms := CompMembers(ci);
      var got := GatherWindows(ms, index.comps[ci].origin, e, c);
      wins := TileWindows(got, e, c);
    }

    /** Sorts the gathered windows and collapses their overlaps. */
    static method TileWindows(got: seq<MemWin>, e: nat, ghost c: Comp) returns (wins: seq<MemWin>)
      requires Covered(c) && e <= c.Length() && Gathered(c, e, got, |c.members|)
      ensures Tiles(wins, e) && AllClamp(c, e, wins)
    {
      hide Collapsed;
      hide Covered;
      hide Gathered;
      hide Tiles;
      hide ReachesAll;
      hide Sorted;
      var a := new MemWin[|got|](i requires 0 <= i < |got| => got[i]);
      assert a[..] == got;
      assert ByPos(got) by { GatheredByPos(c, e, got, |c.members|); }
      SortWindows(a);
      ghost var sorted := a[..];
      GatheredReach(c, e, got, sorted);
      var n := CollapseWindows(a);
      CollapsedTiles(sorted, |sorted|, e);
      ReachIsAll(sorted, e);
      assert sorted[..|sorted|] == sorted;
      wins := a[..n];
      forall k | 0 <= k < |wins|
        ensures Clamps(c, e, wins[k])
      {
        CollapsedFrom(sorted, wins[k]);
      }
    }

    /** Writes the dense elements in index order, each through the tile it lies in. */
    method WriteGroupElems(wins: seq<MemWin>, e: nat, mem: Memory, ghost c: Comp)
      requires Tiles(wins, e) && AllClamp(c, e, wins) && Typed(mem) && e <= c.Length()
      modifies this`buf
      ensures buf == old(buf) + ElemBytes(Region(mem, c.origin, c.end)[..e])
    {
      hide Region;
      hide ElemBytes;
      hide ElemToken;
      hide Tiles;
      hide Clamps;
      ghost var s := Region(mem, c.origin, c.end);
      TilesStart(wins, e);
      ElemBytesNone(s[..0]);
      assert buf + [] == buf;
      var i, k := 0, 0;
      while i < e
        invariant i <= e && (e > 0 ==> AtTile(wins, e, i, k))
        invariant buf == old(buf) + ElemBytes(s[..i])
      {
        while k + 1 < |wins| && i >= wins[k].End()
          invariant AtTile(wins, e, i, k) && buf == old(buf) + ElemBytes(s[..i])
          decreases |wins| - k
        {
          TilesNext(wins, e, i, k);
          k := k + 1;
        }
        var x := wins[k];
        TileReads(c, e, x, i);
        var v := ReadThrough(x.ptr, i - x.off, c.members[x.pos].win, mem);
        S.TypedPattern(mem, c.origin + i);
        assert v == s[i];
        ElemBytesNext(s, i);
        buf := buf + ElemToken(v);
        i := i + 1;
      }
    }

    /** Takes the next record id for the component and freezes it. */
    method FreezeComp(ci: nat, e: nat)
      requires Valid() && ci < |index.comps| && !index.comps[ci].Dead()
      modifies this`nextID, this`born, index, index.emit
      ensures Valid()
      ensures Abs() == old(Encoder(Freeze(index.Abs(), ci, |born|, e),
                                   born + [Birth(index.gen, index.comps[ci].origin)]))
    {
      hide Inv;
      hide LiveOk;
      hide EmitIndexed;
      hide InCreationOrder;
      hide SpansInOrder;
      hide ChainsApart;
      hide ChainOk;
      born := born + [Birth(index.gen, index.comps[ci].origin)];
      index.MarkEmitted(ci, nextID, e);
      nextID := nextID + 1;
    }

    /** Writes the component's record and freezes the component. */
    method WriteGroupRecord(ci: nat, mem: Memory)
      requires Valid() && ci < |index.comps| && !index.comps[ci].Dead() && Typed(mem)
      modifies this, index, index.emit
      ensures Valid()
      ensures Abs() == old(Encoder(Freeze(index.Abs(), ci, |born|,
                                          Dense(Region(mem, index.comps[ci].origin, index.comps[ci].end))),
                                   born + [Birth(index.gen, index.comps[ci].origin)]))
      ensures buf == old(buf + RecordBytes(Region(mem, index.comps[ci].origin, index.comps[ci].end)))
    {
      hide Inv;
      hide LiveOk;
      hide EmitIndexed;
      hide InCreationOrder;
      hide SpansInOrder;
      hide ChainsApart;
      hide ChainOk;
      hide Region;
      hide Dense;
      hide Covered;
      hide Hull;
      hide Tiles;
      hide AllClamp;
      hide Freeze;
      hide HeaderBytes;
      hide ElemBytes;
      ghost var c, origin, end, buf0 := index.Abs().comps[ci], index.comps[ci].origin, index.comps[ci].end, buf;
      SpanOk(index.Abs(), ci);
      var length := index.comps[ci].end - index.comps[ci].origin;
      var e := DenseE(ci, mem);
      var wins := CompWindows(ci, e);
      FreezeComp(ci, e);
      buf := buf + HeaderBytes(CLASS_ARRAY, Low(length), Low(e));
      WriteGroupElems(wins, e, mem, c);
      RecordIs(Region(mem, origin, end), length, e, buf0, buf);
    }

    method WriteArg(n: u64)
      modifies this`buf
      ensures buf == old(buf) + ArgBytes(n)
    {
      buf := buf + ArgBytes(n);
    }

    /** The whole record: offset zero, length and capacity those of the record. */
    method WriteViewFull(id: u64)
      modifies this`buf
      ensures forall length :: buf == old(buf) + ViewBytes(View(id, 0, length, length), length)
    {
      ghost var was := buf;
      buf := buf + [CLASS_VIEW * 16];
      WriteArg(id);
      assert buf == was + ([CLASS_VIEW * 16] + ArgBytes(id));
    }

    /** Capacity equal to the length. */
    method WriteView2(id: u64, off: u64, len: u64)
      modifies this`buf
      ensures forall length :: off != 0 || len != length
               ==> buf == old(buf) + ViewBytes(View(id, off, len, len), length)
    {
      ghost var was := buf;
      buf := buf + [CLASS_VIEW * 16 + 1];
      WriteArg(id);
      WriteArg(off);
      WriteArg(len);
      assert buf == was + ([CLASS_VIEW * 16 + 1] + (ArgBytes(id) + (ArgBytes(off) + ArgBytes(len))));
    }

    /** All of id, offset, length and capacity. */
    method WriteView3(id: u64, off: u64, len: u64, cap: u64)
      modifies this`buf
      ensures forall length :: len != cap ==> buf == old(buf) + ViewBytes(View(id, off, len, cap), length)
    {
      ghost var was := buf;
      buf := buf + [CLASS_VIEW * 16 + 2];
      WriteArg(id);
      WriteArg(off);
      WriteArg(len);
      WriteArg(cap);
      assert buf == was + ([CLASS_VIEW * 16 + 2] + (ArgBytes(id) + (ArgBytes(off) + (ArgBytes(len) + ArgBytes(cap)))));
    }

    /** The view of a slot over its component's record, in the smallest form. */
    method WriteView(ci: nat, w: Window)
      requires index.Valid() && ci < |index.comps| && index.comps[ci].emitted && !index.comps[ci].absorbed
      modifies this`buf
      ensures buf == old(buf)
          + ViewBytes(ViewOf(index.Abs().comps[ci], index.comps[ci].id, w), Low(index.Abs().comps[ci].Length()))
    {
      hide Inv;
      hide LiveOk;
      hide EmitIndexed;
      hide InCreationOrder;
      hide SpansInOrder;
      hide ChainsApart;
      hide ChainOk;
      hide ViewBytes;
      hide Covered;
      hide Hull;
      SpanOk(index.Abs(), ci);
      var c := index.comps[ci];
      var off, len, cap, length := Low(w.ptr - c.origin), Low(w.len), Low(w.cap), Low(c.end - c.origin);
      if off == 0 && len == cap && len == length {
        WriteViewFull(Low(c.id));
      } else if cap == len {
        WriteView2(Low(c.id), off, len);
      } else {
        WriteView3(Low(c.id), off, len, cap);
      }
    }

    /** Writes one slice position: the component's record on first encounter, then the view. */
    method EncodeSlice(w: Window, mem: Memory)
      requires Valid() && Resolves(index.Abs(), w) && Typed(mem)
      modifies this, index, index.emit
      ensures Valid() && Abs() == EncodeSlot(old(Abs()), w, mem) && buf == old(buf) + SlotBytes(old(Abs()), w, mem)
    {
      hide Inv;
      hide LiveOk;
      hide EmitIndexed;
      hide InCreationOrder;
      hide SpansInOrder;
      hide ChainsApart;
      hide ChainOk;
      hide Region;
      hide Dense;
      hide ViewBytes;
      hide RecordBytes;
      var ci := index.slotIx[SlotKey(index.gen, w)];
      SlotLive(index.Abs(), w);
      if !index.comps[ci].emitted {
        WriteGroupRecord(ci, mem);
      }
      WriteView(ci, w);
    }

    /** The scan pass of one value. */
    method ScanSlices(ws: seq<Window>, mem: Memory)
      requires Valid() && forall k :: 0 <= k < |ws| ==> ws[k].Valid()
      modifies index, index.emit
      ensures Valid() && Abs() == Encoder(ScanAll(old(index.Abs()), ws, mem), old(born))
      ensures forall k :: 0 <= k < |ws| ==> SlotKey(index.gen, ws[k]) in index.slotIx
    {
      hide Inv;
      hide LiveOk;
      hide EmitIndexed;
      hide InCreationOrder;
      hide SpansInOrder;
      hide ChainsApart;
      hide ChainOk;
      hide Scan;
      hide EncodeSlot;
      hide SlotBytes;
      hide EmitSkips.Coherent;
      ghost var st := index.Abs();
      var i := 0;
      while i < |ws|
        invariant i <= |ws| && index.Valid() && index.Abs() == ScanAll(st, ws[..i], mem)
        invariant forall k :: 0 <= k < i ==> SlotKey(index.gen, ws[k]) in index.slotIx
      {
        ScanAllNext(st, ws, mem, i);
        ScanResolves(index.Abs(), ws[i], mem);
        ghost var slots, gen := index.slotIx, index.gen;
        index.ScanAddSlot(ws[i], mem);
        assert index.gen == gen && forall key :: key in slots ==> key in index.slotIx;
        i := i + 1;
      }
      assert ws[..i] == ws;
    }

    /** The emission pass of one value. */
    method EmitSlices(ws: seq<Window>, mem: Memory)
      requires Valid() && Typed(mem) && forall k :: 0 <= k < |ws| ==> SlotKey(index.gen, ws[k]) in index.slotIx
      modifies this, index, index.emit
      ensures Valid() && Abs() == S.EncodeSlots(old(Abs()), ws, mem)
              && buf == old(buf) + S.SlotsBytes(old(Abs()), ws, mem)
    {
      hide Inv;
      hide LiveOk;
      hide EmitIndexed;
      hide InCreationOrder;
      hide SpansInOrder;
      hide ChainsApart;
      hide ChainOk;
      hide Scan;
      hide EncodeSlot;
      hide SlotBytes;
      hide EmitSkips.Coherent;
      ghost var e0, buf0 := Abs(), buf;
      var i := 0;
      assert buf == buf0 + S.SlotsBytes(e0, ws[..0], mem);
      while i < |ws|
        invariant i <= |ws| && Valid() && Abs() == S.EncodeSlots(e0, ws[..i], mem)
        invariant buf == buf0 + S.SlotsBytes(e0, ws[..i], mem)
        invariant forall k :: 0 <= k < |ws| ==> SlotKey(index.gen, ws[k]) in index.slotIx
      {
        EncodeSlotsNext(e0, ws, mem, i);
        SlotInside(index.Abs(), ws[i]);
        EncodeKeepsSlots(Abs(), ws[i], mem);
        ghost var slots, gen, b := index.slotIx, index.gen, SlotBytes(Abs(), ws[i], mem);
        EncodeSlice(ws[i], mem);
        assert Abs().st.slots == slots && Abs().st.gen == gen;
        assert buf0 + S.SlotsBytes(e0, ws[..i], mem) + b == buf0 + (S.SlotsBytes(e0, ws[..i], mem) + b);
        i := i + 1;
      }
      assert ws[..i] == ws;
    }

    /** One value: every slot is scanned, then the written ones are emitted. */
    method EncodeSlices(v: S.Value)
      requires Valid() && S.WellFormed(v)
      modifies this, index, index.emit
      ensures Valid() && Abs() == S.EncodeValue(old(Abs()), v) && buf == old(buf) + S.ValueBytes(old(Abs()), v)
    {
      hide Inv;
      hide LiveOk;
      hide EmitIndexed;
      hide InCreationOrder;
      hide SpansInOrder;
      hide ChainsApart;
      hide ChainOk;
      hide Scan;
      hide EncodeSlot;
      hide SlotBytes;
      hide ScanAll;
      hide S.EncodeSlots;
      hide S.SlotsBytes;
      hide InCreationOrder;
      hide EmitSkips.Coherent;
      ScanSlices(v.ws, v.mem);
      EmitSlices(v.out, v.mem);
      NextGen(index.Abs());
      index.gen := index.gen + 1;
    }
  }
}
