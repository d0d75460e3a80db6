/**
  The origin-ordered skiplist over emitted components (codec_encode.go:785-988).

  The list is described by the sequence of its towers in level-0 order. A tower
  at position `k` carries, on each of its levels `l`, a link to the next
  position whose tower is taller than `l` and the largest end over the segment
  up to that position.
 */
module Towers {

  /** One indexed span: its arena node, its component, the frozen bounds and the tower height. */
  datatype Tower = Tower(node: nat, ci: nat, origin: nat, end: nat, height: nat)

  function Max(a: nat, b: nat): nat { if a < b then b else a }

  /** First position after `k` whose tower is taller than `l`, or the length. */
  function Next(ts: seq<Tower>, k: nat, l: nat): (r: nat)
    requires k < |ts|
    ensures k < r <= |ts|
    ensures r < |ts| ==> l < ts[r].height
    ensures forall j :: k < j < r ==> ts[j].height <= l
    decreases |ts| - k
  {
    if k + 1 == |ts| then |ts|
    else if l < ts[k + 1].height then k + 1
    else Next(ts, k + 1, l)
  }

  /** `Next` is determined by what its contract says. */
  lemma NextUnique(ts: seq<Tower>, k: nat, l: nat, r: nat)
    requires k < r <= |ts|
    requires r < |ts| ==> l < ts[r].height
    requires forall j :: k < j < r ==> ts[j].height <= l
    ensures Next(ts, k, l) == r
  {
    var n := Next(ts, k, l);
  }

  /** Largest end over the positions [a, b); 0 when there is none. */
  function MaxEnd(ts: seq<Tower>, a: nat, b: nat): nat
    requires a <= b <= |ts|
    decreases b - a
  {
    if a == b then 0 else Max(MaxEnd(ts, a, b - 1), ts[b - 1].end)
  }

  lemma {:induction false} MaxEndSplit(ts: seq<Tower>, a: nat, m: nat, b: nat)
    requires a <= m <= b <= |ts|
    ensures MaxEnd(ts, a, b) == Max(MaxEnd(ts, a, m), MaxEnd(ts, m, b))
    decreases b - m
  {
    if m < b {
      MaxEndSplit(ts, a, m, b - 1);
    }
  }

  lemma {:induction false} MaxEndBounds(ts: seq<Tower>, a: nat, b: nat, k: nat)
    requires a <= k < b <= |ts|
    ensures ts[k].end <= MaxEnd(ts, a, b)
    decreases b
  {
    if k < b - 1 {
      MaxEndBounds(ts, a, b - 1, k);
    }
  }

  /** The tower sequence with `t` inserted before position `q`. */
  function Inserted(ts: seq<Tower>, q: nat, t: Tower): seq<Tower>
    requires q <= |ts|
  {
    seq(|ts| + 1, k requires 0 <= k <= |ts| => if k < q then ts[k] else if k == q then t else ts[k - 1])
  }

  /** Where position `k` moves when a tower is inserted before `q`. */
  function Moved(k: nat, q: nat): nat { if k < q then k else k + 1 }

  lemma InsertedAt(ts: seq<Tower>, q: nat, t: Tower, k: nat)
    requires q <= |ts| && k < |ts|
    ensures |Inserted(ts, q, t)| == |ts| + 1 && Inserted(ts, q, t)[q] == t
    ensures Moved(k, q) <= |ts| && Inserted(ts, q, t)[Moved(k, q)] == ts[k]
  {
  }

  lemma InsertedNextApart(ts: seq<Tower>, q: nat, t: Tower, k: nat, l: nat)
    requires 1 <= q <= |ts| && k < |ts|
    requires !(k < q <= Next(ts, k, l) && l < t.height)
    ensures Moved(k, q) < |Inserted(ts, q, t)|
    ensures Next(Inserted(ts, q, t), Moved(k, q), l) == Moved(Next(ts, k, l), q)
  {
    var us, n := Inserted(ts, q, t), Next(ts, k, l);
    forall j | Moved(k, q) < j < Moved(n, q)
      ensures us[j].height <= l
    {
      if j != q {
        InsertedAt(ts, q, t, if j < q then j else j - 1);
      }
    }
    if n < |ts| {
      InsertedAt(ts, q, t, n);
    }
    NextUnique(us, Moved(k, q), l, Moved(n, q));
  }

  lemma InsertedNextAcross(ts: seq<Tower>, q: nat, t: Tower, k: nat, l: nat)
    requires k < q <= |ts| && q <= Next(ts, k, l) && l < t.height
    ensures Next(Inserted(ts, q, t), k, l) == q
    ensures Next(Inserted(ts, q, t), q, l) == Next(ts, k, l) + 1
  {
    var us, n := Inserted(ts, q, t), Next(ts, k, l);
    forall j | k < j <= n && j != q
      ensures us[j].height <= l
    {
      InsertedAt(ts, q, t, if j < q then j else j - 1);
    }
    if n < |ts| {
      InsertedAt(ts, q, t, n);
    }
    NextUnique(us, k, l, q);
    NextUnique(us, q, l, n + 1);
  }

  lemma {:induction false} InsertedMaxEnd(ts: seq<Tower>, q: nat, t: Tower, a: nat, b: nat)
    requires q <= |ts| && a <= b <= |ts|
    ensures b <= q ==> MaxEnd(Inserted(ts, q, t), a, b) == MaxEnd(ts, a, b)
    ensures q <= a ==> MaxEnd(Inserted(ts, q, t), a + 1, b + 1) == MaxEnd(ts, a, b)
    ensures a <= q <= b ==> MaxEnd(Inserted(ts, q, t), a, b + 1) == Max(MaxEnd(ts, a, b), t.end)
    decreases b - a
  {
    var us := Inserted(ts, q, t);
    if a < b {
      InsertedMaxEnd(ts, q, t, a, b - 1);
      assert b <= q ==> us[b - 1] == ts[b - 1];
      assert q < b ==> us[b] == ts[b - 1];
    }
    if q == b {
      assert us[q] == t;
      assert MaxEnd(us, a, b + 1) == Max(MaxEnd(us, a, b), t.end);
    }
  }

  /** The components whose span contains the window [p, send), in origin order. */
  function Containing(ts: seq<Tower>, p: nat, send: nat): seq<nat> {
    if ts == [] then []
    else
      var rest := Containing(ts[..|ts| - 1], p, send);
      var t := ts[|ts| - 1];
      if t.origin <= p && send <= t.end then rest + [t.ci] else rest
  }

  lemma {:induction false} ContainingConcat(ts: seq<Tower>, us: seq<Tower>, p: nat, send: nat)
    ensures Containing(ts + us, p, send) == Containing(ts, p, send) + Containing(us, p, send)
  {
    if us == [] {
      assert ts + us == ts;
    } else {
      ContainingConcat(ts, us[..|us| - 1], p, send);
      assert (ts + us)[..|ts + us| - 1] == ts + us[..|us| - 1];
      assert (ts + us)[|ts + us| - 1] == us[|us| - 1];
    }
  }

  lemma {:induction false} ContainingNone(ts: seq<Tower>, p: nat, send: nat)
    requires forall k :: 0 <= k < |ts| ==> !(ts[k].origin <= p && send <= ts[k].end)
    ensures Containing(ts, p, send) == []
  {
    if ts != [] {
      ContainingNone(ts[..|ts| - 1], p, send);
    }
  }

  /** A component is reported exactly when one of its towers contains the window. */
  lemma {:induction false} ContainingMember(ts: seq<Tower>, p: nat, send: nat, ci: nat)
    ensures ci in Containing(ts, p, send) <==>
              exists k :: 0 <= k < |ts| && ts[k].ci == ci && ts[k].origin <= p && send <= ts[k].end
  {
    if ts != [] {
      var us := ts[..|ts| - 1];
      ContainingMember(us, p, send, ci);
      var t := ts[|ts| - 1];
      if ci in Containing(ts, p, send) {
        if ci in Containing(us, p, send) {
          var k :| 0 <= k < |us| && us[k].ci == ci && us[k].origin <= p && send <= us[k].end;
          assert ts[k] == us[k];
        } else {
          assert ts[|ts| - 1].ci == ci;
        }
      }
      if k :| 0 <= k < |ts| && ts[k].ci == ci && ts[k].origin <= p && send <= ts[k].end {
        if k < |us| {
          assert us[k] == ts[k];
        } else {
          assert t.ci == ci;
        }
      }
    }
  }

  /** A component indexed once is reported at most once. */
  lemma {:induction false} ContainingOnce(ts: seq<Tower>, p: nat, send: nat)
    requires forall i, j :: 0 <= i < j < |ts| ==> ts[i].ci != ts[j].ci
    ensures forall i, j :: 0 <= i < j < |Containing(ts, p, send)| ==>
              Containing(ts, p, send)[i] != Containing(ts, p, send)[j]
  {
    if ts != [] {
      var us := ts[..|ts| - 1];
      ContainingOnce(us, p, send);
      ContainingMember(us, p, send, ts[|ts| - 1].ci);
    }
  }
}

/** The skiplist itself: arena nodes with forward links and segment aggregates. */
module EmitSkips {
  import opened Towers

  const SKIP_MAX_LEVEL := 20

  datatype SkipNode = SkipNode(ci: nat, origin: nat, end: nat, fwd: seq<int>, maxEnd: seq<nat>)

  /** `nodes` with level `l` of node `i` rewritten. */
  function Relinked(nodes: seq<SkipNode>, i: nat, l: nat, next: int, m: nat): seq<SkipNode>
    requires i < |nodes| && l < |nodes[i].fwd| == |nodes[i].maxEnd|
  {
    nodes[i := nodes[i].(fwd := nodes[i].fwd[l := next], maxEnd := nodes[i].maxEnd[l := m])]
  }

  /** The link value that stands for position `k`: its arena node, or -1 past the end. */
  ghost function NodeAt(ts: seq<Tower>, k: nat): int
    requires k <= |ts|
  {
    if k == |ts| then -1 else ts[k].node
  }

  /** Levels carried at position `k`: all of them for the head sentinel. */
  ghost function Levels(ts: seq<Tower>, top: nat, k: nat): nat
    requires k < |ts|
  {
    if k == 0 then top else ts[k].height
  }

  ghost predicate Sorted(ts: seq<Tower>) {
    forall i, j :: 1 <= i < j < |ts| ==> ts[i].origin <= ts[j].origin
  }

  /** The arena holds exactly the towers `ts`, the head sentinel first. */
  ghost predicate Shape(nodes: seq<SkipNode>, ts: seq<Tower>, top: nat) {
    && 1 <= |ts| == |nodes| && 1 <= top <= SKIP_MAX_LEVEL
    && ts[0].node == 0 && ts[0].end == 0 && nodes[0].end == 0
    && |nodes[0].fwd| == |nodes[0].maxEnd| >= top
    && (forall k :: 0 <= k < |ts| ==> ts[k].node < |nodes|)
    && Distinct(ts)
    && (forall k :: 1 <= k < |ts| ==> 1 <= ts[k].height <= top)
    && (forall k :: 1 <= k < |ts| ==> Matches(nodes[ts[k].node], ts[k]))
  }

  ghost predicate Distinct(ts: seq<Tower>) {
    forall i, j :: 0 <= i < j < |ts| ==> ts[i].node != ts[j].node
  }

  ghost predicate Matches(n: SkipNode, t: Tower) {
    n.ci == t.ci && n.origin == t.origin && n.end == t.end && |n.fwd| == |n.maxEnd| == t.height
  }

  ghost predicate Linked(nodes: seq<SkipNode>, ts: seq<Tower>, k: nat, l: nat) {
    && k < |ts| && ts[k].node < |nodes| && l < |nodes[ts[k].node].fwd|
    && nodes[ts[k].node].fwd[l] == NodeAt(ts, Next(ts, k, l))
  }

  ghost predicate Aggregated(nodes: seq<SkipNode>, ts: seq<Tower>, k: nat, l: nat) {
    && k < |ts| && ts[k].node < |nodes| && l < |nodes[ts[k].node].maxEnd|
    && nodes[ts[k].node].maxEnd[l] == MaxEnd(ts, k, Next(ts, k, l))
  }

  /** Every link of level `l` leads to the next tower taller than `l`. */
  ghost predicate LevelLinked(nodes: seq<SkipNode>, ts: seq<Tower>, top: nat, l: nat) {
    forall k :: 0 <= k < |ts| && l < Levels(ts, top, k) ==> Linked(nodes, ts, k, l)
  }

  /** Level `l` is the sublist of the towers taller than `l`, its aggregates exact. */
  ghost predicate LevelOk(nodes: seq<SkipNode>, ts: seq<Tower>, top: nat, l: nat) {
    forall k :: 0 <= k < |ts| && l < Levels(ts, top, k) ==> Linked(nodes, ts, k, l) && Aggregated(nodes, ts, k, l)
  }

  /** As `LevelOk`, except that the head aggregate of a level above `low` is not known yet. */
  ghost predicate LevelPending(nodes: seq<SkipNode>, ts: seq<Tower>, top: nat, l: nat, low: nat) {
    forall k :: 0 <= k < |ts| && l < Levels(ts, top, k) ==>
      Linked(nodes, ts, k, l) && ((k == 0 && low <= l) || Aggregated(nodes, ts, k, l))
  }

  ghost predicate Coherent(nodes: seq<SkipNode>, ts: seq<Tower>, top: nat) {
    Shape(nodes, ts, top) && Sorted(ts) && forall l :: 0 <= l < top ==> LevelOk(nodes, ts, top, l)
  }

  /** First position from `k` on whose origin exceeds `o`. */
  ghost function UpperBound(ts: seq<Tower>, k: nat, o: nat): (r: nat)
    requires k <= |ts|
    ensures k <= r <= |ts|
    ensures forall j :: k <= j < r ==> ts[j].origin <= o
    ensures r < |ts| ==> o < ts[r].origin
    decreases |ts| - k
  {
    if k == |ts| || o < ts[k].origin then k else UpperBound(ts, k + 1, o)
  }

  /** Stepping along a lower level never jumps over a position of the level above. */
  lemma NextWithin(ts: seq<Tower>, k: nat, l: nat, b: nat)
    requires k < b <= |ts|
    requires b < |ts| ==> l < ts[b].height
    ensures Next(ts, k, l) <= b
  {
    var n := Next(ts, k, l);
  }

  /** The two arenas have the same nodes up to their links, and the same links on level `l`. */
  ghost predicate SameLevel(n0: seq<SkipNode>, n1: seq<SkipNode>, l: nat) {
    && |n0| == |n1|
    && forall i :: 0 <= i < |n0| ==>
         && |n0[i].fwd| == |n1[i].fwd| && |n0[i].maxEnd| == |n1[i].maxEnd|
         && (l < |n0[i].fwd| ==> n0[i].fwd[l] == n1[i].fwd[l])
         && (l < |n0[i].maxEnd| ==> n0[i].maxEnd[l] == n1[i].maxEnd[l])
  }

  lemma LevelFrame(n0: seq<SkipNode>, n1: seq<SkipNode>, ts: seq<Tower>, top: nat, l: nat, low: nat)
    requires SameLevel(n0, n1, l)
    ensures LevelOk(n0, ts, top, l) ==> LevelOk(n1, ts, top, l)
    ensures LevelPending(n0, ts, top, l, low) ==> LevelPending(n1, ts, top, l, low)
  {
    if LevelOk(n0, ts, top, l) {
      forall k | 0 <= k < |ts| && l < Levels(ts, top, k)
        ensures Linked(n1, ts, k, l) && Aggregated(n1, ts, k, l)
      {
        assert Linked(n0, ts, k, l) && Aggregated(n0, ts, k, l);
      }
    }
    if LevelPending(n0, ts, top, l, low) {
      forall k | 0 <= k < |ts| && l < Levels(ts, top, k)
        ensures Linked(n1, ts, k, l) && ((k == 0 && low <= l) || Aggregated(n1, ts, k, l))
      {
        assert Linked(n0, ts, k, l);
      }
    }
  }

  lemma PendingAbove(nodes: seq<SkipNode>, ts: seq<Tower>, top: nat, l: nat, low: nat)
    requires LevelPending(nodes, ts, top, l, low) && l < low
    ensures LevelPending(nodes, ts, top, l, top) 
  {
  }

  lemma OtherLevels(n0: seq<SkipNode>, n1: seq<SkipNode>, us: seq<Tower>, ts: seq<Tower>, top: nat, l: nat, low: nat)
    requires forall m :: 0 <= m && m != l ==> SameLevel(n0, n1, m)
    ensures forall m :: 0 <= m && m != l && LevelOk(n0, us, top, m) ==> LevelOk(n1, us, top, m)
    ensures forall m :: 0 <= m && m != l && LevelPending(n0, ts, top, m, low) ==> LevelPending(n1, ts, top, m, low)
  {
    forall m | 0 <= m && m != l
      ensures LevelOk(n0, us, top, m) ==> LevelOk(n1, us, top, m)
      ensures LevelPending(n0, ts, top, m, low) ==> LevelPending(n1, ts, top, m, low)
    {
      LevelFrame(n0, n1, us, top, m, low);
      LevelFrame(n0, n1, ts, top, m, low);
    }
  }

  /** Position `k0` is the last one below `q` that carries level `l`. */
  ghost predicate Predecessor(ts: seq<Tower>, top: nat, q: nat, l: nat, k0: nat) {
    k0 < q <= |ts| && l < Levels(ts, top, k0) && q <= Next(ts, k0, l)
  }

  /** Away from the predecessor, inserting before `q` only renames positions. */
  lemma UntouchedByInsert(n1: seq<SkipNode>, ts: seq<Tower>, top: nat, q: nat, t: Tower, l: nat, k0: nat, j: nat)
    requires Predecessor(ts, top, q, l, k0) && j < |ts| && j != k0 && l < Levels(ts, top, j)
    requires Linked(n1, ts, j, l) && Aggregated(n1, ts, j, l)
    ensures Linked(n1, Inserted(ts, q, t), Moved(j, q), l)
    ensures Aggregated(n1, Inserted(ts, q, t), Moved(j, q), l)
  {
    var n := Next(ts, j, l);
    if j < k0 {
      NextWithin(ts, j, l, k0);
    }
    InsertedNextApart(ts, q, t, j, l);
    InsertedMaxEnd(ts, q, t, j, n);
    InsertedAt(ts, q, t, j);
    if n < |ts| {
      InsertedAt(ts, q, t, n);
    }
  }

  lemma InsertedAll(ts: seq<Tower>, q: nat, t: Tower)
    requires q <= |ts|
    ensures |Inserted(ts, q, t)| == |ts| + 1
    ensures forall k :: 0 <= k <= |ts|
             ==> Inserted(ts, q, t)[k] == if k < q then ts[k] else if k == q then t else ts[k - 1]
  {
  }

  lemma InsertedDistinct(ts: seq<Tower>, q: nat, t: Tower)
    requires q <= |ts| && Distinct(ts) && forall k :: 0 <= k < |ts| ==> ts[k].node != t.node
    ensures Distinct(Inserted(ts, q, t))
  {
    InsertedAll(ts, q, t);
  }

  lemma InsertedSorted(ts: seq<Tower>, q: nat, t: Tower)
    requires 1 <= |ts| && Sorted(ts) && q == UpperBound(ts, 1, t.origin)
    ensures Sorted(Inserted(ts, q, t))
  {
    InsertedAll(ts, q, t);
    var us := Inserted(ts, q, t);
    forall i, j | 1 <= i < j < |us|
      ensures us[i].origin <= us[j].origin
    {
      if q < j && i < q {
        assert ts[i].origin <= ts[j - 1].origin;
      } else if q == i {
        assert j - 1 == q || ts[q].origin <= ts[j - 1].origin;
      }
    }
  }

  /** Appending a node and placing its tower keeps the arena and the tower sequence in step. */
  lemma InsertedShape(n0: seq<SkipNode>, n1: seq<SkipNode>, ts: seq<Tower>, top: nat, q: nat, n: SkipNode, t: Tower)
    requires Shape(n0, ts, top) && 1 <= q <= |ts| && n1 == n0 + [n]
    requires t.node == |n0| && 1 <= t.height <= top && Matches(n, t)
    ensures Shape(n1, Inserted(ts, q, t), top)
  {
    InsertedAll(ts, q, t);
    InsertedDistinct(ts, q, t);
    var us := Inserted(ts, q, t);
    forall k | 1 <= k < |us|
      ensures us[k].node < |n1| && 1 <= us[k].height <= top && Matches(n1[us[k].node], us[k])
    {
      assert k < q ==> us[k] == ts[k];
      assert k > q ==> us[k] == ts[k - 1];
    }
  }

  /** Appending a node leaves every link and aggregate in place. */
  lemma AppendedPending(n0: seq<SkipNode>, n1: seq<SkipNode>, ts: seq<Tower>, top: nat, low: nat, n: SkipNode)
    requires n1 == n0 + [n] && forall l :: 0 <= l < top ==> LevelPending(n0, ts, top, l, low)
    ensures forall l :: 0 <= l < top ==> LevelPending(n1, ts, top, l, low)
  {
    forall l | 0 <= l < top
      ensures LevelPending(n1, ts, top, l, low)
    {
      assert LevelPending(n0, ts, top, l, low);
      forall k | 0 <= k < |ts| && l < Levels(ts, top, k)
        ensures Linked(n1, ts, k, l) && ((k == 0 && low <= l) || Aggregated(n1, ts, k, l))
      {
        assert Linked(n0, ts, k, l);
      }
    }
  }

  /** On a level no older tower reaches, the predecessor is the head. */
  lemma NewLevels(ts: seq<Tower>, top: nat, q: nat, at: seq<nat>, low: nat)
    requires top <= |at| && forall l :: 0 <= l < top ==> Predecessor(ts, top, q, l, at[l])
    requires forall k :: 1 <= k < |ts| ==> ts[k].height <= low
    ensures forall l :: low <= l < top ==> at[l] == 0
  {
    forall l | low <= l < top
      ensures at[l] == 0
    {
      assert Predecessor(ts, top, q, l, at[l]);
    }
  }

  /** The spans with `t` placed after every span of the same or a smaller origin. */
  ghost function Placed(ts: seq<Tower>, t: Tower): seq<Tower> {
    Inserted(ts, UpperBound(ts, 0, t.origin), t)
  }

  lemma {:induction false} UpperBoundShift(ts: seq<Tower>, k: nat, o: nat)
    requires 1 <= k <= |ts|
    ensures UpperBound(ts, k, o) == UpperBound(ts[1..], k - 1, o) + 1
    decreases |ts| - k
  {
    if k < |ts| && ts[k].origin <= o {
      UpperBoundShift(ts, k + 1, o);
    }
  }

  lemma PlacedTail(ts: seq<Tower>, t: Tower)
    requires 1 <= |ts|
    ensures Inserted(ts, UpperBound(ts, 1, t.origin), t)[1..] == Placed(ts[1..], t)
  {
    UpperBoundShift(ts, 1, t.origin);
    var q := UpperBound(ts, 1, t.origin);
    var us, vs := Inserted(ts, q, t), Inserted(ts[1..], q - 1, t);
    assert |us| == |ts| + 1 && |vs| == |ts|;
    forall k | 0 <= k < |vs|
      ensures us[1..][k] == vs[k]
    {
      InsertedTailAt(ts, q, t, k);
    }
  }

  lemma InsertedTailAt(ts: seq<Tower>, q: nat, t: Tower, k: nat)
    requires 1 <= q <= |ts| && k < |ts|
    ensures Inserted(ts, q, t)[k + 1] == Inserted(ts[1..], q - 1, t)[k]
  {
  }

  /** Rewriting one level of one node keeps the shape and every other level. */
  lemma RelinkedFrame(nodes: seq<SkipNode>, ts: seq<Tower>, top: nat, i: nat, l: nat, next: int, m: nat)
    requires Shape(nodes, ts, top) && i < |nodes| && l < |nodes[i].fwd| == |nodes[i].maxEnd|
    ensures Shape(Relinked(nodes, i, l, next, m), ts, top)
    ensures forall j :: 0 <= j && j != l ==> SameLevel(nodes, Relinked(nodes, i, l, next, m), j)
  {
    var n1 := Relinked(nodes, i, l, next, m);
    forall k | 1 <= k < |ts|
      ensures Matches(n1[ts[k].node], ts[k])
    {
      assert Matches(nodes[ts[k].node], ts[k]);
    }
  }

  /** The two rewrites that link node `idx` in after node `pre` on level `l`. */
  lemma RelinkedTwice(nodes: seq<SkipNode>, ts: seq<Tower>, top: nat, idx: nat, pre: nat, l: nat,
                      next: int, m: nat, m2: nat)
    requires Shape(nodes, ts, top) && idx < |nodes| && pre < |nodes| && idx != pre
    requires l < |nodes[idx].fwd| == |nodes[idx].maxEnd| && l < |nodes[pre].fwd| == |nodes[pre].maxEnd|
    ensures var n2 := Relinked(Relinked(nodes, idx, l, next, m), pre, l, idx, m2);
            && Shape(n2, ts, top) && SameBut(nodes, n2, pre, idx)
            && l < |n2[idx].fwd| && n2[idx].fwd[l] == next && l < |n2[idx].maxEnd| && n2[idx].maxEnd[l] == m
            && l < |n2[pre].fwd| && n2[pre].fwd[l] == idx && l < |n2[pre].maxEnd| && n2[pre].maxEnd[l] == m2
    ensures forall j :: 0 <= j && j != l
             ==> SameLevel(nodes, Relinked(Relinked(nodes, idx, l, next, m), pre, l, idx, m2), j)
  {
    var n1 := Relinked(nodes, idx, l, next, m);
    RelinkedFrame(nodes, ts, top, idx, l, next, m);
    RelinkedFrame(n1, ts, top, pre, l, idx, m2);
  }

  /** Every other node is the same in both arenas. */
  ghost predicate SameBut(n0: seq<SkipNode>, n1: seq<SkipNode>, a: nat, b: nat) {
    |n0| == |n1| && forall i :: 0 <= i < |n0| && i != a && i != b ==> n0[i] == n1[i]
  }

  /** Positions other than the new tower and its predecessor stay exact on a level. */
  lemma OthersExact(n0: seq<SkipNode>, n1: seq<SkipNode>, ts: seq<Tower>, top: nat, q: nat, t: Tower,
                    l: nat, low: nat, k0: nat, k: nat)
    requires Predecessor(ts, top, q, l, k0) && LevelPending(n0, ts, top, l, low) && (low <= l ==> k0 == 0)
    requires Distinct(Inserted(ts, q, t)) && SameBut(n0, n1, ts[k0].node, t.node)
    requires k <= |ts| && k != q && k != k0 && l < Levels(Inserted(ts, q, t), top, k)
    ensures Linked(n1, Inserted(ts, q, t), k, l) && Aggregated(n1, Inserted(ts, q, t), k, l)
  {
    var us, j := Inserted(ts, q, t), if k < q then k else k - 1;
    InsertedAt(ts, q, t, j);
    InsertedAt(ts, q, t, k0);
    assert us[k].node != us[q].node && us[k].node != us[k0].node;
    assert Linked(n0, ts, j, l) && Aggregated(n0, ts, j, l);
    UntouchedByInsert(n1, ts, top, q, t, l, k0, j);
  }

  /** Linking the new tower in on one of its own levels makes that level exact. */
  lemma LevelSpliced(n0: seq<SkipNode>, n1: seq<SkipNode>, ts: seq<Tower>, top: nat, q: nat, t: Tower,
                     l: nat, low: nat, k0: nat)
    requires Predecessor(ts, top, q, l, k0) && LevelPending(n0, ts, top, l, low) && (low <= l ==> k0 == 0)
    requires Distinct(Inserted(ts, q, t)) && SameBut(n0, n1, ts[k0].node, t.node)
    requires l < t.height && ts[k0].node < |n1| && t.node < |n1|
    requires l < |n1[t.node].fwd| && l < |n1[ts[k0].node].fwd|
    requires l < |n1[t.node].maxEnd| && l < |n1[ts[k0].node].maxEnd|
    requires n1[t.node].fwd[l] == NodeAt(ts, Next(ts, k0, l)) && n1[ts[k0].node].fwd[l] == t.node
    requires n1[t.node].maxEnd[l] == MaxEnd(Inserted(ts, q, t), q, Next(ts, k0, l) + 1)
    requires n1[ts[k0].node].maxEnd[l] == MaxEnd(Inserted(ts, q, t), k0, q)
    ensures LevelOk(n1, Inserted(ts, q, t), top, l)
  {
    var us := Inserted(ts, q, t);
    InsertedNextAcross(ts, q, t, k0, l);
    InsertedAt(ts, q, t, k0);
    if Next(ts, k0, l) < |ts| {
      InsertedAt(ts, q, t, Next(ts, k0, l));
    }
    assert Linked(n1, us, k0, l) && Aggregated(n1, us, k0, l);
    assert Linked(n1, us, q, l) && Aggregated(n1, us, q, l);
    forall k | 0 <= k < |us| && l < Levels(us, top, k) && k != k0 && k != q
      ensures Linked(n1, us, k, l) && Aggregated(n1, us, k, l)
    {
      OthersExact(n0, n1, ts, top, q, t, l, low, k0, k);
    }
  }

  /** Above the new tower only the aggregate of the predecessor grows. */
  lemma LevelWidened(n0: seq<SkipNode>, n1: seq<SkipNode>, ts: seq<Tower>, top: nat, q: nat, t: Tower, l: nat, k0: nat)
    requires Predecessor(ts, top, q, l, k0) && LevelPending(n0, ts, top, l, top)
    requires Distinct(Inserted(ts, q, t)) && SameBut(n0, n1, ts[k0].node, t.node)
    requires t.height <= l < top && ts[k0].node < |n1|
    requires l < |n0[ts[k0].node].maxEnd|
    requires n1[ts[k0].node].fwd == n0[ts[k0].node].fwd && l < |n1[ts[k0].node].maxEnd|
    requires n1[ts[k0].node].maxEnd[l] == Max(n0[ts[k0].node].maxEnd[l], t.end)
    ensures LevelOk(n1, Inserted(ts, q, t), top, l)
  {
    var us, n := Inserted(ts, q, t), Next(ts, k0, l);
    InsertedAt(ts, q, t, k0);
    assert Linked(n0, ts, k0, l) && Aggregated(n0, ts, k0, l);
    InsertedNextApart(ts, q, t, k0, l);
    InsertedMaxEnd(ts, q, t, k0, n);
    if n < |ts| {
      InsertedAt(ts, q, t, n);
    }
    assert Linked(n1, us, k0, l) && Aggregated(n1, us, k0, l);
    forall k | 0 <= k < |us| && l < Levels(us, top, k) && k != k0
      ensures Linked(n1, us, k, l) && Aggregated(n1, us, k, l)
    {
      OthersExact(n0, n1, ts, top, q, t, l, top, k0, k);
    }
  }

  /** A sentinel that gains empty levels keeps every older level exact. */
  lemma HeadGrown(n0: seq<SkipNode>, n1: seq<SkipNode>, ts: seq<Tower>, t0: nat, t1: nat, l: nat)
    requires Coherent(n0, ts, t0) && t0 <= t1 && l < t1
    requires |n0| == |n1| && forall i :: 1 <= i < |n0| ==> n0[i] == n1[i]
    requires |n1[0].fwd| == |n1[0].maxEnd| && t1 <= |n1[0].fwd|
    requires forall m :: 0 <= m < t0 ==> n1[0].fwd[m] == n0[0].fwd[m] && n1[0].maxEnd[m] == n0[0].maxEnd[m]
    requires forall m :: t0 <= m < t1 ==> n1[0].fwd[m] == -1
    ensures LevelPending(n1, ts, t1, l, t0) && LevelLinked(n1, ts, t1, l)
  {
    forall k | 0 <= k < |ts| && l < Levels(ts, t1, k)
      ensures Linked(n1, ts, k, l) && ((k == 0 && t0 <= l) || Aggregated(n1, ts, k, l))
    {
      if l < t0 {
        assert LevelOk(n0, ts, t0, l) && Linked(n0, ts, k, l) && Aggregated(n0, ts, k, l);
      } else {
        NextUnique(ts, k, l, |ts|);
      }
    }
  }

  /** What the invariant says of one link. */
  lemma LinkedAt(nodes: seq<SkipNode>, ts: seq<Tower>, top: nat, k: nat, l: nat)
    requires Coherent(nodes, ts, top) && k < |ts| && l < Levels(ts, top, k)
    ensures Linked(nodes, ts, k, l)
  {
    assert LevelOk(nodes, ts, top, l);
  }

  lemma LinkIs(nodes: seq<SkipNode>, ts: seq<Tower>, k: nat, l: nat)
    requires Linked(nodes, ts, k, l)
    ensures k < |ts| && ts[k].node < |nodes| && l < |nodes[ts[k].node].fwd|
    ensures nodes[ts[k].node].fwd[l] == NodeAt(ts, Next(ts, k, l))
  {
  }

  /** What the invariant says of one node and its segment on level `l`. */
  lemma NodeIs(nodes: seq<SkipNode>, ts: seq<Tower>, top: nat, k: nat, l: nat)
    requires Coherent(nodes, ts, top) && 1 <= k < |ts| && l < ts[k].height
    ensures ts[k].node < |nodes| && l < |nodes[ts[k].node].fwd| && l < |nodes[ts[k].node].maxEnd|
    ensures nodes[ts[k].node].fwd[l] == NodeAt(ts, Next(ts, k, l))
    ensures nodes[ts[k].node].maxEnd[l] == MaxEnd(ts, k, Next(ts, k, l))
    ensures nodes[ts[k].node].end == ts[k].end && nodes[ts[k].node].ci == ts[k].ci
    ensures var n := Next(ts, k, l);
            n < |ts| ==> ts[n].node < |nodes| && nodes[ts[n].node].origin == ts[n].origin
    ensures Sorted(ts) && forall j :: 1 <= j < |ts| ==> 1 <= ts[j].height
  {
    assert LevelOk(nodes, ts, top, l);
    assert Linked(nodes, ts, k, l) && Aggregated(nodes, ts, k, l) && Matches(nodes[ts[k].node], ts[k]);
    var n := Next(ts, k, l);
    assert n < |ts| ==> Matches(nodes[ts[n].node], ts[n]);
  }

  /** What an exact level says of one of its nodes. */
  lemma LevelAt(nodes: seq<SkipNode>, ts: seq<Tower>, top: nat, l: nat, k: nat)
    requires LevelOk(nodes, ts, top, l) && k < |ts| && l < Levels(ts, top, k)
    ensures ts[k].node < |nodes| && l < |nodes[ts[k].node].fwd| && l < |nodes[ts[k].node].maxEnd|
    ensures nodes[ts[k].node].fwd[l] == NodeAt(ts, Next(ts, k, l))
    ensures nodes[ts[k].node].maxEnd[l] == MaxEnd(ts, k, Next(ts, k, l))
  {
    assert Linked(nodes, ts, k, l) && Aggregated(nodes, ts, k, l);
  }

  lemma NoSegment(ts: seq<Tower>, a: nat)
    requires a <= |ts|
    ensures MaxEnd(ts, a, a) == 0
  {
  }

  lemma OneNode(nodes: seq<SkipNode>, ts: seq<Tower>, top: nat, k: nat, b: nat)
    requires Shape(nodes, ts, top) && k <= b <= |ts| && (NodeAt(ts, k) < 0 || NodeAt(ts, k) == NodeAt(ts, b))
    ensures k == b
  {
  }

  /** The two nodes a new link on level `l` touches. */
  lemma LinkReady(nodes: seq<SkipNode>, us: seq<Tower>, ts: seq<Tower>, top: nat, q: nat, t: Tower, l: nat, k0: nat,
                  low: nat)
    requires 1 <= q <= |ts| && us == Inserted(ts, q, t) && Shape(nodes, us, top) && l < t.height <= top
    requires Predecessor(ts, top, q, l, k0) && LevelPending(nodes, ts, top, l, low)
    ensures k0 < |ts| && Linked(nodes, ts, k0, l) && t.node < |nodes| && ts[k0].node < |nodes| && t.node != ts[k0].node
    ensures l < |nodes[t.node].fwd| == |nodes[t.node].maxEnd|
    ensures l < |nodes[ts[k0].node].fwd| == |nodes[ts[k0].node].maxEnd|
  {
    InsertedAt(ts, q, t, k0);
    assert Linked(nodes, ts, k0, l);
    assert Matches(nodes[us[q].node], us[q]);
    assert k0 != 0 ==> Matches(nodes[us[k0].node], us[k0]);
  }

  lemma FirstNode(nodes: seq<SkipNode>, ts: seq<Tower>, top: nat)
    requires Coherent(nodes, ts, top) && |nodes| > 1
    ensures |nodes[0].fwd| > 0 && |ts| == |nodes| && nodes[0].fwd[0] == ts[1].node
    ensures forall k :: 0 <= k < |ts| ==> ts[k].node < |nodes|
    ensures forall j, k :: 0 <= j < k < |ts| ==> ts[j].node != ts[k].node
  {
    LinkedAt(nodes, ts, top, 0, 0);
    NextOnBottom(ts, 0);
  }

  lemma SameNode(nodes: seq<SkipNode>, ts: seq<Tower>, top: nat, j: nat, n: nat)
    requires Coherent(nodes, ts, top) && j <= |ts| && n <= |ts| && NodeAt(ts, j) == NodeAt(ts, n)
    ensures j == n
  {
  }

  lemma AllGrown(n0: seq<SkipNode>, n1: seq<SkipNode>, ts: seq<Tower>, t0: nat, t1: nat)
    requires Coherent(n0, ts, t0) && t0 <= t1
    requires |n0| == |n1| && forall i :: 1 <= i < |n0| ==> n0[i] == n1[i]
    requires |n1[0].fwd| == |n1[0].maxEnd| && t1 <= |n1[0].fwd|
    requires forall m :: 0 <= m < t0 ==> n1[0].fwd[m] == n0[0].fwd[m] && n1[0].maxEnd[m] == n0[0].maxEnd[m]
    requires forall m :: t0 <= m < t1 ==> n1[0].fwd[m] == -1
    ensures forall l :: 0 <= l < t1 ==> LevelLinked(n1, ts, t1, l)
    ensures forall l :: 0 <= l < t1 ==> LevelPending(n1, ts, t1, l, t0)
  {
    hide Coherent;
    hide LevelPending;
    hide LevelLinked;
    forall l | 0 <= l < t1
      ensures LevelPending(n1, ts, t1, l, t0) && LevelLinked(n1, ts, t1, l)
    {
      HeadGrown(n0, n1, ts, t0, t1, l);
    }
  }

  lemma FirstHead()
    ensures Coherent([SkipNode(0, 0, 0, [-1], [0])], [Tower(0, 0, 0, 0, 0)], 1)
  {
    assert LevelOk([SkipNode(0, 0, 0, [-1], [0])], [Tower(0, 0, 0, 0, 0)], 1, 0);
  }

  /** Every tower reaches the bottom level. */
  lemma NextOnBottom(ts: seq<Tower>, k: nat)
    requires k < |ts| && forall j :: 1 <= j < |ts| ==> 1 <= ts[j].height
    ensures Next(ts, k, 0) == k + 1
  {
    NextUnique(ts, k, 0, k + 1);
  }

  /** The components of the positions [a, b) whose span contains the window. */
  ghost function Report(ts: seq<Tower>, a: nat, b: nat, p: nat, send: nat): seq<nat>
    requires a <= b <= |ts|
  {
    Containing(ts[a..b], p, send)
  }

  lemma ReportNothing(ts: seq<Tower>, k: nat, p: nat, send: nat)
    requires k <= |ts|
    ensures Report(ts, k, k, p, send) == []
  {
  }

  lemma ReportSplit(ts: seq<Tower>, a: nat, m: nat, b: nat, p: nat, send: nat)
    requires a <= m <= b <= |ts|
    ensures Report(ts, a, b, p, send) == Report(ts, a, m, p, send) + Report(ts, m, b, p, send)
  {
    ContainingConcat(ts[a..m], ts[m..b], p, send);
    assert ts[a..b] == ts[a..m] + ts[m..b];
  }

  lemma ReportOne(ts: seq<Tower>, k: nat, p: nat, send: nat)
    requires k < |ts| && ts[k].origin <= p
    ensures Report(ts, k, k + 1, p, send) == if send <= ts[k].end then [ts[k].ci] else []
  {
    var one := ts[k..k + 1];
    assert one[..0] == [] && one[0] == ts[k];
    assert Containing(one[..0], p, send) == [];
  }

  lemma ReportNone(ts: seq<Tower>, a: nat, b: nat, p: nat, send: nat)
    requires a <= b <= |ts|
    requires MaxEnd(ts, a, b) < send || forall j :: a <= j < b ==> p < ts[j].origin
    ensures Report(ts, a, b, p, send) == []
  {
    if MaxEnd(ts, a, b) < send {
      forall j | a <= j < b
        ensures ts[j].end < send
      {
        MaxEndBounds(ts, a, b, j);
      }
    }
    ContainingNone(ts[a..b], p, send);
  }

  /** An empty top level can be dropped. */
  lemma LowerTop(nodes: seq<SkipNode>, ts: seq<Tower>, top: nat)
    requires Coherent(nodes, ts, top) && 1 < top && nodes[0].fwd[top - 1] < 0
    ensures Coherent(nodes, ts, top - 1)
  {
    assert LevelOk(nodes, ts, top, top - 1) && Linked(nodes, ts, 0, top - 1);
    var low: nat := top - 1;
    forall l: nat | l < low
      ensures LevelOk(nodes, ts, low, l)
    {
      assert LevelOk(nodes, ts, top, l);
      forall k | 0 <= k < |ts| && l < Levels(ts, low, k)
        ensures Linked(nodes, ts, k, l) && Aggregated(nodes, ts, k, l)
      {
        assert l < Levels(ts, top, k);
      }
    }
  }

  lemma InBound(ts: seq<Tower>, q: nat, n: nat, p: nat)
    requires 1 <= n < |ts| && Sorted(ts) && q == UpperBound(ts, 1, p) && ts[n].origin <= p
    ensures n < q
  {
    PastBound(ts, q, p);
  }

  lemma PastBound(ts: seq<Tower>, q: nat, p: nat)
    requires 1 <= |ts| && Sorted(ts) && q == UpperBound(ts, 1, p)
    ensures forall j :: q <= j < |ts| ==> p < ts[j].origin
  {
    forall j | q < j < |ts|
      ensures p < ts[j].origin
    {
      assert ts[q].origin <= ts[j].origin;
    }
  }

  /** Only the positions below the upper bound can contain the window. */
  lemma QueryRange(ts: seq<Tower>, q: nat, p: nat, send: nat)
    requires 1 <= |ts| && Sorted(ts) && q == UpperBound(ts, 1, p)
    ensures Containing(ts[1..], p, send) == Report(ts, 1, q, p, send)
  {
    PastBound(ts, q, p);
    ReportNone(ts, q, |ts|, p, send);
    ReportSplit(ts, 1, q, |ts|, p, send);
    assert ts[1..] == ts[1..|ts|];
  }

  lemma NodeAtMoved(ts: seq<Tower>, q: nat, t: Tower, n: nat)
    requires q <= n <= |ts|
    ensures NodeAt(Inserted(ts, q, t), n + 1) == NodeAt(ts, n)
  {
  }

  class EmitSkip {
    var nodes: seq<SkipNode>
    var top: nat
    ghost var towers: seq<Tower>

    ghost predicate Valid()
      reads this
    {
      (nodes == [] && towers == []) || Coherent(nodes, towers, top)
    }

    /** The indexed spans in origin order, without the sentinel. */
    ghost function Spans(): seq<Tower>
      reads this
    {
      if towers == [] then [] else towers[1..]
    }

    constructor ()
      ensures Valid() && Spans() == []
    {
      nodes, top, towers := [], 0, [];
    }

    /** Walks level `l` from node `y` to `stop`, collecting the largest aggregate on the way. */
    method WalkMax(y0: int, stop: int, l: nat, m0: nat, ghost us: seq<Tower>, ghost a: nat, ghost b: nat)
      returns (m: nat)
      requires Shape(nodes, us, top) && l < top && LevelOk(nodes, us, top, l)
      requires a <= b <= |us| && (a < |us| ==> l < Levels(us, top, a)) && (0 < b < |us| ==> l < us[b].height)
      requires y0 == NodeAt(us, a) && stop == NodeAt(us, b)
      ensures m == Max(m0, MaxEnd(us, a, b))
    {
      hide Shape;
      hide LevelOk;
      hide MaxEnd;
      hide Next;
      m := m0;
      var y := y0;
      ghost var k := a;
      NoSegment(us, a);
      while y >= 0 && y != stop
        invariant a <= k <= b && y == NodeAt(us, k)
        invariant k < |us| ==> l < Levels(us, top, k)
        invariant m == Max(m0, MaxEnd(us, a, k))
        decreases b - k
      {
        LevelAt(nodes, us, top, l, k);
        ghost var n := Next(us, k, l);
        NextWithin(us, k, l, b);
        MaxEndSplit(us, a, k, n);
        var v := nodes[y].maxEnd[l];
        if v > m {
          m := v;
        }
        y := nodes[y].fwd[l];
        k := n;
      }
      OneNode(nodes, us, top, k, b);
    }

    /** Follows level `l` while the next origin does not exceed `origin`. */
    method Advance(origin: nat, l: nat, cur0: nat, ghost k0: nat) returns (cur: nat, ghost k: nat)
      requires nodes != [] && Shape(nodes, towers, top) && Sorted(towers) && LevelLinked(nodes, towers, top, l)
      requires k0 < UpperBound(towers, 1, origin) && cur0 == towers[k0].node && l < Levels(towers, top, k0)
      ensures Predecessor(towers, top, UpperBound(towers, 1, origin), l, k) && cur == towers[k].node
    {
      cur, k := cur0, k0;
      while true
        invariant k < UpperBound(towers, 1, origin) && cur == towers[k].node && l < Levels(towers, top, k)
        decreases |towers| - k
      {
        assert Linked(nodes, towers, k, l);
        ghost var n := Next(towers, k, l);
        var nx := nodes[cur].fwd[l];
        if nx < 0 {
          return;
        }
        assert Matches(nodes[towers[n].node], towers[n]);
        PastBound(towers, UpperBound(towers, 1, origin), origin);
        if nodes[nx].origin > origin {
          return;
        }
        cur, k := nx, n;
      }
    }

    /** The last node on each level whose origin does not exceed `origin`. */
    method Search(origin: nat) returns (update: seq<nat>, ghost at: seq<nat>)
      requires nodes != [] && Shape(nodes, towers, top) && Sorted(towers)
      requires forall l :: 0 <= l < top ==> LevelLinked(nodes, towers, top, l)
      ensures |update| == |at| == SKIP_MAX_LEVEL
      ensures forall l :: 0 <= l < top ==> Predecessor(towers, top, UpperBound(towers, 1, origin), l, at[l])
      ensures forall l :: 0 <= l < top ==> at[l] < |towers| && update[l] == towers[at[l]].node
    {
      hide LevelLinked;
      hide Predecessor;
      hide Sorted;
      hide Distinct;
      hide Matches;
      update := seq(SKIP_MAX_LEVEL, _ => 0);
      at := seq(SKIP_MAX_LEVEL, _ => 0);
      var cur := 0;
      var l: int := top - 1;
      ghost var k: nat := 0;
      ghost var q := UpperBound(towers, 1, origin);
      while l >= 0
        invariant -1 <= l < top && |update| == |at| == SKIP_MAX_LEVEL
        invariant k < q <= |towers| && cur == towers[k].node && (l >= 0 ==> l < Levels(towers, top, k))
        invariant forall m :: l < m < top ==> Predecessor(towers, top, q, m, at[m])
        invariant forall m :: l < m < top ==> at[m] < |towers| && update[m] == towers[at[m]].node
        decreases l
      {
        cur, k := Advance(origin, l, cur, k);
        update := update[l := cur];
        at := at[l := k];
        l := l - 1;
      }
    }

    /** Creates the sentinel, or lets it grow to `lvl` levels; the levels it gains are empty. */
    method GrowHead(lvl: nat) returns (ghost low: nat)
      requires Valid() && 1 <= lvl <= SKIP_MAX_LEVEL
      modifies this
      ensures nodes != [] && Shape(nodes, towers, top) && Sorted(towers) && lvl <= top
      ensures forall l :: 0 <= l < top ==> LevelLinked(nodes, towers, top, l)
      ensures forall l :: 0 <= l < top ==> LevelPending(nodes, towers, top, l, low)
      ensures top == Max(lvl, low) && (forall k :: 1 <= k < |towers| ==> towers[k].height <= low)
              && (old(nodes) != [] ==> low == old(top))
      ensures towers == if old(nodes) == [] then [Tower(0, 0, 0, 0, 0)] else old(towers)
    {
      if |nodes| == 0 {
        nodes := [SkipNode(0, 0, 0, [-1], [0])];
        top := 1;
        towers := [Tower(0, 0, 0, 0, 0)];
        FirstHead();
      }
      assert Coherent(nodes, towers, top);
      low := top;
      ghost var n0 := nodes;
      var t0 := top;
      if lvl > top {
        var h := nodes[0];
        var nf := seq(lvl, i requires 0 <= i < lvl => if i < t0 then h.fwd[i] else -1);
        var nm := seq(lvl, i requires 0 <= i < lvl => if i < |h.maxEnd| then h.maxEnd[i] else 0);
        nodes := nodes[0 := h.(fwd := nf, maxEnd := nm)];
        top := lvl;
      }
      AllGrown(n0, nodes, towers, t0, top);
    }

    /** The aggregate of the new node on level `l`, folded from the level below. */
    method FoldNew(l: nat, idx: nat, far: int, ghost us: seq<Tower>, ghost q: nat) returns (m: nat)
      requires Shape(nodes, us, top) && 1 <= q < |us| && us[q].node == idx && l < us[q].height
      requires far == NodeAt(us, Next(us, q, l)) && forall j :: 0 <= j < l ==> LevelOk(nodes, us, top, j)
      ensures m == MaxEnd(us, q, Next(us, q, l))
    {
      ghost var n := Next(us, q, l);
      assert Matches(nodes[us[q].node], us[q]);
      m := nodes[idx].end;
      if l > 0 {
        assert LevelOk(nodes, us, top, l - 1) && Linked(nodes, us, q, l - 1) && Aggregated(nodes, us, q, l - 1);
        ghost var a := Next(us, q, l - 1);
        NextWithin(us, q, l - 1, n);
        m := WalkMax(nodes[idx].fwd[l - 1], far, l - 1, nodes[idx].maxEnd[l - 1], us, a, n);
        MaxEndSplit(us, q, a, n);
      } else {
        NextOnBottom(us, q);
        assert MaxEnd(us, q, q) == 0;
      }
    }

    /** The aggregate of the predecessor on level `l`, now that its segment stops at the new node. */
    method FoldPred(l: nat, idx: nat, pre: nat, ghost us: seq<Tower>, ghost k0: nat, ghost q: nat) returns (m: nat)
      requires Shape(nodes, us, top) && k0 < q < |us| && us[q].node == idx && us[k0].node == pre
      requires l < us[q].height && l < Levels(us, top, k0) && l < top && Next(us, k0, l) == q
      requires forall j :: 0 <= j < l ==> LevelOk(nodes, us, top, j)
      ensures m == MaxEnd(us, k0, q)
    {
      assert k0 != 0 ==> Matches(nodes[us[k0].node], us[k0]);
      m := nodes[pre].end;
      if l > 0 {
        m := WalkMax(pre, idx, l - 1, 0, us, k0, q);
      } else {
        NextOnBottom(us, k0);
        assert MaxEnd(us, k0, k0) == 0;
      }
    }

    /** Links the new node in on level `l`; the levels below are already exact. */
    method LinkLevel(l: nat, idx: nat, pre: nat, ghost ts: seq<Tower>, ghost q: nat, ghost t: Tower, ghost k0: nat,
                     ghost low: nat)
      requires 1 <= q <= |ts| && towers == Inserted(ts, q, t) && Shape(nodes, towers, top) && t.node == idx
      requires l < t.height <= top && Predecessor(ts, top, q, l, k0) && pre == ts[k0].node && (low <= l ==> k0 == 0)
      requires LevelPending(nodes, ts, top, l, low) && forall m :: 0 <= m < l ==> LevelOk(nodes, towers, top, m)
      modifies `nodes
      ensures Shape(nodes, towers, top) && LevelOk(nodes, towers, top, l)
      ensures forall m :: 0 <= m && m != l ==> SameLevel(old(nodes), nodes, m)
    {
      hide MaxEnd;
      hide SameLevel;
      hide LevelOk;
      InsertedNextAcross(ts, q, t, k0, l);
      InsertedAt(ts, q, t, k0);
      NodeAtMoved(ts, q, t, Next(ts, k0, l));
      LinkReady(nodes, towers, ts, top, q, t, l, k0, low);
      hide Shape;
      hide LevelPending;
      var far := nodes[pre].fwd[l];
      var m := FoldNew(l, idx, far, towers, q);
      var m2 := FoldPred(l, idx, pre, towers, k0, q);
      RelinkedTwice(nodes, towers, top, idx, pre, l, far, m, m2);
      nodes := Relinked(Relinked(nodes, idx, l, far, m), pre, l, idx, m2);
      LevelSpliced(old(nodes), nodes, ts, top, q, t, l, low, k0);
    }

    /** Above the new tower, raises the aggregate of the predecessor if the new end exceeds it. */
    method RaiseLevel(l: nat, pre: nat, ghost ts: seq<Tower>, ghost q: nat, t: Tower, ghost k0: nat)
      requires 1 <= q <= |ts| && towers == Inserted(ts, q, t) && Shape(nodes, towers, top)
      requires t.height <= l < top && Predecessor(ts, top, q, l, k0) && pre == ts[k0].node
      requires LevelPending(nodes, ts, top, l, top)
      modifies `nodes
      ensures Shape(nodes, towers, top) && LevelOk(nodes, towers, top, l)
      ensures forall m :: 0 <= m && m != l ==> SameLevel(old(nodes), nodes, m)
    {
      ghost var us, n0 := towers, nodes;
      InsertedAt(ts, q, t, k0);
      assert Linked(nodes, ts, k0, l);
      assert k0 != 0 ==> Matches(nodes[us[k0].node], us[k0]);
      if t.end > nodes[pre].maxEnd[l] {
        RelinkedFrame(nodes, us, top, pre, l, nodes[pre].fwd[l], t.end);
        nodes := Relinked(nodes, pre, l, nodes[pre].fwd[l], t.end);
      }
      assert nodes[pre].fwd == n0[pre].fwd;
      LevelWidened(n0, nodes, ts, top, q, t, l, k0);
    }

    /** Links the appended node in on its own levels and raises the aggregates above them. */
    method LinkAll(idx: nat, lvl: nat, update: seq<nat>, ghost ts: seq<Tower>, ghost q: nat, t: Tower,
                   ghost at: seq<nat>, ghost low: nat)
      requires 1 <= q <= |ts| && towers == Inserted(ts, q, t) && Shape(nodes, towers, top)
      requires t.node == idx && t.height == lvl <= top <= |at| == |update|
      requires forall l :: 0 <= l < top ==> Predecessor(ts, top, q, l, at[l]) && LevelPending(nodes, ts, top, l, low)
      requires forall l :: 0 <= l < top ==> at[l] < |ts| && update[l] == ts[at[l]].node
      requires (forall l :: low <= l < top ==> at[l] == 0) && (low < top ==> top == lvl)
      modifies `nodes
      ensures Shape(nodes, towers, top) && |nodes| == |old(nodes)|
      ensures forall l :: 0 <= l < top ==> LevelOk(nodes, towers, top, l)
    {
      var l := 0;
      while l < lvl
        invariant 0 <= l <= lvl
        invariant Shape(nodes, towers, top)
        invariant forall m :: 0 <= m < l ==> LevelOk(nodes, towers, top, m)
        invariant forall m :: l <= m < top ==> LevelPending(nodes, ts, top, m, low)
      {
        ghost var n0 := nodes;
        LinkLevel(l, idx, update[l], ts, q, t, at[l], low);
        OtherLevels(n0, nodes, towers, ts, top, l, low);
        l := l + 1;
      }
      while l < top
        invariant lvl <= l <= top
        invariant Shape(nodes, towers, top)
        invariant forall m :: 0 <= m < l ==> LevelOk(nodes, towers, top, m)
        invariant forall m :: l <= m < top ==> LevelPending(nodes, ts, top, m, low)
      {
        ghost var n0 := nodes;
        PendingAbove(nodes, ts, top, l, low);
        RaiseLevel(l, update[l], ts, q, t, at[l]);
        OtherLevels(n0, nodes, towers, ts, top, l, low);
        l := l + 1;
      }
    }

    /** Indexes one more frozen component with a tower of `lvl` levels. */
    method Insert(ci: nat, origin: nat, end: nat, lvl: nat)
      requires Valid() && 1 <= lvl <= SKIP_MAX_LEVEL
      modifies this
      ensures Valid() && nodes != []
      ensures Spans() == Placed(old(Spans()), Tower(|nodes| - 1, ci, origin, end, lvl))
    {
      hide LevelPending;
      hide LevelOk;
      hide LevelLinked;
      hide Predecessor;
      hide Inserted;
      ghost var low := GrowHead(lvl);
      ghost var ts, nb := towers, nodes;
      var update; ghost var at;
      update, at := Search(origin);
      ghost var q := UpperBound(ts, 1, origin);
      var idx := |nodes|;
      var t := Tower(idx, ci, origin, end, lvl);
      var node := SkipNode(ci, origin, end, seq(lvl, _ => 0), seq(lvl, _ => 0));
      nodes := nodes + [node];
      towers := Inserted(ts, q, t);
      InsertedShape(nb, nodes, ts, top, q, node, t);
      InsertedSorted(ts, q, t);
      PlacedTail(ts, t);
      AppendedPending(nb, nodes, ts, top, low, node);
      NewLevels(ts, top, q, at, low);
      LinkAll(idx, lvl, update, ts, q, t, at, low);
    }

    /** Reports every node of the level-`lvl` segment at `x` whose end covers `send`. */
    method SegReport(x: nat, lvl: nat, send: nat, out0: seq<nat>, ghost k: nat, ghost p: nat) returns (out: seq<nat>)
      requires nodes != [] && Coherent(nodes, towers, top) && 1 <= k < |towers| && towers[k].node == x
      requires lvl < towers[k].height
      requires forall j :: k <= j < Next(towers, k, lvl) ==> towers[j].origin <= p
      ensures out == out0 + Report(towers, k, Next(towers, k, lvl), p, send)
      decreases lvl, 0
    {
      hide Coherent;
      hide Report;
      hide MaxEnd;
      ghost var ts, n := towers, Next(towers, k, lvl);
      NodeIs(nodes, ts, top, k, lvl);
      out := out0;
      if lvl == 0 {
        NextOnBottom(ts, k);
        ReportOne(ts, k, p, send);
        if nodes[x].end >= send {
          out := out + [nodes[x].ci];
        }
        return;
      }
      if nodes[x].maxEnd[lvl] < send {
        ReportNone(ts, k, n, p, send);
        return;
      }
      out := SegWalk(x, nodes[x].fwd[lvl], lvl - 1, send, out, k, n, p);
    }

    /** Reports the segments of level `lvl` from node `x` up to `stop`, one after the other. */
    method SegWalk(x: nat, stop: int, lvl: nat, send: nat, out0: seq<nat>, ghost k: nat, ghost n: nat, ghost p: nat)
      returns (out: seq<nat>)
      requires nodes != [] && Coherent(nodes, towers, top) && 1 <= k < n <= |towers|
      requires x == NodeAt(towers, k) && stop == NodeAt(towers, n)
      requires lvl < towers[k].height && (n < |towers| ==> lvl < towers[n].height)
      requires forall j :: k <= j < n ==> towers[j].origin <= p
      ensures out == out0 + Report(towers, k, n, p, send)
      decreases lvl, 1
    {
      hide Coherent;
      hide Report;
      hide Next;
      hide Linked;
      out := out0;
      var y: int := x;
      ghost var j := k;
      assert out + Report(towers, k, k, p, send) == out by { ReportNothing(towers, k, p, send); }
      while y != stop
        invariant k <= j <= n && y == NodeAt(towers, j) && (j < n ==> lvl < towers[j].height)
        invariant out == out0 + Report(towers, k, j, p, send)
        decreases n - j
      {
        LinkedAt(nodes, towers, top, j, lvl);
        ghost var b := Next(towers, j, lvl);
        NextWithin(towers, j, lvl, n);
        out := SegReport(y, lvl, send, out, j, p);
        ReportSplit(towers, k, j, b, p, send);
        LinkIs(nodes, towers, j, lvl);
        y := nodes[y].fwd[lvl];
        j := b;
      }
      SameNode(nodes, towers, top, j, n);
    }

    /** The first node past the query range: the lowest position whose origin exceeds `p`. */
    method FindStop(p: nat) returns (stop: nat)
      requires |nodes| > 1 && Coherent(nodes, towers, top)
      ensures stop == var q := UpperBound(towers, 1, p); if q < |towers| then towers[q].node else |nodes|
    {
      hide Aggregated;
      hide Distinct;
      hide MaxEnd;
      ghost var ts, q := towers, UpperBound(towers, 1, p);
      stop := |nodes|;
      var cur := 0;
      ghost var k: nat := 0;
      var lvl: int := top - 1;
      ghost var found := |ts|;
      while lvl >= 0
        invariant -1 <= lvl < top && k < q <= found <= |ts| && cur == ts[k].node
        invariant lvl >= 0 ==> lvl < Levels(ts, top, k)
        invariant stop == if found < |ts| then ts[found].node else |nodes|
        invariant found < |ts| ==> lvl < ts[found].height
        invariant lvl < 0 ==> found == q
        decreases lvl
      {
        while true
          invariant k < q && cur == ts[k].node && lvl < Levels(ts, top, k)
          invariant stop == if found < |ts| then ts[found].node else |nodes|
          decreases |ts| - k
        {
          assert LevelOk(nodes, ts, top, lvl) && Linked(nodes, ts, k, lvl);
          var nx := nodes[cur].fwd[lvl];
          if nx < 0 {
            break;
          }
          assert Matches(nodes[ts[Next(ts, k, lvl)].node], ts[Next(ts, k, lvl)]);
          if nodes[nx].origin > p {
            stop := nx;
            found := Next(ts, k, lvl);
            break;
          }
          k := Next(ts, k, lvl);
          cur := nx;
        }
        assert Linked(nodes, ts, k, lvl);
        lvl := lvl - 1;
      }
    }

    /** Drops empty top levels. */
    method ShrinkTop()
      requires nodes != [] && Coherent(nodes, towers, top)
      modifies `top
      ensures Coherent(nodes, towers, top)
    {
      while top > 1 && nodes[0].fwd[top - 1] < 0
        invariant Coherent(nodes, towers, top)
        decreases top
      {
        LowerTop(nodes, towers, top);
        top := top - 1;
      }
    }

    /** The greedy jump from node `x`: the highest level whose whole segment stays inside the range. */
    method JumpLevel(x: nat, p: nat, ghost k: nat) returns (lvl: nat)
      requires nodes != [] && Coherent(nodes, towers, top) && 1 <= k < |towers| && towers[k].node == x
      ensures lvl < towers[k].height
      ensures lvl > 0 ==> Next(towers, k, lvl) < |towers| && towers[Next(towers, k, lvl)].origin <= p
    {
      assert Matches(nodes[towers[k].node], towers[k]);
      var v: int := |nodes[x].fwd| - 1;
      if v >= top {
        v := top - 1;
      }
      lvl := v;
      while lvl > 0
        invariant lvl < towers[k].height
      {
        assert LevelOk(nodes, towers, top, lvl) && Linked(nodes, towers, k, lvl);
        var nx := nodes[x].fwd[lvl];
        if nx >= 0 && nodes[nx].origin <= p {
          assert Matches(nodes[towers[Next(towers, k, lvl)].node], towers[Next(towers, k, lvl)]);
          break;
        }
        lvl := lvl - 1;
      }
    }

    /** Reports the segment of the greedy jump from node `x` and moves past it; `done` at the range tail. */
    method QueryStep(x: nat, p: nat, send: nat, out0: seq<nat>, ghost k: nat)
      returns (next: int, done: bool, out: seq<nat>, ghost n: nat)
      requires nodes != [] && Coherent(nodes, towers, top) && 1 <= k < UpperBound(towers, 1, p) && towers[k].node == x
      ensures k < n <= UpperBound(towers, 1, p)
      ensures out == out0 + Report(towers, k, n, p, send)
      ensures if done then n == UpperBound(towers, 1, p) else n < UpperBound(towers, 1, p) && next == towers[n].node
    {
      hide Coherent;
      hide Report;
      hide MaxEnd;
      hide Sorted;
      hide UpperBound;
      hide Next;
      var lvl := JumpLevel(x, p, k);
      NodeIs(nodes, towers, top, k, lvl);
      n := Next(towers, k, lvl);
      next, done, out := nodes[x].fwd[lvl], false, out0;
      if lvl == 0 {
        done, out := BottomStep(x, p, send, out0, k);
      } else {
        out := JumpStep(x, lvl, p, send, out0, k);
      }
    }

    /** Above it a whole segment is reported, or passed over when no end in it reaches `send`. */
    method JumpStep(x: nat, lvl: nat, p: nat, send: nat, out0: seq<nat>, ghost k: nat) returns (out: seq<nat>)
      requires nodes != [] && Coherent(nodes, towers, top) && 1 <= k < UpperBound(towers, 1, p) && towers[k].node == x
      requires lvl < towers[k].height && Next(towers, k, lvl) < |towers| && towers[Next(towers, k, lvl)].origin <= p
      ensures Next(towers, k, lvl) < UpperBound(towers, 1, p)
      ensures out == out0 + Report(towers, k, Next(towers, k, lvl), p, send)
    {
      hide Coherent;
      hide Report;
      hide MaxEnd;
      hide Sorted;
      hide UpperBound;
      hide Next;
      NodeIs(nodes, towers, top, k, lvl);
      InBound(towers, UpperBound(towers, 1, p), Next(towers, k, lvl), p);
      if nodes[x].maxEnd[lvl] < send {
        ReportNone(towers, k, Next(towers, k, lvl), p, send);
        out := out0;
      } else {
        out := SegReport(x, lvl, send, out0, k, p);
      }
    }

    /** On the bottom level one node is reported; the range ends where the next origin exceeds `p`. */
    method BottomStep(x: nat, p: nat, send: nat, out0: seq<nat>, ghost k: nat) returns (done: bool, out: seq<nat>)
      requires nodes != [] && Coherent(nodes, towers, top) && 1 <= k < UpperBound(towers, 1, p) && towers[k].node == x
      requires 0 < towers[k].height && 0 < |nodes[x].fwd|
      ensures Next(towers, k, 0) == k + 1 && out == out0 + Report(towers, k, k + 1, p, send)
      ensures if done then k + 1 == UpperBound(towers, 1, p)
              else k + 1 < UpperBound(towers, 1, p) && nodes[x].fwd[0] == towers[k + 1].node
    {
      hide Coherent;
      hide Report;
      hide MaxEnd;
      hide Sorted;
      hide Next;
      NodeIs(nodes, towers, top, k, 0);
      NextOnBottom(towers, k);
      ReportOne(towers, k, p, send);
      PastBound(towers, UpperBound(towers, 1, p), p);
      var next := nodes[x].fwd[0];
      done, out := next < 0 || nodes[next].origin > p, out0;
      if nodes[x].end >= send {
        out := out + [nodes[x].ci];
      }
    }

    /** The main loop of a query: jumps from the first node to `stop`. */
    method QueryPrefix(p: nat, send: nat, stop: nat, out0: seq<nat>) returns (out: seq<nat>)
      requires |nodes| > 1 && Coherent(nodes, towers, top)
      requires stop == var q := UpperBound(towers, 1, p); if q < |towers| then towers[q].node else |nodes|
      ensures out == out0 + Report(towers, 1, UpperBound(towers, 1, p), p, send)
    {
      hide Coherent;
      hide Report;
      hide Linked;
      ghost var q := UpperBound(towers, 1, p);
      FirstNode(nodes, towers, top);
      var x := nodes[0].fwd[0];
      ghost var k: nat := 1;
      out := out0;
      ReportNothing(towers, 1, p, send);
      while x != stop
        invariant 1 <= k <= q && k < |towers| && x == towers[k].node && (k == q ==> q == 1)
        invariant out == out0 + Report(towers, 1, k, p, send)
        decreases q - k
      {
        ghost var n;
        var done;
        x, done, out, n := QueryStep(x, p, send, out, k);
        ReportSplit(towers, 1, k, n, p, send);
        k := n;
        if done {
          return;
        }
      }
    }

    /** Appends every indexed component whose span contains [p, send), in origin order. */
    method EmitQuery(p: nat, send: nat, out0: seq<nat>) returns (out: seq<nat>)
      requires Valid()
      modifies `top
      ensures Valid()
      ensures out == out0 + Containing(Spans(), p, send)
    {
      if |nodes| <= 1 {
        return out0;
      }
      ShrinkTop();
      var stop := FindStop(p);
      QueryRange(towers, UpperBound(towers, 1, p), p, send);
      out := QueryPrefix(p, send, stop, out0);
    }
  }
}

/** What the index answers after any sequence of insertions. */
module IndexRuns {
  import opened Towers
  import opened EmitSkips

  /** One frozen component as it is inserted. */
  datatype Span = Span(ci: nat, origin: nat, end: nat)

  /** The spans after inserting `xs` in order with tower heights `hs`; node 0 is the head. */
  ghost function Indexed(xs: seq<Span>, hs: seq<nat>): seq<Tower>
    requires |hs| == |xs|
  {
    if xs == [] then []
    else
      var n := |xs| - 1;
      Placed(Indexed(xs[..n], hs[..n]), Tower(n + 1, xs[n].ci, xs[n].origin, xs[n].end, hs[n]))
  }

  /** The reference answer: every inserted span that contains the window, in insertion order. */
  function Hosts(xs: seq<Span>, p: nat, send: nat): seq<nat> {
    if xs == [] then []
    else
      var x := xs[|xs| - 1];
      Hosts(xs[..|xs| - 1], p, send) + (if x.origin <= p && send <= x.end then [x.ci] else [])
  }

  lemma ContainingInserted(ts: seq<Tower>, q: nat, t: Tower, p: nat, send: nat)
    requires q <= |ts|
    ensures multiset(Containing(Inserted(ts, q, t), p, send))
         == multiset(Containing(ts, p, send)) + multiset(if t.origin <= p && send <= t.end then [t.ci] else [])
  {
    var a, b := ts[..q], ts[q..];
    assert ts == a + b;
    assert Inserted(ts, q, t) == a + ([t] + b);
    ContainingConcat(a, b, p, send);
    ContainingConcat(a, [t] + b, p, send);
    ContainingConcat([t], b, p, send);
    assert Containing([t], p, send) == if t.origin <= p && send <= t.end then [t.ci] else [] by {
      assert [t][..0] == [];
    }
  }

  /** For all insertions and tower heights a query reports each containing span exactly once, and nothing else. */
  lemma {:induction false} IndexedExact(xs: seq<Span>, hs: seq<nat>, p: nat, send: nat)
    requires |hs| == |xs|
    ensures multiset(Containing(Indexed(xs, hs), p, send)) == multiset(Hosts(xs, p, send))
  {
    if xs != [] {
      var n := |xs| - 1;
      IndexedExact(xs[..n], hs[..n], p, send);
      var ts := Indexed(xs[..n], hs[..n]);
      ContainingInserted(ts, UpperBound(ts, 0, xs[n].origin), Tower(n + 1, xs[n].ci, xs[n].origin, xs[n].end, hs[n]), p,
                         send);
    }
  }

  ghost predicate SameSpans(ts: seq<Tower>, us: seq<Tower>) {
    |ts| == |us| && forall k :: 0 <= k < |ts|
                     ==> ts[k].ci == us[k].ci && ts[k].origin == us[k].origin && ts[k].end == us[k].end
  }

  lemma {:induction false} SameUpperBound(ts: seq<Tower>, us: seq<Tower>, k: nat, o: nat)
    requires SameSpans(ts, us) && k <= |ts|
    ensures UpperBound(ts, k, o) == UpperBound(us, k, o)
    decreases |ts| - k
  {
    if k < |ts| {
      SameUpperBound(ts, us, k + 1, o);
    }
  }

  lemma {:induction false} SameContaining(ts: seq<Tower>, us: seq<Tower>, p: nat, send: nat)
    requires SameSpans(ts, us)
    ensures Containing(ts, p, send) == Containing(us, p, send)
  {
    if ts != [] {
      SameContaining(ts[..|ts| - 1], us[..|us| - 1], p, send);
    }
  }

  lemma {:induction false} IndexedSame(xs: seq<Span>, hs: seq<nat>, gs: seq<nat>)
    requires |hs| == |xs| == |gs|
    ensures SameSpans(Indexed(xs, hs), Indexed(xs, gs))
  {
    if xs != [] {
      var n := |xs| - 1;
      IndexedSame(xs[..n], hs[..n], gs[..n]);
      SameUpperBound(Indexed(xs[..n], hs[..n]), Indexed(xs[..n], gs[..n]), 0, xs[n].origin);
    }
  }

  /** Tower heights cannot be observed: not even the order of the answer depends on them. */
  lemma HeightsUnobservable(xs: seq<Span>, hs: seq<nat>, gs: seq<nat>, p: nat, send: nat)
    requires |hs| == |xs| == |gs|
    ensures Containing(Indexed(xs, hs), p, send) == Containing(Indexed(xs, gs), p, send)
  {
    IndexedSame(xs, hs, gs);
    SameContaining(Indexed(xs, hs), Indexed(xs, gs), p, send);
  }
}
