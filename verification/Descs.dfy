/**
  Type descriptors: possibly cyclic graphs, compared structurally (internal/wire/desc.go:152-184) and
  unwrapped through NAMED chains (codec_decode.go:444-471). A descriptor is its place in the graph.
 */
module Descriptors {
  import opened Bytes

  const KIND_STRUCT := 0
  const KIND_SLICE := 1
  const KIND_ARRAY := 2
  const KIND_MAP := 3
  const KIND_NAMED := 4
  const KIND_POINTER := 5
  const KIND_INT := 8
  const KIND_UINT := 9
  const KIND_FLOAT := 10
  const KIND_COMPLEX := 11
  const KIND_CODER := 14
  const MAX_KIND := 16

  datatype Field = Field(name: seq<byte>, typ: nat)

  datatype Desc = Desc(kind: nat, name: seq<byte>, width: u64, len: u64, tag: u64, fields: seq<Field>, refs: seq<nat>)

  type Graph = seq<Desc>

  /** Type positions of a descriptor: its refs, then its field types. */
  function Kids(d: Desc): nat { |d.refs| + |d.fields| }

  function Kid(d: Desc, i: nat): nat
    requires i < Kids(d)
  {
    if i < |d.refs| then d.refs[i] else d.fields[i - |d.refs|].typ
  }

  /** Every type position leads to a descriptor. */
  ghost predicate Closed(g: Graph) { forall n, i :: 0 <= n < |g| && 0 <= i < Kids(g[n]) ==> KidIn(g, n, i) }

  ghost predicate KidIn(g: Graph, n: nat, i: nat)
    requires n < |g| && i < Kids(g[n])
  {
    Kid(g[n], i) < |g|
  }

  /** Everything but where the type positions lead. */
  predicate SameLocal(a: Desc, b: Desc) {
    && a.kind == b.kind && a.name == b.name && a.width == b.width && a.len == b.len && a.tag == b.tag
    && |a.refs| == |b.refs| && |a.fields| == |b.fields|
    && forall i :: 0 <= i < |a.fields| ==> a.fields[i].name == b.fields[i].name
  }

  type Pairs = set<(nat, nat)>

  function AllPairs(g: Graph): Pairs { set i: nat, j: nat | i < |g| && j < |g| :: (i, j) }

  // ---------------------------------------------------------------- structural equality

  datatype Answer = Answer(equal: bool, seen: Pairs)

  /** Compares two descriptors; a pair met before is taken as equal. */
  function DescEq(g: Graph, a: nat, b: nat, seen: Pairs): (r: Answer)
    requires Closed(g) && a < |g| && b < |g|
    ensures seen <= r.seen
    decreases AllPairs(g) - seen, 0
  {
    if a == b then Answer(true, seen)
    else if (a, b) in seen then Answer(true, seen)
    else if !SameLocal(g[a], g[b]) then Answer(false, seen + {(a, b)})
    else
      assert (a, b) in AllPairs(g) - seen && (a, b) !in AllPairs(g) - (seen + {(a, b)});
      KidsEq(g, a, b, 0, seen + {(a, b)})
  }

  function KidsEq(g: Graph, a: nat, b: nat, i: nat, seen: Pairs): (r: Answer)
    requires Closed(g) && a < |g| && b < |g| && SameLocal(g[a], g[b]) && i <= Kids(g[a])
    ensures seen <= r.seen
    decreases AllPairs(g) - seen, 1 + Kids(g[a]) - i
  {
    if i == Kids(g[a]) then Answer(true, seen)
    else
      assert KidIn(g, a, i) && KidIn(g, b, i);
      var first := DescEq(g, Kid(g[a], i), Kid(g[b], i), seen);
      if !first.equal then first else KidsEq(g, a, b, i + 1, first.seen)
  }

  predicate DescEqual(g: Graph, a: nat, b: nat)
    requires Closed(g) && a < |g| && b < |g|
  {
    DescEq(g, a, b, {}).equal
  }

  // ---------------------------------------------------------------- bisimulation

  /** The relation or the identity holds of a pair. */
  ghost predicate Related(rel: Pairs, a: nat, b: nat) { a == b || (a, b) in rel }

  /** Related descriptors agree locally and lead to related descriptors. */
  ghost predicate Steps(g: Graph, rel: Pairs, a: nat, b: nat) {
    && a < |g| && b < |g| && SameLocal(g[a], g[b])
    && forall i :: 0 <= i < Kids(g[a]) ==> Related(rel, Kid(g[a], i), Kid(g[b], i))
  }

  ghost predicate IsBisimulation(g: Graph, rel: Pairs) { forall p :: p in rel ==> Steps(g, rel, p.0, p.1) }

  ghost predicate Witness(g: Graph, rel: Pairs, a: nat, b: nat) { IsBisimulation(g, rel) && Related(rel, a, b) }

  /** No walk along type positions can tell the two apart. */
  ghost predicate Bisimilar(g: Graph, a: nat, b: nat) { exists rel :: Witness(g, rel, a, b) }

  /** What a comparison that succeeds leaves behind: the new pairs step to pairs it has seen. */
  ghost predicate Justified(g: Graph, seen: Pairs, seen': Pairs) {
    forall p :: p in seen' && p !in seen ==> Steps(g, seen', p.0, p.1)
  }

  lemma StepsGrow(g: Graph, r: Pairs, s: Pairs, a: nat, b: nat)
    requires Steps(g, r, a, b) && r <= s
    ensures Steps(g, s, a, b)
  {
    forall i | 0 <= i < Kids(g[a])
      ensures Related(s, Kid(g[a], i), Kid(g[b], i))
    {
      assert Related(r, Kid(g[a], i), Kid(g[b], i));
    }
  }

  lemma {:induction false} EqSound(g: Graph, a: nat, b: nat, seen: Pairs)
    requires Closed(g) && a < |g| && b < |g| && DescEq(g, a, b, seen).equal
    ensures var r := DescEq(g, a, b, seen).seen; Related(r, a, b) && Justified(g, seen, r)
    decreases AllPairs(g) - seen, 0
  {
    if a != b && (a, b) !in seen {
      assert (a, b) in AllPairs(g) - seen && (a, b) !in AllPairs(g) - (seen + {(a, b)});
      KidsSound(g, a, b, 0, seen + {(a, b)});
      var r := DescEq(g, a, b, seen).seen;
      assert Steps(g, r, a, b);
    }
  }

  lemma {:induction false} KidsSound(g: Graph, a: nat, b: nat, i: nat, seen: Pairs)
    requires Closed(g) && a < |g| && b < |g| && SameLocal(g[a], g[b]) && i <= Kids(g[a])
             && KidsEq(g, a, b, i, seen).equal
    ensures var r := KidsEq(g, a, b, i, seen).seen;
            Justified(g, seen, r) && forall k :: i <= k < Kids(g[a]) ==> Related(r, Kid(g[a], k), Kid(g[b], k))
    decreases AllPairs(g) - seen, 1 + Kids(g[a]) - i
  {
    if i < Kids(g[a]) {
      assert KidIn(g, a, i) && KidIn(g, b, i);
      EqSound(g, Kid(g[a], i), Kid(g[b], i), seen);
      var mid := DescEq(g, Kid(g[a], i), Kid(g[b], i), seen).seen;
      KidsSound(g, a, b, i + 1, mid);
      var r := KidsEq(g, a, b, i, seen).seen;
      JustifiedTrans(g, seen, mid, r);
    }
  }

  lemma JustifiedTrans(g: Graph, r: Pairs, s: Pairs, t: Pairs)
    requires Justified(g, r, s) && Justified(g, s, t) && s <= t
    ensures Justified(g, r, t)
  {
    hide Steps;
    forall p | p in t && p !in r
      ensures Steps(g, t, p.0, p.1)
    {
      if p in s {
        StepsGrow(g, s, t, p.0, p.1);
      }
    }
  }

  lemma {:induction false} EqComplete(g: Graph, rel: Pairs, a: nat, b: nat, seen: Pairs)
    requires Closed(g) && a < |g| && b < |g| && Witness(g, rel, a, b)
    ensures DescEq(g, a, b, seen).equal
    decreases AllPairs(g) - seen, 0
  {
    if a != b && (a, b) !in seen {
      assert (a, b) in AllPairs(g) - seen && (a, b) !in AllPairs(g) - (seen + {(a, b)});
      assert Steps(g, rel, a, b);
      KidsComplete(g, rel, a, b, 0, seen + {(a, b)});
    }
  }

  lemma {:induction false} KidsComplete(g: Graph, rel: Pairs, a: nat, b: nat, i: nat, seen: Pairs)
    requires Closed(g) && IsBisimulation(g, rel) && Steps(g, rel, a, b) && i <= Kids(g[a])
    ensures KidsEq(g, a, b, i, seen).equal
    decreases AllPairs(g) - seen, 1 + Kids(g[a]) - i
  {
    if i < Kids(g[a]) {
      assert KidIn(g, a, i) && KidIn(g, b, i);
      assert Related(rel, Kid(g[a], i), Kid(g[b], i));
      EqComplete(g, rel, Kid(g[a], i), Kid(g[b], i), seen);
      KidsComplete(g, rel, a, b, i + 1, DescEq(g, Kid(g[a], i), Kid(g[b], i), seen).seen);
    }
  }

  /** The comparison terminates on every graph, cyclic or not, and decides bisimilarity. */
  lemma DescEqualIffBisimilar(g: Graph, a: nat, b: nat)
    requires Closed(g) && a < |g| && b < |g|
    ensures DescEqual(g, a, b) <==> Bisimilar(g, a, b)
  {
    if DescEqual(g, a, b) {
      EqSound(g, a, b, {});
      assert Witness(g, DescEq(g, a, b, {}).seen, a, b);
    }
    if Bisimilar(g, a, b) {
      var rel :| Witness(g, rel, a, b);
      EqComplete(g, rel, a, b, {});
    }
  }

  lemma BisimilarSelf(g: Graph, a: nat)
    ensures Bisimilar(g, a, a)
  {
    assert Witness(g, {}, a, a);
  }

  ghost function Composed(r: Pairs, s: Pairs): Pairs {
    r + s + (set p: (nat, nat), q: (nat, nat) | p in r && q in s && p.1 == q.0 :: (p.0, q.1))
  }

  lemma BisimilarTrans(g: Graph, a: nat, b: nat, c: nat)
    requires Bisimilar(g, a, b) && Bisimilar(g, b, c)
    ensures Bisimilar(g, a, c)
  {
    var r :| Witness(g, r, a, b);
    var s :| Witness(g, s, b, c);
    var t := Composed(r, s);
    forall p | p in t
      ensures Steps(g, t, p.0, p.1)
    {
      if p in r {
        StepsGrow(g, r, t, p.0, p.1);
      } else if p in s {
        StepsGrow(g, s, t, p.0, p.1);
      } else {
        var x: (nat, nat), y: (nat, nat) :| x in r && y in s && x.1 == y.0 && p == (x.0, y.1);
        ComposedSteps(g, r, s, t, x.0, x.1, y.1);
      }
    }
    assert Witness(g, t, a, c);
  }

  lemma Compose(r: Pairs, s: Pairs, x: nat, y: nat, z: nat)
    requires (x, y) in r && (y, z) in s
    ensures (x, z) in Composed(r, s)
  {
    var p, q := (x, y), (y, z);
    assert p in r && q in s && p.1 == q.0;
  }

  lemma ComposedSteps(g: Graph, r: Pairs, s: Pairs, t: Pairs, a: nat, b: nat, c: nat)
    requires Steps(g, r, a, b) && Steps(g, s, b, c)
    requires t == Composed(r, s)
    ensures Steps(g, t, a, c)
  {
    forall i | 0 <= i < Kids(g[a])
      ensures Related(t, Kid(g[a], i), Kid(g[c], i))
    {
      var x, y, z := Kid(g[a], i), Kid(g[b], i), Kid(g[c], i);
      assert Related(r, x, y) && Related(s, y, z);
      if x != y && y != z {
        Compose(r, s, x, y, z);
      }
    }
  }

  /** Bisimilar descriptors agree locally and have bisimilar type positions. */
  lemma BisimilarStep(g: Graph, a: nat, b: nat, i: nat)
    requires Bisimilar(g, a, b) && a < |g| && b < |g|
    ensures SameLocal(g[a], g[b]) && (i < Kids(g[a]) ==> Bisimilar(g, Kid(g[a], i), Kid(g[b], i)))
  {
    var rel :| Witness(g, rel, a, b);
    if a != b {
      assert Steps(g, rel, a, b);
    }
    if i < Kids(g[a]) {
      assert Witness(g, rel, Kid(g[a], i), Kid(g[b], i));
    }
  }
}

/** What walks along the type positions can see of a descriptor, and that structural equality misses none of it. */
module Observations {
  import opened Descriptors

  /** The whole descriptor, but for where its type positions lead. */
  function Label(d: Desc): Desc {
    d.(fields := seq(|d.fields|, i requires 0 <= i < |d.fields| => Field(d.fields[i].name, 0)),
       refs := seq(|d.refs|, _ => 0))
  }

  datatype Sight = Nowhere | Sight(seen: Desc)

  /** What stands at the end of a walk: the positions to take, one after the other. */
  ghost function Sighted(g: Graph, n: nat, walk: seq<nat>): Sight
    decreases |walk|
  {
    if |g| <= n then Nowhere
    else if walk == [] then Sight(Label(g[n]))
    else if walk[0] < Kids(g[n]) then Sighted(g, Kid(g[n], walk[0]), walk[1..])
    else Nowhere
  }

  /** No walk tells the two apart. */
  ghost predicate LookAlike(g: Graph, a: nat, b: nat) { forall walk :: Sighted(g, a, walk) == Sighted(g, b, walk) }

  lemma LabelIff(d: Desc, e: Desc)
    ensures SameLocal(d, e) <==> Label(d) == Label(e)
  {
    if Label(d) == Label(e) {
      forall i | 0 <= i < |d.fields|
        ensures d.fields[i].name == e.fields[i].name
      {
        assert Label(d).fields[i] == Label(e).fields[i];
      }
      assert |Label(d).refs| == |d.refs| && |Label(d).fields| == |d.fields|;
    }
  }

  lemma {:induction false} BisimilarLooksAlike(g: Graph, a: nat, b: nat, walk: seq<nat>)
    requires Closed(g) && a < |g| && b < |g| && Bisimilar(g, a, b)
    ensures Sighted(g, a, walk) == Sighted(g, b, walk)
    decreases |walk|
  {
    hide Bisimilar;
    hide Label;
    if walk == [] {
      BisimilarStep(g, a, b, 0);
      LabelIff(g[a], g[b]);
    } else {
      BisimilarStep(g, a, b, walk[0]);
      if walk[0] < Kids(g[a]) {
        assert KidIn(g, a, walk[0]) && KidIn(g, b, walk[0]);
        BisimilarLooksAlike(g, Kid(g[a], walk[0]), Kid(g[b], walk[0]), walk[1..]);
      }
    }
  }

  lemma LookAlikeSteps(g: Graph, a: nat, b: nat)
    requires Closed(g) && a < |g| && b < |g| && LookAlike(g, a, b)
    ensures SameLocal(g[a], g[b])
    ensures forall i :: 0 <= i < Kids(g[a]) ==> LookAlike(g, Kid(g[a], i), Kid(g[b], i))
  {
    hide Label;
    assert Sighted(g, a, []) == Sighted(g, b, []);
    LabelIff(g[a], g[b]);
    forall i: nat, walk | i < Kids(g[a])
      ensures Sighted(g, Kid(g[a], i), walk) == Sighted(g, Kid(g[b], i), walk)
    {
      assert ([i] + walk)[1..] == walk;
      assert Sighted(g, a, [i] + walk) == Sighted(g, b, [i] + walk);
    }
  }

  /**
    Structural equality, on every graph: two descriptors are equal exactly if no walk along type positions, of any
    length, ends at descriptors that differ in anything: kind, name, width, length, tag, or the names and numbers of
    their positions.
   */
  lemma DescEqualIffLookAlike(g: Graph, a: nat, b: nat)
    requires Closed(g) && a < |g| && b < |g|
    ensures DescEqual(g, a, b) <==> LookAlike(g, a, b)
  {
    hide DescEqual;
    hide SameLocal;
    DescEqualIffBisimilar(g, a, b);
    if Bisimilar(g, a, b) {
      forall walk
        ensures Sighted(g, a, walk) == Sighted(g, b, walk)
      {
        BisimilarLooksAlike(g, a, b, walk);
      }
    }
    if LookAlike(g, a, b) {
      var rel := set p | p in AllPairs(g) && LookAlike(g, p.0, p.1);
      forall p | p in rel
        ensures Steps(g, rel, p.0, p.1)
      {
        LookAlikeSteps(g, p.0, p.1);
        SameKids(g[p.0], g[p.1]);
        forall i | 0 <= i < Kids(g[p.0])
          ensures Related(rel, Kid(g[p.0], i), Kid(g[p.1], i))
        {
          assert KidIn(g, p.0, i) && KidIn(g, p.1, i);
        }
      }
      assert (a, b) in AllPairs(g);
      assert Witness(g, rel, a, b);
    }
  }

  lemma SameKids(d: Desc, e: Desc)
    requires SameLocal(d, e)
    ensures Kids(d) == Kids(e)
  {
  }
}

/** The chain of NAMED wrappers below a descriptor (codec_decode.go:444-471). */
module NamedChains {
  import opened Descriptors

  /** A NAMED descriptor has one type position, inside the graph. */
  ghost predicate NamedOk(g: Graph) {
    forall n :: 0 <= n < |g| && g[n].kind == KIND_NAMED ==> |g[n].refs| == 1 && Inside(g, n)
  }

  ghost predicate Inside(g: Graph, n: nat)
    requires n < |g| && |g[n].refs| == 1
  {
    g[n].refs[0] < |g|
  }

  ghost predicate IsNamed(g: Graph, n: nat) { n < |g| && g[n].kind == KIND_NAMED }

  /** The descriptor `k` wrappers down, standing still at the first one that is not NAMED. */
  ghost function Down(g: Graph, n: nat, k: nat): (m: nat)
    requires NamedOk(g) && n < |g|
    ensures m < |g|
  {
    if k == 0 then n
    else
      var m := Down(g, n, k - 1);
      if IsNamed(g, m) then
        assert Inside(g, m);
        g[m].refs[0]
      else m
  }

  /** The chain ends after exactly `h` wrappers. */
  ghost predicate EndsAfter(g: Graph, n: nat, h: nat)
    requires NamedOk(g) && n < |g|
  {
    !IsNamed(g, Down(g, n, h)) && forall k: nat :: k < h ==> IsNamed(g, Down(g, n, k))
  }

  /** The chain comes back to a descriptor it has left. */
  ghost predicate Cyclic(g: Graph, n: nat)
    requires NamedOk(g) && n < |g|
  {
    exists i: nat, j: nat :: Repeats(g, n, i, j)
  }

  ghost predicate Repeats(g: Graph, n: nat, i: nat, j: nat)
    requires NamedOk(g) && n < |g|
  {
    i < j && Down(g, n, i) == Down(g, n, j) && IsNamed(g, Down(g, n, i))
  }

  lemma {:induction false} DownAfter(g: Graph, n: nat, i: nat, k: nat)
    requires NamedOk(g) && n < |g|
    ensures Down(g, n, i + k) == Down(g, Down(g, n, i), k)
  {
    if k > 0 {
      DownAfter(g, n, i, k - 1);
    }
  }

  /** Past the end nothing moves. */
  lemma {:induction false} DownStops(g: Graph, n: nat, h: nat, k: nat)
    requires NamedOk(g) && n < |g| && !IsNamed(g, Down(g, n, h)) && h <= k
    ensures Down(g, n, k) == Down(g, n, h)
  {
    if h < k {
      DownStops(g, n, h, k - 1);
    }
  }

  /** A repeat makes the chain periodic from there on. */
  lemma {:induction false} Periodic(g: Graph, n: nat, i: nat, j: nat, k: nat)
    requires NamedOk(g) && n < |g| && i <= j && Down(g, n, i) == Down(g, n, j)
    ensures Down(g, n, i + k) == Down(g, n, j + k)
  {
    DownAfter(g, n, i, k);
    DownAfter(g, n, j, k);
  }

  lemma OneMoreTurn(m: nat, p: nat)
    requires m > 0
    ensures m * p == (m - 1) * p + p && (m - 1) * p >= 0
  {
  }

  lemma {:induction false} PeriodicMany(g: Graph, n: nat, i: nat, p: nat, k: nat, m: nat)
    requires NamedOk(g) && n < |g| && Down(g, n, i) == Down(g, n, i + p) && i <= k
    ensures Down(g, n, k) == Down(g, n, k + m * p)
    decreases m
  {
    hide Down;
    if m > 0 {
      PeriodicMany(g, n, i, p, k, m - 1);
      OneMoreTurn(m, p);
      Periodic(g, n, i, i + p, k - i + (m - 1) * p);
    }
  }

  /** On a cyclic chain every descriptor is NAMED. */
  lemma {:induction false} CyclicNamed(g: Graph, n: nat, i: nat, j: nat, k: nat)
    requires NamedOk(g) && n < |g| && Repeats(g, n, i, j)
    ensures IsNamed(g, Down(g, n, k))
  {
    hide Down;
    if !IsNamed(g, Down(g, n, k)) {
      if k <= i {
        DownStops(g, n, k, i);
      } else {
        PeriodicMany(g, n, i, j - i, i, k);
        assert k <= i + k * (j - i);
        DownStops(g, n, k, i + k * (j - i));
      }
    }
  }

  /** A chain that ends is not cyclic. */
  lemma EndsNotCyclic(g: Graph, n: nat, h: nat)
    requires NamedOk(g) && n < |g| && !IsNamed(g, Down(g, n, h))
    ensures !Cyclic(g, n)
  {
    forall i: nat, j: nat
      ensures !Repeats(g, n, i, j)
    {
      NotRepeating(g, n, h, i, j);
    }
  }

  lemma NotRepeating(g: Graph, n: nat, h: nat, i: nat, j: nat)
    requires NamedOk(g) && n < |g|
    ensures Repeats(g, n, i, j) ==> IsNamed(g, Down(g, n, h))
  {
    if Repeats(g, n, i, j) {
      CyclicNamed(g, n, i, j, h);
    }
  }

  /** More values than places: two are equal. */
  lemma {:induction false} Pigeons(xs: seq<nat>, n: nat) returns (i: nat, j: nat)
    requires |xs| > n && forall k :: 0 <= k < |xs| ==> xs[k] < n
    ensures i < j < |xs| && xs[i] == xs[j]
    decreases n
  {
    var last := xs[|xs| - 1];
    if k: nat :| k < |xs| - 1 && xs[k] == last {
      i, j := k, |xs| - 1;
    } else {
      var ys := seq(|xs| - 1, k requires 0 <= k < |xs| - 1 => if xs[k] < last then xs[k] else xs[k] - 1);
      i, j := Pigeons(ys, n - 1);
    }
  }

  /** Either the chain ends within the size of the graph, or it repeats. */
  lemma EndsOrRepeats(g: Graph, n: nat) returns (end: bool, i: nat, j: nat)
    requires NamedOk(g) && n < |g|
    ensures end ==> i <= |g| && !IsNamed(g, Down(g, n, i))
    ensures !end ==> Repeats(g, n, i, j)
  {
    if h: nat :| h <= |g| && !IsNamed(g, Down(g, n, h)) {
      end, i, j := true, h, 0;
    } else {
      var xs := seq(|g| + 1, k requires 0 <= k <= |g| => Down(g, n, k));
      i, j := Pigeons(xs, |g|);
      end := false;
    }
  }

  /** Where the hare must have caught the tortoise. */
  lemma Meeting(g: Graph, n: nat, i: nat, j: nat) returns (m: nat)
    requires NamedOk(g) && n < |g| && Repeats(g, n, i, j)
    ensures m > 0 && Down(g, n, m) == Down(g, n, m + m)
  {
    var p := j - i;
    m := (i + 1) * p;
    assert m >= i + 1 by { Grows(i + 1, p); }
    PeriodicMany(g, n, i, p, m, i + 1);
  }

  lemma Grows(a: nat, p: nat)
    requires p >= 1
    ensures a * p >= a
  {
    assert a * p == a + a * (p - 1);
  }

  lemma {:induction false} NamedBelow(g: Graph, n: nat, h: nat, k: nat)
    requires NamedOk(g) && n < |g| && IsNamed(g, Down(g, n, h)) && k <= h
    ensures IsNamed(g, Down(g, n, k))
  {
    if !IsNamed(g, Down(g, n, k)) {
      DownStops(g, n, k, h);
    }
  }

  /** One step down from a NAMED descriptor. */
  lemma DownNext(g: Graph, n: nat, k: nat)
    requires NamedOk(g) && n < |g| && IsNamed(g, Down(g, n, k))
    ensures var m := Down(g, n, k); |g[m].refs| == 1 && g[m].refs[0] == Down(g, n, k + 1) < |g|
  {
    assert Inside(g, Down(g, n, k));
  }

  /** The hare's two steps and the tortoise's one. */
  lemma RaceNext(g: Graph, n: nat, k: nat)
    requires NamedOk(g) && n < |g| && IsNamed(g, Down(g, n, k + k)) && IsNamed(g, Down(g, n, k + k + 1))
    ensures IsNamed(g, Down(g, n, k)) && IsNamed(g, Down(g, n, k + 1))
  {
    NamedBelow(g, n, k + k + 1, k);
    NamedBelow(g, n, k + k + 1, k + 1);
  }

  /** After `m` rounds the race is over: the chain has ended, or hare and tortoise meet. */
  ghost predicate RaceEnds(g: Graph, n: nat, m: nat)
    requires NamedOk(g) && n < |g|
  {
    m > 0 && (Down(g, n, m) == Down(g, n, m + m) || !IsNamed(g, Down(g, n, m - 1)))
  }

  lemma RaceBound(g: Graph, n: nat) returns (m: nat)
    requires NamedOk(g) && n < |g|
    ensures RaceEnds(g, n, m)
  {
    var end, i, j := EndsOrRepeats(g, n);
    m := i + 1;
    if !end {
      m := Meeting(g, n, i, j);
    }
  }

  lemma RaceGoesOn(g: Graph, n: nat, m: nat, k: nat)
    requires NamedOk(g) && n < |g| && RaceEnds(g, n, m) && 0 < k <= m
    requires IsNamed(g, Down(g, n, k + k - 1)) && Down(g, n, k) != Down(g, n, k + k)
    ensures k < m
  {
    if k == m {
      DownStops(g, n, m - 1, k + k - 1);
    }
  }

  /** The tortoise-and-hare pass: does the chain come back to itself? It only reads. */
  method HasCycle(g: Graph, n: nat) returns (cycle: bool, ghost last: nat)
    requires NamedOk(g) && n < |g|
    ensures cycle <==> Cyclic(g, n)
    ensures !cycle ==> !IsNamed(g, Down(g, n, last))
  {
    hide Cyclic;
    hide Down;
    hide RaceEnds;
    hide NamedOk;
    ghost var m := RaceBound(g, n);
    RaceStart(g, n, m);
    var slow, fast := n, n;
    ghost var k: nat := 0;
    while g[fast].kind == KIND_NAMED
      invariant slow < |g| && fast < |g| && slow == Down(g, n, k) && fast == Down(g, n, k + k) && k < m
      decreases m - k
    {
      DownNext(g, n, k + k);
      fast := g[fast].refs[0];
      if g[fast].kind != KIND_NAMED {
        EndsNotCyclic(g, n, k + k + 1);
        return false, k + k + 1;
      }
      RaceNext(g, n, k);
      DownNext(g, n, k + k + 1);
      DownNext(g, n, k);
      fast := g[fast].refs[0];
      slow := g[slow].refs[0];
      k := k + 1;
      if slow == fast {
        CycleFound(g, n, k);
        return true, 0;
      }
      RaceGoesOn(g, n, m, k);
    }
    EndsNotCyclic(g, n, k + k);
    return false, k + k;
  }

  lemma RaceStart(g: Graph, n: nat, m: nat)
    requires NamedOk(g) && n < |g| && RaceEnds(g, n, m)
    ensures m > 0 && Down(g, n, 0) == n
  {
  }

  /** Strips the NAMED wrappers off `n`, counting them; false exactly when the chain is cyclic. */
  method DerefNamed(g: Graph, n: nat) returns (d: nat, hops: nat, ok: bool)
    requires NamedOk(g) && n < |g|
    ensures !ok <==> Cyclic(g, n)
    ensures ok ==> EndsAfter(g, n, hops) && d == Down(g, n, hops) < |g|
  {
    hide Cyclic;
    hide NamedOk;
    var cycle; ghost var last;
    cycle, last := HasCycle(g, n);
    if cycle {
      return 0, 0, false;
    }
    d, hops, ok := n, 0, true;
    while g[d].kind == KIND_NAMED
      invariant d < |g| && d == Down(g, n, hops) && forall x: nat :: x < hops ==> IsNamed(g, Down(g, n, x))
      invariant hops <= last
      decreases last - hops
    {
      DownNext(g, n, hops);
      d := g[d].refs[0];
      hops := hops + 1;
    }
  }

  lemma CycleFound(g: Graph, n: nat, k: nat)
    requires NamedOk(g) && n < |g| && k > 0 && Down(g, n, k) == Down(g, n, k + k) && IsNamed(g, Down(g, n, k))
    ensures Cyclic(g, n)
  {
    assert Repeats(g, n, k, k + k);
  }
}
