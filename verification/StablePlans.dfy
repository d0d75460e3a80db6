/**
  The static stable verdict over a type graph (codec_encode.go:481-610, 644-699): plans are built depth
  first, a type met again while its plan is under construction counts as not stable, and a stable plan
  reaches no map whose pairs could tie.
 */
module StablePlans {
  import opened Keys
  import opened StableKeys
  import opened StableGuards

  type TypeId = nat

  /** What the plan of a type is made of. */
  datatype Shape =
    | Plain
    | Sequence(elem: TypeId)
    | Pointer(elem: TypeId)
    | Struct(fields: seq<TypeId>)
    | Map(keyType: KeyType, keyId: TypeId, valId: TypeId)
    | Interface
    | Coder

  type TypeGraph = map<TypeId, Shape>

  /** Child plans that enter the verdict; a map's key enters through its own walk only. */
  function Children(s: Shape): seq<TypeId> {
    match s
    case Sequence(e) => [e]
    case Pointer(e) => [e]
    case Struct(fs) => fs
    case Map(_, _, v) => [v]
    case _ => []
  }

  /** Plans built below a type, in the order they are built. */
  function Built(s: Shape): seq<TypeId> {
    if s.Map? then [s.keyId, s.valId] else Children(s)
  }

  /** The part of the verdict that a type decides by itself. */
  predicate Sound(s: Shape) {
    match s
    case Map(k, _, _) => StableKeyWalk(k, {})
    case Interface => false
    case Coder => false
    case _ => true
  }

  /** Plans by type, with the verdict; a plan under construction is there with verdict false. */
  type Memo = map<TypeId, bool>

  predicate Verdict(memo: Memo, t: TypeId) { t in memo && memo[t] }

  predicate AllStable(memo: Memo, cs: seq<TypeId>) { forall i :: 0 <= i < |cs| ==> Verdict(memo, cs[i]) }

  /** Builds the plan of `t` unless it is known or under construction. */
  function Build(g: TypeGraph, t: TypeId, memo: Memo): (r: Memo)
    ensures memo.Keys <= r.Keys
    decreases g.Keys - memo.Keys, 1, 0
  {
    if t in memo || t !in g then memo
    else
      assert t in g.Keys - memo.Keys && t !in g.Keys - memo[t := false].Keys;
      var below := BuildAll(g, Built(g[t]), |Built(g[t])|, memo[t := false]);
      below[t := Sound(g[t]) && AllStable(below, Children(g[t]))]
  }

  function BuildAll(g: TypeGraph, cs: seq<TypeId>, n: nat, memo: Memo): (r: Memo)
    requires n <= |cs|
    ensures memo.Keys <= r.Keys
    decreases g.Keys - memo.Keys, 2, n
  {
    if n == 0 then memo
    else
      var before := BuildAll(g, cs, n - 1, memo);
      Build(g, cs[n - 1], before)
  }

  /** A finished verdict never changes, and neither does one under construction. */
  lemma {:induction false} BuildKeeps(g: TypeGraph, t: TypeId, memo: Memo, u: TypeId)
    requires u in memo
    ensures u in Build(g, t, memo) && Build(g, t, memo)[u] == memo[u]
    decreases g.Keys - memo.Keys, 1, 0
  {
    if t !in memo && t in g {
      assert t in g.Keys - memo.Keys && t !in g.Keys - memo[t := false].Keys;
      BuildAllKeeps(g, Built(g[t]), |Built(g[t])|, memo[t := false], u);
    }
  }

  lemma {:induction false} BuildAllKeeps(g: TypeGraph, cs: seq<TypeId>, n: nat, memo: Memo, u: TypeId)
    requires n <= |cs| && u in memo
    ensures u in BuildAll(g, cs, n, memo) && BuildAll(g, cs, n, memo)[u] == memo[u]
    decreases g.Keys - memo.Keys, 2, n
  {
    if n > 0 {
      BuildAllKeeps(g, cs, n - 1, memo, u);
      BuildKeeps(g, cs[n - 1], BuildAll(g, cs, n - 1, memo), u);
    }
  }

  /** Stable plans are sound and have stable children. */
  ghost predicate Closed(g: TypeGraph, memo: Memo) {
    forall t :: Verdict(memo, t) ==> t in g && Sound(g[t]) && AllStable(memo, Children(g[t]))
  }

  lemma {:induction false} BuildClosed(g: TypeGraph, t: TypeId, memo: Memo)
    requires Closed(g, memo)
    ensures Closed(g, Build(g, t, memo))
    decreases g.Keys - memo.Keys, 1, 0
  {
    if t !in memo && t in g {
      assert t in g.Keys - memo.Keys && t !in g.Keys - memo[t := false].Keys;
      var open := memo[t := false];
      assert forall u :: Verdict(open, u) ==> Verdict(memo, u) && u != t;
      assert forall u :: Verdict(memo, u) ==> Verdict(open, u);
      BuildAllClosed(g, Built(g[t]), |Built(g[t])|, open);
      BuildAllKeeps(g, Built(g[t]), |Built(g[t])|, open, t);
      var below, r := BuildAll(g, Built(g[t]), |Built(g[t])|, open), Build(g, t, memo);
      assert forall u :: Verdict(below, u) ==> u != t && Verdict(r, u);
    }
  }

  lemma {:induction false} BuildAllClosed(g: TypeGraph, cs: seq<TypeId>, n: nat, memo: Memo)
    requires n <= |cs| && Closed(g, memo)
    ensures Closed(g, BuildAll(g, cs, n, memo))
    decreases g.Keys - memo.Keys, 2, n
  {
    if n > 0 {
      BuildAllClosed(g, cs, n - 1, memo);
      BuildClosed(g, cs[n - 1], BuildAll(g, cs, n - 1, memo));
    }
  }

  /** The verdict of a type: its plan is built with nothing known. */
  predicate StablePlan(g: TypeGraph, t: TypeId) { Verdict(Build(g, t, map[]), t) }

  /** What a value of the type is made of and may lead to: elements, pointees, fields and map values. */
  predicate Leads(s: Shape, c: TypeId) {
    || (s.Sequence? && c == s.elem)
    || (s.Pointer? && c == s.elem)
    || (s.Struct? && c in s.fields)
    || (s.Map? && c == s.valId)
  }

  /** These are the children whose plans enter the verdict. */
  lemma LeadsIff(s: Shape)
    ensures forall c :: c in Children(s) <==> Leads(s, c)
  {
  }

  /** A chain of types, each led to by the one before. */
  ghost predicate Chain(g: TypeGraph, path: seq<TypeId>) {
    && path != [] && (forall i :: 0 <= i < |path| ==> path[i] in g)
    && (forall i, j :: 0 <= i && j == i + 1 < |path| ==> Leads(g[path[i]], path[j]))
  }

  lemma StableChild(g: TypeGraph, memo: Memo, t: TypeId, c: TypeId)
    requires Closed(g, memo) && Verdict(memo, t) && t in g && c in Children(g[t])
    ensures Verdict(memo, c)
  {
  }

  lemma {:induction false} ChainStable(g: TypeGraph, memo: Memo, path: seq<TypeId>, n: nat)
    requires Closed(g, memo) && Chain(g, path) && n < |path| && Verdict(memo, path[0])
    ensures Verdict(memo, path[n])
  {
    hide Closed;
    if n > 0 {
      ChainStable(g, memo, path, n - 1);
      LeadsIff(g[path[n - 1]]);
      StableChild(g, memo, path[n - 1], path[n]);
    }
  }

  /** A stable plan reaches no interface and no coder leaf, and only maps whose key type the static walk accepts. */
  lemma StablePlanSound(g: TypeGraph, t: TypeId, path: seq<TypeId>)
    requires StablePlan(g, t) && Chain(g, path) && path[0] == t
    ensures Sound(g[path[|path| - 1]])
  {
    BuildClosed(g, t, map[]);
    ChainStable(g, Build(g, t, map[]), path, |path| - 1);
  }

  // ---------------------------------------------------------------- and nothing more is refused

  /** Every type named is in the graph. */
  ghost predicate Complete(g: TypeGraph) { forall t, c :: t in g && c in Built(g[t]) ==> c in g }

  /** A type without maps, pointers and interfaces, whose parts are of lower rank. */
  ghost predicate FlatType(g: TypeGraph, flat: set<TypeId>, rank: TypeId -> nat, t: TypeId) {
    && t in g && (g[t].Plain? || g[t].Sequence? || g[t].Struct?)
    && forall c :: c in Built(g[t]) ==> c in flat && rank(c) < rank(t)
  }

  /**
    A key type that the static walk accepts has a plan of value types only, and no value type contains itself: `flat`
    are these types, and `rank` falls along their parts.
   */
  ghost predicate FlatKeys(g: TypeGraph, flat: set<TypeId>, rank: TypeId -> nat) {
    && (forall t :: t in flat ==> FlatType(g, flat, rank, t))
    && (forall t :: t in g && g[t].Map? && Sound(g[t]) ==> g[t].keyId in flat)
  }

  /** The last type of the chain is sound by itself, and no type comes twice. */
  ghost predicate Fine(g: TypeGraph, path: seq<TypeId>)
    requires Chain(g, path)
  {
    Sound(g[path[|path| - 1]]) && forall i, j :: 0 <= i < j < |path| ==> path[i] != path[j]
  }

  ghost predicate AllFine(g: TypeGraph, t: TypeId) {
    forall path {:trigger Chain(g, path)} :: Chain(g, path) && path[0] == t ==> Fine(g, path)
  }

  /** Stable types with numbers that fall from each to its children. */
  ghost predicate Numbered(g: TypeGraph, memo: Memo, rk: map<TypeId, nat>, n: nat) {
    forall t :: Verdict(memo, t) ==> NumberOk(g, memo, rk, n, t)
  }

  ghost predicate NumberOk(g: TypeGraph, memo: Memo, rk: map<TypeId, nat>, n: nat, t: TypeId) {
    && t in g && t in rk && rk[t] < n
    && forall c :: c in Children(g[t]) ==> Verdict(memo, c) && c in rk && rk[c] < rk[t]
  }

  lemma {:induction false} BuildNumbered(g: TypeGraph, t: TypeId, memo: Memo, rk: map<TypeId, nat>, n: nat)
    returns (rk': map<TypeId, nat>, n': nat)
    requires Numbered(g, memo, rk, n)
    ensures Numbered(g, Build(g, t, memo), rk', n')
    decreases g.Keys - memo.Keys, 1, 0
  {
    rk', n' := rk, n;
    if t !in memo && t in g {
      assert t in g.Keys - memo.Keys && t !in g.Keys - memo[t := false].Keys;
      StillNumbered(g, memo, t, rk, n);
      rk', n' := BuildAllNumbered(g, Built(g[t]), |Built(g[t])|, memo[t := false], rk, n);
      BuildAllKeeps(g, Built(g[t]), |Built(g[t])|, memo[t := false], t);
      var below := BuildAll(g, Built(g[t]), |Built(g[t])|, memo[t := false]);
      NumberNext(g, below, t, Sound(g[t]) && AllStable(below, Children(g[t])), rk', n');
      rk', n' := rk'[t := n'], n' + 1;
    }
  }

  lemma StillNumbered(g: TypeGraph, memo: Memo, t: TypeId, rk: map<TypeId, nat>, n: nat)
    requires Numbered(g, memo, rk, n) && t !in memo
    ensures Numbered(g, memo[t := false], rk, n)
  {
    var r := memo[t := false];
    forall u | Verdict(r, u)
      ensures NumberOk(g, r, rk, n, u)
    {
      assert Verdict(memo, u) && NumberOk(g, memo, rk, n, u);
    }
  }

  lemma NumberNext(g: TypeGraph, below: Memo, t: TypeId, v: bool, rk: map<TypeId, nat>, n: nat)
    requires Numbered(g, below, rk, n) && t in g && !Verdict(below, t) && (v ==> AllStable(below, Children(g[t])))
    ensures Numbered(g, below[t := v], rk[t := n], n + 1)
  {
    var r, rk' := below[t := v], rk[t := n];
    forall u | Verdict(r, u)
      ensures NumberOk(g, r, rk', n + 1, u)
    {
      if u == t {
        forall c | c in Children(g[t])
          ensures Verdict(r, c) && c in rk' && rk'[c] < rk'[t]
        {
          assert Verdict(below, c) && NumberOk(g, below, rk, n, c);
        }
      } else {
        assert Verdict(below, u) && NumberOk(g, below, rk, n, u);
      }
    }
  }

  lemma {:induction false} BuildAllNumbered(g: TypeGraph, cs: seq<TypeId>, m: nat, memo: Memo, rk: map<TypeId, nat>,
                                            n: nat) returns (rk': map<TypeId, nat>, n': nat)
    requires m <= |cs| && Numbered(g, memo, rk, n)
    ensures Numbered(g, BuildAll(g, cs, m, memo), rk', n')
    decreases g.Keys - memo.Keys, 2, m
  {
    rk', n' := rk, n;
    if m > 0 {
      rk', n' := BuildAllNumbered(g, cs, m - 1, memo, rk, n);
      rk', n' := BuildNumbered(g, cs[m - 1], BuildAll(g, cs, m - 1, memo), rk', n');
    }
  }

  /** Along a chain of stable types the numbers fall. */
  lemma {:induction false} ChainFalls(g: TypeGraph, memo: Memo, rk: map<TypeId, nat>, n: nat, path: seq<TypeId>,
                                      i: nat, j: nat)
    requires Numbered(g, memo, rk, n) && Chain(g, path) && i < j < |path| && Verdict(memo, path[i])
    ensures path[i] in rk && path[j] in rk && rk[path[j]] < rk[path[i]] && Verdict(memo, path[j])
    decreases j
  {
    if i + 1 < j {
      ChainFalls(g, memo, rk, n, path, i, j - 1);
    }
    LeadsIff(g[path[j - 1]]);
    assert NumberOk(g, memo, rk, n, path[j - 1]) && path[j] in Children(g[path[j - 1]]);
  }

  /** No type reaches itself from a stable one. */
  lemma StableFine(g: TypeGraph, t: TypeId)
    requires StablePlan(g, t)
    ensures AllFine(g, t)
  {
    hide StablePlan;
    forall path {:trigger Chain(g, path)} | Chain(g, path) && path[0] == t
      ensures Fine(g, path)
    {
      StablePlanSound(g, t, path);
      StableDistinct(g, t, path);
    }
  }

  lemma StableDistinct(g: TypeGraph, t: TypeId, path: seq<TypeId>)
    requires StablePlan(g, t) && Chain(g, path) && path[0] == t
    ensures forall i, j :: 0 <= i < j < |path| ==> path[i] != path[j]
  {
    var memo := Build(g, t, map[]);
    var rk, n := BuildNumbered(g, t, map[], map[], 0);
    BuildClosed(g, t, map[]);
    forall i, j | 0 <= i < j < |path|
      ensures path[i] != path[j]
    {
      ChainStable(g, memo, path, i);
      ChainFalls(g, memo, rk, n, path, i, j);
    }
  }

  /** Building adds no verdict that is not stable. */
  ghost predicate NoneRefused(memo: Memo, r: Memo) { forall u :: u in r && !r[u] ==> u in memo && !memo[u] }

  lemma AllNext(g: TypeGraph, cs: seq<TypeId>, n: nat, memo: Memo)
    requires n <= |cs|
    ensures n == 0 ==> BuildAll(g, cs, n, memo) == memo
    ensures n > 0 ==> BuildAll(g, cs, n, memo) == Build(g, cs[n - 1], BuildAll(g, cs, n - 1, memo))
  {
    hide Build;
  }

  ghost predicate AllVerdicts(memo: Memo, cs: seq<TypeId>, n: nat)
    requires n <= |cs|
  {
    forall i :: 0 <= i < n ==> Verdict(memo, cs[i])
  }

  lemma VerdictsKept(g: TypeGraph, cs: seq<TypeId>, n: nat, before: Memo)
    requires 0 < n <= |cs| && AllVerdicts(before, cs, n - 1) && Verdict(Build(g, cs[n - 1], before), cs[n - 1])
    ensures AllVerdicts(Build(g, cs[n - 1], before), cs, n)
  {
    hide Build;
    forall i | 0 <= i < n - 1
      ensures Verdict(Build(g, cs[n - 1], before), cs[i])
    {
      BuildKeeps(g, cs[n - 1], before, cs[i]);
    }
  }

  /** Value types under construction are of higher rank. */
  ghost predicate OpenAbove(memo: Memo, flat: set<TypeId>, rank: TypeId -> nat, n: nat) {
    forall u :: u in memo && !memo[u] && u in flat ==> rank(u) >= n
  }

  lemma {:induction false} BuildFlat(g: TypeGraph, flat: set<TypeId>, rank: TypeId -> nat, t: TypeId, memo: Memo)
    requires FlatKeys(g, flat, rank) && t in flat && OpenAbove(memo, flat, rank, rank(t) + 1)
    ensures Verdict(Build(g, t, memo), t) && NoneRefused(memo, Build(g, t, memo))
    decreases g.Keys - memo.Keys, 1, 0
  {
    if t !in memo {
      assert FlatType(g, flat, rank, t);
      assert t in g.Keys - memo.Keys && t !in g.Keys - memo[t := false].Keys;
      var below := BuildAll(g, Built(g[t]), |Built(g[t])|, memo[t := false]);
      BuildAllFlat(g, flat, rank, t, |Built(g[t])|, memo[t := false]);
      assert NoneRefused(memo[t := false], below) && AllStable(below, Children(g[t]));
    }
  }

  lemma OpenLater(memo: Memo, r: Memo, flat: set<TypeId>, rank: TypeId -> nat, m: nat, n: nat)
    requires OpenAbove(memo, flat, rank, n) && NoneRefused(memo, r) && m <= n
    ensures OpenAbove(r, flat, rank, m)
  {
  }

  lemma FlatPart(g: TypeGraph, flat: set<TypeId>, rank: TypeId -> nat, t: TypeId, i: nat)
    requires FlatKeys(g, flat, rank) && t in flat && t in g && i < |Built(g[t])|
    ensures Built(g[t])[i] in flat && rank(Built(g[t])[i]) < rank(t)
  {
    assert FlatType(g, flat, rank, t);
    assert Built(g[t])[i] in Built(g[t]);
  }

  lemma {:induction false} BuildAllFlat(g: TypeGraph, flat: set<TypeId>, rank: TypeId -> nat, t: TypeId, n: nat,
                                        memo: Memo)
    requires FlatKeys(g, flat, rank) && t in flat && t in g && n <= |Built(g[t])|
             && OpenAbove(memo, flat, rank, rank(t))
    ensures var r := BuildAll(g, Built(g[t]), n, memo);
            NoneRefused(memo, r) && AllVerdicts(r, Built(g[t]), n)
    decreases g.Keys - memo.Keys, 2, n
  {
    hide Build;
    hide BuildAll;
    hide Built;
    hide FlatKeys;
    hide OpenAbove;
    AllNext(g, Built(g[t]), n, memo);
    if n > 0 {
      BuildAllFlat(g, flat, rank, t, n - 1, memo);
      var before, c := BuildAll(g, Built(g[t]), n - 1, memo), Built(g[t])[n - 1];
      FlatPart(g, flat, rank, t, n - 1);
      OpenLater(memo, before, flat, rank, rank(c) + 1, rank(t));
      BuildFlat(g, flat, rank, c, before);
      VerdictsKept(g, Built(g[t]), n, before);
    }
  }

  /** What is below a value type is one. */
  lemma {:induction false} FlatBelow(g: TypeGraph, flat: set<TypeId>, rank: TypeId -> nat, path: seq<TypeId>, i: nat,
                                     j: nat)
    requires FlatKeys(g, flat, rank) && Chain(g, path) && i <= j < |path| && path[i] in flat
    ensures path[j] in flat
    decreases j
  {
    if i < j {
      FlatBelow(g, flat, rank, path, i, j - 1);
      assert FlatType(g, flat, rank, path[j - 1]);
      LeadsIff(g[path[j - 1]]);
    }
  }

  /** Only types on the chain are under construction. */
  ghost predicate OpenOn(memo: Memo, path: seq<TypeId>) { forall u :: u in memo && !memo[u] ==> u in path }

  lemma {:induction false} BuildFine(g: TypeGraph, flat: set<TypeId>, rank: TypeId -> nat, path: seq<TypeId>,
                                     t: TypeId, memo: Memo)
    requires Complete(g) && FlatKeys(g, flat, rank) && Chain(g, path + [t]) && AllFine(g, (path + [t])[0])
    requires OpenOn(memo, path)
    ensures Verdict(Build(g, t, memo), t) && NoneRefused(memo, Build(g, t, memo))
    decreases g.Keys - memo.Keys, 1, 0
  {
    var all := path + [t];
    assert Fine(g, all);
    assert t !in path by {
      forall i | 0 <= i < |path|
        ensures path[i] != t
      {
        assert all[i] == path[i] && all[|path|] == t;
      }
    }
    if t !in memo {
      assert t in g;
      assert t in g.Keys - memo.Keys && t !in g.Keys - memo[t := false].Keys;
      var below := BuildAll(g, Built(g[t]), |Built(g[t])|, memo[t := false]);
      BuildAllFine(g, flat, rank, path, t, |Built(g[t])|, memo[t := false]);
      ChildrenBuilt(g[t]);
    }
  }

  lemma ChildrenBuilt(s: Shape)
    ensures forall c :: c in Children(s) ==> c in Built(s)
    ensures !s.Map? ==> Built(s) == Children(s)
  {
  }

  lemma {:induction false} BuildAllFine(g: TypeGraph, flat: set<TypeId>, rank: TypeId -> nat, path: seq<TypeId>,
                                        t: TypeId, n: nat, memo: Memo)
    requires Complete(g) && FlatKeys(g, flat, rank) && Chain(g, path + [t]) && AllFine(g, (path + [t])[0])
    requires t in g && n <= |Built(g[t])| && OpenOn(memo, path + [t])
    ensures var r := BuildAll(g, Built(g[t]), n, memo);
            NoneRefused(memo, r) && AllVerdicts(r, Built(g[t]), n)
    decreases g.Keys - memo.Keys, 2, n
  {
    hide Build;
    hide BuildAll;
    hide Built;
    hide Chain;
    hide AllFine;
    hide Complete;
    hide FlatKeys;
    AllNext(g, Built(g[t]), n, memo);
    if n > 0 {
      BuildAllFine(g, flat, rank, path, t, n - 1, memo);
      var before, c := BuildAll(g, Built(g[t]), n - 1, memo), Built(g[t])[n - 1];
      if c in Children(g[t]) {
        ChainOn(g, path, t, c);
        BuildFine(g, flat, rank, path + [t], c, before);
      } else {
        KeyPart(g, flat, rank, path, t, c);
        NothingFlat(g, flat, rank, path, t, before);
        BuildFlat(g, flat, rank, c, before);
      }
      VerdictsKept(g, Built(g[t]), n, before);
    }
  }

  /** What is built and is no child is the key of a map. */
  lemma KeyPart(g: TypeGraph, flat: set<TypeId>, rank: TypeId -> nat, path: seq<TypeId>, t: TypeId, c: TypeId)
    requires FlatKeys(g, flat, rank) && Chain(g, path + [t]) && AllFine(g, (path + [t])[0])
    requires t in g && c in Built(g[t]) && c !in Children(g[t])
    ensures g[t].Map? && c in flat
  {
    assert Fine(g, path + [t]);
  }

  lemma ChainOn(g: TypeGraph, path: seq<TypeId>, t: TypeId, c: TypeId)
    requires Complete(g) && Chain(g, path + [t]) && t in g && c in Children(g[t])
    ensures Chain(g, path + [t] + [c]) && (path + [t] + [c])[0] == (path + [t])[0]
  {
    var all, more := path + [t], path + [t] + [c];
    ChildrenBuilt(g[t]);
    LeadsIff(g[t]);
    assert all[|path|] == t;
    forall i, j | 0 <= i && j == i + 1 < |more|
      ensures Leads(g[more[i]], more[j])
    {
      if j < |all| {
        assert more[i] == all[i] && more[j] == all[j];
      }
    }
  }

  /** No value type is under construction above a map. */
  lemma NothingFlat(g: TypeGraph, flat: set<TypeId>, rank: TypeId -> nat, path: seq<TypeId>, t: TypeId, memo: Memo)
    requires FlatKeys(g, flat, rank) && Chain(g, path + [t]) && t in g && g[t].Map? && OpenOn(memo, path + [t])
    ensures forall n: nat :: OpenAbove(memo, flat, rank, n)
  {
    var all := path + [t];
    assert t in flat ==> FlatType(g, flat, rank, t);
    forall i | 0 <= i < |all|
      ensures all[i] !in flat
    {
      if all[i] in flat {
        FlatBelow(g, flat, rank, all, i, |path|);
      }
    }
  }

  /**
    The verdict exactly: a plan is stable if and only if every type that elements, fields, pointees and map values lead
    to is sound by itself, and none of them leads back to itself.
   */
  lemma StablePlanIff(g: TypeGraph, flat: set<TypeId>, rank: TypeId -> nat, t: TypeId)
    requires Complete(g) && FlatKeys(g, flat, rank) && t in g
    ensures StablePlan(g, t) <==> AllFine(g, t)
  {
    if StablePlan(g, t) {
      StableFine(g, t);
    }
    if AllFine(g, t) {
      assert [] + [t] == [t];
      BuildFine(g, flat, rank, [], t, map[]);
    }
  }

  /**
    In any value of a type with a stable plan: every map reached, through any chain of elements, fields, pointees
    and map values, has keys that never tie and no zero float, so its pairs come in one order for every order of
    iteration and neither stable-guard error can fire, whatever the values.
   */
  lemma StablePlanNeedsNoGuard(g: TypeGraph, t: TypeId, path: seq<TypeId>, h: Heap, types: map<nat, KeyType>,
                               ks: seq<Key>, ls: seq<Key>, same: nat -> bool, r: Verdict)
    requires StablePlan(g, t) && Chain(g, path) && path[0] == t && g[path[|path| - 1]].Map? && HeapTyped(h, types)
    requires MapKeys(h, g[path[|path| - 1]].keyType, ks) && SortedByRank(h, ks)
    requires MapKeys(h, g[path[|path| - 1]].keyType, ls) && SortedByRank(h, ls) && multiset(ks) == multiset(ls)
    requires GuardSays(PairsOf(h, ks), same, r)
    ensures Strict(h, ks) && ks == ls && r == Passes
  {
    hide StablePlan;
    hide StableKeyWalk;
    hide MapKeys;
    hide SortedByRank;
    hide GuardSays;
    hide Strict;
    var keyType := g[path[|path| - 1]].keyType;
    StablePlanSound(g, t, path);
    StableNeverTies(h, types, keyType, ks);
    StableOrder(h, types, keyType, ks, ls);
    StableKeysPass(h, types, keyType, ks, same, r);
  }
}
