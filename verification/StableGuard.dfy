/**
  The stable guard of map encoding (codec_encode.go:2803-2892): pairs are collected with their rank cells and a
  zero-float flag, sorted, and the guard reports the first zero float key or the first undecided tie.
 */
module StableGuards {
  import opened Bytes
  import opened Lexicographic
  import opened Keys
  import opened KeyWalkers
  import opened StableKeys

  /** One pair as the sort sees it. */
  datatype Pair = Pair(key: Key, rank: seq<nat>, zero: bool)

  datatype Verdict = Passes | ZeroFloatKey(at: nat) | UndecidedTie(at: nat)

  ghost function PairOf(h: Heap, k: Key): Pair { Pair(k, Rank(h, k), MeetsZero(h, k, {})) }

  ghost function PairsOf(h: Heap, ks: seq<Key>): seq<Pair> { seq(|ks|, i requires 0 <= i < |ks| => PairOf(h, ks[i])) }

  /** Walks every key with one walker; false when some key is rejected. */
  method CollectPairs(rw: RankWalker, h: Heap, ks: seq<Key>) returns (ok: bool, pairs: seq<Pair>)
    modifies rw
    ensures ok <==> forall i :: 0 <= i < |ks| ==> RankWalk(h, ks[i], {}).Walked?
    ensures ok ==> pairs == PairsOf(h, ks)
  {
    hide RankWalk;
    hide MeetsZero;
    pairs := [];
    var i := 0;
    while i < |ks|
      invariant i <= |ks| && pairs == PairsOf(h, ks[..i])
      invariant forall j :: 0 <= j < i ==> RankWalk(h, ks[j], {}).Walked?
    {
      rw.ResetKey();
      var fine := rw.Walk(h, ks[i]);
      if !fine {
        return false, pairs;
      }
      assert rw.cells == Rank(h, ks[i]);
      pairs := pairs + [Pair(ks[i], rw.cells, rw.zeroKey)];
      i := i + 1;
    }
    assert ks[..i] == ks;
    ok := true;
  }

  /** Neighbours `j` and `j + 1` tie on rank and on value bytes. */
  ghost predicate TieAt(pairs: seq<Pair>, same: nat -> bool, j: nat) {
    j + 1 < |pairs| && Lex(pairs[j].rank, pairs[j + 1].rank) == 0 && same(j)
  }

  ghost predicate ZeroAt(pairs: seq<Pair>, j: nat) { j < |pairs| && pairs[j].zero }

  /** The first offence in sorted order; a zero float comes before a tie at the same place. */
  ghost predicate GuardSays(pairs: seq<Pair>, same: nat -> bool, r: Verdict) {
    match r
    case Passes => forall j: nat :: !TieAt(pairs, same, j) && !ZeroAt(pairs, j)
    case ZeroFloatKey(z) => ZeroAt(pairs, z) && forall j: nat :: j < z ==> !ZeroAt(pairs, j) && !TieAt(pairs, same, j)
    case UndecidedTie(t) => TieAt(pairs, same, t) && !ZeroAt(pairs, t)
                             && forall j: nat :: j < t ==> !ZeroAt(pairs, j) && !TieAt(pairs, same, j)
  }

  /** The guard over the sorted pairs; `same(j)` is the comparison of the value bytes of pairs `j` and `j + 1`. */
  method StableGuard(pairs: seq<Pair>, same: nat -> bool) returns (r: Verdict)
    ensures GuardSays(pairs, same, r)
  {
    var tieAt, zeroAt := -1, -1;
    var j := 0;
    while j + 1 < |pairs|
      invariant tieAt == -1 && forall i: nat :: i < j ==> !TieAt(pairs, same, i)
    {
      var c := RankLess(pairs[j].rank, pairs[j + 1].rank);
      if c == 0 && same(j) {
        tieAt := j;
        break;
      }
      j := j + 1;
    }
    var z := 0;
    while z < |pairs|
      invariant zeroAt == -1 && z <= |pairs| && forall i: nat :: i < z ==> !ZeroAt(pairs, i)
    {
      if pairs[z].zero {
        zeroAt := z;
        break;
      }
      z := z + 1;
    }
    if zeroAt >= 0 && (tieAt < 0 || zeroAt <= tieAt) {
      return ZeroFloatKey(zeroAt);
    }
    if tieAt >= 0 {
      return UndecidedTie(tieAt);
    }
    return Passes;
  }

  // ---------------------------------------------------------------- statically stable key types

  /** No key of such a type has a zero float: it has no float at all. */
  lemma {:induction false} StableMeetsNoZero(h: Heap, k: Key, t: KeyType, types: set<KeyType>, seen: set<nat>)
    requires StableKeyWalk(t, types) && Enclosing(types, t) && HasType(k, t)
    ensures !MeetsZero(h, k, seen)
    decreases k, Kids(k) + 1
  {
    hide Height;
    if k.ArrayKey? || k.StructKey? {
      StableKidsMeetNoZero(h, k, t, types, Visited(k), seen);
    } else {
      NotPointer(k, t, types);
    }
  }

  lemma {:induction false} StableKidsMeetNoZero(h: Heap, k: Key, t: KeyType, types: set<KeyType>, n: nat,
                                                seen: set<nat>)
    requires StableKeyWalk(t, types) && Enclosing(types, t) && HasType(k, t) && (k.ArrayKey? || k.StructKey?)
             && n <= Kids(k)
    ensures !KidsMeetZero(h, k, n, seen)
    decreases k, n
  {
    hide StableKeyWalk;
    hide HasType;
    hide Enclosing;
    hide MeetsZero;
    hide RankWalk;
    if n > 0 {
      StableKidsMeetNoZero(h, k, t, types, n - 1, seen);
      ChildStable(t, types, k, n - 1);
      if RankKids(h, k, n - 1, seen).Walked? {
        StableMeetsNoZero(h, Kid(k, n - 1), KidType(k, t, n - 1), types + {t}, RankKids(h, k, n - 1, seen).seen);
      }
    }
  }

  /** So the guard passes on the sorted pairs of every map with such keys, whatever its values. */
  lemma StableKeysPass(h: Heap, types: map<nat, KeyType>, t: KeyType, ks: seq<Key>, same: nat -> bool, r: Verdict)
    requires HeapTyped(h, types) && StableKeyWalk(t, {}) && MapKeys(h, t, ks) && SortedByRank(h, ks)
    requires GuardSays(PairsOf(h, ks), same, r)
    ensures r == Passes
  {
    hide StableKeyWalk;
    hide HasType;
    hide SameKey;
    hide RankWalk;
    hide MeetsZero;
    hide Rank;
    StableNeverTies(h, types, t, ks);
    forall j: nat
      ensures !TieAt(PairsOf(h, ks), same, j) && !ZeroAt(PairsOf(h, ks), j)
    {
      if j < |ks| {
        StableMeetsNoZero(h, ks[j], t, {}, {});
      }
    }
  }

  // ---------------------------------------------------------------- what the zero-float guard sees

  /** Zero whatever the sign: all bits but the sign bit are clear. */
  predicate IsZero32(b: u32) { b % 0x8000_0000 == 0 }

  predicate IsZero64(b: u64) { b % 0x8000_0000_0000_0000 == 0 }

  /** What counts as a zero float key: one that is zero, or has a zero half. */
  lemma ZeroFloatIff(k: Key)
    ensures IsZeroFloat(k) <==> match k
                                case Float32Key(b) => IsZero32(b)
                                case Float64Key(b) => IsZero64(b)
                                case Complex64Key(r, i) => IsZero32(r) || IsZero32(i)
                                case Complex128Key(r, i) => IsZero64(r) || IsZero64(i)
                                case _ => false
  {
  }

  /** No pointer anywhere in the key. */
  predicate PointerFree(k: Key)
    decreases k
  {
    match k
    case PtrKey(_, _) => false
    case ArrayKey(es) => forall i :: 0 <= i < |es| ==> PointerFree(es[i])
    case StructKey(fs) => forall i :: 0 <= i < |fs| ==> PointerFree(fs[i].k)
    case _ => true
  }

  /** The element stands in the tail of an array from which all elements are bitwise zero. */
  ghost predicate Elided(k: Key, i: nat)
    requires i < Kids(k)
  {
    k.ArrayKey? && forall j :: i <= j < Kids(k) ==> IsBitZero(Kid(k, j))
  }

  /** The leaf or pointer `l` stands in the key where the walk looks: in no elided tail and no blank field. */
  ghost predicate ShownIn(k: Key, l: Key)
    decreases k
  {
    if k.ArrayKey? || k.StructKey? then
      exists i: nat :: i < Kids(k) && !IsBlank(k, i) && !Elided(k, i) && ShownIn(Kid(k, i), l)
    else k == l
  }

  /** A zero float, of either sign, stands in the key where the walk looks. */
  ghost predicate ShowsZero(k: Key) { exists l :: ShownIn(k, l) && IsZeroFloat(l) }

  /** Among the first `n` parts. */
  ghost predicate KidsShow(k: Key, n: nat, l: Key)
    requires n <= Kids(k)
  {
    exists i: nat :: i < n && !IsBlank(k, i) && ShownIn(Kid(k, i), l)
  }

  ghost predicate KidsShowZero(k: Key, n: nat)
    requires n <= Kids(k)
  {
    exists i: nat :: i < n && !IsBlank(k, i) && ShowsZero(Kid(k, i))
  }

  lemma ElidedIff(k: Key, i: nat)
    requires i < Kids(k)
    ensures Elided(k, i) <==> Visited(k) <= i
  {
    hide IsBitZero;
  }

  lemma ShownByKids(k: Key, l: Key)
    requires k.ArrayKey? || k.StructKey?
    ensures ShownIn(k, l) <==> KidsShow(k, Visited(k), l)
  {
    hide Elided;
    forall i: nat | i < Kids(k)
      ensures Elided(k, i) <==> Visited(k) <= i
    {
      ElidedIff(k, i);
    }
  }

  lemma ShowsByKids(k: Key)
    requires k.ArrayKey? || k.StructKey?
    ensures ShowsZero(k) <==> KidsShowZero(k, Visited(k))
  {
    hide ShownIn;
    hide IsZeroFloat;
    forall l
      ensures ShownIn(k, l) <==> KidsShow(k, Visited(k), l)
    {
      ShownByKids(k, l);
    }
    if ShowsZero(k) {
      var l :| ShownIn(k, l) && IsZeroFloat(l);
      var i: nat :| i < Visited(k) && !IsBlank(k, i) && ShownIn(Kid(k, i), l);
    }
    if KidsShowZero(k, Visited(k)) {
      var i: nat :| i < Visited(k) && !IsBlank(k, i) && ShowsZero(Kid(k, i));
      var l :| ShownIn(Kid(k, i), l) && IsZeroFloat(l);
      assert KidsShow(k, Visited(k), l);
    }
  }

  /** An address with the type name of what it is taken for. */
  type Place = (nat, nat)

  /** What the walk enters through pointers, in order: a pointer to an address seen before collapses. */
  ghost function Entered(h: Heap, k: Key, seen: set<nat>): (r: seq<Place>)
    ensures forall p :: p in r ==> p in h
    decreases Addresses(h) - seen, k, Kids(k) + 1
  {
    match k
    case PtrKey(a, name) =>
      if a == 0 || a in seen || (a, name) !in h then []
      else
        assert a in Addresses(h);
        [(a, name)] + Entered(h, h[(a, name)], seen + {a})
    case ArrayKey(_) => KidsEntered(h, k, Visited(k), seen)
    case StructKey(_) => KidsEntered(h, k, Visited(k), seen)
    case _ => []
  }

  ghost function KidsEntered(h: Heap, k: Key, n: nat, seen: set<nat>): (r: seq<Place>)
    requires (k.ArrayKey? || k.StructKey?) && n <= Kids(k)
    ensures forall p :: p in r ==> p in h
    decreases Addresses(h) - seen, k, n
  {
    if n == 0 then []
    else
      var before := RankKids(h, k, n - 1, seen);
      KidsEntered(h, k, n - 1, seen)
      + if before.Rejected? || IsBlank(k, n - 1) || IsPrivate(k, n - 1) then []
        else Entered(h, Kid(k, n - 1), before.seen)
  }

  ghost predicate ZeroIn(h: Heap, ps: seq<Place>)
    requires forall p :: p in ps ==> p in h
  {
    exists p :: p in ps && ShowsZero(h[p])
  }

  lemma ZeroInSum(h: Heap, ps: seq<Place>, qs: seq<Place>)
    requires (forall p :: p in ps ==> p in h) && forall p :: p in qs ==> p in h
    ensures ZeroIn(h, ps + qs) <==> ZeroIn(h, ps) || ZeroIn(h, qs)
  {
    hide ShowsZero;
  }

  /**
    The flag says exactly that a zero float stands, where the walk looks, in the key or in what it enters through
    pointers, whatever was visited before. Without pointers, that is in the key itself.
   */
  lemma FlagExact(h: Heap, k: Key, seen: set<nat>)
    requires RankWalk(h, k, seen).Walked?
    ensures MeetsZero(h, k, seen) <==> ShowsZero(k) || ZeroIn(h, Entered(h, k, seen))
    ensures PointerFree(k) ==> Entered(h, k, seen) == [] && (MeetsZero(h, k, seen) <==> ShowsZero(k))
  {
    hide RankWalk;
    hide ShowsZero;
    FlagWalk(h, k, seen);
    if PointerFree(k) {
      NothingEntered(h, k, seen);
    }
  }

  lemma LeafShowsZero(k: Key)
    requires !k.ArrayKey? && !k.StructKey?
    ensures ShowsZero(k) <==> IsZeroFloat(k)
  {
    assert ShownIn(k, k);
  }

  lemma {:induction false} FlagWalk(h: Heap, k: Key, seen: set<nat>)
    requires RankWalk(h, k, seen).Walked?
    ensures MeetsZero(h, k, seen) <==> ShowsZero(k) || ZeroIn(h, Entered(h, k, seen))
    decreases Addresses(h) - seen, k, Kids(k) + 1
  {
    hide ShowsZero;
    if k.ArrayKey? || k.StructKey? {
      FlagKids(h, k, Visited(k), seen);
      ShowsByKids(k);
    } else {
      LeafShowsZero(k);
      if k.PtrKey? && k.addr != 0 && k.addr !in seen && (k.addr, k.name) in h {
        var p := (k.addr, k.name);
        assert k.addr in Addresses(h);
        FlagWalk(h, h[p], seen + {k.addr});
        ZeroInSum(h, [p], Entered(h, h[p], seen + {k.addr}));
        assert p in [p];
      }
    }
  }

  lemma {:induction false} FlagKids(h: Heap, k: Key, n: nat, seen: set<nat>)
    requires (k.ArrayKey? || k.StructKey?) && n <= Kids(k) && RankKids(h, k, n, seen).Walked?
    ensures KidsMeetZero(h, k, n, seen) <==> KidsShowZero(k, n) || ZeroIn(h, KidsEntered(h, k, n, seen))
    decreases Addresses(h) - seen, k, n
  {
    hide IsBitZero;
    hide RankWalk;
    hide MeetsZero;
    hide ShowsZero;
    hide Entered;
    hide ZeroIn;
    if n == 0 {
      assert !ZeroIn(h, []) by { NoZeroIn(h); }
    } else {
      FlagKids(h, k, n - 1, seen);
      if !IsBlank(k, n - 1) {
        var s := RankKids(h, k, n - 1, seen).seen;
        FlagWalk(h, Kid(k, n - 1), s);
        ZeroInSum(h, KidsEntered(h, k, n - 1, seen), Entered(h, Kid(k, n - 1), s));
      } else {
        assert KidsEntered(h, k, n - 1, seen) + [] == KidsEntered(h, k, n - 1, seen);
      }
    }
  }

  lemma NoZeroIn(h: Heap)
    ensures !ZeroIn(h, [])
  {
  }

  lemma {:induction false} NothingEntered(h: Heap, k: Key, seen: set<nat>)
    requires PointerFree(k)
    ensures Entered(h, k, seen) == []
    decreases k, Kids(k) + 1
  {
    if k.ArrayKey? || k.StructKey? {
      NothingKidsEntered(h, k, Visited(k), seen);
    }
  }

  lemma {:induction false} NothingKidsEntered(h: Heap, k: Key, n: nat, seen: set<nat>)
    requires (k.ArrayKey? || k.StructKey?) && n <= Kids(k) && PointerFree(k)
    ensures KidsEntered(h, k, n, seen) == []
    decreases k, n
  {
    hide RankWalk;
    hide Entered;
    if n > 0 {
      NothingKidsEntered(h, k, n - 1, seen);
      if RankKids(h, k, n - 1, seen).Walked? {
        NothingEntered(h, Kid(k, n - 1), RankKids(h, k, n - 1, seen).seen);
      }
    }
  }

  // ---------------------------------------------------------------- what the walk enters

  ghost predicate Fresh(ps: seq<Place>, seen: set<nat>) {
    && (forall i :: 0 <= i < |ps| ==> ps[i].0 !in seen)
    && (forall i, j :: 0 <= i < j < |ps| ==> ps[i].0 != ps[j].0)
  }

  function AddressesOf(ps: seq<Place>): set<nat> { set p | p in ps :: p.0 }

  lemma FreshSum(ps: seq<Place>, qs: seq<Place>, seen: set<nat>)
    requires Fresh(ps, seen) && Fresh(qs, seen + AddressesOf(ps))
    ensures Fresh(ps + qs, seen) && AddressesOf(ps + qs) == AddressesOf(ps) + AddressesOf(qs)
  {
    forall i, j | 0 <= i < |ps| && 0 <= j < |qs|
      ensures ps[i].0 != qs[j].0
    {
      assert ps[i] in ps && ps[i].0 in AddressesOf(ps);
    }
    forall a | a in AddressesOf(ps) + AddressesOf(qs)
      ensures a in AddressesOf(ps + qs)
    {
      if p :| p in ps && p.0 == a {
        assert p in ps + qs;
      } else if p :| p in qs && p.0 == a {
        assert p in ps + qs;
      }
    }
  }

  /** The walk enters each address once, and those it has seen in the end are those it entered. */
  lemma {:induction false} EnteredFresh(h: Heap, k: Key, seen: set<nat>)
    requires RankWalk(h, k, seen).Walked?
    ensures var ps := Entered(h, k, seen);
            Fresh(ps, seen) && RankWalk(h, k, seen).seen == seen + AddressesOf(ps)
    decreases Addresses(h) - seen, k, Kids(k) + 1
  {
    hide IsBitZero;
    if k.ArrayKey? || k.StructKey? {
      KidsEnteredFresh(h, k, Visited(k), seen);
    } else if k.PtrKey? && k.addr != 0 && k.addr !in seen && (k.addr, k.name) in h {
      var p := (k.addr, k.name);
      assert k.addr in Addresses(h);
      EnteredFresh(h, h[p], seen + {k.addr});
      assert AddressesOf([p]) == {k.addr} by { assert p in [p]; }
      FreshSum([p], Entered(h, h[p], seen + {k.addr}), seen);
    }
  }

  lemma {:induction false} KidsEnteredFresh(h: Heap, k: Key, n: nat, seen: set<nat>)
    requires (k.ArrayKey? || k.StructKey?) && n <= Kids(k) && RankKids(h, k, n, seen).Walked?
    ensures var ps := KidsEntered(h, k, n, seen);
            Fresh(ps, seen) && RankKids(h, k, n, seen).seen == seen + AddressesOf(ps)
    decreases Addresses(h) - seen, k, n
  {
    hide IsBitZero;
    hide RankWalk;
    hide Entered;
    hide Fresh;
    if n == 0 {
      assert Fresh([], seen) by { NothingFresh(seen); }
    } else {
      KidsEnteredFresh(h, k, n - 1, seen);
      var ps := KidsEntered(h, k, n - 1, seen);
      if !IsBlank(k, n - 1) {
        EnteredFresh(h, Kid(k, n - 1), RankKids(h, k, n - 1, seen).seen);
        FreshSum(ps, Entered(h, Kid(k, n - 1), RankKids(h, k, n - 1, seen).seen), seen);
      } else {
        assert ps + [] == ps;
      }
    }
  }

  lemma NothingFresh(seen: set<nat>)
    ensures Fresh([], seen)
  {
  }

  /** A pointer to the place stands in the key where the walk looks. */
  ghost predicate LeadsTo(h: Heap, k: Key, p: Place) { p.0 != 0 && p in h && ShownIn(k, PtrKey(p.0, p.1)) }

  ghost predicate KidsLeadTo(h: Heap, k: Key, n: nat, p: Place)
    requires n <= Kids(k)
  {
    p.0 != 0 && p in h && KidsShow(k, n, PtrKey(p.0, p.1))
  }

  ghost predicate Hop(h: Heap, p: Place, q: Place) { p in h && LeadsTo(h, h[p], q) }

  /** A way from the key to the last place of `ps`, by pointers that stand where the walk looks. */
  ghost predicate Way(h: Heap, k: Key, ps: seq<Place>) {
    && ps != [] && LeadsTo(h, k, ps[0])
    && forall i, j :: 0 <= i < j < |ps| && j == i + 1 ==> Hop(h, ps[i], ps[j])
  }

  ghost predicate Reachable(h: Heap, k: Key, p: Place) { exists ps :: Way(h, k, ps) && ps[|ps| - 1] == p }

  lemma ReachableFirst(h: Heap, k: Key, p: Place)
    requires LeadsTo(h, k, p)
    ensures Reachable(h, k, p)
  {
    hide LeadsTo;
    assert Way(h, k, [p]);
  }

  lemma ReachableThrough(h: Heap, k: Key, p: Place, q: Place)
    requires LeadsTo(h, k, p) && p in h && Reachable(h, h[p], q)
    ensures Reachable(h, k, q)
  {
    hide LeadsTo;
    var ps: seq<Place> :| Way(h, h[p], ps) && ps[|ps| - 1] == q;
    var qs := [p] + ps;
    forall i, j | 0 <= i < j < |qs| && j == i + 1
      ensures Hop(h, qs[i], qs[j])
    {
      if i > 0 {
        assert Hop(h, ps[i - 1], ps[j - 1]);
      }
    }
    assert Way(h, k, qs);
  }

  /** What a part leads to, the whole does. */
  lemma ReachableFromKid(h: Heap, k: Key, i: nat, p: Place)
    requires (k.ArrayKey? || k.StructKey?) && i < Visited(k) && !IsBlank(k, i) && Reachable(h, Kid(k, i), p)
    ensures Reachable(h, k, p)
  {
    hide ShownIn;
    var ps: seq<Place> :| Way(h, Kid(k, i), ps) && ps[|ps| - 1] == p;
    ShownByKids(k, PtrKey(ps[0].0, ps[0].1));
    assert KidsShow(k, Visited(k), PtrKey(ps[0].0, ps[0].1));
    assert LeadsTo(h, Kid(k, i), ps[0]) && LeadsTo(h, k, ps[0]);
    assert Way(h, k, ps);
  }

  /** Whatever the walk enters is reachable. */
  lemma {:induction false} EnteredReachable(h: Heap, k: Key, seen: set<nat>, p: Place)
    requires p in Entered(h, k, seen)
    ensures Reachable(h, k, p)
    decreases Addresses(h) - seen, k, Kids(k) + 1
  {
    hide Reachable;
    hide IsBitZero;
    if k.ArrayKey? || k.StructKey? {
      KidsEnteredReachable(h, k, Visited(k), seen, p);
    } else {
      var q := (k.addr, k.name);
      assert k.addr in Addresses(h);
      assert LeadsTo(h, k, q);
      if p == q {
        ReachableFirst(h, k, q);
      } else {
        EnteredReachable(h, h[q], seen + {k.addr}, p);
        ReachableThrough(h, k, q, p);
      }
    }
  }

  lemma {:induction false} KidsEnteredReachable(h: Heap, k: Key, n: nat, seen: set<nat>, p: Place)
    requires (k.ArrayKey? || k.StructKey?) && n <= Visited(k) && p in KidsEntered(h, k, n, seen)
    ensures Reachable(h, k, p)
    decreases Addresses(h) - seen, k, n
  {
    hide Reachable;
    hide IsBitZero;
    hide RankWalk;
    hide Entered;
    if p in KidsEntered(h, k, n - 1, seen) {
      KidsEnteredReachable(h, k, n - 1, seen, p);
    } else {
      EnteredReachable(h, Kid(k, n - 1), RankKids(h, k, n - 1, seen).seen, p);
      ReachableFromKid(h, k, n - 1, p);
    }
  }

  /** Everything the key and what was entered lead to has been seen. */
  ghost predicate SeesAll(h: Heap, ps: seq<Place>, seen: set<nat>)
    requires forall q :: q in ps ==> q in h
  {
    forall q, p :: q in ps && LeadsTo(h, h[q], p) ==> p.0 in seen
  }

  lemma SeesMore(h: Heap, ps: seq<Place>, seen: set<nat>, qs: seq<Place>, more: set<nat>)
    requires (forall q :: q in ps ==> q in h) && (forall q :: q in qs ==> q in h)
    requires SeesAll(h, ps, seen) && SeesAll(h, qs, more) && seen <= more
    ensures SeesAll(h, ps + qs, more)
  {
    hide LeadsTo;
  }

  /** When the walk is over, it has seen every address that the key, or what it entered, leads to. */
  lemma {:induction false} EnteredClosed(h: Heap, k: Key, seen: set<nat>)
    requires RankWalk(h, k, seen).Walked?
    ensures SeesAll(h, Entered(h, k, seen), RankWalk(h, k, seen).seen)
    ensures forall p :: LeadsTo(h, k, p) ==> p.0 in RankWalk(h, k, seen).seen
    decreases Addresses(h) - seen, k, Kids(k) + 1
  {
    hide IsBitZero;
    if k.ArrayKey? || k.StructKey? {
      KidsEnteredClosed(h, k, Visited(k), seen);
      forall p | LeadsTo(h, k, p)
        ensures p.0 in RankWalk(h, k, seen).seen
      {
        ShownByKids(k, PtrKey(p.0, p.1));
        assert KidsLeadTo(h, k, Visited(k), p);
      }
    } else if k.PtrKey? && k.addr != 0 && k.addr !in seen && (k.addr, k.name) in h {
      var p := (k.addr, k.name);
      assert k.addr in Addresses(h);
      EnteredClosed(h, h[p], seen + {k.addr});
      assert SeesAll(h, [p], RankWalk(h, k, seen).seen);
      SeesMore(h, [p], RankWalk(h, k, seen).seen, Entered(h, h[p], seen + {k.addr}), RankWalk(h, k, seen).seen);
    }
  }

  lemma {:induction false} KidsEnteredClosed(h: Heap, k: Key, n: nat, seen: set<nat>)
    requires (k.ArrayKey? || k.StructKey?) && n <= Kids(k) && RankKids(h, k, n, seen).Walked?
    ensures SeesAll(h, KidsEntered(h, k, n, seen), RankKids(h, k, n, seen).seen)
    ensures forall p {:trigger KidsLeadTo(h, k, n, p)} :: KidsLeadTo(h, k, n, p) ==> p.0 in RankKids(h, k, n, seen).seen
    decreases Addresses(h) - seen, k, n
  {
    hide IsBitZero;
    hide RankWalk;
    hide Entered;
    hide SeesAll;
    hide ShownIn;
    if n == 0 {
      assert SeesAll(h, [], seen) by { NothingSeen(h, seen); }
    } else {
      KidsEnteredClosed(h, k, n - 1, seen);
      var before, after := RankKids(h, k, n - 1, seen).seen, RankKids(h, k, n, seen).seen;
      var ps := KidsEntered(h, k, n - 1, seen);
      if IsBlank(k, n - 1) {
        assert ps + [] == ps;
      } else {
        EnteredClosed(h, Kid(k, n - 1), before);
        SeesMore(h, ps, before, Entered(h, Kid(k, n - 1), before), after);
      }
      forall p | KidsLeadTo(h, k, n, p)
        ensures p.0 in after
      {
        var i: nat :| i < n && !IsBlank(k, i) && ShownIn(Kid(k, i), PtrKey(p.0, p.1));
        if i < n - 1 {
          assert KidsLeadTo(h, k, n - 1, p);
        } else {
          assert LeadsTo(h, Kid(k, i), p);
        }
      }
    }
  }

  lemma NothingSeen(h: Heap, seen: set<nat>)
    ensures SeesAll(h, [], seen)
  {
  }

  /** No address is taken for two types. */
  ghost predicate OneName(h: Heap) { forall p, q :: p in h && q in h && p.0 == q.0 ==> p == q }

  /** Where no address is taken for two types, a walk from nothing enters exactly what is reachable. */
  lemma EnteredIffReachable(h: Heap, k: Key, p: Place)
    requires RankWalk(h, k, {}).Walked? && OneName(h)
    ensures p in Entered(h, k, {}) <==> Reachable(h, k, p)
  {
    hide RankWalk;
    hide Entered;
    hide LeadsTo;
    if p in Entered(h, k, {}) {
      EnteredReachable(h, k, {}, p);
    }
    if Reachable(h, k, p) {
      var ps: seq<Place> :| Way(h, k, ps) && ps[|ps| - 1] == p;
      EnteredClosed(h, k, {});
      EnteredFresh(h, k, {});
      WayEntered(h, k, ps, |ps| - 1);
    }
  }

  lemma {:induction false} WayEntered(h: Heap, k: Key, ps: seq<Place>, i: nat)
    requires RankWalk(h, k, {}).Walked? && OneName(h) && Way(h, k, ps) && i < |ps|
    requires SeesAll(h, Entered(h, k, {}), RankWalk(h, k, {}).seen)
    requires forall p :: LeadsTo(h, k, p) ==> p.0 in RankWalk(h, k, {}).seen
    requires RankWalk(h, k, {}).seen == AddressesOf(Entered(h, k, {}))
    ensures ps[i] in Entered(h, k, {})
    decreases i
  {
    hide RankWalk;
    hide Entered;
    hide ShownIn;
    if i > 0 {
      WayEntered(h, k, ps, i - 1);
      assert Hop(h, ps[i - 1], ps[i]);
    }
    assert ps[i].0 in AddressesOf(Entered(h, k, {})) && ps[i] in h;
    var q :| q in Entered(h, k, {}) && q.0 == ps[i].0;
    assert q in h;
  }

  /**
    So the flag sees a zero float anywhere within reach, if no address is taken for two types; and on every heap
    what it sees is within reach.
   */
  lemma FlagReaches(h: Heap, k: Key)
    requires RankWalk(h, k, {}).Walked?
    ensures MeetsZero(h, k, {}) ==> ShowsZero(k) || exists p :: Reachable(h, k, p) && p in h && ShowsZero(h[p])
    ensures OneName(h)
        ==> (MeetsZero(h, k, {}) <==> ShowsZero(k) || exists p :: Reachable(h, k, p) && p in h && ShowsZero(h[p]))
  {
    hide RankWalk;
    hide MeetsZero;
    hide Entered;
    hide Reachable;
    hide ShowsZero;
    FlagExact(h, k, {});
    forall p | p in Entered(h, k, {})
      ensures Reachable(h, k, p)
    {
      EnteredReachable(h, k, {}, p);
    }
    if OneName(h) {
      forall p
        ensures p in Entered(h, k, {}) <==> Reachable(h, k, p)
      {
        EnteredIffReachable(h, k, p);
      }
    }
  }

  /**
    Where an address is taken for two types, a zero within reach may go unseen: an array of one zero float and that
    float itself, at one address. Entered as the array first, the float is elided, and the pointer to it collapses;
    the other way round it is seen.
   */
  lemma AliasedZeroUnseen(a: nat, n: nat, m: nat)
    requires a != 0 && n != m
    ensures var h := map[(a, n) := ArrayKey([Float64Key(0)]), (a, m) := Float64Key(0)];
            var k := StructKey([ShownField(PtrKey(a, n)), ShownField(PtrKey(a, m))]);
            var l := StructKey([ShownField(PtrKey(a, m)), ShownField(PtrKey(a, n))]);
            && RankWalk(h, k, {}).Walked? && RankWalk(h, l, {}).Walked?
            && Reachable(h, k, (a, m)) && ShowsZero(h[(a, m)])
            && !MeetsZero(h, k, {}) && MeetsZero(h, l, {})
  {
    hide ShownIn;
    var one, p, q := ArrayKey([Float64Key(0)]), PtrKey(a, n), PtrKey(a, m);
    var h := map[(a, n) := one, (a, m) := Float64Key(0)];
    var k, l := StructKey([ShownField(p), ShownField(q)]), StructKey([ShownField(q), ShownField(p)]);
    assert Kids(one) == 1 && IsBitZero(Kid(one, 0)) && Visited(one) == 0;
    forall s: set<nat>
      ensures RankWalk(h, one, s) == Walked(RankHeader(one), s) && !MeetsZero(h, one, s)
    {
    }
    TwoFields(h, k, p, q);
    TwoFields(h, l, q, p);
    LeafShowsZero(Float64Key(0));
    ShownByKids(k, q);
    assert ShownIn(q, q) by { LeafShown(q); }
    assert Kid(k, 1) == q && KidsShow(k, 2, q);
    ReachableFirst(h, k, (a, m));
  }

  lemma LeafShown(k: Key)
    requires !k.ArrayKey? && !k.StructKey?
    ensures ShownIn(k, k)
  {
  }

  /** A struct of two fields is walked one after the other. */
  lemma TwoFields(h: Heap, k: Key, p: Key, q: Key)
    requires k == StructKey([ShownField(p), ShownField(q)])
    requires RankWalk(h, p, {}).Walked? && RankWalk(h, q, RankWalk(h, p, {}).seen).Walked?
    ensures RankWalk(h, k, {}).Walked?
    ensures MeetsZero(h, k, {}) <==> MeetsZero(h, p, {}) || MeetsZero(h, q, RankWalk(h, p, {}).seen)
  {
    assert Kids(k) == 2 && Kid(k, 0) == p && Kid(k, 1) == q;
    assert RankKids(h, k, 0, {}) == Walked(RankHeader(k), {});
    assert RankKids(h, k, 1, {}).Walked? && RankKids(h, k, 1, {}).seen == RankWalk(h, p, {}).seen;
    assert KidsMeetZero(h, k, 1, {}) <==> MeetsZero(h, p, {});
  }

  /** A zero float that the guard does not see: it is positive and stands in the elided tail of an array. */
  lemma ElidedZeroUnseen(h: Heap, x: u64)
    requires x != 0 && x != 0x8000_0000_0000_0000 && !IsNaN64(x)
    ensures var k := ArrayKey([Float64Key(x), Float64Key(0)]);
            HasType(k, ArrayType(2, Float64Type)) && RankWalk(h, k, {}).Walked? && IsZeroFloat(Kid(k, 1))
              && !MeetsZero(h, k, {})
  {
    var k := ArrayKey([Float64Key(x), Float64Key(0)]);
    assert Kids(k) == 2 && Kid(k, 1) == Float64Key(0) && Kid(k, 0) == Float64Key(x);
    assert IsBitZero(Kid(k, 1)) && !IsBitZero(Kid(k, 0));
    assert DensePrefix(k, 1) == 1 && DensePrefix(k, 2) == 1;
    assert RankKids(h, k, 0, {}) == Walked(RankHeader(k), {});
    assert RankKids(h, k, 1, {}).Walked?;
    FlagExact(h, k, {});
    ShowsByKids(k);
    LeafShowsZero(Kid(k, 0));
    assert !KidsShowZero(k, 1) && PointerFree(k);
    var t := ArrayType(2, Float64Type);
    assert KidType(k, t, 0) == KidType(k, t, 1) == Float64Type && SameSort(k, t, 0) && SameSort(k, t, 1);
    assert HasType(Kid(k, 0), Float64Type) && HasType(Kid(k, 1), Float64Type);
    assert KidsTyped(k, t, 0) && KidsTyped(k, t, 1) && KidsTyped(k, t, 2);
  }

  // ---------------------------------------------------------------- what the guard achieves

  ghost predicate SameFloat32(a: u32, b: u32) { a == b || (a % 0x8000_0000 == 0 && b % 0x8000_0000 == 0) }

  ghost predicate SameFloat64(a: u64, b: u64) {
    a == b || (a % 0x8000_0000_0000_0000 == 0 && b % 0x8000_0000_0000_0000 == 0)
  }

  /** Equality of map keys that are not NaN: zeros of both signs are equal, blank fields do not take part. */
  ghost predicate GoEqual(k: Key, l: Key)
    decreases k, Kids(k) + 1
  {
    match k
    case Float32Key(a) => l.Float32Key? && SameFloat32(a, l.f32)
    case Float64Key(a) => l.Float64Key? && SameFloat64(a, l.f64)
    case Complex64Key(a, b) => l.Complex64Key? && SameFloat32(a, l.re32) && SameFloat32(b, l.im32)
    case Complex128Key(a, b) => l.Complex128Key? && SameFloat64(a, l.re64) && SameFloat64(b, l.im64)
    case ArrayKey(_) => l.ArrayKey? && Kids(k) == Kids(l) && KidsGoEqual(k, l, Kids(k))
    case StructKey(_) => l.StructKey? && Kids(k) == Kids(l) && KidsGoEqual(k, l, Kids(k))
    case _ => k == l
  }

  ghost predicate KidsGoEqual(k: Key, l: Key, n: nat)
    requires n <= Kids(k) == Kids(l)
    decreases k, n
  {
    n == 0 || (KidsGoEqual(k, l, n - 1) && (IsBlank(k, n - 1) <==> IsBlank(l, n - 1))
               && (IsBlank(k, n - 1) || GoEqual(Kid(k, n - 1), Kid(l, n - 1))))
  }

  /** No component is a negative zero, blank fields aside. */
  ghost predicate NoNegativeZero(k: Key)
    decreases k, Kids(k) + 1
  {
    match k
    case Float32Key(b) => b != 0x8000_0000
    case Float64Key(b) => b != 0x8000_0000_0000_0000
    case Complex64Key(r, i) => r != 0x8000_0000 && i != 0x8000_0000
    case Complex128Key(r, i) => r != 0x8000_0000_0000_0000 && i != 0x8000_0000_0000_0000
    case ArrayKey(_) => KidsNoNegativeZero(k, Kids(k))
    case StructKey(_) => KidsNoNegativeZero(k, Kids(k))
    case _ => true
  }

  ghost predicate KidsNoNegativeZero(k: Key, n: nat)
    requires n <= Kids(k)
    decreases k, n
  {
    n == 0 || (KidsNoNegativeZero(k, n - 1) && (IsBlank(k, n - 1) || NoNegativeZero(Kid(k, n - 1))))
  }

  lemma {:induction false} ZeroNotNegative(k: Key)
    requires IsBitZero(k)
    ensures NoNegativeZero(k)
    decreases k, Kids(k) + 1
  {
    if k.ArrayKey? || k.StructKey? {
      ZeroKidsNotNegative(k, Kids(k));
    }
  }

  lemma {:induction false} ZeroKidsNotNegative(k: Key, n: nat)
    requires n <= Kids(k) && KidsZero(k, n)
    ensures KidsNoNegativeZero(k, n)
    decreases k, n
  {
    hide IsBitZero;
    hide NoNegativeZero;
    if n > 0 {
      ZeroKidsNotNegative(k, n - 1);
      ZeroNotNegative(Kid(k, n - 1));
    }
  }

  /** Every negative zero is seen: it ends no elided tail, for it is not all zero bits. */
  lemma {:induction false} UnflaggedNoNegative(h: Heap, k: Key, seen: set<nat>)
    requires RankWalk(h, k, seen).Walked? && !MeetsZero(h, k, seen)
    ensures NoNegativeZero(k)
    decreases k, Kids(k) + 1
  {
    hide IsBitZero;
    if k.ArrayKey? || k.StructKey? {
      UnflaggedKids(h, k, Visited(k), seen);
      TailNotNegative(k, Kids(k));
    }
  }

  lemma {:induction false} UnflaggedKids(h: Heap, k: Key, n: nat, seen: set<nat>)
    requires (k.ArrayKey? || k.StructKey?) && n <= Kids(k) && RankKids(h, k, n, seen).Walked?
             && !KidsMeetZero(h, k, n, seen)
    ensures KidsNoNegativeZero(k, n)
    decreases k, n
  {
    hide IsBitZero;
    hide NoNegativeZero;
    hide RankWalk;
    hide MeetsZero;
    if n > 0 {
      UnflaggedKids(h, k, n - 1, seen);
      if !IsBlank(k, n - 1) {
        UnflaggedNoNegative(h, Kid(k, n - 1), RankKids(h, k, n - 1, seen).seen);
      }
    }
  }

  lemma {:induction false} TailNotNegative(k: Key, n: nat)
    requires (k.ArrayKey? || k.StructKey?) && Visited(k) <= n <= Kids(k) && KidsNoNegativeZero(k, Visited(k))
    ensures KidsNoNegativeZero(k, n)
    decreases n
  {
    hide IsBitZero;
    hide NoNegativeZero;
    if Visited(k) < n {
      TailNotNegative(k, n - 1);
      ZeroNotNegative(Kid(k, n - 1));
    }
  }

  lemma {:induction false} PositiveZerosSame(k: Key, l: Key)
    requires NoNegativeZero(k) && NoNegativeZero(l) && GoEqual(k, l)
    ensures SameKey(k, l)
    decreases k, Kids(k) + 1
  {
    if k.ArrayKey? || k.StructKey? {
      PositiveKidsSame(k, l, Kids(k));
    }
  }

  lemma {:induction false} PositiveKidsSame(k: Key, l: Key, n: nat)
    requires n <= Kids(k) == Kids(l) && KidsNoNegativeZero(k, n) && KidsNoNegativeZero(l, n) && KidsGoEqual(k, l, n)
    ensures SameKids(k, l, n)
    decreases k, n
  {
    hide NoNegativeZero;
    hide GoEqual;
    hide SameKey;
    if n > 0 {
      PositiveKidsSame(k, l, n - 1);
      if !IsBlank(k, n - 1) {
        PositiveZerosSame(Kid(k, n - 1), Kid(l, n - 1));
      }
    }
  }

  /**
    Keys that pass the zero-float guard have one stored form: where two of them are equal as Go values, every
    component has the same bits. So the guard leaves nothing to the sign of a zero, though it lets some zeros pass.
   */
  lemma GuardedKeysExact(h: Heap, k: Key, l: Key)
    requires RankWalk(h, k, {}).Walked? && RankWalk(h, l, {}).Walked? && !MeetsZero(h, k, {}) && !MeetsZero(h, l, {})
    ensures GoEqual(k, l) ==> SameKey(k, l)
  {
    hide RankWalk;
    hide MeetsZero;
    hide NoNegativeZero;
    hide GoEqual;
    hide SameKey;
    UnflaggedNoNegative(h, k, {});
    UnflaggedNoNegative(h, l, {});
    if GoEqual(k, l) {
      PositiveZerosSame(k, l);
    }
  }
}
