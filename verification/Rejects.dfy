/**
  Which map keys are rejected (codec_encode.go:3233-3337): exactly those in which the walk arrives at a NaN or at a
  field that is not exported, in the key itself or in what it enters through pointers.
 */
module KeyRejects {
  import opened Bytes
  import opened Keys
  import opened StableGuards

  // ---------------------------------------------------------------- what is not a number

  /** Without the sign, the bits are past those of infinity. */
  predicate PastInfinity32(b: u32) { b % 0x8000_0000 > 0x7f80_0000 }

  predicate PastInfinity64(b: u64) { b % 0x8000_0000_0000_0000 > 0x7ff0_0000_0000_0000 }

  predicate NotANumber(k: Key) {
    match k
    case Float32Key(b) => PastInfinity32(b)
    case Float64Key(b) => PastInfinity64(b)
    case Complex64Key(r, i) => PastInfinity32(r) || PastInfinity32(i)
    case Complex128Key(r, i) => PastInfinity64(r) || PastInfinity64(i)
    case _ => false
  }

  /** The fraction test and the comparison agree: only what is past infinity is no number, infinity itself is one. */
  lemma NaNExact(k: Key)
    ensures HasNaN(k) <==> NotANumber(k)
  {
    match k
    case Float32Key(b) => NaNExact32(b);
    case Float64Key(b) => NaNExact64(b);
    case Complex64Key(r, i) =>
      NaNExact32(r);
      NaNExact32(i);
    case Complex128Key(r, i) =>
      NaNExact64(r);
      NaNExact64(i);
    case _ =>
  }

  lemma NaNExact32(b: u32)
    ensures IsNaN32(b) <==> PastInfinity32(b)
  {
    var e, f := b / 0x80_0000 % 0x100, b % 0x80_0000;
    assert b % 0x8000_0000 == e * 0x80_0000 + f;
  }

  lemma NaNExact64(b: u64)
    ensures IsNaN64(b) <==> PastInfinity64(b)
  {
    var e, f := b / 0x10_0000_0000_0000 % 0x800, b % 0x10_0000_0000_0000;
    assert b % 0x8000_0000_0000_0000 == e * 0x10_0000_0000_0000 + f;
  }

  // ---------------------------------------------------------------- where it stands

  /** A NaN stands in the key where the walk looks. */
  ghost predicate ShowsNaN(k: Key) { exists l :: ShownIn(k, l) && NotANumber(l) }

  /** A private field stands in the key where the walk looks. */
  ghost predicate ShowsPrivate(k: Key)
    decreases k
  {
    exists i: nat :: i < Kids(k) && !IsBlank(k, i) && !Elided(k, i) && (IsPrivate(k, i) || ShowsPrivate(Kid(k, i)))
  }

  ghost predicate Unfit(k: Key) { ShowsNaN(k) || ShowsPrivate(k) }

  /** Among the first `n` parts. */
  ghost predicate KidsUnfit(k: Key, n: nat)
    requires n <= Kids(k)
  {
    exists i: nat :: i < n && !IsBlank(k, i) && (IsPrivate(k, i) || Unfit(Kid(k, i)))
  }

  lemma UnfitByKids(k: Key)
    requires k.ArrayKey? || k.StructKey?
    ensures Unfit(k) <==> KidsUnfit(k, Visited(k))
  {
    hide ShownIn;
    hide NotANumber;
    hide Elided;
    hide ShowsPrivate;
    forall i: nat | i < Kids(k)
      ensures Elided(k, i) <==> Visited(k) <= i
    {
      ElidedIff(k, i);
    }
    PrivateByKids(k);
    NaNByKids(k);
  }

  ghost predicate KidsShowNaN(k: Key, n: nat)
    requires n <= Kids(k)
  {
    exists i: nat :: i < n && !IsBlank(k, i) && ShowsNaN(Kid(k, i))
  }

  lemma NaNByKids(k: Key)
    requires k.ArrayKey? || k.StructKey?
    ensures ShowsNaN(k) <==> KidsShowNaN(k, Visited(k))
  {
    hide ShownIn;
    hide NotANumber;
    forall l
      ensures ShownIn(k, l) <==> KidsShow(k, Visited(k), l)
    {
      ShownByKids(k, l);
    }
    if ShowsNaN(k) {
      var l :| ShownIn(k, l) && NotANumber(l);
      var i: nat :| i < Visited(k) && !IsBlank(k, i) && ShownIn(Kid(k, i), l);
    }
    if KidsShowNaN(k, Visited(k)) {
      var i: nat :| i < Visited(k) && !IsBlank(k, i) && ShowsNaN(Kid(k, i));
      var l :| ShownIn(Kid(k, i), l) && NotANumber(l);
      assert KidsShow(k, Visited(k), l);
    }
  }

  lemma PrivateByKids(k: Key)
    requires k.ArrayKey? || k.StructKey?
    ensures ShowsPrivate(k)
        <==> exists i: nat :: i < Visited(k) && !IsBlank(k, i) && (IsPrivate(k, i) || ShowsPrivate(Kid(k, i)))
  {
    hide Elided;
    forall i: nat | i < Kids(k)
      ensures Elided(k, i) <==> Visited(k) <= i
    {
      ElidedIff(k, i);
    }
  }

  lemma LeafUnfit(k: Key)
    requires !k.ArrayKey? && !k.StructKey?
    ensures Unfit(k) <==> HasNaN(k)
  {
    NaNExact(k);
    assert ShownIn(k, k);
  }

  ghost predicate UnfitIn(h: Heap, ps: seq<Place>)
    requires forall p :: p in ps ==> p in h
  {
    exists p :: p in ps && Unfit(h[p])
  }

  lemma UnfitInSum(h: Heap, ps: seq<Place>, qs: seq<Place>)
    requires (forall p :: p in ps ==> p in h) && forall p :: p in qs ==> p in h
    ensures UnfitIn(h, ps + qs) <==> UnfitIn(h, ps) || UnfitIn(h, qs)
  {
    hide Unfit;
  }

  lemma NoneUnfit(h: Heap)
    ensures !UnfitIn(h, [])
  {
  }

  // ---------------------------------------------------------------- the walks

  /**
    The walk rejects a key exactly if a NaN or a private field stands where it looks, in the key or in what it enters
    through pointers, whatever was visited before.
   */
  lemma {:induction false} RejectIff(h: Heap, k: Key, seen: set<nat>)
    ensures RankWalk(h, k, seen).Rejected? <==> Unfit(k) || UnfitIn(h, Entered(h, k, seen))
    decreases Addresses(h) - seen, k, Kids(k) + 1
  {
    hide Unfit;
    if k.ArrayKey? || k.StructKey? {
      RejectKidsIff(h, k, Visited(k), seen);
      UnfitByKids(k);
    } else {
      LeafUnfit(k);
      if k.PtrKey? && k.addr != 0 && k.addr !in seen && (k.addr, k.name) in h {
        var p := (k.addr, k.name);
        assert k.addr in Addresses(h);
        RejectIff(h, h[p], seen + {k.addr});
        UnfitInSum(h, [p], Entered(h, h[p], seen + {k.addr}));
        assert p in [p];
      }
    }
  }

  lemma {:induction false} RejectKidsIff(h: Heap, k: Key, n: nat, seen: set<nat>)
    requires (k.ArrayKey? || k.StructKey?) && n <= Kids(k)
    ensures RankKids(h, k, n, seen).Rejected? ==> KidsUnfit(k, n) || UnfitIn(h, KidsEntered(h, k, n, seen))
    ensures RankKids(h, k, n, seen).Walked? ==> !KidsUnfit(k, n) && !UnfitIn(h, KidsEntered(h, k, n, seen))
    decreases Addresses(h) - seen, k, n
  {
    hide RankWalk;
    hide Unfit;
    hide Entered;
    hide UnfitIn;
    if n == 0 {
      NoneUnfit(h);
    } else {
      RejectKidsIff(h, k, n - 1, seen);
      var before, ps := RankKids(h, k, n - 1, seen), KidsEntered(h, k, n - 1, seen);
      if before.Walked? && !IsBlank(k, n - 1) && !IsPrivate(k, n - 1) {
        RejectIff(h, Kid(k, n - 1), before.seen);
        UnfitInSum(h, ps, Entered(h, Kid(k, n - 1), before.seen));
      } else {
        assert ps + [] == ps;
      }
    }
  }

  /**
    Whatever is rejected has such a part within reach; and where no address is taken for two types, whatever has one
    is rejected.
   */
  lemma RejectReaches(h: Heap, k: Key)
    ensures RankWalk(h, k, {}).Rejected? ==> Unfit(k) || exists p :: Reachable(h, k, p) && p in h && Unfit(h[p])
    ensures OneName(h)
        ==> (RankWalk(h, k, {}).Rejected? <==> Unfit(k) || exists p :: Reachable(h, k, p) && p in h && Unfit(h[p]))
  {
    hide RankWalk;
    hide Entered;
    hide Reachable;
    hide Unfit;
    RejectIff(h, k, {});
    forall p | p in Entered(h, k, {})
      ensures Reachable(h, k, p)
    {
      EnteredReachable(h, k, {}, p);
    }
    if OneName(h) && RankWalk(h, k, {}).Walked? {
      forall p
        ensures p in Entered(h, k, {}) <==> Reachable(h, k, p)
      {
        EnteredIffReachable(h, k, p);
      }
    }
  }

  /** Neither a float nor a private field, anywhere. */
  predicate Plain(k: Key)
    decreases k
  {
    match k
    case Float32Key(_) => false
    case Float64Key(_) => false
    case Complex64Key(_, _) => false
    case Complex128Key(_, _) => false
    case ArrayKey(es) => forall i :: 0 <= i < |es| ==> Plain(es[i])
    case StructKey(fs) => forall i :: 0 <= i < |fs| ==> !fs[i].PrivateField? && Plain(fs[i].k)
    case _ => true
  }

  lemma {:induction false} PlainFit(k: Key)
    requires Plain(k)
    ensures !Unfit(k)
    decreases k
  {
    if k.ArrayKey? || k.StructKey? {
      hide Unfit;
      UnfitByKids(k);
      forall i: nat | i < Kids(k)
        ensures !IsPrivate(k, i) && !Unfit(Kid(k, i))
      {
        PlainFit(Kid(k, i));
      }
    } else {
      LeafUnfit(k);
    }
  }

  /** A key without floats and private fields is walked, if what stands on the heap is like it. */
  lemma PlainWalked(h: Heap, k: Key, seen: set<nat>)
    requires Plain(k) && forall p :: p in h ==> Plain(h[p])
    ensures RankWalk(h, k, seen).Walked?
  {
    hide RankWalk;
    hide Entered;
    hide Unfit;
    hide Plain;
    RejectIff(h, k, seen);
    PlainFit(k);
    forall p | p in Entered(h, k, seen)
      ensures !Unfit(h[p])
    {
      PlainFit(h[p]);
    }
  }
}
