/**
  Slice-backing groups of one class (one element type), as values.

  Addresses are naturals in element units. The component list is in creation
  order, so the index of a component stands for its creation sequence number.
  `Scan` is the linear first-fit rule of slot joining over that list; the
  indexed structures of the encoder are proved equal to it in ClassIndex.dfy.
 */
module Grouping {
  datatype Option<T> = None | Some(value: T)

  /** A slice window: data pointer, length and capacity. */
  datatype Window = Window(ptr: nat, len: nat, cap: nat) {
    predicate Valid() { len <= cap }
    function Send(): nat { ptr + cap }
  }

  /** Contents of memory: the bit pattern at each element address, 0 for a bitwise-zero element. */
  type Memory = nat -> nat

  /** One slot occurrence: the generation (encoded value) and the window. */
  datatype SlotKey = SlotKey(gen: nat, win: Window)

  /** A component is live until it is absorbed by a merge or frozen by the emission of its record. */
  datatype Status = Live | Absorbed | Emitted(id: nat, elided: nat)

  datatype Comp = Comp(origin: nat, end: nat, sortKey: nat, members: seq<SlotKey>, status: Status) {
    function Length(): nat { if origin <= end then end - origin else 0 }
  }

  datatype State = State(comps: seq<Comp>, slots: map<SlotKey, nat>, cache: map<Window, nat>, gen: nat)

  const EMPTY := State([], map[], map[], 0)

  function Min(a: nat, b: nat): nat { if a < b then a else b }

  function Max(a: nat, b: nat): nat { if a < b then b else a }

  // ---------------------------------------------------------------- the join rule

  /** The live-candidate test, asymmetric for empty windows. */
  predicate Joins(c: Comp, w: Window) {
    c.status.Live? && c.origin < w.Send() && (w.ptr == c.origin || w.ptr < c.end)
  }

  /** The window lies inside a frozen span. */
  predicate Contains(c: Comp, w: Window) {
    c.status.Emitted? && c.origin <= w.ptr && w.Send() <= c.end
  }

  /** The frozen record can serve the window: inside its span, and zero wherever the record is elided. */
  predicate Representable(c: Comp, w: Window, mem: Memory) {
    && Contains(c, w)
    && forall a :: w.ptr <= a < w.ptr + w.len && c.origin + c.status.elided <= a ==> mem(a) == 0
  }

  /** The oldest emitted component, from `k` on, that contains the window. */
  function FirstContaining(comps: seq<Comp>, w: Window, k: nat): (r: Option<nat>)
    requires k <= |comps|
    ensures r.Some? ==> k <= r.value < |comps| && Contains(comps[r.value], w)
    ensures r.Some? ==> forall j :: k <= j < r.value ==> !Contains(comps[j], w)
    ensures r.None? ==> forall j :: k <= j < |comps| ==> !Contains(comps[j], w)
    decreases |comps| - k
  {
    if k == |comps| then None
    else if Contains(comps[k], w) then Some(k)
    else FirstContaining(comps, w, k + 1)
  }

  /** The oldest emitted component, from `k` on, that can serve the window. */
  function FirstRepresentable(comps: seq<Comp>, w: Window, mem: Memory, k: nat): (r: Option<nat>)
    requires k <= |comps|
    ensures r.Some? ==> k <= r.value < |comps| && Representable(comps[r.value], w, mem)
    ensures r.Some? ==> forall j :: k <= j < r.value ==> !Representable(comps[j], w, mem)
    ensures r.None? ==> forall j :: k <= j < |comps| ==> !Representable(comps[j], w, mem)
    decreases |comps| - k
  {
    if k == |comps| then None
    else if Representable(comps[k], w, mem) then Some(k)
    else FirstRepresentable(comps, w, mem, k + 1)
  }

  /** Every cached host is an emitted component that contains the cached window. */
  ghost predicate CacheSound(st: State) {
    forall w :: w in st.cache ==> st.cache[w] < |st.comps| && Contains(st.comps[st.cache[w]], w)
  }

  /** The emitted host of a window: the cached one while it can serve, else the oldest that can. */
  function Host(st: State, w: Window, mem: Memory): (r: Option<nat>)
    ensures r.Some? ==> r.value < |st.comps| && Representable(st.comps[r.value], w, mem)
  {
    if w in st.cache && st.cache[w] < |st.comps| && Representable(st.comps[st.cache[w]], w, mem)
    then Some(st.cache[w])
    else FirstRepresentable(st.comps, w, mem, 0)
  }

  /** The host cache after resolving a window. */
  function CacheAfter(st: State, w: Window, mem: Memory): map<Window, nat> {
    if w in st.cache && st.cache[w] < |st.comps| && Representable(st.comps[st.cache[w]], w, mem)
    then st.cache
    else
      match FirstContaining(st.comps, w, 0)
      case Some(ci) => st.cache[w := ci]
      case None => st.cache - {w}
  }

  /** All join candidates among the first `n` components, oldest first. */
  function Candidates(comps: seq<Comp>, w: Window, host: Option<nat>, n: nat): (r: seq<nat>)
    requires n <= |comps|
    ensures forall k :: 0 <= k < |r| ==> r[k] < n && (Joins(comps[r[k]], w) || host == Some(r[k]))
    ensures forall i: nat :: i < n && (Joins(comps[i], w) || host == Some(i)) ==> i in r
    ensures forall k, m :: 0 <= k < m < |r| ==> r[k] < r[m]
  {
    if n == 0 then []
    else
      var before := Candidates(comps, w, host, n - 1);
      var last: nat := n - 1;
      if Joins(comps[last], w) || host == Some(last) then
        assert forall i: nat :: i in before + [last] <==> i in before || i == last;
        before + [last]
      else before
  }

  // ---------------------------------------------------------------- state changes

  /** The slot table with every slot in `ms` re-pointed to component `into`. */
  function Repointed(slots: map<SlotKey, nat>, ms: seq<SlotKey>, into: nat): map<SlotKey, nat> {
    slots + (map k | k in ms :: into)
  }

  lemma RepointedNext(slots: map<SlotKey, nat>, ms: seq<SlotKey>, into: nat, key: SlotKey)
    ensures Repointed(slots, ms + [key], into) == Repointed(slots, ms, into)[key := into]
  {
  }

  /** Component `g` is absorbed by `into`: spans unite, members follow, their slots are re-pointed. */
  function MergeInto(st: State, into: nat, g: nat): State
    requires into < |st.comps| && g < |st.comps|
  {
    var c, d := st.comps[into], st.comps[g];
    var merged := c.(origin := Min(c.origin, d.origin), end := Max(c.end, d.end), members := c.members + d.members);
    st.(comps := st.comps[into := merged][g := d.(status := Absorbed)],
        slots := Repointed(st.slots, d.members, into))
  }

  /** Merges the live ones of `gs` into `into`, in order; an emitted component never takes part. */
  function MergeAll(st: State, into: nat, gs: seq<nat>): (r: State)
    requires into < |st.comps| && forall k :: 0 <= k < |gs| ==> gs[k] < |st.comps|
    ensures |r.comps| == |st.comps| && r.cache == st.cache && r.gen == st.gen
  {
    if gs == [] then st
    else
      var prev := MergeAll(st, into, gs[..|gs| - 1]);
      var g := gs[|gs| - 1];
      if prev.comps[into].status.Emitted? || prev.comps[g].status.Emitted? then prev
      else MergeInto(prev, into, g)
  }

  /** The window becomes a member of the live component `ci`. */
  function Extend(st: State, ci: nat, w: Window): State
    requires ci < |st.comps|
  {
    var c, key := st.comps[ci], SlotKey(st.gen, w);
    st.(comps := st.comps[ci := c.(origin := Min(c.origin, w.ptr), end := Max(c.end, w.Send()),
        members := c.members + [key])],
        slots := st.slots[key := ci])
  }

  /** The window founds a component of its own. */
  function Create(st: State, w: Window): State {
    var key := SlotKey(st.gen, w);
    st.(comps := st.comps + [Comp(w.ptr, w.Send(), w.ptr, [key], Live)], slots := st.slots[key := |st.comps|])
  }

  /** Joins a window to the oldest of `cands`, merging the other live ones into it. */
  function Join(st: State, w: Window, cands: seq<nat>): State
    requires forall k :: 0 <= k < |cands| ==> cands[k] < |st.comps|
  {
    if cands == [] then Create(st, w)
    else
      var into := cands[0];
      var merged := MergeAll(st, into, cands[1..]);
      if merged.comps[into].status.Emitted?
      then merged.(slots := merged.slots[SlotKey(st.gen, w) := into])
      else Extend(merged, into, w)
  }

  /** One slot is scanned: the emitted host is resolved, then first-fit by creation order. */
  function Scan(st: State, w: Window, mem: Memory): State {
    var host := Host(st, w, mem);
    var cands := Candidates(st.comps, w, host, |st.comps|);
    Join(st.(cache := CacheAfter(st, w, mem)), w, cands)
  }

  /** The same with no host cache at all: linear first-fit over every component. */
  function LinearScan(st: State, w: Window, mem: Memory): State {
    var host := FirstRepresentable(st.comps, w, mem, 0);
    Join(st, w, Candidates(st.comps, w, host, |st.comps|))
  }

  /** The record of component `ci` is written: its span is frozen. */
  function Freeze(st: State, ci: nat, id: nat, elided: nat): State
    requires ci < |st.comps|
  {
    st.(comps := st.comps[ci := st.comps[ci].(status := Emitted(id, elided))])
  }
}
