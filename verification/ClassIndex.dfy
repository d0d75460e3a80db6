/**
  The encoder's own structures for one class (codec_encode.go:751-1182, 2086-2316):
  component arena with intrusive member chains, a live array sorted by creation
  key with tombstones, the emitted skiplist and the host cache. Each operation is
  proved equal to its linear specification in Grouping.dfy.
 */
module Arena {
  import opened Grouping
  import opened GroupingRuns

  /** A component as the encoder stores it; `order` is the creation sequence number. */
  datatype EnvComp = EnvComp(origin: nat, end: nat, sortKey: nat, head: int, tail: nat, order: nat,
                             emitted: bool, absorbed: bool, id: nat, elided: nat) {
    predicate Dead() { emitted || absorbed }
  }

  /** A member slot and the link to the next member of its component; -1 ends the chain. */
  datatype MemberSlot = MemberSlot(key: SlotKey, next: int)

  /** A live-array entry; a dead one is a tombstone. */
  datatype IntEntry = IntEntry(ci: nat, dead: bool)

  function StatusOf(c: EnvComp): Status {
    if c.absorbed then Absorbed else if c.emitted then Emitted(c.id, c.elided) else Live
  }

  ghost function MembersOf(slots: seq<MemberSlot>, chain: seq<nat>): seq<SlotKey>
    requires forall k :: 0 <= k < |chain| ==> chain[k] < |slots|
  {
    seq(|chain|, k requires 0 <= k < |chain| => slots[chain[k]].key)
  }

  ghost predicate ChainsIn(slots: seq<MemberSlot>, chains: seq<seq<nat>>) {
    forall i, k :: 0 <= i < |chains| && 0 <= k < |chains[i]| ==> chains[i][k] < |slots|
  }

  /** The component an arena entry stands for. */
  ghost function CompOf(c: EnvComp, slots: seq<MemberSlot>, chain: seq<nat>): Comp
    requires forall k :: 0 <= k < |chain| ==> chain[k] < |slots|
  {
    Comp(c.origin, c.end, c.sortKey, MembersOf(slots, chain), StatusOf(c))
  }

  ghost function AbsComps(comps: seq<EnvComp>, slots: seq<MemberSlot>, chains: seq<seq<nat>>): (r: seq<Comp>)
    requires |chains| == |comps| && ChainsIn(slots, chains)
    ensures |r| == |comps|
    ensures forall i :: 0 <= i < |r| ==> r[i] == CompOf(comps[i], slots, chains[i])
  {
    seq(|comps|, i requires 0 <= i < |comps| => CompOf(comps[i], slots, chains[i]))
  }

  /** The intrusive links spell out the chain. */
  ghost predicate ChainOk(c: EnvComp, slots: seq<MemberSlot>, chain: seq<nat>) {
    && 0 < |chain| && (forall k :: 0 <= k < |chain| ==> chain[k] < |slots|)
    && c.head == chain[0] && c.tail == chain[|chain| - 1]
    && (forall k, m :: 0 <= k && m == k + 1 < |chain| ==> slots[chain[k]].next == chain[m])
    && slots[chain[|chain| - 1]].next == -1
  }

  /** No slot is a member twice. */
  ghost predicate ChainsApart(comps: seq<EnvComp>, chains: seq<seq<nat>>)
    requires |chains| == |comps|
  {
    forall i, j, k, m ::
      && 0 <= i < |comps| && 0 <= j < |comps| && !comps[i].absorbed && !comps[j].absorbed
      && 0 <= k < |chains[i]| && 0 <= m < |chains[j]| && chains[i][k] == chains[j][m]
      ==> i == j && k == m
  }

  ghost predicate ChainsOk(comps: seq<EnvComp>, slots: seq<MemberSlot>, chains: seq<seq<nat>>) {
    && |chains| == |comps| && ChainsIn(slots, chains)
    && (forall i :: 0 <= i < |comps| && !comps[i].absorbed ==> ChainOk(comps[i], slots, chains[i]))
    && ChainsApart(comps, chains)
  }

  // ---------------------------------------------------------------- chain surgery

  /** Appending a slot to the arena disturbs nothing. */
  lemma AppendSlot(comps: seq<EnvComp>, slots: seq<MemberSlot>, chains: seq<seq<nat>>, key: SlotKey)
    requires ChainsOk(comps, slots, chains)
    ensures ChainsOk(comps, slots + [MemberSlot(key, -1)], chains)
    ensures AbsComps(comps, slots + [MemberSlot(key, -1)], chains) == AbsComps(comps, slots, chains)
  {
    var r := slots + [MemberSlot(key, -1)];
    forall i | 0 <= i < |comps|
      ensures MembersOf(r, chains[i]) == MembersOf(slots, chains[i])
    {
    }
    forall i | 0 <= i < |comps| && !comps[i].absorbed
      ensures ChainOk(comps[i], r, chains[i])
    {
      assert ChainOk(comps[i], slots, chains[i]);
    }
  }

  /** The arena with the chain ending at `tail` continued at `next`. */
  function Relink(slots: seq<MemberSlot>, tail: nat, next: nat): seq<MemberSlot>
    requires tail < |slots|
  {
    slots[tail := slots[tail].(next := next)]
  }

  lemma RelinkMembers(slots: seq<MemberSlot>, tail: nat, next: nat, chain: seq<nat>)
    requires tail < |slots| && forall k :: 0 <= k < |chain| ==> chain[k] < |slots|
    ensures MembersOf(Relink(slots, tail, next), chain) == MembersOf(slots, chain)
  {
  }

  /** A chain that does not use `tail` is not affected by relinking it. */
  lemma RelinkOther(c: EnvComp, slots: seq<MemberSlot>, tail: nat, next: nat, chain: seq<nat>)
    requires tail < |slots| && ChainOk(c, slots, chain) && forall k :: 0 <= k < |chain| ==> chain[k] != tail
    ensures ChainOk(c, Relink(slots, tail, next), chain)
  {
  }

  /** Linking the tail of one chain to the head of another concatenates them. */
  lemma RelinkJoins(c: EnvComp, d: EnvComp, slots: seq<MemberSlot>, a: seq<nat>, b: seq<nat>)
    requires ChainOk(c, slots, a) && ChainOk(d, slots, b)
    requires forall k, m :: 0 <= k < |a| && 0 <= m < |b| ==> a[k] != b[m]
    requires forall k, m :: 0 <= k < m < |a| ==> a[k] != a[m]
    ensures ChainOk(c.(tail := d.tail), Relink(slots, c.tail, b[0]), a + b)
    ensures MembersOf(Relink(slots, c.tail, b[0]), a + b) == MembersOf(slots, a) + MembersOf(slots, b)
  {
    var r, ab := Relink(slots, c.tail, b[0]), a + b;
    forall k, m | 0 <= k && m == k + 1 < |ab|
      ensures r[ab[k]].next == ab[m]
    {
      if m < |a| {
        assert a[k] != a[|a| - 1];
        assert slots[a[k]].next == a[m];
      } else if k >= |a| {
        assert b[k - |a|] != a[|a| - 1];
        assert slots[b[k - |a|]].next == b[m - |a|];
      }
    }
    assert a[|a| - 1] != b[|b| - 1];
    assert ab[|ab| - 1] == b[|b| - 1];
  }

  /** The encoder's update of the two components in a bridge merge. */
  function MergedInto(c: EnvComp, d: EnvComp): EnvComp {
    c.(tail := d.tail, origin := Min(c.origin, d.origin), end := Max(c.end, d.end))
  }

  lemma MergeChains(comps: seq<EnvComp>, slots: seq<MemberSlot>, chains: seq<seq<nat>>, into: nat, g: nat,
                    comps': seq<EnvComp>, slots': seq<MemberSlot>, chains': seq<seq<nat>>)
    requires ChainsOk(comps, slots, chains) && into < |comps| && g < |comps| && into != g
    requires !comps[into].absorbed && !comps[g].absorbed
    requires comps' == comps[into := MergedInto(comps[into], comps[g])][g := comps[g].(absorbed := true)]
    requires 0 <= comps[g].head && slots' == Relink(slots, comps[into].tail, comps[g].head)
    requires chains' == chains[into := chains[into] + chains[g]]
    ensures ChainsOk(comps', slots', chains')
    ensures forall k :: 0 <= k < |chains[g]| ==> chains[g][k] != comps[into].tail
  {
    var a, b := chains[into], chains[g];
    RelinkJoins(comps[into], comps[g], slots, a, b);
    forall i | 0 <= i < |comps| && !comps'[i].absorbed
      ensures ChainOk(comps'[i], slots', chains'[i])
    {
      if i != into {
        RelinkOther(comps[i], slots, comps[into].tail, comps[g].head, chains[i]);
      }
    }
    MergeApart(comps, chains, into, g, comps', chains');
  }

  lemma MergeApart(comps: seq<EnvComp>, chains: seq<seq<nat>>, into: nat, g: nat, comps': seq<EnvComp>,
                   chains': seq<seq<nat>>)
    requires |chains| == |comps| && ChainsApart(comps, chains) && into < |comps| && g < |comps| && into != g
    requires !comps[into].absorbed && !comps[g].absorbed
    requires |comps'| == |comps| && comps'[g].absorbed
    requires forall i :: 0 <= i < |comps| && i != g ==> (comps'[i].absorbed <==> comps[i].absorbed)
    requires chains' == chains[into := chains[into] + chains[g]]
    ensures ChainsApart(comps', chains')
  {
    var n := |chains[into]|;
    forall i, j, k, m |
      && 0 <= i < |comps| && 0 <= j < |comps| && !comps'[i].absorbed && !comps'[j].absorbed
      && 0 <= k < |chains'[i]| && 0 <= m < |chains'[j]| && chains'[i][k] == chains'[j][m]
      ensures i == j && k == m
    {
      var i0, k0 := if i == into && k >= n then g else i, if i == into && k >= n then k - n else k;
      var j0, m0 := if j == into && m >= n then g else j, if j == into && m >= n then m - n else m;
      assert chains[i0][k0] == chains'[i][k] && chains[j0][m0] == chains'[j][m];
    }
  }

  lemma MergeAbs(comps: seq<EnvComp>, slots: seq<MemberSlot>, chains: seq<seq<nat>>, into: nat, g: nat,
                 comps': seq<EnvComp>, slots': seq<MemberSlot>, chains': seq<seq<nat>>, st: State)
    requires ChainsOk(comps, slots, chains) && ChainsOk(comps', slots', chains')
    requires into < |comps| && g < |comps| && into != g
    requires !comps[into].Dead() && !comps[g].Dead()
    requires comps' == comps[into := MergedInto(comps[into], comps[g])][g := comps[g].(absorbed := true)]
    requires 0 <= comps[g].head && slots' == Relink(slots, comps[into].tail, comps[g].head)
    requires chains' == chains[into := chains[into] + chains[g]]
    requires st.comps == AbsComps(comps, slots, chains)
    ensures AbsComps(comps', slots', chains') == Grouping.MergeInto(st, into, g).comps
  {
    var abs, r := AbsComps(comps', slots', chains'), Grouping.MergeInto(st, into, g).comps;
    var tail, next := comps[into].tail, comps[g].head;
    forall i | 0 <= i < |comps|
      ensures abs[i] == r[i]
    {
      RelinkMembers(slots, tail, next, chains[i]);
      if i == into {
        RelinkMembers(slots, tail, next, chains[g]);
        assert MembersOf(slots', chains[into] + chains[g])
            == MembersOf(slots', chains[into]) + MembersOf(slots', chains[g]);
      }
    }
  }

  /** A fresh slot at the end of the arena, linked in behind the component's last member. */
  lemma ExtendChains(comps: seq<EnvComp>, slots: seq<MemberSlot>, chains: seq<seq<nat>>, ci: nat, key: SlotKey,
                     comps': seq<EnvComp>, slots': seq<MemberSlot>, chains': seq<seq<nat>>)
    requires ChainsOk(comps, slots, chains) && ci < |comps| && !comps[ci].absorbed
    requires comps' == comps[ci := ExtendedBy(comps[ci], key.win, |slots|)]
    requires slots' == Relink(slots + [MemberSlot(key, -1)], comps[ci].tail, |slots|)
    requires chains' == chains[ci := chains[ci] + [|slots|]]
    ensures ChainsOk(comps', slots', chains')
  {
    var more, a, tail := slots + [MemberSlot(key, -1)], chains[ci], comps[ci].tail;
    AppendSlot(comps, slots, chains, key);
    var one := EnvComp(0, 0, 0, |slots|, |slots|, 0, false, false, 0, 0);
    assert ChainOk(one, more, [|slots|]);
    RelinkJoins(comps[ci], one, more, a, [|slots|]);
    forall i | 0 <= i < |comps| && !comps'[i].absorbed
      ensures ChainOk(comps'[i], slots', chains'[i])
    {
      if i != ci {
        assert ChainOk(comps[i], more, chains[i]);
        RelinkOther(comps[i], more, tail, |slots|, chains[i]);
      }
    }
    ExtendApart(comps, chains, ci, |slots|, comps', chains');
  }

  lemma ExtendApart(comps: seq<EnvComp>, chains: seq<seq<nat>>, ci: nat, slot: nat, comps': seq<EnvComp>,
                    chains': seq<seq<nat>>)
    requires |chains| == |comps| && ChainsApart(comps, chains) && ci < |comps| && !comps[ci].absorbed
    requires forall i, k :: 0 <= i < |chains| && 0 <= k < |chains[i]| ==> chains[i][k] < slot
    requires |comps'| == |comps| && forall i :: 0 <= i < |comps| ==> (comps'[i].absorbed <==> comps[i].absorbed)
    requires chains' == chains[ci := chains[ci] + [slot]]
    ensures ChainsApart(comps', chains')
  {
    forall i, j, k, m |
      && 0 <= i < |comps| && 0 <= j < |comps| && !comps'[i].absorbed && !comps'[j].absorbed
      && 0 <= k < |chains'[i]| && 0 <= m < |chains'[j]| && chains'[i][k] == chains'[j][m]
      ensures i == j && k == m
    {
      if k < |chains[i]| && m < |chains[j]| {
        assert chains[i][k] == chains[j][m];
      }
    }
  }

  function ExtendedBy(c: EnvComp, w: Window, slot: nat): EnvComp {
    c.(origin := Min(c.origin, w.ptr), end := Max(c.end, w.Send()), tail := slot)
  }

  lemma ExtendAbs(comps: seq<EnvComp>, slots: seq<MemberSlot>, chains: seq<seq<nat>>, ci: nat, w: Window, st: State,
                  comps': seq<EnvComp>, slots': seq<MemberSlot>, chains': seq<seq<nat>>)
    requires ChainsOk(comps, slots, chains) && ChainsOk(comps', slots', chains') && ci < |comps| && !comps[ci].Dead()
    requires st.comps == AbsComps(comps, slots, chains)
    requires comps' == comps[ci := ExtendedBy(comps[ci], w, |slots|)]
    requires slots' == Relink(slots + [MemberSlot(SlotKey(st.gen, w), -1)], comps[ci].tail, |slots|)
    requires chains' == chains[ci := chains[ci] + [|slots|]]
    ensures AbsComps(comps', slots', chains') == Extend(st, ci, w).comps
  {
    var key := SlotKey(st.gen, w);
    var more := slots + [MemberSlot(key, -1)];
    AppendSlot(comps, slots, chains, key);
    var abs, r := AbsComps(comps', slots', chains'), Extend(st, ci, w).comps;
    forall i | 0 <= i < |comps|
      ensures abs[i] == r[i]
    {
      assert MembersOf(more, chains[i]) == MembersOf(slots, chains[i]);
      RelinkMembers(more, comps[ci].tail, |slots|, chains[i]);
      if i == ci {
        assert MembersOf(slots', chains'[i]) == MembersOf(slots', chains[i]) + [slots'[|slots|].key];
        assert slots'[|slots|].key == key;
      }
    }
  }

  lemma CreateChains(comps: seq<EnvComp>, slots: seq<MemberSlot>, chains: seq<seq<nat>>, c: EnvComp, key: SlotKey)
    requires ChainsOk(comps, slots, chains) && c.head == |slots| && c.tail == |slots| && !c.absorbed
    ensures ChainsOk(comps + [c], slots + [MemberSlot(key, -1)], chains + [[|slots|]])
  {
    AppendSlot(comps, slots, chains, key);
    var comps', more, chains' := comps + [c], slots + [MemberSlot(key, -1)], chains + [[|slots|]];
    forall i | 0 <= i < |comps'| && !comps'[i].absorbed
      ensures ChainOk(comps'[i], more, chains'[i])
    {
      assert i < |comps| ==> ChainOk(comps[i], more, chains[i]);
    }
    forall i, j, k, m |
      && 0 <= i < |comps'| && 0 <= j < |comps'| && !comps'[i].absorbed && !comps'[j].absorbed
      && 0 <= k < |chains'[i]| && 0 <= m < |chains'[j]| && chains'[i][k] == chains'[j][m]
      ensures i == j && k == m
    {
      if i < |comps| && j < |comps| {
        assert chains[i][k] == chains[j][m];
      }
    }
  }

  lemma CreateAbs(comps: seq<EnvComp>, slots: seq<MemberSlot>, chains: seq<seq<nat>>, c: EnvComp, w: Window, st: State)
    requires ChainsOk(comps, slots, chains) && st.comps == AbsComps(comps, slots, chains) && !c.Dead()
    requires c.origin == w.ptr && c.end == w.Send() && c.sortKey == w.ptr
    requires ChainsOk(comps + [c], slots + [MemberSlot(SlotKey(st.gen, w), -1)], chains + [[|slots|]])
    ensures AbsComps(comps + [c], slots + [MemberSlot(SlotKey(st.gen, w), -1)], chains + [[|slots|]])
        == Create(st, w).comps
  {
    var key := SlotKey(st.gen, w);
    AppendSlot(comps, slots, chains, key);
    var more, chains' := slots + [MemberSlot(key, -1)], chains + [[|slots|]];
    var abs, r := AbsComps(comps + [c], more, chains'), Create(st, w).comps;
    forall i | 0 <= i < |abs|
      ensures abs[i] == r[i]
    {
      if i < |comps| {
        assert AbsComps(comps, more, chains)[i] == st.comps[i];
      } else {
        assert MembersOf(more, chains'[i]) == [key];
      }
    }
  }
}

/** The live array: entries sorted by the immutable creation key, with tombstones. */
module LiveArray {
  import opened Grouping
  import opened Arena

  ghost predicate Entries(comps: seq<EnvComp>, envs: seq<IntEntry>) {
    && (forall i :: 0 <= i < |envs| ==> envs[i].ci < |comps|)
    && (forall i, j :: 0 <= i < j < |envs| ==> envs[i].ci != envs[j].ci)
  }

  ghost predicate ByKey(comps: seq<EnvComp>, envs: seq<IntEntry>)
    requires Entries(comps, envs)
  {
    forall i, j :: 0 <= i < j < |envs| ==> comps[envs[i].ci].sortKey <= comps[envs[j].ci].sortKey
  }

  ghost predicate Listed(envs: seq<IntEntry>, ci: nat) {
    exists i :: 0 <= i < |envs| && envs[i].ci == ci
  }

  ghost predicate AllListed(comps: seq<EnvComp>, envs: seq<IntEntry>) {
    forall ci :: 0 <= ci < |comps| && !comps[ci].Dead() ==> Listed(envs, ci)
  }

  /** Live spans are pairwise disjoint in array order. */
  ghost predicate SpansInOrder(comps: seq<EnvComp>, envs: seq<IntEntry>)
    requires Entries(comps, envs)
  {
    forall i, j :: 0 <= i < j < |envs| && !comps[envs[i].ci].Dead() && !comps[envs[j].ci].Dead() ==>
      comps[envs[i].ci].end <= comps[envs[j].ci].origin
  }

  /** An entry is marked exactly when its component is dead, save for the one about to be marked. */
  ghost predicate Marked(comps: seq<EnvComp>, envs: seq<IntEntry>, pending: int)
    requires Entries(comps, envs)
  {
    forall i :: 0 <= i < |envs| ==>
      (envs[i].dead <==> comps[envs[i].ci].Dead() && envs[i].ci != pending)
  }

  function Tombstones(envs: seq<IntEntry>): nat {
    if envs == [] then 0 else Tombstones(envs[..|envs| - 1]) + if envs[|envs| - 1].dead then 1 else 0
  }

  ghost predicate LiveOk(comps: seq<EnvComp>, envs: seq<IntEntry>, dead: nat, pending: int) {
    && Entries(comps, envs) && ByKey(comps, envs) && AllListed(comps, envs)
    && Marked(comps, envs, pending) && dead == Tombstones(envs)
  }

  lemma LiveEntries(comps: seq<EnvComp>, envs: seq<IntEntry>, dead: nat, pending: int)
    requires LiveOk(comps, envs, dead, pending)
    ensures Entries(comps, envs) && AllListed(comps, envs)
  {
  }

  lemma {:induction false} TombstonesUpdate(envs: seq<IntEntry>, i: nat)
    requires i < |envs| && !envs[i].dead
    ensures Tombstones(envs[i := envs[i].(dead := true)]) == Tombstones(envs) + 1
    decreases |envs|
  {
    var r, n := envs[i := envs[i].(dead := true)], |envs| - 1;
    if i < n {
      TombstonesUpdate(envs[..n], i);
      assert r[..n] == envs[..n][i := envs[i].(dead := true)];
    } else {
      assert r[..n] == envs[..n];
    }
  }

  /** Marking the pending entry completes the tombstones. */
  lemma MarkOk(comps: seq<EnvComp>, envs: seq<IntEntry>, dead: nat, ci: nat, i: nat)
    requires LiveOk(comps, envs, dead, ci) && i < |envs| && envs[i].ci == ci < |comps| && comps[ci].Dead()
    ensures LiveOk(comps, envs[i := envs[i].(dead := true)], dead + 1, -1)
  {
    var r := envs[i := envs[i].(dead := true)];
    TombstonesUpdate(envs, i);
    forall c | 0 <= c < |comps| && !comps[c].Dead()
      ensures Listed(r, c)
    {
      assert Listed(envs, c);
      var k :| 0 <= k < |envs| && envs[k].ci == c;
      assert r[k].ci == c;
    }
  }

  lemma {:induction false} TombstonesAppend(a: seq<IntEntry>, b: seq<IntEntry>)
    ensures Tombstones(a + b) == Tombstones(a) + Tombstones(b)
    decreases |b|
  {
    if b == [] {
      assert a + b == a;
    } else {
      var n := |b| - 1;
      TombstonesAppend(a, b[..n]);
      assert (a + b)[..|a + b| - 1] == a + b[..n];
    }
  }

  /** A merge leaves the live array as it was, with the absorbed component waiting for its tombstone. */
  lemma MergeLive(comps: seq<EnvComp>, comps': seq<EnvComp>, envs: seq<IntEntry>, dead: nat, into: nat, g: nat)
    requires LiveOk(comps, envs, dead, -1) && into < |comps| && g < |comps| && into != g
    requires !comps[into].Dead() && !comps[g].Dead()
    requires comps' == comps[into := MergedInto(comps[into], comps[g])][g := comps[g].(absorbed := true)]
    ensures LiveOk(comps', envs, dead, g) && Listed(envs, g)
  {
    assert Listed(envs, g);
  }

  /** A grown component keeps its place in the live array. */
  lemma ExtendLive(comps: seq<EnvComp>, comps': seq<EnvComp>, envs: seq<IntEntry>, dead: nat, ci: nat)
    requires LiveOk(comps, envs, dead, -1) && ci < |comps| && |comps'| == |comps|
    requires forall i :: 0 <= i < |comps|
              ==> comps'[i].sortKey == comps[i].sortKey && (comps'[i].Dead() <==> comps[i].Dead())
    ensures LiveOk(comps', envs, dead, -1)
  {
  }

  /** `r` is `envs` with the entry of component `ci` put in at `lo`. */
  ghost predicate PutIn(envs: seq<IntEntry>, lo: nat, ci: nat, r: seq<IntEntry>) {
    && lo <= |envs| && |r| == |envs| + 1
    && (forall j {:trigger r[j]} :: 0 <= j < |r|
          ==> r[j] == if j < lo then envs[j] else if j == lo then IntEntry(ci, false) else envs[j - 1])
  }

  /** A new component takes the position of its creation key. */
  lemma CreateSorted(comps: seq<EnvComp>, envs: seq<IntEntry>, c: EnvComp, lo: nat, r: seq<IntEntry>)
    requires Entries(comps, envs) && ByKey(comps, envs) && Marked(comps, envs, -1) && !c.Dead()
             && PutIn(envs, lo, |comps|, r)
    requires forall i :: 0 <= i < lo ==> comps[envs[i].ci].sortKey <= c.sortKey
    requires forall i :: lo <= i < |envs| ==> c.sortKey <= comps[envs[i].ci].sortKey
    ensures Entries(comps + [c], r) && ByKey(comps + [c], r) && Marked(comps + [c], r, -1)
  {
  }

  lemma CreateListed(comps: seq<EnvComp>, envs: seq<IntEntry>, c: EnvComp, lo: nat, r: seq<IntEntry>)
    requires AllListed(comps, envs) && PutIn(envs, lo, |comps|, r)
    ensures AllListed(comps + [c], r)
  {
    var comps' := comps + [c];
    forall ci | 0 <= ci < |comps'| && !comps'[ci].Dead()
      ensures Listed(r, ci)
    {
      if ci < |comps| {
        assert Listed(envs, ci);
        var i :| 0 <= i < |envs| && envs[i].ci == ci;
        assert r[if i < lo then i else i + 1].ci == ci;
      } else {
        assert r[lo].ci == ci;
      }
    }
  }

  lemma CreateCounted(envs: seq<IntEntry>, lo: nat, ci: nat)
    requires lo <= |envs|
    ensures Tombstones(envs[..lo] + [IntEntry(ci, false)] + envs[lo..]) == Tombstones(envs)
  {
    var one := [IntEntry(ci, false)];
    TombstonesAppend(envs[..lo], one);
    TombstonesAppend(envs[..lo] + one, envs[lo..]);
    TombstonesAppend(envs[..lo], envs[lo..]);
    NoTombstones(one);
    assert envs[..lo] + envs[lo..] == envs;
  }

  lemma CreateLive(comps: seq<EnvComp>, envs: seq<IntEntry>, dead: nat, c: EnvComp, lo: nat)
    requires LiveOk(comps, envs, dead, -1) && !c.Dead() && lo <= |envs|
    requires forall i :: 0 <= i < lo ==> comps[envs[i].ci].sortKey <= c.sortKey
    requires forall i :: lo <= i < |envs| ==> c.sortKey <= comps[envs[i].ci].sortKey
    ensures LiveOk(comps + [c], envs[..lo] + [IntEntry(|comps|, false)] + envs[lo..], dead, -1)
    ensures PutIn(envs, lo, |comps|, envs[..lo] + [IntEntry(|comps|, false)] + envs[lo..])
  {
    var r := envs[..lo] + [IntEntry(|comps|, false)] + envs[lo..];
    CreateSorted(comps, envs, c, lo, r);
    CreateListed(comps, envs, c, lo, r);
    CreateCounted(envs, lo, |comps|);
  }

  lemma {:induction false} NoTombstones(envs: seq<IntEntry>)
    requires forall i :: 0 <= i < |envs| ==> !envs[i].dead
    ensures Tombstones(envs) == 0
  {
    if envs != [] {
      NoTombstones(envs[..|envs| - 1]);
    }
  }

  /** Component `a` comes before component `b` in the array. */
  ghost predicate Before(envs: seq<IntEntry>, a: nat, b: nat) {
    exists i, j :: 0 <= i < j < |envs| && envs[i].ci == a && envs[j].ci == b
  }

  /** The entries of `r` come in the same order in `envs`. */
  ghost predicate Thinned(envs: seq<IntEntry>, r: seq<IntEntry>) {
    forall i, j :: 0 <= i < j < |r| ==> Before(envs, r[i].ci, r[j].ci)
  }

  lemma ThinnedSame(envs: seq<IntEntry>, r: seq<IntEntry>)
    requires |r| == |envs| && forall i :: 0 <= i < |r| ==> r[i].ci == envs[i].ci
    ensures Thinned(envs, r)
  {
  }

  lemma ThinnedTrans(a: seq<IntEntry>, b: seq<IntEntry>, c: seq<IntEntry>)
    requires Thinned(a, b) && Thinned(b, c)
    ensures Thinned(a, c)
  {
    forall i, j | 0 <= i < j < |c|
      ensures Before(a, c[i].ci, c[j].ci)
    {
      assert Before(b, c[i].ci, c[j].ci);
      var k, m :| 0 <= k < m < |b| && b[k].ci == c[i].ci && b[m].ci == c[j].ci;
    }
  }

  /** `out` is the entries of `envs` at the ascending positions `at`. */
  ghost predicate Picked(envs: seq<IntEntry>, out: seq<IntEntry>, at: seq<nat>) {
    && |at| == |out|
    && (forall k :: 0 <= k < |at| ==> at[k] < |envs| && out[k] == envs[at[k]])
    && (forall k, m :: 0 <= k < m < |at| ==> at[k] < at[m])
  }

  /** The live ones among the first `n` entries. */
  ghost predicate PickedTo(comps: seq<EnvComp>, envs: seq<IntEntry>, out: seq<IntEntry>, at: seq<nat>, n: nat)
    requires n <= |envs| && forall i :: 0 <= i < |envs| ==> envs[i].ci < |comps|
  {
    && Picked(envs, out, at) && (forall k :: 0 <= k < |at| ==> at[k] < n)
    && (forall k :: 0 <= k < |out| ==> out[k].ci < |comps| && !comps[out[k].ci].Dead())
    && (forall i :: 0 <= i < n && !comps[envs[i].ci].Dead() ==> i in at)
  }

  lemma PickNext(comps: seq<EnvComp>, envs: seq<IntEntry>, out: seq<IntEntry>, at: seq<nat>, n: nat)
    requires n < |envs| && (forall i :: 0 <= i < |envs| ==> envs[i].ci < |comps|) && PickedTo(comps, envs, out, at, n)
    ensures if comps[envs[n].ci].Dead() then PickedTo(comps, envs, out, at, n + 1)
            else PickedTo(comps, envs, out + [envs[n]], at + [n], n + 1)
  {
  }

  lemma PickedThinned(envs: seq<IntEntry>, out: seq<IntEntry>, at: seq<nat>)
    requires Picked(envs, out, at)
    ensures Thinned(envs, out)
  {
    forall i, j | 0 <= i < j < |out|
      ensures Before(envs, out[i].ci, out[j].ci)
    {
      assert at[i] < at[j];
    }
  }

  /** Dropping tombstones keeps the array order and every live entry. */
  lemma PickedAll(comps: seq<EnvComp>, envs: seq<IntEntry>, dead: nat, out: seq<IntEntry>, at: seq<nat>)
    requires LiveOk(comps, envs, dead, -1) && (forall i :: 0 <= i < |envs| ==> envs[i].ci < |comps|)
    requires PickedTo(comps, envs, out, at, |envs|)
    ensures LiveOk(comps, out, 0, -1) && Thinned(envs, out)
  {
    hide LiveOk;
    hide Thinned;
    PickedOk(comps, envs, dead, out, at);
    PickedThinned(envs, out, at);
  }

  lemma NothingPicked(comps: seq<EnvComp>, envs: seq<IntEntry>)
    requires forall i :: 0 <= i < |envs| ==> envs[i].ci < |comps|
    ensures PickedTo(comps, envs, [], [], 0)
  {
  }

  lemma EntriesInside(comps: seq<EnvComp>, envs: seq<IntEntry>, dead: nat)
    requires LiveOk(comps, envs, dead, -1)
    ensures forall i :: 0 <= i < |envs| ==> envs[i].ci < |comps|
  {
  }

  lemma PickedOk(comps: seq<EnvComp>, envs: seq<IntEntry>, dead: nat, out: seq<IntEntry>, at: seq<nat>)
    requires LiveOk(comps, envs, dead, -1) && Picked(envs, out, at)
    requires forall k :: 0 <= k < |out| ==> !comps[out[k].ci].Dead()
    requires forall i :: 0 <= i < |envs| && !comps[envs[i].ci].Dead() ==> i in at
    ensures LiveOk(comps, out, 0, -1)
  {
    forall ci | 0 <= ci < |comps| && !comps[ci].Dead()
      ensures Listed(out, ci)
    {
      assert Listed(envs, ci);
      var i :| 0 <= i < |envs| && envs[i].ci == ci;
      assert i in at;
      var k :| 0 <= k < |at| && at[k] == i;
      assert out[k].ci == ci;
    }
    NoTombstones(out);
  }
}

/** The live-candidate search over the live array. */
module LiveSearch {
  import opened Grouping
  import opened Arena
  import opened LiveArray

  /** The window meets the live component `c`. */
  predicate Meets(c: EnvComp, w: Window) {
    !c.Dead() && c.origin < w.Send() && (w.ptr == c.origin || w.ptr < c.end)
  }

  ghost predicate LiveGeometry(comps: seq<EnvComp>) {
    forall i :: 0 <= i < |comps| && !comps[i].Dead() ==>
      comps[i].origin <= comps[i].sortKey <= comps[i].end
        && (comps[i].origin < comps[i].end ==> comps[i].sortKey < comps[i].end)
  }

  /** `cand` lists, once each, the components of the entries [a, b) that the window meets. */
  ghost predicate Found(comps: seq<EnvComp>, envs: seq<IntEntry>, cand: seq<nat>, w: Window, a: int, b: int)
    requires Entries(comps, envs)
  {
    && 0 <= a <= b <= |envs|
    && (forall i :: a <= i < b ==> (envs[i].ci in cand <==> Meets(comps[envs[i].ci], w)))
    && (forall k :: 0 <= k < |cand| ==> InRange(envs, cand[k], a, b))
    && (forall k, m :: 0 <= k < m < |cand| ==> cand[k] != cand[m])
  }

  ghost predicate InRange(envs: seq<IntEntry>, ci: nat, a: int, b: int) {
    exists i :: 0 <= a <= i < b <= |envs| && envs[i].ci == ci
  }

  /** An entry outside the searched range is not among the candidates. */
  lemma NotInRange(envs: seq<IntEntry>, cand: seq<nat>, j: int, a: int, b: int)
    requires forall i, k :: 0 <= i < k < |envs| ==> envs[i].ci != envs[k].ci
    requires forall k :: 0 <= k < |cand| ==> InRange(envs, cand[k], a, b)
    requires 0 <= j < |envs| && !(a <= j < b)
    ensures envs[j].ci !in cand
  {
  }

  /** Widening the searched range by one entry, which is added when the window meets it. */
  lemma FoundOneMore(comps: seq<EnvComp>, envs: seq<IntEntry>, cand: seq<nat>, w: Window, a: int, b: int, i: int,
                     a': int, b': int,
                     more: seq<nat>)
    requires Entries(comps, envs) && Found(comps, envs, cand, w, a, b)
    requires (i == b && a' == a && b' == b + 1 <= |envs|) || (i == a - 1 && a' == a - 1 && 0 <= a' && b' == b)
    requires more == if Meets(comps[envs[i].ci], w) then cand + [envs[i].ci] else cand
    ensures Found(comps, envs, more, w, a', b')
  {
    NotInRange(envs, cand, i, a, b);
    forall k | 0 <= k < |more|
      ensures InRange(envs, more[k], a', b')
    {
      assert k < |cand| ==> InRange(envs, cand[k], a, b);
    }
    forall j | a' <= j < b'
      ensures envs[j].ci in more <==> Meets(comps[envs[j].ci], w)
    {
      assert envs[j].ci in more <==> envs[j].ci in cand || (Meets(comps[envs[i].ci], w) && envs[j].ci == envs[i].ci);
    }
  }

  /** Nothing is searched, nothing is found. */
  lemma NoneFound(comps: seq<EnvComp>, envs: seq<IntEntry>, dead: nat, w: Window, lo: nat)
    requires LiveOk(comps, envs, dead, -1) && lo <= |envs|
    ensures Entries(comps, envs) && Found(comps, envs, [], w, lo, lo)
  {
    LiveEntries(comps, envs, dead, -1);
  }

  /** One step to the left: an entry is passed over when dead, and taken when it ends past the window's start. */
  lemma StepLeft(comps: seq<EnvComp>, envs: seq<IntEntry>, dead: nat, cand: seq<nat>, w: Window, i: nat, lo: nat,
                 more: seq<nat>)
    requires LiveOk(comps, envs, dead, -1) && LiveGeometry(comps) && i < lo <= |envs|
    requires Found(comps, envs, cand, w, i + 1, lo) && comps[envs[i].ci].sortKey < w.ptr
    requires envs[i].dead || comps[envs[i].ci].Dead() || w.ptr < comps[envs[i].ci].end
    requires more == if envs[i].dead || comps[envs[i].ci].Dead() then cand else cand + [envs[i].ci]
    ensures Found(comps, envs, more, w, i, lo)
  {
    hide Found;
    FoundOneMore(comps, envs, cand, w, i + 1, lo, i, i, lo, more);
  }

  /** One step to the right: an entry that starts before the window's end is taken unless dead or left of it. */
  lemma StepRight(comps: seq<EnvComp>, envs: seq<IntEntry>, dead: nat, cand: seq<nat>, w: Window, i: nat,
                  more: seq<nat>)
    requires LiveOk(comps, envs, dead, -1) && i < |envs| && Found(comps, envs, cand, w, 0, i)
    requires envs[i].dead || comps[envs[i].ci].Dead() || comps[envs[i].ci].origin < w.Send()
    requires more == if envs[i].dead || comps[envs[i].ci].Dead() then cand
                     else if w.ptr == comps[envs[i].ci].origin || w.ptr < comps[envs[i].ci].end then cand + [envs[i].ci]
                     else cand
    ensures Found(comps, envs, more, w, 0, i + 1)
  {
    hide Found;
    FoundOneMore(comps, envs, cand, w, 0, i, i, 0, i + 1, more);
  }

  /** Left of a live entry that ends before the window nothing meets it. */
  lemma LeftOf(comps: seq<EnvComp>, envs: seq<IntEntry>, cand: seq<nat>, w: Window, i: int, lo: int)
    requires Entries(comps, envs) && SpansInOrder(comps, envs) && LiveGeometry(comps)
    requires 0 <= i < lo <= |envs| && Found(comps, envs, cand, w, i + 1, lo)
    requires forall j :: 0 <= j < lo ==> comps[envs[j].ci].sortKey < w.ptr
    requires !comps[envs[i].ci].Dead() && comps[envs[i].ci].end <= w.ptr
    ensures Found(comps, envs, cand, w, 0, lo)
  {
    forall j | 0 <= j <= i
      ensures !Meets(comps[envs[j].ci], w) && envs[j].ci !in cand
    {
      NotInRange(envs, cand, j, i + 1, lo);
    }
    forall k | 0 <= k < |cand|
      ensures InRange(envs, cand[k], 0, lo)
    {
      assert InRange(envs, cand[k], i + 1, lo);
    }
  }

  /** Right of a live entry that starts past the window nothing meets it. */
  lemma RightOf(comps: seq<EnvComp>, envs: seq<IntEntry>, cand: seq<nat>, w: Window, i: int)
    requires Entries(comps, envs) && SpansInOrder(comps, envs) && LiveGeometry(comps)
    requires 0 <= i < |envs| && Found(comps, envs, cand, w, 0, i)
    requires !comps[envs[i].ci].Dead() && w.Send() <= comps[envs[i].ci].origin
    ensures Found(comps, envs, cand, w, 0, |envs|)
  {
    forall j | i <= j < |envs|
      ensures !Meets(comps[envs[j].ci], w) && envs[j].ci !in cand
    {
      NotInRange(envs, cand, j, 0, i);
    }
    forall k | 0 <= k < |cand|
      ensures InRange(envs, cand[k], 0, |envs|)
    {
      assert InRange(envs, cand[k], 0, i);
    }
  }

  /** Where the window's own entry belongs: by key, and clear of every live span to the left. */
  ghost predicate SplitPoint(comps: seq<EnvComp>, envs: seq<IntEntry>, w: Window, lo: nat)
    requires Entries(comps, envs)
  {
    && lo <= |envs|
    && (forall i :: 0 <= i < lo ==> comps[envs[i].ci].sortKey <= w.ptr)
    && (forall i :: 0 <= i < lo && !comps[envs[i].ci].Dead()
          ==> comps[envs[i].ci].sortKey < w.ptr || comps[envs[i].ci].end <= w.ptr)
    && (forall i :: lo <= i < |envs| ==> w.ptr <= comps[envs[i].ci].sortKey)
  }

  /** A window that meets nothing fits into the live array at its split point. */
  lemma CreateInOrder(comps: seq<EnvComp>, envs: seq<IntEntry>, w: Window, lo: nat, c: EnvComp, r: seq<IntEntry>)
    requires Entries(comps, envs) && SpansInOrder(comps, envs) && LiveGeometry(comps) && w.Valid()
    requires Found(comps, envs, [], w, 0, |envs|) && SplitPoint(comps, envs, w, lo)
    requires c.origin == w.ptr && c.end == w.Send() && PutIn(envs, lo, |comps|, r) && Entries(comps + [c], r)
    ensures SpansInOrder(comps + [c], r)
  {
    var comps' := comps + [c];
    forall i | 0 <= i < |envs| && !comps[envs[i].ci].Dead()
      ensures if i < lo then comps[envs[i].ci].end <= w.ptr else w.Send() <= comps[envs[i].ci].origin
    {
      assert !Meets(comps[envs[i].ci], w);
    }
    forall i, j | 0 <= i < j < |r| && !comps'[r[i].ci].Dead() && !comps'[r[j].ci].Dead()
      ensures comps'[r[i].ci].end <= comps'[r[j].ci].origin
    {
      assert i < lo ==> r[i] == envs[i];
      assert i > lo ==> r[i] == envs[i - 1];
      assert j < lo ==> r[j] == envs[j];
      assert j > lo ==> r[j] == envs[j - 1];
    }
  }

  /** A window past the last live span meets nothing. */
  lemma PastLast(comps: seq<EnvComp>, envs: seq<IntEntry>, w: Window)
    requires Entries(comps, envs) && ByKey(comps, envs) && SpansInOrder(comps, envs) && LiveGeometry(comps)
             && envs != []
    requires var last := comps[envs[|envs| - 1].ci]; !last.Dead() && last.end <= w.ptr && last.origin < w.ptr
    ensures Found(comps, envs, [], w, 0, |envs|) && SplitPoint(comps, envs, w, |envs|)
  {
    var n := |envs| - 1;
    forall i | 0 <= i < |envs|
      ensures !Meets(comps[envs[i].ci], w) && comps[envs[i].ci].sortKey <= w.ptr
    {
      if i < n && !comps[envs[i].ci].Dead() {
        assert comps[envs[i].ci].end <= comps[envs[n].ci].origin;
      }
    }
  }
}

module ClassIndexes {
  import opened LiveSearch
  import opened Grouping
  import opened GroupingRuns
  import opened Arena
  import opened LiveArray
  import T = Towers
  import opened EmitSkips

  /** The skiplist indexes exactly the emitted components, each once. */
  ghost predicate EmitIndexed(comps: seq<EnvComp>, spans: seq<T.Tower>) {
    && (forall k :: 0 <= k < |spans| ==> Indexes(comps, spans[k]))
    && (forall i, j :: 0 <= i < j < |spans| ==> spans[i].ci != spans[j].ci)
    && (forall ci :: 0 <= ci < |comps| && comps[ci].emitted && !comps[ci].absorbed ==> IndexedIn(spans, ci))
  }

  ghost predicate Indexes(comps: seq<EnvComp>, t: T.Tower) {
    && t.ci < |comps| && comps[t.ci].emitted && !comps[t.ci].absorbed
    && t.origin == comps[t.ci].origin && t.end == comps[t.ci].end
  }

  ghost predicate IndexedIn(spans: seq<T.Tower>, ci: nat) {
    exists k :: 0 <= k < |spans| && spans[k].ci == ci
  }

  /** Creation sequence numbers grow along the arena. */
  ghost predicate InCreationOrder(comps: seq<EnvComp>, gseq: nat) {
    && (forall i, j :: 0 <= i < j < |comps| ==> comps[i].order < comps[j].order)
    && (forall i :: 0 <= i < |comps| ==> comps[i].order < gseq)
  }

  ghost predicate Ascending(xs: seq<nat>) {
    forall k, m :: 0 <= k < m < |xs| ==> xs[k] < xs[m]
  }

  lemma SpliceMembers(a: seq<nat>, x: nat, b: seq<nat>, z: nat)
    ensures z in a + [x] + b <==> z in a + b || z == x
  {
  }

  lemma SpliceAscending(a: seq<nat>, x: nat, b: seq<nat>)
    requires Ascending(a) && Ascending(b)
    requires (forall k :: 0 <= k < |a| ==> a[k] < x) && (forall k :: 0 <= k < |b| ==> x < b[k])
    ensures Ascending(a + [x] + b)
  {
  }

  /** An ascending sequence is determined by its elements. */
  lemma {:induction false} AscendingUnique(xs: seq<nat>, ys: seq<nat>)
    requires Ascending(xs) && Ascending(ys) && forall x: nat :: x in xs <==> x in ys
    ensures xs == ys
    decreases |xs|
  {
    if xs == [] || ys == [] {
      var z: nat := if xs != [] then xs[0] else if ys != [] then ys[0] else 0;
      assert z in xs <==> z in ys;
    } else {
      var x, y := xs[|xs| - 1], ys[|ys| - 1];
      assert x in xs && y in ys;
      assert x in ys && y in xs;
      var xp, yp := xs[..|xs| - 1], ys[..|ys| - 1];
      assert xs == xp + [x] && ys == yp + [y];
      forall z: nat
        ensures z in xp <==> z in yp
      {
        assert z in xs <==> z in xp || z == x;
        assert z in ys <==> z in yp || z == y;
      }
      AscendingUnique(xp, yp);
    }
  }

  /** The skiplist query yields exactly the emitted components that contain the window, each once. */
  lemma ProbeIsContaining(comps: seq<EnvComp>, slots: seq<MemberSlot>, chains: seq<seq<nat>>, spans: seq<T.Tower>,
                          w: Window)
    requires |chains| == |comps| && ChainsIn(slots, chains) && EmitIndexed(comps, spans)
    ensures var probe := [] + T.Containing(spans, w.ptr, w.Send());
            && (forall ci: nat :: ci in probe <==> ci < |comps| && Contains(AbsComps(comps, slots, chains)[ci], w))
            && (forall k, m :: 0 <= k < m < |probe| ==> probe[k] != probe[m])
  {
    hide T.Containing;
    var probe := T.Containing(spans, w.ptr, w.Send());
    assert [] + probe == probe;
    T.ContainingOnce(spans, w.ptr, w.Send());
    forall ci: nat
      ensures ci in probe <==> ci < |comps| && Contains(AbsComps(comps, slots, chains)[ci], w)
    {
      T.ContainingMember(spans, w.ptr, w.Send(), ci);
      if ci < |comps| && comps[ci].emitted && !comps[ci].absorbed {
        assert IndexedIn(spans, ci);
        var k :| 0 <= k < |spans| && spans[k].ci == ci;
        assert Indexes(comps, spans[k]);
      }
      if ci in probe {
        var k :| 0 <= k < |spans| && spans[k].ci == ci && spans[k].origin <= w.ptr && w.Send() <= spans[k].end;
        assert Indexes(comps, spans[k]);
      }
    }
  }

  ghost predicate Probes(comps: seq<Comp>, probe: seq<nat>, w: Window) {
    Ascending(probe) && forall ci: nat :: ci in probe <==> ci < |comps| && Contains(comps[ci], w)
  }

  lemma FirstOfSorted(comps: seq<Comp>, probe: seq<nat>, w: Window)
    requires Probes(comps, probe, w) && probe != []
    ensures FirstContaining(comps, w, 0) == Some(probe[0])
    ensures forall k :: 0 <= k < |probe| ==> probe[k] < |comps| && comps[probe[k]].status.Emitted?
  {
    assert forall k :: 0 <= k < |probe| ==> probe[k] in probe;
    var f := FirstContaining(comps, w, 0);
    assert probe[0] in probe && f.Some?;
    assert f.value in probe;
  }

  /** `host` is the first of the probed components that can serve the window, if any can. */
  ghost predicate ServesFirst(comps: seq<Comp>, probe: seq<nat>, w: Window, mem: Memory, host: Option<nat>)
    requires forall k :: 0 <= k < |probe| ==> probe[k] < |comps|
  {
    match host
    case None => forall k :: 0 <= k < |probe| ==> !Representable(comps[probe[k]], w, mem)
    case Some(ci) => exists k :: 0 <= k < |probe| && Serves(comps, probe, w, mem, k) && probe[k] == ci
  }

  ghost predicate Serves(comps: seq<Comp>, probe: seq<nat>, w: Window, mem: Memory, k: nat)
    requires k < |probe| && forall k :: 0 <= k < |probe| ==> probe[k] < |comps|
  {
    Representable(comps[probe[k]], w, mem) && forall m :: 0 <= m < k ==> !Representable(comps[probe[m]], w, mem)
  }

  lemma FirstServingIs(comps: seq<Comp>, probe: seq<nat>, w: Window, mem: Memory, host: Option<nat>)
    requires Probes(comps, probe, w) && forall k :: 0 <= k < |probe| ==> probe[k] < |comps|
    requires ServesFirst(comps, probe, w, mem, host)
    ensures host == FirstRepresentable(comps, w, mem, 0)
  {
    var f := FirstRepresentable(comps, w, mem, 0);
    if f.Some? {
      assert f.value in probe;
      var j :| 0 <= j < |probe| && probe[j] == f.value;
      var k :| 0 <= k < |probe| && Serves(comps, probe, w, mem, k) && probe[k] == host.value;
      assert k <= j;
    }
  }

  lemma NoneContains(comps: seq<Comp>, probe: seq<nat>, w: Window, mem: Memory)
    requires probe == [] && forall ci: nat :: ci in probe <==> ci < |comps| && Contains(comps[ci], w)
    ensures FirstContaining(comps, w, 0) == None && FirstRepresentable(comps, w, mem, 0) == None
  {
    forall ci: nat | ci < |comps|
      ensures !Contains(comps[ci], w)
    {
      assert ci !in probe;
    }
  }

  lemma MergeOrder(comps: seq<EnvComp>, gseq: nat, into: nat, g: nat)
    requires InCreationOrder(comps, gseq) && into < |comps| && g < |comps| && into != g
    ensures InCreationOrder(comps[into := MergedInto(comps[into], comps[g])][g := comps[g].(absorbed := true)], gseq)
  {
  }

  /** A merge touches no emitted component. */
  lemma MergeEmit(comps: seq<EnvComp>, comps': seq<EnvComp>, spans: seq<T.Tower>, into: nat, g: nat)
    requires EmitIndexed(comps, spans) && into < |comps| && g < |comps| && into != g
    requires !comps[into].Dead() && !comps[g].Dead()
    requires comps' == comps[into := MergedInto(comps[into], comps[g])][g := comps[g].(absorbed := true)]
    ensures EmitIndexed(comps', spans)
  {
    forall k | 0 <= k < |spans|
      ensures Indexes(comps', spans[k])
    {
      assert Indexes(comps, spans[k]);
    }
  }

  ghost predicate InOrder(cs: seq<Comp>, a: nat, b: nat) {
    a < |cs| && b < |cs| && cs[a].status.Live? && cs[b].status.Live? ==> cs[a].end <= cs[b].origin
  }

  ghost predicate AbsInOrder(cs: seq<Comp>, envs: seq<IntEntry>) {
    forall i, j :: 0 <= i < j < |envs| ==> InOrder(cs, envs[i].ci, envs[j].ci)
  }

  /** A missed span on one side of the merged ones, in array order. */
  lemma MissedSides(st: State, c: Comp, into: nat, gs: seq<nat>, w: Window, j: nat)
    requires CompsOk(st.comps) && MergedSpan(st, c, into, gs)
    requires forall i: nat :: Takes(st, into, gs, i) ==> Joins(st.comps[i], w)
    requires j < |st.comps| && st.comps[j].status.Live? && !Joins(st.comps[j], w)
    ensures if w.Send() <= st.comps[j].origin then c.end <= st.comps[j].origin
            else st.comps[j].end <= w.ptr && st.comps[j].end <= c.origin
  {
    var d := st.comps[j];
    var i0: nat :| Takes(st, into, gs, i0) && c.origin == st.comps[i0].origin;
    var i1: nat :| Takes(st, into, gs, i1) && c.end == st.comps[i1].end;
    LiveApart(st.comps, i0, j);
    LiveApart(st.comps, i1, j);
    OneSide(st.comps[i0], d, w);
    OneSide(st.comps[i1], d, w);
  }

  /** Merging and growing keeps the live spans in array order. */
  lemma JoinInOrder(st: State, into: nat, gs: seq<nat>, w: Window, envs0: seq<IntEntry>, envs1: seq<IntEntry>)
    requires CompsOk(st.comps) && Mergeable(st, into, gs, w)
    requires forall i: nat :: Takes(st, into, gs, i) <==> i < |st.comps| && Joins(st.comps[i], w)
    requires AbsInOrder(st.comps, envs0) && Thinned(envs0, envs1)
    requires forall i, j :: 0 <= i < j < |envs1| ==> envs1[i].ci != envs1[j].ci
    ensures AbsInOrder(Extend(MergeAll(st, into, gs), into, w).comps, envs1)
  {
    MergeAllFacts(st, into, gs, w);
    var m := MergeAll(st, into, gs);
    var r := Extend(m, into, w).comps;
    forall i, j | 0 <= i < j < |envs1|
      ensures InOrder(r, envs1[i].ci, envs1[j].ci)
    {
      var a, b := envs1[i].ci, envs1[j].ci;
      if a < |r| && b < |r| && r[a].status.Live? && r[b].status.Live? {
        assert Before(envs0, a, b) && InOrder(st.comps, a, b);
        assert a != into ==> !Takes(st, into, gs, a) && r[a] == st.comps[a];
        assert b != into ==> !Takes(st, into, gs, b) && r[b] == st.comps[b];
        assert Takes(st, into, gs, into);
        if a == into {
          PairInOrder(st, m.comps[into], into, gs, w, b, true);
        } else if b == into {
          PairInOrder(st, m.comps[into], into, gs, w, a, false);
        }
      }
    }
  }

  lemma PairInOrder(st: State, c: Comp, into: nat, gs: seq<nat>, w: Window, d: nat, right: bool)
    requires CompsOk(st.comps) && MergedSpan(st, c, into, gs) && into < |st.comps| && Joins(st.comps[into], w)
    requires forall i: nat :: Takes(st, into, gs, i) ==> Joins(st.comps[i], w)
    requires d < |st.comps| && d != into && st.comps[d].status.Live? && !Joins(st.comps[d], w)
    requires if right then st.comps[into].end <= st.comps[d].origin else st.comps[d].end <= st.comps[into].origin
    ensures right ==> Max(c.end, w.Send()) <= st.comps[d].origin
    ensures !right ==> st.comps[d].end <= Min(c.origin, w.ptr)
  {
    MissedSides(st, c, into, gs, w, d);
    LiveApart(st.comps, into, d);
  }

  /** The host is emitted, so it is not among the live candidates. */
  lemma FoundWith(comps: seq<EnvComp>, envs: seq<IntEntry>, live: seq<nat>, w: Window, host: Option<nat>)
    requires Entries(comps, envs) && Found(comps, envs, live, w, 0, |envs|)
    requires host.Some? ==> host.value < |comps| && comps[host.value].emitted
    ensures var all := (if host.Some? then [host.value] else []) + live;
            && (forall k :: 0 <= k < |all| ==> all[k] < |comps|)
            && (forall k, m :: 0 <= k < m < |all| ==> all[k] != all[m])
            && (forall ci: nat :: ci in all <==> ci in live || host == Some(ci))
            && (all == [] ==> live == [])
  {
    forall k | 0 <= k < |live|
      ensures live[k] < |comps| && Meets(comps[live[k]], w)
    {
      assert InRange(envs, live[k], 0, |envs|);
      var i :| 0 <= i < |envs| && envs[i].ci == live[k];
      assert envs[i].ci in live;
    }
  }

  /** The sorted candidates are those of the linear search. */
  lemma CandidatesAre(comps: seq<EnvComp>, slots: seq<MemberSlot>, chains: seq<seq<nat>>, envs: seq<IntEntry>,
                      w: Window, host: Option<nat>, live: seq<nat>, cand: seq<nat>)
    requires |chains| == |comps| && ChainsIn(slots, chains) && Entries(comps, envs) && AllListed(comps, envs)
    requires Found(comps, envs, live, w, 0, |envs|) && Ascending(cand)
    requires host.Some? ==> host.value < |comps|
    requires forall ci: nat :: ci in cand <==> ci in live || host == Some(ci)
    ensures cand == Candidates(AbsComps(comps, slots, chains), w, host, |comps|)
  {
    var cs := AbsComps(comps, slots, chains);
    var want := Candidates(cs, w, host, |comps|);
    forall ci: nat
      ensures ci in cand <==> ci in want
    {
      if ci in live {
        var k :| 0 <= k < |live| && live[k] == ci;
        assert InRange(envs, live[k], 0, |envs|);
      }
      if ci < |comps| && Meets(comps[ci], w) {
        assert Listed(envs, ci);
      }
      assert ci < |comps| ==> (Joins(cs[ci], w) <==> Meets(comps[ci], w));
      if ci in want {
        var k :| 0 <= k < |want| && want[k] == ci;
      }
    }
    AscendingUnique(cand, want);
  }

  lemma LiveGeometryOf(comps: seq<EnvComp>, slots: seq<MemberSlot>, chains: seq<seq<nat>>)
    requires |chains| == |comps| && ChainsIn(slots, chains) && CompsOk(AbsComps(comps, slots, chains))
    ensures LiveGeometry(comps)
  {
    var cs := AbsComps(comps, slots, chains);
    forall i | 0 <= i < |comps| && !comps[i].Dead()
      ensures comps[i].origin <= comps[i].sortKey <= comps[i].end
              && (comps[i].origin < comps[i].end ==> comps[i].sortKey < comps[i].end)
    {
      assert Geometry(cs[i]);
    }
  }

  lemma OrderOfAbs(comps: seq<EnvComp>, slots: seq<MemberSlot>, chains: seq<seq<nat>>, envs: seq<IntEntry>)
    requires |chains| == |comps| && ChainsIn(slots, chains) && Entries(comps, envs)
    ensures SpansInOrder(comps, envs) <==> AbsInOrder(AbsComps(comps, slots, chains), envs)
  {
    var cs := AbsComps(comps, slots, chains);
    assert forall i :: 0 <= i < |comps| ==> (cs[i].status.Live? <==> !comps[i].Dead());
    if AbsInOrder(cs, envs) {
      forall i, j | 0 <= i < j < |envs| && !comps[envs[i].ci].Dead() && !comps[envs[j].ci].Dead()
        ensures comps[envs[i].ci].end <= comps[envs[j].ci].origin
      {
        assert InOrder(cs, envs[i].ci, envs[j].ci);
      }
    }
  }

  /** A grown live component leaves the emitted index as it is. */
  lemma ExtendEmit(comps: seq<EnvComp>, comps': seq<EnvComp>, spans: seq<T.Tower>, ci: nat)
    requires EmitIndexed(comps, spans) && ci < |comps| && !comps[ci].Dead() && |comps'| == |comps|
             && !comps'[ci].emitted
    requires forall i :: 0 <= i < |comps| && i != ci ==> comps'[i] == comps[i]
    ensures EmitIndexed(comps', spans)
  {
    forall k | 0 <= k < |spans|
      ensures Indexes(comps', spans[k])
    {
      assert Indexes(comps, spans[k]);
    }
  }

  lemma SplitKeys(comps: seq<EnvComp>, envs: seq<IntEntry>, w: Window, lo: nat)
    requires Entries(comps, envs) && SplitPoint(comps, envs, w, lo)
    ensures lo <= |envs| && forall i :: 0 <= i < lo ==> comps[envs[i].ci].sortKey <= w.ptr
    ensures forall i :: lo <= i < |envs| ==> w.ptr <= comps[envs[i].ci].sortKey
  {
  }

  lemma ChainsShape(comps: seq<EnvComp>, slots: seq<MemberSlot>, chains: seq<seq<nat>>)
    requires ChainsOk(comps, slots, chains)
    ensures |chains| == |comps| && ChainsIn(slots, chains)
  {
    hide ChainOk;
    hide ChainsApart;
  }

  lemma EntriesOk(comps: seq<EnvComp>, envs: seq<IntEntry>, dead: nat)
    requires LiveOk(comps, envs, dead, -1)
    ensures Entries(comps, envs)
  {
  }

  lemma OneMoreInOrder(comps: seq<EnvComp>, gseq: nat, c: EnvComp)
    requires InCreationOrder(comps, gseq) && c.order == gseq
    ensures InCreationOrder(comps + [c], gseq + 1)
  {
  }

  lemma CreateIs(st: State, w: Window, comps: seq<Comp>, slots: map<SlotKey, nat>)
    requires comps == Create(st, w).comps && slots == st.slots[SlotKey(st.gen, w) := |st.comps|]
    ensures st.(comps := comps, slots := slots) == Create(st, w)
  {
  }

  lemma CreateEmit(comps: seq<EnvComp>, spans: seq<T.Tower>, c: EnvComp)
    requires EmitIndexed(comps, spans) && !c.emitted
    ensures EmitIndexed(comps + [c], spans)
  {
    forall k | 0 <= k < |spans|
      ensures Indexes(comps + [c], spans[k])
    {
      assert Indexes(comps, spans[k]);
    }
  }

  /** Before its turn a candidate is as it was: still live, or an emitted host. */
  lemma PrefixMerged(st: State, into: nat, gs: seq<nat>, n: nat, w: Window)
    requires Mergeable(st, into, gs, w) && n < |gs|
    ensures var m := MergeAll(st, into, gs[..n]);
            gs[n] != into && m.comps[gs[n]] == st.comps[gs[n]] && m.comps[into].status.Live?
              && !st.comps[gs[n]].status.Absorbed?
  {
    assert Mergeable(st, into, gs[..n], w);
    MergeAllFacts(st, into, gs[..n], w);
    assert gs[n] !in gs[..n];
    assert !Takes(st, into, gs[..n], gs[n]);
  }

  ghost predicate FrozenFrom(c: EnvComp, d: EnvComp) {
    !c.Dead() && d == c.(emitted := true, id := d.id, elided := d.elided)
  }

  lemma FreezeLive(comps: seq<EnvComp>, envs: seq<IntEntry>, dead: nat, ci: nat, d: EnvComp)
    requires LiveOk(comps, envs, dead, -1) && ci < |comps| && FrozenFrom(comps[ci], d)
    ensures LiveOk(comps[ci := d], envs, dead, ci) && Listed(envs, ci)
  {
    assert Listed(envs, ci);
  }

  lemma FreezeChains(comps: seq<EnvComp>, slots: seq<MemberSlot>, chains: seq<seq<nat>>, ci: nat, d: EnvComp)
    requires ChainsOk(comps, slots, chains) && ci < |comps| && FrozenFrom(comps[ci], d)
    ensures ChainsOk(comps[ci := d], slots, chains)
    ensures AbsComps(comps[ci := d], slots, chains)
         == AbsComps(comps, slots, chains)[ci := AbsComps(comps, slots, chains)[ci].(status := Emitted(d.id, d.elided))]
  {
    var r := comps[ci := d];
    forall i | 0 <= i < |r| && !r[i].absorbed
      ensures ChainOk(r[i], slots, chains[i])
    {
      assert ChainOk(comps[i], slots, chains[i]);
    }
  }

  lemma FreezeOrder(comps: seq<EnvComp>, gseq: nat, ci: nat, d: EnvComp)
    requires InCreationOrder(comps, gseq) && ci < |comps| && d.order == comps[ci].order
    ensures InCreationOrder(comps[ci := d], gseq)
  {
  }

  lemma FreezeSpans(comps: seq<EnvComp>, comps': seq<EnvComp>, envs: seq<IntEntry>, envs': seq<IntEntry>, ci: nat)
    requires Entries(comps, envs) && SpansInOrder(comps, envs) && Entries(comps', envs') && Thinned(envs, envs')
    requires ci < |comps| && |comps'| == |comps| && comps'[ci].Dead()
             && forall i :: 0 <= i < |comps| && i != ci ==> comps'[i] == comps[i]
    ensures SpansInOrder(comps', envs')
  {
    forall i, j | 0 <= i < j < |envs'| && !comps'[envs'[i].ci].Dead() && !comps'[envs'[j].ci].Dead()
      ensures comps'[envs'[i].ci].end <= comps'[envs'[j].ci].origin
    {
      assert Before(envs, envs'[i].ci, envs'[j].ci);
    }
  }

  lemma FreezeEmit(comps: seq<EnvComp>, comps': seq<EnvComp>, spans: seq<T.Tower>, ci: nat, height: nat)
    requires EmitIndexed(comps, spans) && ci < |comps| && |comps'| == |comps| && FrozenFrom(comps[ci], comps'[ci])
    requires forall i :: 0 <= i < |comps| && i != ci ==> comps'[i] == comps[i]
    ensures forall node: nat :: EmitIndexed(comps',
                                            Placed(spans, T.Tower(node, ci, comps[ci].origin, comps[ci].end, height)))
  {
    forall node: nat
      ensures EmitIndexed(comps', Placed(spans, T.Tower(node, ci, comps[ci].origin, comps[ci].end, height)))
    {
      PlacedIndexed(comps, comps', spans, ci, T.Tower(node, ci, comps[ci].origin, comps[ci].end, height));
    }
  }

  lemma PlacedIndexed(comps: seq<EnvComp>, comps': seq<EnvComp>, spans: seq<T.Tower>, ci: nat, t: T.Tower)
    requires EmitIndexed(comps, spans) && ci < |comps| && |comps'| == |comps| && FrozenFrom(comps[ci], comps'[ci])
    requires forall i :: 0 <= i < |comps| && i != ci ==> comps'[i] == comps[i]
    requires t.ci == ci && t.origin == comps[ci].origin && t.end == comps[ci].end
    ensures EmitIndexed(comps', Placed(spans, t))
  {
    hide Indexes;
    hide IndexedIn;
    var q := UpperBound(spans, 0, t.origin);
    var r := Placed(spans, t);
    InsertedAll(spans, q, t);
    forall k | 0 <= k < |spans|
      ensures spans[k].ci != ci
    {
      NotIndexed(comps, spans[k], ci);
    }
    forall k | 0 <= k < |r|
      ensures Indexes(comps', r[k])
    {
      if k == q {
        IndexesFrozen(comps', t);
      } else {
        assert Indexes(comps, r[k]);
        IndexesKept(comps, comps', ci, r[k]);
      }
    }
    forall i: nat | i < |comps'| && comps'[i].emitted && !comps'[i].absorbed
      ensures IndexedIn(r, i)
    {
      if i != ci {
        assert IndexedIn(spans, i);
      }
      IndexedMoved(spans, q, t, i);
    }
  }

  lemma NotIndexed(comps: seq<EnvComp>, t: T.Tower, ci: nat)
    requires Indexes(comps, t) && ci < |comps| && !comps[ci].emitted
    ensures t.ci != ci
  {
  }

  lemma IndexesFrozen(comps: seq<EnvComp>, t: T.Tower)
    requires t.ci < |comps| && comps[t.ci].emitted && !comps[t.ci].absorbed && t.origin == comps[t.ci].origin
             && t.end == comps[t.ci].end
    ensures Indexes(comps, t)
  {
  }

  lemma IndexesKept(comps: seq<EnvComp>, comps': seq<EnvComp>, ci: nat, t: T.Tower)
    requires Indexes(comps, t) && ci < |comps| == |comps'| && FrozenFrom(comps[ci], comps'[ci])
    requires forall i :: 0 <= i < |comps| && i != ci ==> comps'[i] == comps[i]
    ensures Indexes(comps', t)
  {
  }

  lemma IndexedMoved(spans: seq<T.Tower>, q: nat, t: T.Tower, i: nat)
    requires q <= |spans| && (i == t.ci || IndexedIn(spans, i))
    ensures IndexedIn(T.Inserted(spans, q, t), i)
  {
    var r := T.Inserted(spans, q, t);
    if i == t.ci {
      assert r[q].ci == i;
    } else {
      var k :| 0 <= k < |spans| && spans[k].ci == i;
      assert r[if k < q then k else k + 1].ci == i;
    }
  }

  lemma EmptyInv(st: State)
    requires st.comps == [] && st.slots == map[] && st.cache == map[]
    ensures Inv(st)
  {
  }

  lemma NothingYet(comps: seq<EnvComp>, slots: seq<MemberSlot>, chains: seq<seq<nat>>, envs: seq<IntEntry>,
                   spans: seq<T.Tower>)
    requires comps == [] && slots == [] && chains == [] && envs == [] && spans == []
    ensures EmitIndexed(comps, spans)
    ensures ChainsOk(comps, slots, chains) && InCreationOrder(comps, 0)
    ensures LiveOk(comps, envs, 0, -1) && SpansInOrder(comps, envs)
  {
  }

  class ClassIndex {
    var comps: seq<EnvComp>
    var slots: seq<MemberSlot>
    var envs: seq<IntEntry>
    var deadCount: nat
    var emitted: seq<nat>
    const emit: EmitSkip
    var hostCache: map<Window, nat>
    var slotIx: map<SlotKey, nat>
    var gen: nat
    var gseq: nat
    const skipLevel: nat -> nat
    ghost var chains: seq<seq<nat>>

    /** What holds at all times, also between the merges of one join. */
    ghost predicate Consistent()
      reads this, emit
    {
      && ChainsOk(comps, slots, chains) && InCreationOrder(comps, gseq)
      && LiveOk(comps, envs, deadCount, -1)
      && emit.Valid() && EmitIndexed(comps, emit.Spans())
      && forall ci :: 1 <= skipLevel(ci) <= SKIP_MAX_LEVEL
    }

    ghost predicate Valid()
      reads this, emit
    {
      Consistent() && SpansInOrder(comps, envs) && Inv(Abs())
    }

    constructor (skipLevel: nat -> nat)
      requires forall ci :: 1 <= skipLevel(ci) <= SKIP_MAX_LEVEL
      ensures Valid() && Abs() == EMPTY && fresh(emit)
    {
      hide Inv;
      hide LiveOk;
      hide ChainsApart;
      hide ChainOk;
      hide EmitIndexed;
      hide InCreationOrder;
      hide SpansInOrder;
      hide Coherent;
      comps, slots, envs, deadCount, emitted := [], [], [], 0, [];
      hostCache, slotIx, gen, gseq := map[], map[], 0, 0;
      chains := [];
      this.skipLevel := skipLevel;
      emit := new EmitSkip();
      new;
      NothingYet(comps, slots, chains, envs, emit.Spans());
      ghost var abs := AbsComps(comps, slots, chains);
      assert |abs| == 0;
      EmptyInv(State(abs, slotIx, hostCache, gen));
    }

    /** The value state these structures stand for. */
    ghost function Abs(): State
      reads this
      requires |chains| == |comps| && ChainsIn(slots, chains)
    {
      State(AbsComps(comps, slots, chains), slotIx, hostCache, gen)
    }

    /** First live-array position whose creation key is at least `k`. */
    method EnvLower(k: nat) returns (lo: nat)
      requires Entries(comps, envs) && ByKey(comps, envs)
      ensures lo <= |envs|
      ensures forall i :: 0 <= i < lo ==> comps[envs[i].ci].sortKey < k
      ensures forall i :: lo <= i < |envs| ==> k <= comps[envs[i].ci].sortKey
    {
      lo := 0;
      var hi := |envs|;
      while lo < hi
        invariant lo <= hi <= |envs|
        invariant forall i :: 0 <= i < lo ==> comps[envs[i].ci].sortKey < k
        invariant forall i :: hi <= i < |envs| ==> k <= comps[envs[i].ci].sortKey
      {
        var mid := (lo + hi) / 2;
        if comps[envs[mid].ci].sortKey < k {
          lo := mid + 1;
        } else {
          hi := mid;
        }
      }
    }

    /** Filters tombstoned entries out, keeping the order. */
    method Compact()
      requires LiveOk(comps, envs, deadCount, -1)
      modifies `envs, `deadCount
      ensures LiveOk(comps, envs, deadCount, -1) && deadCount == 0 && Thinned(old(envs), envs)
    {
      hide LiveOk;
      hide PickedTo;
      EntriesInside(comps, envs, deadCount);
      var out: seq<IntEntry> := [];
      ghost var at: seq<nat> := [];
      assert PickedTo(comps, envs, out, at, 0) by { NothingPicked(comps, envs); }
      for n := 0 to |envs|
        invariant envs == old(envs) && deadCount == old(deadCount) && PickedTo(comps, envs, out, at, n)
      {
        PickNext(comps, envs, out, at, n);
        if !comps[envs[n].ci].Dead() {
          out := out + [envs[n]];
          at := at + [n];
        }
      }
      PickedAll(comps, envs, deadCount, out, at);
      envs := out;
      deadCount := 0;
    }

    /** The unmarked entry of component `ci`, searched from its creation key on. */
    method FindEntry(ci: nat) returns (i: nat)
      requires LiveOk(comps, envs, deadCount, ci) && ci < |comps| && Listed(envs, ci)
      ensures i < |envs| && envs[i].ci == ci
    {
      i := EnvLower(comps[ci].sortKey);
      ghost var at :| 0 <= at < |envs| && envs[at].ci == ci;
      while i < |envs|
        invariant i <= at
      {
        if comps[envs[i].ci].sortKey != comps[ci].sortKey || (envs[i].ci == ci && !envs[i].dead) {
          break;
        }
        i := i + 1;
      }
    }

    /** Tombstones the entry of the component that has just died, and compacts once tombstones outnumber the rest. */
    method EnvNoteDead(ci: nat)
      requires LiveOk(comps, envs, deadCount, ci) && ci < |comps| && comps[ci].Dead() && Listed(envs, ci)
      modifies `envs, `deadCount
      ensures LiveOk(comps, envs, deadCount, -1) && deadCount * 2 <= |envs| && Thinned(old(envs), envs)
    {
      hide Thinned;
      hide LiveOk;
      var i := FindEntry(ci);
      MarkOk(comps, envs, deadCount, ci, i);
      envs := envs[i := envs[i].(dead := true)];
      ThinnedSame(old(envs), envs);
      deadCount := deadCount + 1;
      if deadCount * 2 > |envs| {
        ghost var marked := envs;
        Compact();
        ThinnedTrans(old(envs), marked, envs);
      }
    }

    /** Where `x` belongs in the ascending `ys`, searched from the back by creation sequence number. */
    method FindPlace(ys: seq<nat>, x: nat) returns (j: nat)
      requires InCreationOrder(comps, gseq) && x < |comps| && Ascending(ys) && x !in ys
      requires forall k :: 0 <= k < |ys| ==> ys[k] < |comps|
      ensures j <= |ys| && (forall k :: 0 <= k < j ==> ys[k] < x) && forall k :: j <= k < |ys| ==> x < ys[k]
    {
      j := |ys|;
      while j > 0 && comps[ys[j - 1]].order > comps[x].order
        invariant 0 <= j <= |ys|
        invariant forall k :: j <= k < |ys| ==> x < ys[k]
      {
        j := j - 1;
      }
      assert j > 0 ==> ys[j - 1] != x && ys[j - 1] < x;
    }

    /** Inserts `x` into the ascending `ys`. */
    method InsertByOrder(ys: seq<nat>, x: nat) returns (zs: seq<nat>)
      requires InCreationOrder(comps, gseq) && x < |comps| && Ascending(ys) && x !in ys
      requires forall k :: 0 <= k < |ys| ==> ys[k] < |comps|
      ensures |zs| == |ys| + 1 && Ascending(zs) && forall z: nat :: z in zs <==> z in ys || z == x
    {
      var j := FindPlace(ys, x);
      var a, b := ys[..j], ys[j..];
      SpliceAscending(a, x, b);
      zs := a + [x] + b;
      assert a + b == ys;
      forall z: nat
        ensures z in zs <==> z in ys || z == x
      {
        SpliceMembers(a, x, b, z);
      }
    }

    /** Sorts component indices by creation sequence number. */
    method SortByOrder(xs: seq<nat>) returns (ys: seq<nat>)
      requires InCreationOrder(comps, gseq)
      requires forall k :: 0 <= k < |xs| ==> xs[k] < |comps|
      requires forall k, m :: 0 <= k < m < |xs| ==> xs[k] != xs[m]
      ensures |ys| == |xs| && Ascending(ys) && forall x: nat :: x in ys <==> x in xs
    {
      ys := [];
      for n := 0 to |xs|
        invariant |ys| == n && Ascending(ys) && forall x: nat :: x in ys <==> x in xs[..n]
      {
        assert xs[..n + 1] == xs[..n] + [xs[n]];
        assert forall k :: 0 <= k < |ys| ==> ys[k] in ys;
        ys := InsertByOrder(ys, xs[n]);
      }
      assert xs[..|xs|] == xs;
    }

    /** The guard on joining a frozen record: containment, and zeros past the dense prefix. */
    method IsRepresentable(ci: nat, w: Window, mem: Memory) returns (b: bool)
      requires |chains| == |comps| && ChainsIn(slots, chains) && w.Valid()
      requires ci < |comps| && comps[ci].emitted && !comps[ci].absorbed
      ensures b == Representable(Abs().comps[ci], w, mem)
    {
      var c := comps[ci];
      if w.ptr < c.origin || w.Send() > c.end {
        return false;
      }
      var off := w.ptr - c.origin;
      var i := if c.elided > off then c.elided - off else 0;
      while i < w.len
        invariant forall a :: w.ptr <= a < w.ptr + w.len && c.origin + c.elided <= a < w.ptr + i ==> mem(a) == 0
      {
        if mem(w.ptr + i) != 0 {
          return false;
        }
        i := i + 1;
      }
      return true;
    }

    /** Resolves the emitted host of a window through the cache, or else by the full search. */
    method EmittedHost(w: Window, mem: Memory, ghost st: State) returns (host: Option<nat>)
      requires |chains| == |comps| && ChainsIn(slots, chains) && st == Abs() && CacheSound(st)
      requires InCreationOrder(comps, gseq) && emit.Valid() && EmitIndexed(comps, emit.Spans()) && w.Valid()
      modifies `hostCache, emit`top
      ensures emit.Valid() && emit.Spans() == old(emit.Spans())
      ensures host == Host(st, w, mem) && hostCache == CacheAfter(st, w, mem)
    {
      if w in hostCache {
        assert Contains(st.comps[hostCache[w]], w);
        var hit := IsRepresentable(hostCache[w], w, mem);
        if hit {
          return Some(hostCache[w]);
        }
      }
      host := SearchHost(w, mem, st.comps);
    }

    /** The full search: skiplist query, creation order, first that can serve; caches the oldest container. */
    method SearchHost(w: Window, mem: Memory, ghost st: seq<Comp>) returns (host: Option<nat>)
      requires |chains| == |comps| && ChainsIn(slots, chains) && st == AbsComps(comps, slots, chains)
      requires InCreationOrder(comps, gseq) && emit.Valid() && EmitIndexed(comps, emit.Spans()) && w.Valid()
      modifies `hostCache, emit`top
      ensures emit.Valid() && emit.Spans() == old(emit.Spans())
      ensures host == FirstRepresentable(st, w, mem, 0)
      ensures hostCache == match FirstContaining(st, w, 0)
                           case Some(ci) => old(hostCache)[w := ci]
                           case None => old(hostCache) - {w}
    {
      hide InCreationOrder;
      hide EmitIndexed;
      hide ServesFirst;
      hide FirstRepresentable;
      hide T.Containing;
      hide Contains;
      ProbeIsContaining(comps, slots, chains, emit.Spans(), w);
      var probe := emit.EmitQuery(w.ptr, w.Send(), []);
      assert forall k :: 0 <= k < |probe| ==> probe[k] in probe;
      if |probe| == 0 {
        NoneContains(st, probe, w, mem);
        hostCache := hostCache - {w};
        return None;
      }
      probe := SortByOrder(probe);
      FirstOfSorted(st, probe, w);
      hostCache := hostCache[w := probe[0]];
      host := FirstServing(probe, w, mem);
      FirstServingIs(st, probe, w, mem, host);
    }

    /** The first of the probed components, in the given order, that can serve the window. */
    method FirstServing(probe: seq<nat>, w: Window, mem: Memory) returns (host: Option<nat>)
      requires |chains| == |comps| && ChainsIn(slots, chains) && w.Valid()
      requires forall k :: 0 <= k < |probe|
                ==> probe[k] < |comps| && comps[probe[k]].emitted && !comps[probe[k]].absorbed
      ensures ServesFirst(Abs().comps, probe, w, mem, host)
    {
      for k := 0 to |probe|
        invariant forall m :: 0 <= m < k ==> !Representable(Abs().comps[probe[m]], w, mem)
      {
        assert CompOf(comps[probe[k]], slots, chains[probe[k]]) == Abs().comps[probe[k]];
        var ok := IsRepresentable(probe[k], w, mem);
        if ok {
          assert Serves(Abs().comps, probe, w, mem, k);
          return Some(probe[k]);
        }
      }
      return None;
    }

    /** Appends the live components the window meets to the candidates; `lo` is the insertion point for its key. */
    method LiveCandidates(w: Window) returns (cand: seq<nat>, lo: nat)
      requires LiveOk(comps, envs, deadCount, -1) && SpansInOrder(comps, envs) && w.Valid() && LiveGeometry(comps)
      ensures Found(comps, envs, cand, w, 0, |envs|) && SplitPoint(comps, envs, w, lo)
    {
      cand, lo := [], 0;
      var n := |envs|;
      if n == 0 {
        return;
      }
      var last := comps[envs[n - 1].ci];
      if !last.Dead() && w.ptr >= last.end && w.ptr > last.origin {
        lo := n;
        PastLast(comps, envs, w);
        return;
      }
      lo := EnvLower(w.ptr);
      cand := Backward(w, lo);
      cand := Forward(w, lo, cand);
    }

    /** Collects the covering entries left of the split point, up to the first live one that ends before the window. */
    method Backward(w: Window, lo: nat) returns (cand: seq<nat>)
      requires LiveOk(comps, envs, deadCount, -1) && SpansInOrder(comps, envs) && w.Valid() && LiveGeometry(comps)
      requires lo <= |envs| && forall i :: 0 <= i < lo ==> comps[envs[i].ci].sortKey < w.ptr
      ensures Found(comps, envs, cand, w, 0, lo)
    {
      hide Found;
      hide LiveOk;
      hide SpansInOrder;
      hide LiveGeometry;
      NoneFound(comps, envs, deadCount, w, lo);
      cand := [];
      var i: int := lo - 1;
      while i >= 0
        invariant -1 <= i < lo
        invariant Found(comps, envs, cand, w, i + 1, lo)
        decreases i
      {
        var c := comps[envs[i].ci];
        if envs[i].dead || c.Dead() {
          StepLeft(comps, envs, deadCount, cand, w, i, lo, cand);
          i := i - 1;
          continue;
        }
        if w.ptr >= c.end {
          LeftOf(comps, envs, cand, w, i, lo);
          return;
        }
        StepLeft(comps, envs, deadCount, cand, w, i, lo, cand + [envs[i].ci]);
        cand := cand + [envs[i].ci];
        i := i - 1;
      }
    }

    /** Collects the entries from the split point on that overlap the window or share its origin. */
    method Forward(w: Window, lo: nat, cand0: seq<nat>) returns (cand: seq<nat>)
      requires LiveOk(comps, envs, deadCount, -1) && SpansInOrder(comps, envs) && w.Valid() && LiveGeometry(comps)
      requires lo <= |envs| && Found(comps, envs, cand0, w, 0, lo)
      ensures Found(comps, envs, cand, w, 0, |envs|)
    {
      hide Found;
      hide LiveOk;
      hide SpansInOrder;
      hide LiveGeometry;
      LiveEntries(comps, envs, deadCount, -1);
      cand := cand0;
      var i := lo;
      while i < |envs|
        invariant lo <= i <= |envs|
        invariant Found(comps, envs, cand, w, 0, i)
      {
        var c := comps[envs[i].ci];
        ghost var before := cand;
        if envs[i].dead || c.Dead() {
          StepRight(comps, envs, deadCount, before, w, i, cand);
          i := i + 1;
          continue;
        }
        if c.origin >= w.Send() {
          RightOf(comps, envs, cand, w, i);
          return;
        }
        if w.ptr == c.origin || w.ptr < c.end {
          cand := cand + [envs[i].ci];
        }
        StepRight(comps, envs, deadCount, before, w, i, cand);
        i := i + 1;
      }
    }

    /** Re-points the slots of every member on the chain starting at `head`. */
    method Repoint(head: int, into: nat, ghost c: EnvComp, ghost chain: seq<nat>)
      requires ChainOk(c, slots, chain) && head == chain[0]
      modifies `slotIx
      ensures slotIx == Repointed(old(slotIx), MembersOf(slots, chain), into)
    {
      ghost var ms := MembersOf(slots, chain);
      var m := head;
      ghost var n: nat := 0;
      while m >= 0
        invariant n <= |chain| && m == (if n < |chain| then chain[n] else -1)
        invariant slotIx == Repointed(old(slotIx), ms[..n], into)
        decreases |chain| - n
      {
        assert ms[..n + 1] == ms[..n] + [ms[n]];
        RepointedNext(old(slotIx), ms[..n], into, ms[n]);
        slotIx := slotIx[slots[m].key := into];
        assert n + 1 < |chain| ==> slots[chain[n]].next == chain[n + 1];
        m := slots[m].next;
        n := n + 1;
      }
      assert ms[..n] == ms;
    }

    /** The component half of a bridge merge: chains concatenate, spans unite, `g` is absorbed. */
    method Absorb(into: nat, g: nat, ghost st: State)
      requires Consistent() && into < |comps| && g < |comps| && into != g && !comps[into].Dead() && !comps[g].Dead()
      requires st.comps == AbsComps(comps, slots, chains)
      modifies `comps, `slots, `chains
      ensures ChainsOk(comps, slots, chains) && InCreationOrder(comps, gseq)
      ensures LiveOk(comps, envs, deadCount, g) && Listed(envs, g) && EmitIndexed(comps, emit.Spans())
      ensures AbsComps(comps, slots, chains) == Grouping.MergeInto(st, into, g).comps
      ensures g < |comps| && g < |chains| && comps[g].Dead()
      ensures ChainOk(comps[g], slots, chains[g]) && comps[g].head == chains[g][0]
      ensures MembersOf(slots, chains[g]) == st.comps[g].members
    {
      hide LiveOk;
      hide EmitIndexed;
      hide InCreationOrder;
      hide ChainsApart;
      var c, d := comps[into], comps[g];
      assert ChainOk(c, slots, chains[into]) && ChainOk(d, slots, chains[g]);
      MergeOrder(comps, gseq, into, g);
      var slots' := Relink(slots, c.tail, d.head);
      var comps' := comps[into := MergedInto(c, d)][g := d.(absorbed := true)];
      ghost var chains' := chains[into := chains[into] + chains[g]];
      MergeChains(comps, slots, chains, into, g, comps', slots', chains');
      MergeAbs(comps, slots, chains, into, g, comps', slots', chains', st);
      MergeLive(comps, comps', envs, deadCount, into, g);
      RelinkOther(d, slots, c.tail, d.head, chains[g]);
      RelinkMembers(slots, c.tail, d.head, chains[g]);
      MergeEmit(comps, comps', emit.Spans(), into, g);
      comps, slots, chains := comps', slots', chains';
    }

    /** Absorbs the live component `g` into the live component `into` (bridge merge). */
    method MergeInto(into: nat, g: nat)
      requires Consistent() && into < |comps| && g < |comps| && into != g && !comps[into].Dead() && !comps[g].Dead()
      modifies `comps, `slots, `envs, `deadCount, `slotIx, `chains
      ensures Consistent() && Abs() == Grouping.MergeInto(old(Abs()), into, g)
      ensures Thinned(old(envs), envs)
    {
      hide LiveOk;
      hide EmitIndexed;
      hide Thinned;
      hide InCreationOrder;
      hide ChainsApart;
      hide ChainOk;
      ghost var st := Abs();
      Absorb(into, g, st);
      EnvNoteDead(g);
      Repoint(comps[g].head, into, comps[g], chains[g]);
    }

    /** The window joins the live component `ci` as its last member. */
    method ExtendComp(ci: nat, w: Window)
      requires Consistent() && ci < |comps| && !comps[ci].Dead()
      modifies `comps, `slots, `slotIx, `chains
      ensures Consistent() && Abs() == Extend(old(Abs()), ci, w)
    {
      hide LiveOk;
      hide EmitIndexed;
      hide ChainsApart;
      ghost var st := Abs();
      var key := SlotKey(gen, w);
      assert ChainOk(comps[ci], slots, chains[ci]);
      var comps' := comps[ci := ExtendedBy(comps[ci], w, |slots|)];
      var slots' := Relink(slots + [MemberSlot(key, -1)], comps[ci].tail, |slots|);
      ghost var chains' := chains[ci := chains[ci] + [|slots|]];
      ExtendChains(comps, slots, chains, ci, key, comps', slots', chains');
      ExtendAbs(comps, slots, chains, ci, w, st, comps', slots', chains');
      ExtendLive(comps, comps', envs, deadCount, ci);
      ExtendEmit(comps, comps', emit.Spans(), ci);
      comps, slots, chains := comps', slots', chains';
      slotIx := slotIx[key := ci];
    }

    /** The window founds a component, entered into the live array at its split point. */
    method CreateComp(w: Window, lo: nat)
      requires Consistent() && SpansInOrder(comps, envs) && LiveGeometry(comps) && w.Valid()
      requires Found(comps, envs, [], w, 0, |envs|) && SplitPoint(comps, envs, w, lo)
      modifies `comps, `slots, `envs, `slotIx, `chains, `gseq
      ensures Consistent() && SpansInOrder(comps, envs) && Abs() == Create(old(Abs()), w)
    {
      hide EmitIndexed;
      hide ChainsOk;
      hide LiveOk;
      hide InCreationOrder;
      hide SpansInOrder;
      hide SplitPoint;
      hide Found;
      hide PutIn;
      hide AbsComps;
      hide Create;
      ChainsShape(comps, slots, chains);
      EntriesOk(comps, envs, deadCount);
      ghost var st := Abs();
      var key, ci := SlotKey(gen, w), |comps|;
      var c := EnvComp(w.ptr, w.Send(), w.ptr, |slots|, |slots|, gseq, false, false, 0, 0);
      SplitKeys(comps, envs, w, lo);
      CreateChains(comps, slots, chains, c, key);
      CreateAbs(comps, slots, chains, c, w, st);
      CreateLive(comps, envs, deadCount, c, lo);
      CreateEmit(comps, emit.Spans(), c);
      var envs' := envs[..lo] + [IntEntry(ci, false)] + envs[lo..];
      EntriesOk(comps + [c], envs', deadCount);
      CreateInOrder(comps, envs, w, lo, c, envs');
      OneMoreInOrder(comps, gseq, c);
      ChainsShape(comps + [c], slots + [MemberSlot(key, -1)], chains + [[|slots|]]);
      CreateIs(st, w, AbsComps(comps + [c], slots + [MemberSlot(key, -1)], chains + [[|slots|]]), slotIx[key := ci]);
      comps, slots, chains, envs := comps + [c], slots + [MemberSlot(key, -1)], chains + [[|slots|]], envs';
      gseq := gseq + 1;
      slotIx := slotIx[key := ci];
    }

    /** Merges the live ones of `gs` into the live component `into`, in order. */
    method MergeCandidates(into: nat, gs: seq<nat>, w: Window, ghost st: State)
      requires Consistent() && st == Abs() && into < |comps| && forall k :: 0 <= k < |gs| ==> gs[k] < |comps|
      requires !comps[into].Dead() && Mergeable(st, into, gs, w)
      modifies `comps, `slots, `envs, `deadCount, `slotIx, `chains
      ensures Consistent() && Abs() == MergeAll(st, into, gs) && |comps| == |old(comps)|
      ensures Thinned(old(envs), envs)
      ensures !comps[into].Dead()
    {
      hide Thinned;
      hide LiveOk;
      hide EmitIndexed;
      hide ChainsApart;
      hide ChainOk;
      ThinnedSame(envs, envs);
      assert gs[..0] == [];
      for n := 0 to |gs|
        invariant Consistent() && Abs() == MergeAll(st, into, gs[..n]) && |comps| == |old(comps)|
        invariant Thinned(old(envs), envs)
        invariant !comps[into].Dead()
      {
        assert gs[..n + 1][..n] == gs[..n];
        PrefixMerged(st, into, gs, n, w);
        if comps[gs[n]].emitted {
          continue;
        }
        ghost var before := envs;
        MergeInto(into, gs[n]);
        ThinnedTrans(old(envs), before, envs);
      }
      assert gs[..|gs|] == gs;
    }

    /** Joins the window to the live component `into`, merging the other live candidates into it. */
    method JoinLive(into: nat, gs: seq<nat>, w: Window, ghost st: State)
      requires Consistent() && SpansInOrder(comps, envs) && st == Abs() && CompsOk(st.comps)
      requires Mergeable(st, into, gs, w)
      requires forall i: nat :: Takes(st, into, gs, i) <==> i < |st.comps| && Joins(st.comps[i], w)
      modifies `comps, `slots, `envs, `deadCount, `slotIx, `chains
      ensures Consistent() && SpansInOrder(comps, envs) && Abs() == Extend(MergeAll(st, into, gs), into, w)
    {
      hide Thinned;
      hide LiveOk;
      hide EmitIndexed;
      hide ChainsApart;
      hide ChainOk;
      hide SpansInOrder;
      hide AbsInOrder;
      hide InCreationOrder;
      ghost var envs0 := envs;
      LiveEntries(comps, envs, deadCount, -1);
      OrderOfAbs(comps, slots, chains, envs);
      MergeCandidates(into, gs, w, st);
      LiveEntries(comps, envs, deadCount, -1);
      JoinInOrder(st, into, gs, w, envs0, envs);
      ExtendComp(into, w);
      LiveEntries(comps, envs, deadCount, -1);
      OrderOfAbs(comps, slots, chains, envs);
    }

    /** Joins the window to the oldest candidate; with an emitted one nothing merges and no chain grows. */
    method JoinFirst(cand: seq<nat>, w: Window, ghost host: Option<nat>, ghost st: State)
      requires Consistent() && SpansInOrder(comps, envs) && st == Abs() && CompsOk(st.comps) && w.Valid()
      requires host.Some? ==> host.value < |st.comps| && st.comps[host.value].status.Emitted?
      requires cand == Candidates(st.comps, w, host, |st.comps|) && cand != []
      modifies `comps, `slots, `envs, `deadCount, `slotIx, `chains
      ensures Consistent() && SpansInOrder(comps, envs) && Abs() == Join(st, w, cand)
    {
      hide LiveOk;
      hide EmitIndexed;
      hide ChainsApart;
      hide ChainOk;
      hide SpansInOrder;
      hide InCreationOrder;
      hide Coherent;
      hide Covered;
      hide Geometry;
      hide Apart;
      var into, gs := cand[0], cand[1..];
      if comps[into].emitted {
        MergeAllFrozen(st, into, gs);
        slotIx := slotIx[SlotKey(gen, w) := into];
      } else {
        CandidatesMergeable(st, w, host);
        MergeAllFacts(st, into, gs, w);
        JoinLive(into, gs, w, st);
      }
    }

    /** Gathers the join candidates of a window: its emitted host and the live components it meets, oldest first. */
    method Gather(w: Window, mem: Memory, ghost st: State)
      returns (cand: seq<nat>, lo: nat, ghost host: Option<nat>)
      requires Consistent() && SpansInOrder(comps, envs) && st == Abs() && Inv(st) && w.Valid()
      modifies `hostCache, emit`top
      ensures emit.Valid() && emit.Spans() == old(emit.Spans()) && hostCache == CacheAfter(st, w, mem)
      ensures host == Host(st, w, mem) && cand == Candidates(st.comps, w, host, |st.comps|)
      ensures Entries(comps, envs) && SplitPoint(comps, envs, w, lo) && LiveGeometry(comps)
      ensures cand == [] ==> Found(comps, envs, [], w, 0, |envs|)
    {
      hide ChainsApart;
      hide ChainOk;
      hide SpansInOrder;
      hide LiveGeometry;
      hide SplitPoint;
      hide LiveOk;
      hide Found;
      LiveEntries(comps, envs, deadCount, -1);
      LiveGeometryOf(comps, slots, chains);
      var h := EmittedHost(w, mem, st);
      var live;
      live, lo := LiveCandidates(w);
      FoundWith(comps, envs, live, w, h);
      cand := SortByOrder((if h.Some? then [h.value] else []) + live);
      CandidatesAre(comps, slots, chains, envs, w, h, live, cand);
      host := h;
      if |cand| == 0 {
        assert live == [];
      }
    }

    /** Records one slot and joins it into a component (codec_encode.go:2086-2253). */
    method ScanAddSlot(w: Window, mem: Memory)
      requires Valid() && w.Valid()
      modifies this, emit
      ensures Valid() && Abs() == Scan(old(Abs()), w, mem)
    {
      hide LiveOk;
      hide EmitIndexed;
      hide ChainsApart;
      hide ChainOk;
      hide SpansInOrder;
      hide LiveGeometry;
      hide Found;
      hide SplitPoint;
      hide InCreationOrder;
      hide CompsOk;
      hide CacheSound;
      hide SlotOk;
      ghost var st := Abs();
      var cand, lo; ghost var host;
      cand, lo, host := Gather(w, mem, st);
      ScanInv(st, w, mem);
      if |cand| == 0 {
        CreateComp(w, lo);
      } else {
        JoinFirst(cand, w, host, Abs());
      }
    }

    /** Freezes a component at the moment its record is written: tombstone, emitted list, skiplist. */
    method MarkEmitted(ci: nat, id: nat, elided: nat)
      requires Valid() && ci < |comps| && !comps[ci].Dead()
      modifies this, emit
      ensures Valid() && Abs() == Freeze(old(Abs()), ci, id, elided) && emitted == old(emitted) + [ci]
    {
      hide Thinned;
      hide LiveOk;
      hide ChainsApart;
      hide ChainOk;
      hide SpansInOrder;
      hide InCreationOrder;
      hide EmitIndexed;
      hide CompsOk;
      hide CacheSound;
      hide SlotOk;
      ghost var st, envs0, comps0 := Abs(), envs, comps;
      LiveEntries(comps, envs, deadCount, -1);
      var c := comps[ci].(emitted := true, id := id, elided := elided);
      FreezeLive(comps, envs, deadCount, ci, c);
      FreezeChains(comps, slots, chains, ci, c);
      FreezeOrder(comps, gseq, ci, c);
      FreezeInv(st, ci, id, elided);
      comps := comps[ci := c];
      EnvNoteDead(ci);
      LiveEntries(comps, envs, deadCount, -1);
      FreezeSpans(comps0, comps, envs0, envs, ci);
      emitted := emitted + [ci];
      FreezeEmit(comps0, comps, emit.Spans(), ci, skipLevel(ci));
      emit.Insert(ci, c.origin, c.end, skipLevel(ci));
    }
  }
}
