/**
  The open-addressed string table (internal/wire/wire.go:139-240) refines a finite map, whatever the hash.
 */
module InternTables {
  import opened Bytes

  /** One probe slot; `idPlus1` zero marks the empty slot. */
  datatype Slot = Slot(s: seq<byte>, hash: nat, idPlus1: nat) {
    predicate Used() { idPlus1 != 0 }
  }

  datatype Option = None | Some(id: nat)

  const SLOTS_INIT := 8
  const LOAD_DIV := 4

  const EMPTY_SLOT := Slot([], 0, 0)

  /** The slot after `i` in probe order: `i + 1` masked by the capacity, a power of two. */
  function Succ(i: nat, n: nat): (j: nat)
    requires i < n
    ensures j < n
  {
    if i + 1 == n then 0 else i + 1
  }

  /** The slot reached after `k` steps from `home`. */
  function At(home: nat, k: nat, n: nat): (j: nat)
    requires home < n && k < n
    ensures j < n
  {
    if home + k < n then home + k else home + k - n
  }

  /** How many steps lead from `home` to `j`. */
  function Dist(home: nat, j: nat, n: nat): (k: nat)
    requires home < n && j < n
    ensures k < n && At(home, k, n) == j
  {
    if home <= j then j - home else j + n - home
  }

  function Home(h: nat, n: nat): (i: nat)
    requires n > 0
    ensures i < n
  {
    h % n
  }

  function UsedCount(ts: seq<Slot>): (c: nat)
    ensures c <= |ts|
  {
    if ts == [] then 0 else UsedCount(ts[..|ts| - 1]) + (if ts[|ts| - 1].Used() then 1 else 0)
  }

  lemma {:induction false} SomeEmpty(ts: seq<Slot>) returns (e: nat)
    requires UsedCount(ts) < |ts|
    ensures e < |ts| && !ts[e].Used()
  {
    if !ts[|ts| - 1].Used() {
      e := |ts| - 1;
    } else {
      e := SomeEmpty(ts[..|ts| - 1]);
    }
  }

  lemma {:induction false} UsedUpdate(ts: seq<Slot>, i: nat, x: Slot)
    requires i < |ts|
    ensures UsedCount(ts[i := x]) == UsedCount(ts) + (if x.Used() then 1 else 0) - (if ts[i].Used() then 1 else 0)
  {
    var us, n := ts[i := x], |ts| - 1;
    if i < n {
      assert us[..n] == ts[..n][i := x];
      UsedUpdate(ts[..n], i, x);
    } else {
      assert us[..n] == ts[..n];
    }
  }

  lemma {:induction false} NoneUsed(ts: seq<Slot>)
    requires forall i :: 0 <= i < |ts| ==> !ts[i].Used()
    ensures UsedCount(ts) == 0
  {
    if ts != [] {
      NoneUsed(ts[..|ts| - 1]);
    }
  }

  lemma {:induction false} CountZero(ts: seq<Slot>, i: nat)
    requires UsedCount(ts) == 0 && i < |ts|
    ensures !ts[i].Used()
  {
    if i < |ts| - 1 {
      CountZero(ts[..|ts| - 1], i);
    }
  }

  // ---------------------------------------------------------------- what a table means

  /** The used slots are the bindings of `m`, one slot for each. */
  ghost predicate Binds(ts: seq<Slot>, m: map<seq<byte>, nat>) {
    && (forall i :: 0 <= i < |ts| && ts[i].Used() ==> ts[i].s in m && m[ts[i].s] == ts[i].idPlus1 - 1)
    && (forall s :: s in m ==> InSlot(ts, s))
  }

  ghost predicate InSlot(ts: seq<Slot>, s: seq<byte>) { exists i :: 0 <= i < |ts| && ts[i].Used() && ts[i].s == s }

  ghost predicate Distinct(ts: seq<Slot>) {
    forall i, j :: 0 <= i < j < |ts| && ts[i].Used() && ts[j].Used() ==> ts[i].s != ts[j].s
  }

  /** Stored hashes are those of the strings, and every used slot is reached from its home over used slots only. */
  ghost predicate Probed(ts: seq<Slot>, hash: seq<byte> -> nat) {
    forall j :: 0 <= j < |ts| && ts[j].Used() ==> ts[j].hash == hash(ts[j].s) && Reached(ts, Home(ts[j].hash, |ts|), j)
  }

  ghost predicate Reached(ts: seq<Slot>, home: nat, j: nat)
    requires home < |ts| && j < |ts|
  {
    forall k :: 0 <= k < Dist(home, j, |ts|) ==> ts[At(home, k, |ts|)].Used()
  }

  /** A table is a map in one way only. */
  lemma BindsUnique(ts: seq<Slot>, m: map<seq<byte>, nat>, r: map<seq<byte>, nat>)
    requires Binds(ts, m) && Binds(ts, r)
    ensures m == r
  {
    forall s
      ensures s in m <==> s in r
      ensures s in m && s in r ==> m[s] == r[s]
    {
      assert s in m ==> InSlot(ts, s);
      assert s in r ==> InSlot(ts, s);
    }
  }

  /** The first `k` probes from `home` meet used slots with other strings. */
  ghost predicate Missed(ts: seq<Slot>, s: seq<byte>, home: nat, k: nat)
    requires home < |ts| && k <= |ts|
  {
    forall m :: 0 <= m < k ==> ts[At(home, m, |ts|)].Used() && ts[At(home, m, |ts|)].s != s
  }

  /** An empty slot at the end of a probe means the string is not in the table. */
  lemma AbsentAt(ts: seq<Slot>, hash: seq<byte> -> nat, s: seq<byte>, k: nat)
    requires |ts| > 0 && k < |ts| && Probed(ts, hash)
    requires Missed(ts, s, Home(hash(s), |ts|), k) && !ts[At(Home(hash(s), |ts|), k, |ts|)].Used()
    ensures !InSlot(ts, s)
  {
    var home := Home(hash(s), |ts|);
    forall j | 0 <= j < |ts| && ts[j].Used()
      ensures ts[j].s != s
    {
      var d := Dist(home, j, |ts|);
      assert Reached(ts, Home(ts[j].hash, |ts|), j);
      assert At(home, d, |ts|) == j;
    }
  }

  /** Filling the empty slot at the end of a probe keeps every probe sequence and adds one binding. */
  lemma FillSlot(ts: seq<Slot>, hash: seq<byte> -> nat, m: map<seq<byte>, nat>, s: seq<byte>, id: nat, k: nat,
                 us: seq<Slot>)
    requires |ts| > 0 && k < |ts| && Probed(ts, hash) && Distinct(ts) && Binds(ts, m) && !InSlot(ts, s)
    requires forall i :: 0 <= i < k ==> ts[At(Home(hash(s), |ts|), i, |ts|)].Used()
    requires var i := At(Home(hash(s), |ts|), k, |ts|); !ts[i].Used() && us == ts[i := Slot(s, hash(s), id + 1)]
    ensures Probed(us, hash) && Distinct(us) && Binds(us, m[s := id]) && UsedCount(us) == UsedCount(ts) + 1
  {
    hide Probed;
    hide Distinct;
    hide Binds;
    var i := At(Home(hash(s), |ts|), k, |ts|);
    UsedUpdate(ts, i, us[i]);
    FillProbed(ts, hash, s, id, k, us);
    FillDistinct(ts, i, us[i], us);
    FillBinds(ts, m, i, us[i], us);
  }

  lemma FillProbed(ts: seq<Slot>, hash: seq<byte> -> nat, s: seq<byte>, id: nat, k: nat, us: seq<Slot>)
    requires |ts| > 0 && k < |ts| && Probed(ts, hash)
    requires forall i :: 0 <= i < k ==> ts[At(Home(hash(s), |ts|), i, |ts|)].Used()
    requires var i := At(Home(hash(s), |ts|), k, |ts|); !ts[i].Used() && us == ts[i := Slot(s, hash(s), id + 1)]
    ensures Probed(us, hash)
  {
    var home := Home(hash(s), |ts|);
    var i := At(home, k, |ts|);
    assert Dist(home, i, |ts|) == k;
    forall j | 0 <= j < |us| && us[j].Used()
      ensures us[j].hash == hash(us[j].s) && Reached(us, Home(us[j].hash, |us|), j)
    {
      if j != i {
        assert Reached(ts, Home(ts[j].hash, |ts|), j);
      }
    }
  }

  lemma FillDistinct(ts: seq<Slot>, i: nat, x: Slot, us: seq<Slot>)
    requires i < |ts| && Distinct(ts) && us == ts[i := x] && !InSlot(ts, x.s)
    ensures Distinct(us)
  {
  }

  lemma FillBinds(ts: seq<Slot>, m: map<seq<byte>, nat>, i: nat, x: Slot, us: seq<Slot>)
    requires i < |ts| && Binds(ts, m) && us == ts[i := x] && !InSlot(ts, x.s) && !ts[i].Used() && x.Used()
    ensures Binds(us, m[x.s := x.idPlus1 - 1])
  {
    forall y | y in m[x.s := x.idPlus1 - 1]
      ensures InSlot(us, y)
    {
      if y == x.s {
        assert us[i].s == y;
      } else {
        assert InSlot(ts, y);
        var j :| 0 <= j < |ts| && ts[j].Used() && ts[j].s == y;
        assert us[j] == ts[j];
      }
    }
  }

  /** A slot that already holds the string takes the new id. */
  lemma RebindSlot(ts: seq<Slot>, hash: seq<byte> -> nat, m: map<seq<byte>, nat>, i: nat, id: nat, us: seq<Slot>)
    requires i < |ts| && ts[i].Used() && Probed(ts, hash) && Distinct(ts) && Binds(ts, m)
    requires us == ts[i := ts[i].(idPlus1 := id + 1)]
    ensures Probed(us, hash) && Distinct(us) && Binds(us, m[ts[i].s := id]) && UsedCount(us) == UsedCount(ts)
  {
    hide Probed;
    hide Binds;
    UsedUpdate(ts, i, us[i]);
    RebindProbed(ts, hash, i, id, us);
    RebindBinds(ts, m, i, id, us);
  }

  lemma RebindProbed(ts: seq<Slot>, hash: seq<byte> -> nat, i: nat, id: nat, us: seq<Slot>)
    requires i < |ts| && ts[i].Used() && Probed(ts, hash) && us == ts[i := ts[i].(idPlus1 := id + 1)]
    ensures Probed(us, hash)
  {
    forall j | 0 <= j < |us| && us[j].Used()
      ensures us[j].hash == hash(us[j].s) && Reached(us, Home(us[j].hash, |us|), j)
    {
      assert Reached(ts, Home(ts[j].hash, |ts|), j);
    }
  }

  lemma RebindBinds(ts: seq<Slot>, m: map<seq<byte>, nat>, i: nat, id: nat, us: seq<Slot>)
    requires i < |ts| && ts[i].Used() && Distinct(ts) && Binds(ts, m) && us == ts[i := ts[i].(idPlus1 := id + 1)]
    ensures Binds(us, m[ts[i].s := id])
  {
    forall x | x in m[ts[i].s := id]
      ensures InSlot(us, x)
    {
      if x == ts[i].s {
        assert us[i].s == x;
      } else {
        assert InSlot(ts, x);
        var j :| 0 <= j < |ts| && ts[j].Used() && ts[j].s == x;
        assert us[j] == ts[j];
      }
    }
  }

  lemma SearchEnds(ts: seq<Slot>, home: nat) returns (d: nat)
    requires UsedCount(ts) < |ts| && home < |ts|
    ensures d < |ts| && !ts[At(home, d, |ts|)].Used()
  {
    var e := SomeEmpty(ts);
    d := Dist(home, e, |ts|);
  }

  /** The next old slot holds a string that has not been moved. */
  lemma NextIsNew(old_: seq<Slot>, i: nat, m: map<seq<byte>, nat>)
    requires i < |old_| && old_[i].Used() && Distinct(old_) && Binds(old_[..i], m)
    ensures old_[i].s !in m && Binds(old_[..i + 1], m[old_[i].s := old_[i].idPlus1 - 1])
  {
    var a, b := old_[..i], old_[..i + 1];
    assert old_[i].s in m ==> InSlot(a, old_[i].s);
    var r := m[old_[i].s := old_[i].idPlus1 - 1];
    forall x | x in r
      ensures InSlot(b, x)
    {
      if x == old_[i].s {
        assert b[i].s == x;
      } else {
        assert InSlot(a, x);
        var j :| 0 <= j < |a| && a[j].Used() && a[j].s == x;
        assert b[j] == a[j];
      }
    }
    forall j | 0 <= j < |b| && b[j].Used()
      ensures b[j].s in r && r[b[j].s] == b[j].idPlus1 - 1
    {
      if j < i {
        assert a[j] == b[j];
      }
    }
  }

  lemma NextIsEmpty(old_: seq<Slot>, i: nat, m: map<seq<byte>, nat>)
    requires i < |old_| && !old_[i].Used() && Binds(old_[..i], m)
    ensures Binds(old_[..i + 1], m)
  {
    var a, b := old_[..i], old_[..i + 1];
    forall x | x in m
      ensures InSlot(b, x)
    {
      assert InSlot(a, x);
      var j :| 0 <= j < |a| && a[j].Used() && a[j].s == x;
      assert b[j] == a[j];
    }
    assert forall j :: 0 <= j < i ==> a[j] == b[j];
  }

  lemma EmptyTable(ts: seq<Slot>, hash: seq<byte> -> nat)
    requires forall i :: 0 <= i < |ts| ==> !ts[i].Used()
    ensures Binds(ts, map[]) && Probed(ts, hash) && Distinct(ts) && UsedCount(ts) == 0
  {
    NoneUsed(ts);
  }

  class InternTable {
    const hash: seq<byte> -> nat
    var slots: array<Slot>
    var count: nat
    /** The bindings the table stands for. */
    ghost var entries: map<seq<byte>, nat>

    /** The probe structure is sound and means `entries`. */
    ghost predicate Sound()
      reads this, slots
    {
      Probed(slots[..], hash) && Distinct(slots[..]) && Binds(slots[..], entries) && count == UsedCount(slots[..])
    }

    /** At most three quarters are used, so a quarter of the slots ends every probe. */
    ghost predicate Valid()
      reads this, slots
    {
      Sound() && (slots.Length == 0 || slots.Length >= SLOTS_INIT) && count <= slots.Length - slots.Length / LOAD_DIV
    }

    constructor (hash: seq<byte> -> nat)
      ensures Valid() && entries == map[] && fresh(slots)
    {
      this.hash := hash;
      slots := new Slot[0](_ => EMPTY_SLOT);
      count, entries := 0, map[];
      new;
      EmptyTable(slots[..], hash);
    }

    /** Walks from the home of `s` to its slot, or to the empty slot that ends the walk after `k` steps. */
    method Probe(s: seq<byte>, h: nat) returns (i: nat, ghost k: nat)
      requires Sound() && h == hash(s) && count < slots.Length
      ensures i < slots.Length && k < slots.Length && i == At(Home(h, slots.Length), k, slots.Length)
      ensures Missed(slots[..], s, Home(h, slots.Length), k)
      ensures slots[i].Used() ==> slots[i].hash == h && slots[i].s == s
    {
      hide Binds;
      hide Distinct;
      ghost var home := Home(h, slots.Length);
      ghost var end := SearchEnds(slots[..], home);
      i, k := Home(h, slots.Length), 0;
      while slots[i].Used() && !(slots[i].hash == h && slots[i].s == s)
        invariant k <= end < slots.Length && i == At(home, k, slots.Length)
        invariant Missed(slots[..], s, home, k)
        decreases slots.Length - k
      {
        assert slots[..][i].hash == hash(slots[..][i].s);
        assert k != end;
        i := Succ(i, slots.Length);
        k := k + 1;
      }
    }

    /** The id bound to `s`, if any. */
    method Get(s: seq<byte>) returns (r: Option)
      requires Valid()
      ensures r == if s in entries then Some(entries[s]) else None
    {
      if count == 0 {
        NoneBound(slots[..], entries, s);
        return None;
      }
      var i; ghost var k;
      i, k := Probe(s, hash(s));
      if slots[i].Used() {
        assert slots[..][i].s in entries;
        return Some(slots[i].idPlus1 - 1);
      }
      AbsentAt(slots[..], hash, s, k);
      return None;
    }

    /** Claims a slot for a string that is not in the table, without growth checks. */
    method Insert(s: seq<byte>, h: nat, id: nat)
      requires Sound() && h == hash(s) && s !in entries && count < slots.Length
      modifies this`count, this`entries, slots
      ensures Sound() && entries == old(entries)[s := id] && count == old(count) + 1
    {
      ghost var ts := slots[..];
      var i; ghost var k;
      i, k := Probe(s, h);
      UnboundSlot(ts, entries, s, i);
      assert !InSlot(ts, s) by { NotBound(ts, entries, s); }
      slots[i] := Slot(s, h, id + 1);
      count := count + 1;
      FillSlot(ts, hash, entries, s, id, k, slots[..]);
      entries := entries[s := id];
    }

    /** Puts entry `i` of the old slots back, if there is one. */
    method Move(x: Slot, ghost ts: seq<Slot>, ghost i: nat)
      requires Sound() && i < |ts| && x == ts[i] && Probed(ts, hash) && Distinct(ts) && UsedCount(ts) < slots.Length
      requires Binds(ts[..i], entries) && count == UsedCount(ts[..i])
      modifies this`count, this`entries, slots
      ensures Sound() && Binds(ts[..i + 1], entries) && count == UsedCount(ts[..i + 1])
    {
      hide Probed;
      hide Distinct;
      hide Binds;
      assert ts[..i + 1][..i] == ts[..i];
      UsedPrefix(ts, i + 1);
      if x.Used() {
        NextIsNew(ts, i, entries);
        StoredHash(ts, hash, i);
        Insert(x.s, x.hash, x.idPlus1 - 1);
      } else {
        NextIsEmpty(ts, i, entries);
      }
    }

    /** Resizes to `n` slots and puts every entry back from its stored hash. */
    method Rehash(n: nat)
      requires Sound() && count < n
      modifies this`slots, this`count, this`entries
      ensures Sound() && entries == old(entries) && count == old(count) && slots.Length == n && fresh(slots)
    {
      hide Probed;
      hide Distinct;
      hide Binds;
      ghost var m := entries;
      var was := slots;
      ghost var ts := was[..];
      slots := new Slot[n](_ => EMPTY_SLOT);
      count := 0;
      entries := map[];
      EmptyTable(slots[..], hash);
      NothingBound(ts);
      var i := 0;
      while i < was.Length
        invariant i <= was.Length && was[..] == ts && fresh(slots) && slots.Length == n
        invariant Sound() && Binds(ts[..i], entries) && count == UsedCount(ts[..i])
        modifies this`count, this`entries, slots
      {
        Move(was[i], ts, i);
        i := i + 1;
      }
      assert ts[..i] == ts;
      BindsUnique(ts, m, entries);
    }

    /** Grows the table when one more entry would exceed three quarters of it. */
    method Grow()
      requires Valid()
      modifies this`slots, this`count, this`entries
      ensures Sound() && entries == old(entries) && count == old(count) && (slots == old(slots) || fresh(slots))
      ensures slots.Length >= SLOTS_INIT && count + 1 <= slots.Length - slots.Length / LOAD_DIV
    {
      if slots.Length == 0 {
        Rehash(SLOTS_INIT);
      } else if count + 1 > slots.Length - slots.Length / LOAD_DIV {
        Rehash(slots.Length * 2);
      }
    }

    /** Binds `s` to `id`; the newest binding wins. */
    method Set(s: seq<byte>, id: nat)
      requires Valid()
      modifies this, slots
      ensures Valid() && entries == old(entries)[s := id] && (slots == old(slots) || fresh(slots))
    {
      Grow();
      var h := hash(s);
      var i; ghost var k;
      i, k := Probe(s, h);
      ghost var ts := slots[..];
      if slots[i].Used() {
        slots[i] := slots[i].(idPlus1 := id + 1);
        RebindSlot(ts, hash, entries, i, id, slots[..]);
      } else {
        AbsentAt(ts, hash, s, k);
        slots[i] := Slot(s, h, id + 1);
        count := count + 1;
        FillSlot(ts, hash, entries, s, id, k, slots[..]);
      }
      entries := entries[s := id];
    }

    /** Drops all entries and keeps the slots for reuse. */
    method Clear()
      requires Valid()
      modifies this`count, this`entries, slots
      ensures Valid() && entries == map[] && slots.Length == old(slots.Length)
    {
      var i := 0;
      while i < slots.Length
        invariant i <= slots.Length && forall j :: 0 <= j < i ==> !slots[j].Used()
        modifies slots
      {
        slots[i] := EMPTY_SLOT;
        i := i + 1;
      }
      count, entries := 0, map[];
      EmptyTable(slots[..], hash);
    }
  }

  lemma {:induction false} UsedPrefix(ts: seq<Slot>, i: nat)
    requires i <= |ts|
    ensures UsedCount(ts[..i]) <= UsedCount(ts)
  {
    if i < |ts| {
      assert ts[..|ts| - 1][..i] == ts[..i];
      UsedPrefix(ts[..|ts| - 1], i);
    } else {
      assert ts[..i] == ts;
    }
  }

  lemma NoneBound(ts: seq<Slot>, m: map<seq<byte>, nat>, s: seq<byte>)
    requires Binds(ts, m) && UsedCount(ts) == 0
    ensures s !in m
  {
    if s in m {
      assert InSlot(ts, s);
      var i :| 0 <= i < |ts| && ts[i].Used() && ts[i].s == s;
      CountZero(ts, i);
    }
  }

  lemma UnboundSlot(ts: seq<Slot>, m: map<seq<byte>, nat>, s: seq<byte>, i: nat)
    requires Binds(ts, m) && s !in m && i < |ts| && (ts[i].Used() ==> ts[i].s == s)
    ensures !ts[i].Used()
  {
  }

  lemma StoredHash(ts: seq<Slot>, hash: seq<byte> -> nat, i: nat)
    requires Probed(ts, hash) && i < |ts| && ts[i].Used()
    ensures ts[i].hash == hash(ts[i].s)
  {
  }

  lemma NothingBound(ts: seq<Slot>)
    ensures Binds(ts[..0], map[]) && UsedCount(ts[..0]) == 0
  {
  }

  lemma NotBound(ts: seq<Slot>, m: map<seq<byte>, nat>, s: seq<byte>)
    requires Binds(ts, m) && s !in m
    ensures !InSlot(ts, s)
  {
  }
}
