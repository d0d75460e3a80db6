/**
  Identity interns over weak handles (codec_encode.go:87-188, 2757-2761, 2896): the table names a map object by
  its address, holds it only weakly, and drops dead entries whenever it likes. Objects die, addresses are
  reused, and still no REF ever names another object, and no sweep is ever visible in the output.
 */
module Interns {
  type Addr = nat

  /** An object is a number used once; an address is one object's until it dies. */
  type Obj = nat

  /** An entry: the id, the epoch of its last liveness check, and the object its weak handle was made from. */
  datatype WeakID = WeakID(id: nat, ep: nat, obj: Obj)

  type Table = map<Addr, WeakID>

  /** What stands at a position: a reference to a known object, or a literal that takes an id. */
  datatype Token = Ref(id: nat) | Literal(id: nat)

  /** The weak handle of an entry under `k` still has its object. */
  predicate HandleLive(live: map<Addr, Obj>, k: Addr, ent: WeakID) { k in live && live[k] == ent.obj }

  /** Whether a hit counts: verified in this epoch already, or the handle still has its object. */
  predicate Hits(table: Table, ep: nat, live: map<Addr, Obj>, k: Addr) {
    k in table && (table[k].ep == ep || HandleLive(live, k, table[k]))
  }

  /** The table without its dead entries. */
  function Swept(table: Table, live: map<Addr, Obj>): Table {
    map k | k in table && HandleLive(live, k, table[k]) :: table[k]
  }

  // ---------------------------------------------------------------- runs

  /** What may happen around the table. */
  datatype Event =
    | BeginEncode
    | Visit(k: Addr, sweep: bool)
    | OtherRecord
    | Allocate(k: Addr)
    | Die(k: Addr)
    | Sweep

  /** Memory, the table, and the objects visited in this epoch; `owner` remembers whom each id was given to. */
  datatype World = World(live: map<Addr, Obj>, objs: nat, table: Table, ep: nat, nextID: nat, visited: set<Obj>,
                         owner: map<nat, Obj>)

  const START := World(map[], 0, map[], 0, 0, {}, map[])

  /** An object visited while a value is encoded is reachable from it, so it stays alive until the next Encode. */
  predicate Allowed(w: World, ev: Event) {
    match ev
    case Visit(k, _) => k in w.live
    case Allocate(k) => k !in w.live
    case Die(k) => k in w.live && w.live[k] !in w.visited
    case _ => true
  }

  function VisitToken(w: World, k: Addr): Token
    requires k in w.live
  {
    if Hits(w.table, w.ep, w.live, k) then Ref(w.table[k].id) else Literal(w.nextID)
  }

  function Visited(w: World, k: Addr, sweep: bool): World
    requires k in w.live
  {
    var o := w.live[k];
    if Hits(w.table, w.ep, w.live, k) then
      w.(table := w.table[k := w.table[k].(ep := w.ep)], visited := w.visited + {o})
    else
      var t := w.table[k := WeakID(w.nextID, w.ep, o)];
      w.(table := if sweep then Swept(t, w.live) else t, nextID := w.nextID + 1, visited := w.visited + {o},
         owner := w.owner[w.nextID := o])
  }

  function Step(w: World, ev: Event): World
    requires Allowed(w, ev)
  {
    match ev
    case BeginEncode => w.(ep := w.ep + 1, visited := {})
    case Visit(k, sweep) => Visited(w, k, sweep)
    case OtherRecord => w.(nextID := w.nextID + 1)
    case Allocate(k) => w.(live := w.live[k := w.objs], objs := w.objs + 1)
    case Die(k) => w.(live := w.live - {k})
    case Sweep => w.(table := Swept(w.table, w.live))
  }

  /**
    Ids are owned; an entry verified in this epoch has its object; live objects have one address each; and a live
    object that owns an id has its entry.
   */
  ghost predicate Inv(w: World) {
    && (forall k :: k in w.table ==> EntryOk(w, k))
    && (forall id :: id in w.owner ==> id < w.nextID && w.owner[id] < w.objs)
    && (forall k, id :: k in w.live && id in w.owner && w.owner[id] == w.live[k] ==> Remembered(w, k, id))
    && (forall k :: k in w.live ==> w.live[k] < w.objs)
    && (forall k, m :: k in w.live && m in w.live && w.live[k] == w.live[m] ==> k == m)
  }

  ghost predicate EntryOk(w: World, k: Addr)
    requires k in w.table
  {
    var ent := w.table[k];
    && ent.id in w.owner && w.owner[ent.id] == ent.obj && ent.ep <= w.ep && ent.obj < w.objs
    && (ent.ep == w.ep ==> HandleLive(w.live, k, ent) && ent.obj in w.visited)
  }

  ghost predicate Remembered(w: World, k: Addr, id: nat)
    requires k in w.live
  {
    k in w.table && w.table[k].obj == w.live[k] && w.table[k].id == id
  }

  /** The run of `evs` from the start is allowed at every step. */
  ghost predicate Run(evs: seq<Event>)
    decreases |evs|, 0
  {
    evs == [] || (Run(evs[..|evs| - 1]) && Allowed(After(evs[..|evs| - 1]), evs[|evs| - 1]))
  }

  ghost function After(evs: seq<Event>): World
    requires Run(evs)
    decreases |evs|, 1
  {
    if evs == [] then START else Step(After(evs[..|evs| - 1]), evs[|evs| - 1])
  }

  lemma StepInv(w: World, ev: Event)
    requires Inv(w) && Allowed(w, ev)
    ensures Inv(Step(w, ev))
  {
    var r := Step(w, ev);
    forall k | k in r.table
      ensures EntryOk(r, k)
    {
      if k in w.table {
        assert EntryOk(w, k);
      }
    }
    forall k, id | k in r.live && id in r.owner && r.owner[id] == r.live[k]
      ensures Remembered(r, k, id)
    {
      StepRemembers(w, ev, k, id);
    }
  }

  /** No step forgets a live object that has an id. */
  lemma StepRemembers(w: World, ev: Event, k: Addr, id: nat)
    requires Inv(w) && Allowed(w, ev)
    requires var r := Step(w, ev); k in r.live && id in r.owner && r.owner[id] == r.live[k]
    ensures Remembered(Step(w, ev), k, id)
  {
    if k in w.live && id in w.owner && w.owner[id] == w.live[k] {
      assert Remembered(w, k, id);
    }
    assert k in w.table ==> EntryOk(w, k);
  }

  lemma {:induction false} RunInv(evs: seq<Event>)
    requires Run(evs)
    ensures Inv(After(evs))
  {
    if evs != [] {
      RunInv(evs[..|evs| - 1]);
      StepInv(After(evs[..|evs| - 1]), evs[|evs| - 1]);
    }
  }

  /** In every run a REF names the very object that stands there now, and a literal takes an id never given. */
  lemma RefNamesItsObject(evs: seq<Event>, k: Addr)
    requires Run(evs) && k in After(evs).live
    ensures match VisitToken(After(evs), k)
            case Ref(id) => id in After(evs).owner && After(evs).owner[id] == After(evs).live[k]
            case Literal(id) => id !in After(evs).owner
  {
    RunInv(evs);
    var w := After(evs);
    if Hits(w.table, w.ep, w.live, k) {
      assert EntryOk(w, k);
    }
  }

  /**
    An object that was given an id and is still alive is a REF to that id, in whatever epoch and after whatever
    sweeps; only an object that has no id is written.
   */
  lemma RefIffOwned(evs: seq<Event>, k: Addr)
    requires Run(evs) && k in After(evs).live
    ensures var w := After(evs);
            && (forall id :: id in w.owner && w.owner[id] == w.live[k] ==> VisitToken(w, k) == Ref(id))
            && (VisitToken(w, k).Ref? <==> exists id :: id in w.owner && w.owner[id] == w.live[k])
  {
    RunInv(evs);
    RefNamesItsObject(evs, k);
    var w := After(evs);
    forall id | id in w.owner && w.owner[id] == w.live[k]
      ensures VisitToken(w, k) == Ref(id)
    {
      assert Remembered(w, k, id);
    }
  }

  /** Every visit gives the object an id, and no later step takes it away. */
  lemma {:induction false} VisitOwns(evs: seq<Event>, more: seq<Event>, k: Addr, sweep: bool)
    requires Run(evs + [Visit(k, sweep)] + more)
    ensures Run(evs) && k in After(evs).live
    ensures var w := After(evs + [Visit(k, sweep)] + more);
            VisitToken(After(evs), k).id in w.owner && w.owner[VisitToken(After(evs), k).id] == After(evs).live[k]
    decreases |more|
  {
    var all := evs + [Visit(k, sweep)] + more;
    if more == [] {
      assert all[..|all| - 1] == evs;
      RefNamesItsObject(evs, k);
    } else {
      var before := more[..|more| - 1];
      assert all[..|all| - 1] == evs + [Visit(k, sweep)] + before;
      VisitOwns(evs, before, k, sweep);
      RunInv(evs + [Visit(k, sweep)] + before);
    }
  }

  /** So two visits of one object, however far apart, carry one id, the second as a REF. */
  lemma VisitedAgain(evs: seq<Event>, more: seq<Event>, k: Addr, sweep: bool, m: Addr)
    requires Run(evs + [Visit(k, sweep)] + more) && m in After(evs + [Visit(k, sweep)] + more).live
    ensures Run(evs) && k in After(evs).live
    ensures var w := After(evs + [Visit(k, sweep)] + more);
            w.live[m] == After(evs).live[k] ==> VisitToken(w, m) == Ref(VisitToken(After(evs), k).id)
  {
    VisitOwns(evs, more, k, sweep);
    RefIffOwned(evs + [Visit(k, sweep)] + more, m);
  }

  // ---------------------------------------------------------------- sweeps cannot be seen

  ghost predicate LiveEntry(w: World, k: Addr) { k in w.table && HandleLive(w.live, k, w.table[k]) }

  /** Two worlds that differ at most in dead entries. */
  ghost predicate SameButDead(w: World, q: World) {
    && w.live == q.live && w.objs == q.objs && w.ep == q.ep && w.nextID == q.nextID && w.visited == q.visited
      && w.owner == q.owner
    && forall k :: (LiveEntry(w, k) <==> LiveEntry(q, k)) && (LiveEntry(w, k) ==> w.table[k] == q.table[k])
  }

  /** The event with no sweep in it. */
  function Unswept(ev: Event): Event { if ev.Visit? then Visit(ev.k, false) else ev }

  /** The run without any sweeping. */
  function Quiet(evs: seq<Event>): seq<Event> {
    if evs == [] then []
    else Quiet(evs[..|evs| - 1]) + (if evs[|evs| - 1].Sweep? then [] else [Unswept(evs[|evs| - 1])])
  }

  ghost function Tokens(evs: seq<Event>): seq<Token>
    requires Run(evs)
  {
    if evs == [] then []
    else
      var before, ev := evs[..|evs| - 1], evs[|evs| - 1];
      Tokens(before) + (if ev.Visit? then [VisitToken(After(before), ev.k)] else [])
  }

  /** A hit is a live entry: nothing is trusted that is dead. */
  lemma HitsAreLive(w: World, k: Addr)
    requires Inv(w) && k in w.live
    ensures Hits(w.table, w.ep, w.live, k) <==> LiveEntry(w, k)
  {
    assert k in w.table ==> EntryOk(w, k);
  }

  lemma VisitSame(w: World, q: World, k: Addr, sweep: bool)
    requires Inv(w) && Inv(q) && SameButDead(w, q) && k in w.live
    ensures VisitToken(w, k) == VisitToken(q, k) && SameButDead(Visited(w, k, sweep), Visited(q, k, false))
  {
    HitsAreLive(w, k);
    HitsAreLive(q, k);
    var w', q' := Visited(w, k, sweep), Visited(q, k, false);
    forall m
      ensures (LiveEntry(w', m) <==> LiveEntry(q', m)) && (LiveEntry(w', m) ==> w'.table[m] == q'.table[m])
    {
      assert LiveEntry(w, m) <==> LiveEntry(q, m);
    }
  }

  lemma OtherSame(w: World, q: World, ev: Event)
    requires Inv(w) && Inv(q) && SameButDead(w, q) && Allowed(w, ev) && !ev.Visit?
    ensures Allowed(q, ev) && SameButDead(Step(w, ev), if ev.Sweep? then q else Step(q, ev))
  {
    var w', q' := Step(w, ev), if ev.Sweep? then q else Step(q, ev);
    forall m
      ensures (LiveEntry(w', m) <==> LiveEntry(q', m)) && (LiveEntry(w', m) ==> w'.table[m] == q'.table[m])
    {
      assert LiveEntry(w, m) <==> LiveEntry(q, m);
      assert m in w.table ==> EntryOk(w, m);
      assert m in q.table ==> EntryOk(q, m);
    }
  }

  lemma QuietInit(evs: seq<Event>, ev: Event)
    requires Run(evs) && Allowed(After(evs), ev)
    ensures Run(evs + [ev]) && After(evs + [ev]) == Step(After(evs), ev)
    ensures Tokens(evs + [ev]) == Tokens(evs) + (if ev.Visit? then [VisitToken(After(evs), ev.k)] else [])
  {
    var r := evs + [ev];
    assert r[..|r| - 1] == evs;
  }

  lemma SameAtStart()
    ensures SameButDead(START, START)
  {
  }

  /** Any sweep schedule gives the ids and tokens of a run that never sweeps. */
  lemma {:induction false} SweepInvisible(evs: seq<Event>)
    requires Run(evs)
    ensures Run(Quiet(evs)) && SameButDead(After(evs), After(Quiet(evs))) && Tokens(evs) == Tokens(Quiet(evs))
  {
    hide SameButDead;
    hide Step;
    hide Inv;
    hide VisitToken;
    if evs == [] {
      SameAtStart();
    } else {
      var before, ev := evs[..|evs| - 1], evs[|evs| - 1];
      SweepInvisible(before);
      RunInv(before);
      RunInv(Quiet(before));
      StepSame(After(before), After(Quiet(before)), ev);
      if ev.Sweep? {
        assert Quiet(evs) == Quiet(before);
      } else {
        QuietInit(Quiet(before), Unswept(ev));
      }
    }
  }

  lemma StepSame(w: World, q: World, ev: Event)
    requires Inv(w) && Inv(q) && SameButDead(w, q) && Allowed(w, ev)
    ensures Allowed(q, Unswept(ev)) && SameButDead(Step(w, ev), if ev.Sweep? then q else Step(q, Unswept(ev)))
    ensures ev.Visit? ==> VisitToken(w, ev.k) == VisitToken(q, ev.k)
  {
    if ev.Visit? {
      VisitSame(w, q, ev.k, ev.sweep);
    } else {
      OtherSame(w, q, ev);
    }
  }

  // ---------------------------------------------------------------- the encoder's table

  /** The table of map identities, and the run it has been through. */
  class MapTable {
    var maps: Table
    var encEp: nat
    var nextID: nat
    ghost var events: seq<Event>

    ghost predicate Valid()
      reads this
    {
      Run(events) && After(events).table == maps && After(events).ep == encEp && After(events).nextID == nextID
    }

    constructor ()
      ensures Valid() && events == []
    {
      maps, encEp, nextID, events := map[], 0, 0, [];
    }

    /** The next value begins. */
    method BeginValue()
      requires Valid()
      modifies this
      ensures Valid() && events == old(events) + [BeginEncode]
    {
      QuietInit(events, BeginEncode);
      encEp := encEp + 1;
      events := events + [BeginEncode];
    }

    /** A record of another kind takes an id. */
    method TakeID() returns (id: nat)
      requires Valid()
      modifies this
      ensures Valid() && events == old(events) + [OtherRecord] && id == old(nextID)
    {
      QuietInit(events, OtherRecord);
      id := nextID;
      nextID := nextID + 1;
      events := events + [OtherRecord];
    }

    /** Objects come and go without the table noticing. */
    ghost method MemoryMoves(ev: Event)
      requires Valid() && (ev.Allocate? || ev.Die?) && Allowed(After(events), ev)
      modifies this`events
      ensures Valid() && events == old(events) + [ev]
    {
      QuietInit(events, ev);
      events := events + [ev];
    }

    /** Resolves a hit to its id, probing the handle at most once per epoch. */
    method Alive(k: Addr, live: map<Addr, Obj>) returns (id: nat, ok: bool)
      requires k in maps
      modifies this`maps
      ensures ok == Hits(old(maps), encEp, live, k)
      ensures maps == if ok then old(maps)[k := old(maps)[k].(ep := encEp)] else old(maps)
      ensures ok ==> id == old(maps)[k].id
    {
      var ent := maps[k];
      if ent.ep != encEp {
        if !HandleLive(live, k, ent) {
          return 0, false;
        }
        maps := maps[k := ent.(ep := encEp)];
      }
      return ent.id, true;
    }

    /** Evicts the entries whose handle has cleared. */
    method Evict(live: map<Addr, Obj>)
      modifies this`maps
      ensures maps == Swept(old(maps), live)
    {
      var rest := maps.Keys;
      ghost var all := maps;
      while rest != {}
        invariant rest <= all.Keys && maps.Keys <= all.Keys
        invariant forall k :: k in all ==> (k in maps <==> k in rest || HandleLive(live, k, all[k]))
        invariant forall k :: k in maps ==> maps[k] == all[k]
        decreases |rest|
      {
        var k :| k in rest;
        if !HandleLive(live, k, maps[k]) {
          maps := maps - {k};
        }
        rest := rest - {k};
      }
      assert maps.Keys == Swept(all, live).Keys;
    }

    /** A sweep between two positions. */
    method SweepDead(live: map<Addr, Obj>)
      requires Valid() && live == After(events).live
      modifies this
      ensures Valid() && events == old(events) + [Sweep] && maps == Swept(old(maps), live)
    {
      QuietInit(events, Sweep);
      Evict(live);
      events := events + [Sweep];
    }

    /**
      One map position holding the live object at `k`; `sweep` is whether the insert triggers a sweep. A REF names
      that object, a literal takes an id given to nobody, and it is a REF exactly if the object has an id.
     */
    method EncodeMap(k: Addr, live: map<Addr, Obj>, sweep: bool) returns (t: Token)
      requires Valid() && live == After(events).live && k in live
      modifies this
      ensures Valid() && events == old(events) + [Visit(k, sweep)] && t == VisitToken(old(After(events)), k)
      ensures match t
              case Ref(id) => id in old(After(events)).owner && old(After(events)).owner[id] == live[k]
              case Literal(id) => id !in old(After(events)).owner
      ensures t.Ref? <==> exists id :: id in old(After(events)).owner && old(After(events)).owner[id] == live[k]
    {
      hide Run;
      QuietInit(events, Visit(k, sweep));
      RefNamesItsObject(events, k);
      RefIffOwned(events, k);
      events := events + [Visit(k, sweep)];
      if k in maps {
        var id, ok := Alive(k, live);
        if ok {
          return Ref(id);
        }
      }
      t := Literal(nextID);
      maps := maps[k := WeakID(nextID, encEp, live[k])];
      nextID := nextID + 1;
      if sweep {
        Evict(live);
      }
    }
  }
}
