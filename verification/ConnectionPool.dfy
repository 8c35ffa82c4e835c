/**
 * The pool of database handles: a map, a recency list, reference counts, pins
 * and deferred close.  Each section that holds the lock is one operation; a
 * pure state gives its meaning and the class is proved to compute it.
 */
module ConnectionPool {

  type Name = string
  type Handle = nat

  const DEFAULT_MAX: nat := 10

  /** One pooled database; entries are named by their position in the pool's table. */
  datatype Entry = Entry(database: Name, db: Handle, refs: int, evicted: bool, pinned: bool)

  /** The pool's state, and how often each handle was closed. */
  datatype State = State(
    max: nat, closed: bool, databases: map<Name, nat>, order: seq<nat>, entries: seq<Entry>, closes: multiset<Handle>)
  {
    /** References stay inside the entry table and the map and the list name the same entries. */
    ghost predicate Consistent() {
      Linked(databases, order, entries)
    }
  }

  ghost predicate Linked(databases: map<Name, nat>, order: seq<nat>, entries: seq<Entry>) {
    && (forall i :: 0 <= i < |order| ==> order[i] < |entries|)
    && (forall i, j :: 0 <= i < j < |order| ==> order[i] != order[j])
    && (forall name :: name in databases ==> databases[name] in order && entries[databases[name]].database == name)
    && (forall id :: id in order ==> entries[id].database in databases && databases[entries[id].database] == id)
  }

  datatype Acquired = Refused | Reused(entry: nat) | MustConnect

  function PositionOf(order: seq<nat>, id: nat): (i: nat)
    requires id in order
    ensures i < |order| && order[i] == id
  {
    if order[0] == id then 0 else 1 + PositionOf(order[1..], id)
  }

  function Drop(order: seq<nat>, i: nat): seq<nat>
    requires i < |order|
  {
    order[..i] + order[i + 1..]
  }

  /** Marks a listed entry as most recently used and takes a reference to it. */
  function Use(s: State, name: Name): State
    requires s.Consistent() && name in s.databases
  {
    var id := s.databases[name];
    s.(order := [id] + Drop(s.order, PositionOf(s.order, id)),
       entries := s.entries[id := s.entries[id].(refs := s.entries[id].refs + 1)])
  }

  /** Unlists the entry at a position; an idle handle is closed, one in use is left to its last release. */
  function Evict(s: State, i: nat): State
    requires i < |s.order| && s.order[i] < |s.entries|
  {
    var id := s.order[i];
    var e := s.entries[id];
    s.(order := Drop(s.order, i),
       databases := s.databases - {e.database},
       entries := s.entries[id := e.(evicted := true)],
       closes := if e.refs == 0 then s.closes + multiset{e.db} else s.closes)
  }

  predicate Evictable(e: Entry, idleOnly: bool) {
    !e.pinned && (idleOnly ==> e.refs == 0)
  }

  /** The position of the least recently used entry that may be evicted, plus one; zero if there is none. */
  function VictimAfter(s: State, k: nat, idleOnly: bool): (v: nat)
    requires k <= |s.order| && forall i :: 0 <= i < |s.order| ==> s.order[i] < |s.entries|
    ensures v <= k
    ensures v > 0 ==> Evictable(s.entries[s.order[v - 1]], idleOnly)
    ensures forall i :: v <= i < k ==> !Evictable(s.entries[s.order[i]], idleOnly)
  {
    if k == 0 || Evictable(s.entries[s.order[k - 1]], idleOnly) then k else VictimAfter(s, k - 1, idleOnly)
  }

  function EvictIdle(s: State): State
    requires s.Consistent()
  {
    var v := VictimAfter(s, |s.order|, true);
    if v == 0 then s else Evict(s, v - 1)
  }

  /** The walk from position `k` towards the front while too many handles are open. */
  function EvictWalk(s: State, k: nat): State
    requires k <= |s.order| && forall i :: 0 <= i < k ==> s.order[i] < |s.entries|
    decreases k
  {
    if k == 0 || |s.order| <= s.max then s
    else EvictWalk(if s.entries[s.order[k - 1]].pinned then s else Evict(s, k - 1), k - 1)
  }

  function EvictOverLimit(s: State): State
    requires s.Consistent()
  {
    EvictWalk(s, |s.order|)
  }

  /** The first locked section of Acquire. */
  function AcquireBegin(s: State, name: Name): (State, Acquired)
    requires s.Consistent()
  {
    if s.closed then (s, Refused)
    else if name in s.databases then (Use(s, name), Reused(s.databases[name]))
    else if |s.order| >= s.max then (EvictIdle(s), MustConnect)
    else (s, MustConnect)
  }

  /** A new entry at the front with one reference. */
  function Insert(s: State, name: Name, db: Handle): State {
    s.(databases := s.databases[name := |s.entries|],
       order := [|s.entries|] + s.order,
       entries := s.entries + [Entry(name, db, 1, false, false)])
  }

  /** The second locked section of Acquire, holding a handle that was just opened. */
  function AcquireFinish(s: State, name: Name, db: Handle): (State, Acquired)
    requires s.Consistent()
    requires name !in s.databases ==> Insert(s, name, db).Consistent()
  {
    var closing := s.(closes := s.closes + multiset{db});
    if s.closed then (closing, Refused)
    else if name in s.databases then (Use(closing, name), Reused(s.databases[name]))
    else (EvictOverLimit(Insert(s, name, db)), Reused(|s.entries|))
  }

  function Release(s: State, id: nat): State
    requires id < |s.entries|
  {
    var e := s.entries[id].(refs := s.entries[id].refs - 1);
    s.(entries := s.entries[id := e],
       closes := if e.evicted && e.refs == 0 then s.closes + multiset{e.db} else s.closes)
  }

  function PinMark(s: State, name: Name): State
    requires name in s.databases ==> s.databases[name] < |s.entries|
  {
    if name !in s.databases then s else
      var id := s.databases[name];
      s.(entries := s.entries[id := s.entries[id].(pinned := true)])
  }

  /** Evicting from the back until nothing is listed. */
  function EvictAll(s: State): State
    requires forall i :: 0 <= i < |s.order| ==> s.order[i] < |s.entries|
    decreases |s.order|
  {
    if s.order == [] then s else EvictAll(Evict(s, |s.order| - 1))
  }

  function Close(s: State): State
    requires s.Consistent()
  {
    EvictAll(s.(closed := true))
  }

  lemma InsertConsistent(s: State, name: Name, db: Handle)
    requires s.Consistent() && name !in s.databases
    ensures Insert(s, name, db).Consistent()
  {
    var t := Insert(s, name, db);
    forall i | 0 <= i < |t.order| ensures t.order[i] < |t.entries| {}
    forall id | id in t.order
      ensures t.entries[id].database in t.databases && t.databases[t.entries[id].database] == id
    {
      if id != |s.entries| {
        assert id in s.order;
      }
    }
  }

  /** Dropping a position removes exactly that entry from the list. */
  lemma DropMembers(order: seq<nat>, i: nat)
    requires i < |order| && forall j, k :: 0 <= j < k < |order| ==> order[j] != order[k]
    ensures var rest := Drop(order, i);
            && (forall j, k :: 0 <= j < k < |rest| ==> rest[j] != rest[k])
            && (forall id :: id in rest <==> id in order && id != order[i])
  {
    var rest := Drop(order, i);
    forall id | id in order && id != order[i] ensures id in rest {
      var j :| 0 <= j < |order| && order[j] == id;
      assert if j < i then rest[j] == id else rest[j - 1] == id;
    }
  }

  lemma EvictConsistent(s: State, i: nat)
    requires s.Consistent() && i < |s.order|
    ensures Evict(s, i).Consistent()
  {
    DropMembers(s.order, i);
    var t := Evict(s, i);
    assert s.order[i] in s.order;
    forall name | name in t.databases
      ensures t.databases[name] in t.order && t.entries[t.databases[name]].database == name
    {
      assert name in s.databases;
    }
    forall id | id in t.order
      ensures t.entries[id].database in t.databases && t.databases[t.entries[id].database] == id
    {
      assert id in s.order;
    }
  }

  /** Moving a position to the front keeps the members and their distinctness. */
  lemma FrontMembers(order: seq<nat>, i: nat)
    requires i < |order| && forall j, k :: 0 <= j < k < |order| ==> order[j] != order[k]
    ensures var moved := [order[i]] + Drop(order, i);
            && (forall j, k :: 0 <= j < k < |moved| ==> moved[j] != moved[k])
            && (forall id :: id in moved <==> id in order)
  {
    DropMembers(order, i);
    var rest, moved := Drop(order, i), [order[i]] + Drop(order, i);
    forall id ensures id in moved <==> id in order {
      assert id in moved <==> id == order[i] || id in rest;
    }
    forall j, k | 0 <= j < k < |moved| ensures moved[j] != moved[k] {
      assert moved[k] == rest[k - 1] && rest[k - 1] in rest;
    }
  }

  lemma UseConsistent(s: State, name: Name)
    requires s.Consistent() && name in s.databases
    ensures Use(s, name).Consistent()
  {
    hide Drop, PositionOf;
    var t := Use(s, name);
    FrontMembers(s.order, PositionOf(s.order, s.databases[name]));
    forall i | 0 <= i < |t.order| ensures t.order[i] < |t.entries| {
      assert t.order[i] in s.order;
    }
  }

  lemma EvictWalkStep(s: State, k: nat)
    requires s.Consistent() && 0 < k <= |s.order| && |s.order| > s.max
    ensures forall i :: 0 <= i < |s.order| ==> s.order[i] < |s.entries|
    ensures |Evict(s, k - 1).order| == |s.order| - 1
    ensures Evict(s, k - 1).Consistent()
    ensures (OrderInRange(Evict(s, k - 1));
             EvictWalk(s, k) == EvictWalk(if s.entries[s.order[k - 1]].pinned then s else Evict(s, k - 1), k - 1))
  {
    hide Linked, Evict;
    OrderInRange(s);
    EvictConsistent(s, k - 1);
    EvictLength(s, k - 1);
    OrderInRange(Evict(s, k - 1));
  }

  lemma EvictLength(s: State, i: nat)
    requires i < |s.order| && s.order[i] < |s.entries|
    ensures |Evict(s, i).order| == |s.order| - 1
  {
  }

  lemma {:induction false} EvictWalkConsistent(s: State, k: nat)
    requires s.Consistent() && k <= |s.order|
    ensures EvictWalk(s, k).Consistent()
    decreases k
  {
    hide Evict, Linked;
    if k > 0 && |s.order| > s.max {
      EvictWalkStep(s, k);
      hide EvictWalk;
      EvictWalkConsistent(if s.entries[s.order[k - 1]].pinned then s else Evict(s, k - 1), k - 1);
    }
  }

  lemma {:induction false} EvictAllConsistent(s: State)
    requires s.Consistent()
    ensures EvictAll(s).Consistent()
    ensures EvictAll(s).order == [] && EvictAll(s).closed == s.closed && EvictAll(s).max == s.max
    decreases |s.order|
  {
    if s.order != [] {
      EvictConsistent(s, |s.order| - 1);
      EvictAllConsistent(Evict(s, |s.order| - 1));
    }
  }

  lemma VictimStep(s: State, k: nat)
    requires 0 < k <= |s.order| && s.Consistent()
    ensures s.order[k - 1] < |s.entries|
    ensures VictimAfter(s, k, true) ==
            if Evictable(s.entries[s.order[k - 1]], true) then k else VictimAfter(s, k - 1, true)
  {
  }

  lemma OrderInRange(s: State)
    requires s.Consistent()
    ensures forall i :: 0 <= i < |s.order| ==> s.order[i] < |s.entries|
  {
  }

  lemma CloseIs(s: State)
    requires s.Consistent()
    ensures var t := s.(closed := true);
            && t.Consistent() && (forall i :: 0 <= i < |t.order| ==> t.order[i] < |t.entries|)
            && Close(s) == EvictAll(t)
  {
  }

  lemma AllEvicted(s: State)
    requires s.order == []
    ensures EvictAll(s) == s
  {
  }

  lemma EvictIdleIs(s: State)
    requires s.Consistent()
    ensures forall i :: 0 <= i < |s.order| ==> s.order[i] < |s.entries|
    ensures var v := VictimAfter(s, |s.order|, true); EvictIdle(s) == if v == 0 then s else Evict(s, v - 1)
  {
  }

  lemma VictimNone(s: State)
    requires s.Consistent()
    ensures VictimAfter(s, 0, true) == 0
  {
  }

  lemma EvictAllStep(s: State)
    requires s.Consistent() && s.order != []
    ensures s.order[|s.order| - 1] < |s.entries|
    ensures EvictAll(s) == EvictAll(Evict(s, |s.order| - 1))
    ensures |Evict(s, |s.order| - 1).order| == |s.order| - 1
  {
  }

  lemma ListedName(s: State, name: Name)
    requires s.Consistent() && name in s.databases
    ensures s.databases[name] in s.order && s.databases[name] < |s.entries|
  {
  }

  class Pool {
    var max: nat
    var closed: bool
    var databases: map<Name, nat>
    var order: seq<nat>
    var entries: seq<Entry>
    ghost var closes: multiset<Handle>

    ghost function Value(): State
      reads this
    {
      State(max, closed, databases, order, entries, closes)
    }

    constructor (requested: int)
      ensures Value() == State(if requested < 1 then 10 else requested, false, map[], [], [], multiset{})
    {
      max := if requested < 1 then DEFAULT_MAX else requested;
      closed := false;
      databases, order, entries, closes := map[], [], [], multiset{};
    }

    method UseEntry(name: Name) returns (found: bool, id: nat)
      requires Value().Consistent()
      modifies this
      ensures found == (name in old(databases))
      ensures found ==> id == old(databases)[name] && Value() == Use(old(Value()), name)
      ensures !found ==> Value() == old(Value())
    {
      hide Linked, PositionOf, Drop;
      found, id := false, 0;
      if name in databases {
        ListedName(Value(), name);
        found, id := true, databases[name];
        order := [id] + Drop(order, PositionOf(order, id));
        entries := entries[id := entries[id].(refs := entries[id].refs + 1)];
      }
    }

    method EvictAt(i: nat)
      requires i < |order| && order[i] < |entries|
      modifies this
      ensures Value() == Evict(old(Value()), i)
    {
      var id := order[i];
      order := Drop(order, i);
      databases := databases - {entries[id].database};
      entries := entries[id := entries[id].(evicted := true)];
      if entries[id].refs == 0 {
        closes := closes + multiset{entries[id].db};
      }
    }

    method EvictIdleEntry()
      requires Value().Consistent()
      modifies this
      ensures Value() == EvictIdle(old(Value()))
    {
      hide VictimAfter, EvictIdle, Evict, Linked;
      ghost var s := Value();
      OrderInRange(s);
      var k := |order|;
      while k > 0
        invariant 0 <= k <= |order| && Value() == s
        invariant forall i :: 0 <= i < |s.order| ==> s.order[i] < |s.entries|
        invariant VictimAfter(s, |order|, true) == VictimAfter(s, k, true)
      {
        VictimStep(s, k);
        var entry := entries[order[k - 1]];
        if !entry.pinned && entry.refs == 0 {
          EvictIdleIs(s);
          EvictAt(k - 1);
          return;
        }
        k := k - 1;
      }
      VictimNone(s);
      EvictIdleIs(s);
    }

    method EvictOverLimitEntries()
      requires Value().Consistent()
      modifies this
      ensures Value() == EvictOverLimit(old(Value()))
    {
      var k := |order|;
      while k > 0 && |order| > max
        invariant 0 <= k <= |order| && Value().Consistent()
        invariant EvictWalk(Value(), k) == EvictOverLimit(old(Value()))
      {
        if !entries[order[k - 1]].pinned {
          EvictConsistent(Value(), k - 1);
          EvictAt(k - 1);
        }
        k := k - 1;
      }
    }

    method Begin(name: Name) returns (r: Acquired)
      requires Value().Consistent()
      modifies this
      ensures (Value(), r) == AcquireBegin(old(Value()), name)
    {
      if closed {
        return Refused;
      }
      var found, id := UseEntry(name);
      if found {
        return Reused(id);
      }
      if |order| >= max {
        EvictIdleEntry();
      }
      return MustConnect;
    }

    method Finish(name: Name, db: Handle) returns (r: Acquired)
      requires Value().Consistent()
      modifies this
      ensures name !in old(databases) ==> Insert(old(Value()), name, db).Consistent()
      ensures (Value(), r) == AcquireFinish(old(Value()), name, db)
    {
      if name !in databases {
        InsertConsistent(Value(), name, db);
      }
      if closed {
        closes := closes + multiset{db};
        return Refused;
      }
      if name in databases {
        closes := closes + multiset{db};
        var found, id := UseEntry(name);
        return Reused(id);
      }
      r := Reused(|entries|);
      databases := databases[name := |entries|];
      order := [|entries|] + order;
      entries := entries + [Entry(name, db, 1, false, false)];
      EvictOverLimitEntries();
    }

    method ReleaseEntry(id: nat)
      requires id < |entries|
      modifies this
      ensures Value() == Release(old(Value()), id)
    {
      entries := entries[id := entries[id].(refs := entries[id].refs - 1)];
      if entries[id].evicted && entries[id].refs == 0 {
        closes := closes + multiset{entries[id].db};
      }
    }

    method MarkPinned(name: Name)
      requires Value().Consistent()
      modifies this
      ensures Value() == PinMark(old(Value()), name)
    {
      if name in databases {
        var id := databases[name];
        entries := entries[id := entries[id].(pinned := true)];
      }
    }

    method CloseAll()
      requires Value().Consistent()
      modifies this
      ensures Value() == Close(old(Value()))
    {
      hide Linked, EvictAll, Evict, Close;
      CloseIs(Value());
      closed := true;
      while |order| > 0
        invariant Value().Consistent()
        invariant forall i :: 0 <= i < |Value().order| ==> Value().order[i] < |Value().entries|
        invariant EvictAll(Value()) == Close(old(Value()))
        decreases |order|
      {
        EvictConsistent(Value(), |order| - 1);
        EvictAllStep(Value());
        EvictAt(|order| - 1);
        OrderInRange(Value());
      }
      AllEvicted(Value());
    }
  }

  /** A release function: the first call gives the reference back, later calls do nothing. */
  class Releaser {
    const entry: nat
    var fired: bool

    constructor (entry: nat)
      ensures this.entry == entry && !fired
    {
      this.entry := entry;
      fired := false;
    }

    method Fire(pool: Pool)
      requires entry < |pool.entries|
      modifies this, pool
      ensures fired
      ensures pool.Value() == if old(fired) then old(pool.Value()) else Release(old(pool.Value()), entry)
    {
      if !fired {
        fired := true;
        pool.ReleaseEntry(entry);
      }
    }
  }
}
