/**
 * Any number of callers interleaving on the connection pool: acquiring in two
 * phases, releasing, pinning and closing, in every order.
 */
module PoolRuns {
  import opened ConnectionPool

  /** A release function handed to a caller, and whether it was called. */
  datatype Grant = Grant(entry: nat, fired: bool)

  /**
   * The pool, the callers between the two phases of Acquire (`connecting`, and
   * `arrived` once they hold a handle), how many handles were ever opened, and
   * the release functions handed out.  `usedAt` and `clock` are history: when
   * each entry was last used.
   */
  datatype World = World(
    pool: State, connecting: multiset<Name>, arrived: map<Handle, Name>, connects: nat, grants: seq<Grant>,
    usedAt: seq<nat>, clock: nat)

  datatype Step =
    | Begin(name: Name)
    | Connect(name: Name, ok: bool)
    | Finish(db: Handle)
    | Fire(grant: nat)
    | Pin(name: Name)
    | CloseAll

  function Outstanding(grants: seq<Grant>, id: nat): nat {
    if grants == [] then 0 else
      var g := grants[|grants| - 1];
      Outstanding(grants[..|grants| - 1], id) + if g.entry == id && !g.fired then 1 else 0
  }

  // ---------- the invariant ----------

  /** The map and the list agree, and exactly the listed entries are not evicted. */
  ghost predicate Listing(databases: map<Name, nat>, order: seq<nat>, entries: seq<Entry>) {
    && Linked(databases, order, entries)
    && forall id :: 0 <= id < |entries| ==> (entries[id].evicted <==> id !in order)
  }

  /** An entry's references are its outstanding releases. */
  ghost predicate Counting(entries: seq<Entry>, grants: seq<Grant>) {
    && (forall i :: 0 <= i < |grants| ==> grants[i].entry < |entries|)
    && forall id :: 0 <= id < |entries| ==> entries[id].refs == Outstanding(grants, id)
  }

  predicate Done(e: Entry) {
    e.evicted && e.refs == 0
  }

  /**
   * Every handle is held by one caller or one entry, or closed; an entry's handle is closed
   * once it is evicted and idle.
   */
  ghost predicate Handles(entries: seq<Entry>, closes: multiset<Handle>, arrived: map<Handle, Name>, connects: nat) {
    && (forall h: Handle :: h in arrived ==> h < connects && closes[h] == 0)
    && (forall id :: 0 <= id < |entries| ==> entries[id].db < connects && entries[id].db !in arrived)
    && (forall id, id' :: 0 <= id < id' < |entries| ==> entries[id].db != entries[id'].db)
    && (forall h: Handle :: closes[h] <= 1 && (closes[h] > 0 ==> h < connects))
    && (forall id :: 0 <= id < |entries| ==> (closes[entries[id].db] == 1 <==> Done(entries[id])))
    && (forall h: Handle :: 0 <= h < connects ==> h in arrived || closes[h] == 1 || Holds(entries, h))
  }

  ghost predicate Holds(entries: seq<Entry>, h: Handle) {
    exists id :: 0 <= id < |entries| && entries[id].db == h
  }

  /** The list is in the order of last use, most recent first. */
  ghost predicate Recency(order: seq<nat>, known: nat, usedAt: seq<nat>, clock: nat) {
    && |usedAt| == known
    && (forall id :: 0 <= id < |usedAt| ==> usedAt[id] < clock)
    && (forall i :: 0 <= i < |order| ==> order[i] < |usedAt|)
    && (forall i, j :: 0 <= i < j < |order| ==> usedAt[order[i]] > usedAt[order[j]])
  }

  ghost predicate Core(w: World) {
    && Listing(w.pool.databases, w.pool.order, w.pool.entries)
    && Counting(w.pool.entries, w.grants)
    && Handles(w.pool.entries, w.pool.closes, w.arrived, w.connects)
    && Recency(w.pool.order, |w.pool.entries|, w.usedAt, w.clock)
  }

  ghost predicate Bounded(s: State) {
    s.max >= 1 && |s.order| <= s.max && (s.closed ==> s.order == [])
  }

  ghost predicate Inv(w: World) {
    Core(w) && Bounded(w.pool)
  }

  // ---------- the steps ----------

  ghost predicate Enabled(w: World, step: Step) {
    match step
    case Connect(name, ok) => name in w.connecting
    case Finish(db) => db in w.arrived
    case Fire(grant) => grant < |w.grants|
    case _ => true
  }

  /** A caller was handed the entry `id`. */
  ghost function Granted(w: World, pool: State, id: nat): World
    requires id <= |w.usedAt|
  {
    w.(pool := pool,
       grants := w.grants + [Grant(id, false)],
       usedAt := if id == |w.usedAt| then w.usedAt + [w.clock] else w.usedAt[id := w.clock],
       clock := w.clock + 1)
  }

  ghost function Apply(w: World, step: Step): World
    requires Inv(w) && Enabled(w, step)
  {
    match step
    case Begin(name) =>
      var (s, r) := AcquireBegin(w.pool, name);
      (match r
       case Refused => w
       case Reused(id) => Granted(w, s, id)
       case MustConnect => w.(pool := s, connecting := w.connecting + multiset{name}))
    case Connect(name, ok) =>
      var w' := w.(connecting := w.connecting - multiset{name});
      if ok then w'.(arrived := w.arrived[w.connects := name], connects := w.connects + 1) else w'
    case Finish(db) =>
      FinishReady(w, db);
      var (s, r) := AcquireFinish(w.pool, w.arrived[db], db);
      var w' := w.(arrived := w.arrived - {db});
      (match r
       case Reused(id) => Granted(w', s, id)
       case _ => w'.(pool := s))
    case Fire(grant) =>
      var g := w.grants[grant];
      if g.fired then w
      else w.(pool := Release(w.pool, g.entry), grants := w.grants[grant := g.(fired := true)])
    case Pin(name) => w.(pool := PinMark(w.pool, name))
    case CloseAll => w.(pool := Close(w.pool))
  }

  lemma FinishReady(w: World, db: Handle)
    requires Inv(w) && db in w.arrived
    ensures w.arrived[db] !in w.pool.databases ==> Insert(w.pool, w.arrived[db], db).Consistent()
  {
    if w.arrived[db] !in w.pool.databases {
      InsertConsistent(w.pool, w.arrived[db], db);
    }
  }

  ghost predicate AllEnabled(w: World, steps: seq<Step>)
    requires Inv(w)
    decreases |steps|
  {
    steps == [] || (Enabled(w, steps[0]) && (StepKeeps(w, steps[0]); AllEnabled(Apply(w, steps[0]), steps[1..])))
  }

  ghost function Run(w: World, steps: seq<Step>): (w': World)
    requires Inv(w) && AllEnabled(w, steps)
    ensures Inv(w')
    decreases |steps|
  {
    if steps == [] then w else
      StepKeeps(w, steps[0]);
      Run(Apply(w, steps[0]), steps[1..])
  }

  function Start(max: int): World {
    World(
      State(if max < 1 then DEFAULT_MAX else max, false, map[], [], [], multiset{}),
      multiset{}, map[], 0, [], [], 0)
  }

  lemma StartHolds(max: int)
    ensures Inv(Start(max))
  {
  }

  // ---------- counting ----------

  lemma {:induction false} OutstandingFired(grants: seq<Grant>, i: nat, id: nat)
    requires i < |grants| && !grants[i].fired
    ensures Outstanding(grants, id)
         == Outstanding(grants[i := grants[i].(fired := true)], id) + if grants[i].entry == id then 1 else 0
    decreases |grants|
  {
    var n := |grants| - 1;
    var grants' := grants[i := grants[i].(fired := true)];
    if i < n {
      assert grants'[..n] == grants[..n][i := grants[i].(fired := true)];
      OutstandingFired(grants[..n], i, id);
    } else {
      assert grants'[..n] == grants[..n];
    }
  }

  lemma OutstandingGranted(grants: seq<Grant>, entry: nat, id: nat)
    ensures Outstanding(grants + [Grant(entry, false)], id) == Outstanding(grants, id) + if entry == id then 1 else 0
  {
    assert (grants + [Grant(entry, false)])[..|grants|] == grants;
  }

  lemma {:induction false} OutstandingNew(grants: seq<Grant>, id: nat)
    requires forall i :: 0 <= i < |grants| ==> grants[i].entry < id
    ensures Outstanding(grants, id) == 0
    decreases |grants|
  {
    if grants != [] {
      OutstandingNew(grants[..|grants| - 1], id);
    }
  }

  lemma {:induction false} OutstandingNone(grants: seq<Grant>, id: nat)
    requires forall i :: 0 <= i < |grants| ==> grants[i].fired
    ensures Outstanding(grants, id) == 0
    decreases |grants|
  {
    if grants != [] {
      OutstandingNone(grants[..|grants| - 1], id);
    }
  }

  lemma {:induction false} OutstandingSome(grants: seq<Grant>, i: nat)
    requires i < |grants| && !grants[i].fired
    ensures Outstanding(grants, grants[i].entry) > 0
    decreases |grants|
  {
    if i < |grants| - 1 {
      OutstandingSome(grants[..|grants| - 1], i);
    }
  }

  // ---------- frames ----------

  /** Listing is about names and eviction only. */
  lemma ListingFrame(databases: map<Name, nat>, order: seq<nat>, es: seq<Entry>, es': seq<Entry>)
    requires Listing(databases, order, es) && |es| == |es'|
    requires forall id :: 0 <= id < |es| ==> es'[id].database == es[id].database && es'[id].evicted == es[id].evicted
    ensures Listing(databases, order, es')
  {
    forall id | id in order ensures es'[id].database in databases && databases[es'[id].database] == id {
      assert id < |es|;
    }
  }

  /** What becomes of handles depends only on which entries are evicted and idle. */
  lemma HandlesFrame(
    es: seq<Entry>, es': seq<Entry>, closes: multiset<Handle>, arrived: map<Handle, Name>, connects: nat)
    requires Handles(es, closes, arrived, connects) && |es| == |es'|
    requires forall id :: 0 <= id < |es| ==> es'[id].db == es[id].db && Done(es'[id]) == Done(es[id])
    ensures Handles(es', closes, arrived, connects)
  {
    hide Done, Holds;
    HoldsFrame(es, es');
  }

  lemma HoldsFrame(es: seq<Entry>, es': seq<Entry>)
    requires |es| <= |es'| && forall id :: 0 <= id < |es| ==> es'[id].db == es[id].db
    ensures forall h: Handle :: Holds(es, h) ==> Holds(es', h)
  {
    forall h: Handle | Holds(es, h) ensures Holds(es', h) {
      var id :| 0 <= id < |es| && es[id].db == h;
      assert es'[id].db == h;
    }
  }

  /** One entry becomes evicted and idle, and its handle is closed. */
  lemma HandlesDone(
    es: seq<Entry>, id: nat, e: Entry, closes: multiset<Handle>, arrived: map<Handle, Name>, connects: nat)
    requires Handles(es, closes, arrived, connects) && id < |es|
    requires e.db == es[id].db && !Done(es[id]) && Done(e)
    ensures Handles(es[id := e], closes + multiset{e.db}, arrived, connects)
  {
    hide Done, Holds;
    HoldsFrame(es, es[id := e]);
  }

  // ---------- evicting ----------

  lemma DropOrdered(order: seq<nat>, i: nat)
    requires i < |order|
    ensures var rest := Drop(order, i);
            |rest| == |order| - 1 && forall j :: 0 <= j < |rest| ==> rest[j] == order[if j < i then j else j + 1]
  {
  }

  lemma RecencyDrop(order: seq<nat>, i: nat, known: nat, usedAt: seq<nat>, clock: nat)
    requires i < |order| && Recency(order, known, usedAt, clock)
    ensures Recency(Drop(order, i), known, usedAt, clock)
  {
    hide Drop;
    DropOrdered(order, i);
  }

  lemma EvictListing(s: State, i: nat)
    requires Listing(s.databases, s.order, s.entries) && i < |s.order|
    ensures var t := Evict(s, i); Listing(t.databases, t.order, t.entries)
  {
    hide Drop;
    EvictConsistent(s, i);
    DropMembers(s.order, i);
  }

  lemma EvictKeeps(w: World, i: nat)
    requires Core(w) && i < |w.pool.order|
    ensures Core(w.(pool := Evict(w.pool, i)))
  {
    hide Drop, Recency, Handles, Listing;
    CoreRange(w);
    NotEvicted(w, i);
    var s, t := w.pool, Evict(w.pool, i);
    EvictListing(s, i);
    RecencyDrop(s.order, i, |s.entries|, w.usedAt, w.clock);
    var id := s.order[i];
    if s.entries[id].refs == 0 {
      HandlesDone(s.entries, id, t.entries[id], s.closes, w.arrived, w.connects);
    } else {
      HandlesFrame(s.entries, t.entries, s.closes, w.arrived, w.connects);
    }
  }

  lemma NotEvicted(w: World, i: nat)
    requires Core(w) && i < |w.pool.order|
    ensures w.pool.order[i] < |w.pool.entries| && !w.pool.entries[w.pool.order[i]].evicted
  {
    assert w.pool.order[i] in w.pool.order;
  }

  lemma {:induction false} EvictWalkKeeps(w: World, k: nat)
    requires Core(w) && k <= |w.pool.order|
    ensures Core(w.(pool := EvictWalk(w.pool, k)))
    decreases k
  {
    hide Core, Evict;
    CoreRange(w);
    if k > 0 && |w.pool.order| > w.pool.max && w.pool.entries[w.pool.order[k - 1]].pinned {
      EvictWalkKeeps(w, k - 1);
    } else if k > 0 && |w.pool.order| > w.pool.max {
      EvictKeeps(w, k - 1);
      EvictShorter(w.pool, k - 1);
      EvictWalkKeeps(w.(pool := Evict(w.pool, k - 1)), k - 1);
    }
  }

  lemma CoreRange(w: World)
    requires Core(w)
    ensures w.pool.Consistent()
  {
  }

  lemma EvictShorter(s: State, i: nat)
    requires i < |s.order| && s.order[i] < |s.entries|
    ensures Evict(s, i).order == Drop(s.order, i) && |Evict(s, i).order| == |s.order| - 1
    ensures Evict(s, i).max == s.max && Evict(s, i).closed == s.closed
  {
  }

  lemma {:induction false} EvictAllKeeps(w: World)
    requires Core(w)
    ensures Core(w.(pool := EvictAll(w.pool)))
    decreases |w.pool.order|
  {
    hide Core, Evict;
    CoreRange(w);
    if w.pool.order != [] {
      EvictKeeps(w, |w.pool.order| - 1);
      EvictShorter(w.pool, |w.pool.order| - 1);
      EvictAllKeeps(w.(pool := Evict(w.pool, |w.pool.order| - 1)));
    }
  }

  /**
   * After an insertion at most one entry is evicted: the least recently used
   * unpinned one, which may be the entry just inserted.
   */
  lemma OverLimitEvictsOne(s: State)
    requires s.Consistent() && |s.order| == s.max + 1 && !s.entries[s.order[0]].pinned
    ensures var v := VictimAfter(s, |s.order|, false);
            v > 0 && EvictOverLimit(s) == Evict(s, v - 1) && |EvictOverLimit(s).order| == s.max
  {
    hide Evict;
    WalkToVictim(s, |s.order|);
    EvictShorter(s, VictimAfter(s, |s.order|, false) - 1);
  }

  lemma {:induction false} WalkToVictim(s: State, k: nat)
    requires forall i :: 0 <= i < |s.order| ==> s.order[i] < |s.entries|
    requires |s.order| == s.max + 1 && k <= |s.order|
    ensures var v := VictimAfter(s, k, false);
            EvictWalk(s, k) == if v == 0 then s else Evict(s, v - 1)
    decreases k
  {
    hide Evict;
    if k > 0 {
      if s.entries[s.order[k - 1]].pinned {
        WalkToVictim(s, k - 1);
      } else {
        EvictShorter(s, k - 1);
        assert VictimAfter(s, k, false) == k;
      }
    }
  }

  // ---------- each step keeps the invariant ----------

  /** A use moves an entry to the front and stamps it with the present. */
  lemma RecencyUse(order: seq<nat>, i: nat, known: nat, usedAt: seq<nat>, clock: nat)
    requires i < |order| && Recency(order, known, usedAt, clock)
    requires forall j, k :: 0 <= j < k < |order| ==> order[j] != order[k]
    ensures Recency([order[i]] + Drop(order, i), known, usedAt[order[i] := clock], clock + 1)
  {
    hide Drop;
    var id, rest := order[i], Drop(order, i);
    RecencyDrop(order, i, known, usedAt, clock);
    DropMembers(order, i);
    var moved, usedAt' := [id] + rest, usedAt[id := clock];
    forall j | 0 <= j < |rest| ensures usedAt'[rest[j]] == usedAt[rest[j]] {
      assert rest[j] in rest;
    }
    forall j, k | 0 <= j < k < |moved| ensures usedAt'[moved[j]] > usedAt'[moved[k]] {
      assert moved[k] == rest[k - 1];
      if j > 0 {
        assert moved[j] == rest[j - 1];
      }
    }
  }

  lemma CountingGrant(entries: seq<Entry>, id: nat, grants: seq<Grant>)
    requires Counting(entries, grants) && id < |entries|
    ensures Counting(entries[id := entries[id].(refs := entries[id].refs + 1)], grants + [Grant(id, false)])
  {
    forall x | 0 <= x < |entries|
      ensures Outstanding(grants + [Grant(id, false)], x) == Outstanding(grants, x) + if x == id then 1 else 0
    {
      OutstandingGranted(grants, id, x);
    }
  }

  lemma ListedNotEvicted(w: World, name: Name)
    requires Core(w) && name in w.pool.databases
    ensures w.pool.databases[name] in w.pool.order
    ensures w.pool.databases[name] < |w.pool.entries| && !w.pool.entries[w.pool.databases[name]].evicted
    ensures forall j, k :: 0 <= j < k < |w.pool.order| ==> w.pool.order[j] != w.pool.order[k]
  {
  }

  lemma UseKeeps(w: World, name: Name)
    requires Core(w) && name in w.pool.databases
    ensures w.pool.databases[name] < |w.usedAt|
    ensures Core(Granted(w, Use(w.pool, name), w.pool.databases[name]))
  {
    hide Drop, PositionOf, Listing, Counting, Handles, Linked;
    CoreRange(w);
    ListedNotEvicted(w, name);
    var s, t, id := w.pool, Use(w.pool, name), w.pool.databases[name];
    var i := PositionOf(s.order, id);
    RecencyUse(s.order, i, |s.entries|, w.usedAt, w.clock);
    CountingGrant(s.entries, id, w.grants);
    UseListing(s, name);
    HandlesFrame(s.entries, t.entries, s.closes, w.arrived, w.connects);
  }

  lemma UseListing(s: State, name: Name)
    requires Listing(s.databases, s.order, s.entries) && name in s.databases
    ensures var t := Use(s, name); Listing(t.databases, t.order, t.entries)
  {
    hide Drop, PositionOf;
    UseConsistent(s, name);
    FrontMembers(s.order, PositionOf(s.order, s.databases[name]));
  }

  lemma InsertKeeps(w: World, name: Name, db: Handle)
    requires Core(w) && db in w.arrived && name !in w.pool.databases
    ensures |w.usedAt| == |w.pool.entries|
    ensures Core(Granted(w.(arrived := w.arrived - {db}), Insert(w.pool, name, db), |w.pool.entries|))
  {
    hide Counting, Handles, Linked, Listing;
    CoreRange(w);
    InsertListing(w.pool, name, db);
    InsertCounts(w.pool.entries, Entry(name, db, 1, false, false), w.grants);
    InsertHandles(w.pool.entries, Entry(name, db, 1, false, false), w.pool.closes, w.arrived, w.connects);
    var order, n := w.pool.order, |w.pool.entries|;
    var order', usedAt' := [n] + order, w.usedAt + [w.clock];
    forall i, j | 0 <= i < j < |order'| ensures usedAt'[order'[i]] > usedAt'[order'[j]] {
      assert order'[j] == order[j - 1];
      if i > 0 {
        assert order'[i] == order[i - 1];
      }
    }
  }

  lemma InsertListing(s: State, name: Name, db: Handle)
    requires Listing(s.databases, s.order, s.entries) && name !in s.databases
    ensures var t := Insert(s, name, db); Listing(t.databases, t.order, t.entries)
  {
    InsertConsistent(s, name, db);
    var t := Insert(s, name, db);
    forall id | 0 <= id < |t.entries| ensures t.entries[id].evicted <==> id !in t.order {
      assert id in t.order <==> id == |s.entries| || id in s.order;
    }
  }

  lemma InsertCounts(entries: seq<Entry>, e: Entry, grants: seq<Grant>)
    requires Counting(entries, grants) && e.refs == 1
    ensures Counting(entries + [e], grants + [Grant(|entries|, false)])
  {
    var n := |entries|;
    forall x | 0 <= x <= n ensures (entries + [e])[x].refs == Outstanding(grants + [Grant(n, false)], x) {
      OutstandingGranted(grants, n, x);
      if x == n {
        OutstandingNew(grants, n);
      }
    }
  }

  lemma InsertHandles(
    entries: seq<Entry>, e: Entry, closes: multiset<Handle>, arrived: map<Handle, Name>, connects: nat)
    requires Handles(entries, closes, arrived, connects) && e.db in arrived && !Done(e)
    ensures Handles(entries + [e], closes, arrived - {e.db}, connects)
  {
    hide Done, Holds;
    HoldsFrame(entries, entries + [e]);
    HoldsLast(entries, e);
    forall h: Handle | 0 <= h < connects ensures h in arrived - {e.db} || closes[h] == 1 || Holds(entries + [e], h) {
      assert h in arrived || closes[h] == 1 || Holds(entries, h);
    }
  }

  lemma HoldsLast(entries: seq<Entry>, e: Entry)
    ensures Holds(entries + [e], e.db)
  {
    assert (entries + [e])[|entries|].db == e.db;
  }

  /** A handle that arrives too late is closed at once. */
  lemma LateHandles(
    entries: seq<Entry>, db: Handle, closes: multiset<Handle>, arrived: map<Handle, Name>, connects: nat)
    requires Handles(entries, closes, arrived, connects) && db in arrived
    ensures Handles(entries, closes + multiset{db}, arrived - {db}, connects)
  {
    hide Done, Holds;
    forall h: Handle | 0 <= h < connects
      ensures h in arrived - {db} || (closes + multiset{db})[h] == 1 || Holds(entries, h)
    {
      assert h in arrived || closes[h] == 1 || Holds(entries, h);
    }
  }

  lemma LateKeeps(w: World, db: Handle)
    requires Core(w) && db in w.arrived
    ensures Core(w.(arrived := w.arrived - {db}, pool := w.pool.(closes := w.pool.closes + multiset{db})))
  {
    hide Handles;
    LateHandles(w.pool.entries, db, w.pool.closes, w.arrived, w.connects);
  }

  lemma CountingFire(entries: seq<Entry>, i: nat, grants: seq<Grant>)
    requires Counting(entries, grants) && i < |grants| && !grants[i].fired
    ensures var id := grants[i].entry;
            && entries[id].refs > 0
            && Counting(
                 entries[id := entries[id].(refs := entries[id].refs - 1)], grants[i := grants[i].(fired := true)])
  {
    forall x | 0 <= x < |entries|
      ensures Outstanding(grants, x)
           == Outstanding(grants[i := grants[i].(fired := true)], x) + if grants[i].entry == x then 1 else 0
    {
      OutstandingFired(grants, i, x);
    }
    OutstandingSome(grants, i);
  }

  lemma FireKeeps(w: World, i: nat)
    requires Core(w) && i < |w.grants| && !w.grants[i].fired
    ensures w.grants[i].entry < |w.pool.entries|
    ensures var g := w.grants[i];
            Core(w.(pool := Release(w.pool, g.entry), grants := w.grants[i := g.(fired := true)]))
  {
    hide Handles, Listing, Recency;
    var g, es := w.grants[i], w.pool.entries;
    var t := Release(w.pool, g.entry);
    CountingFire(es, i, w.grants);
    ListingFrame(w.pool.databases, w.pool.order, es, t.entries);
    if es[g.entry].evicted && es[g.entry].refs == 1 {
      HandlesDone(es, g.entry, t.entries[g.entry], w.pool.closes, w.arrived, w.connects);
    } else {
      HandlesFrame(es, t.entries, w.pool.closes, w.arrived, w.connects);
    }
  }

  lemma PinKeeps(w: World, name: Name)
    requires Core(w)
    ensures Core(w.(pool := PinMark(w.pool, name)))
  {
    hide Handles, Listing, Recency, Linked;
    CoreRange(w);
    if name in w.pool.databases {
      ListedNotEvicted(w, name);
      var es, es' := w.pool.entries, PinMark(w.pool, name).entries;
      ListingFrame(w.pool.databases, w.pool.order, es, es');
      HandlesFrame(es, es', w.pool.closes, w.arrived, w.connects);
    }
  }

  lemma ConnectKeeps(w: World, name: Name)
    requires Core(w)
    ensures Core(w.(arrived := w.arrived[w.connects := name], connects := w.connects + 1))
  {
    hide Listing, Recency, Counting, Done, Holds;
    forall h: Handle | 0 <= h <= w.connects
      ensures h in w.arrived[w.connects := name] || w.pool.closes[h] == 1 || Holds(w.pool.entries, h)
    {
      assert h < w.connects ==> h in w.arrived || w.pool.closes[h] == 1 || Holds(w.pool.entries, h);
    }
  }

  /** Every step keeps the invariant. */
  lemma StepKeeps(w: World, step: Step)
    requires Inv(w) && Enabled(w, step)
    ensures Inv(Apply(w, step))
  {
    hide Core, Granted, Use, Evict, Insert, EvictAll, EvictWalk;
    CoreRange(w);
    match step
    case Begin(name) => BeginKeeps(w, name);
    case Connect(name, ok) =>
      ConnectingIrrelevant(w, w.connecting - multiset{name});
      if ok {
        ConnectKeeps(w.(connecting := w.connecting - multiset{name}), name);
      }
    case Finish(db) => FinishKeeps(w, db);
    case Fire(grant) =>
      if !w.grants[grant].fired {
        GrantRange(w, grant);
        FireKeeps(w, grant);
      }
    case Pin(name) => PinKeeps(w, name);
    case CloseAll =>
      var w' := w.(pool := w.pool.(closed := true));
      ClosedIrrelevant(w);
      EvictAllKeeps(w');
      EvictAllConsistent(w'.pool);
  }

  lemma ConnectingIrrelevant(w: World, connecting: multiset<Name>)
    ensures Core(w.(connecting := connecting)) == Core(w)
  {
  }

  lemma ClosedIrrelevant(w: World)
    ensures Core(w.(pool := w.pool.(closed := true))) == Core(w)
  {
  }

  lemma GrantRange(w: World, grant: nat)
    requires Core(w) && grant < |w.grants|
    ensures w.grants[grant].entry < |w.pool.entries|
  {
  }

  lemma BeginKeeps(w: World, name: Name)
    requires Inv(w)
    ensures Inv(Apply(w, Begin(name)))
  {
    hide Core, Use, Evict, Granted;
    CoreRange(w);
    var s := w.pool;
    if s.closed {
    } else if name in s.databases {
      RecencyRange(w, name);
      UseKeeps(w, name);
      UseFields(s, name);
      GrantedPool(w, Use(s, name), s.databases[name]);
    } else {
      if |s.order| >= s.max {
        var v := VictimAfter(s, |s.order|, true);
        if v > 0 {
          EvictKeeps(w, v - 1);
          EvictFields(s, v - 1);
        }
      }
      ConnectingIrrelevant(w.(pool := AcquireBegin(s, name).0), w.connecting + multiset{name});
    }
  }

  lemma RecencyRange(w: World, name: Name)
    requires Core(w) && name in w.pool.databases
    ensures w.pool.databases[name] < |w.usedAt| == |w.pool.entries|
  {
  }

  lemma GrantedPool(w: World, s: State, id: nat)
    requires id <= |w.usedAt|
    ensures Granted(w, s, id).pool == s
  {
  }

  lemma UseFields(s: State, name: Name)
    requires s.Consistent() && name in s.databases
    ensures var t := Use(s, name); t.max == s.max && t.closed == s.closed && |t.order| == |s.order|
  {
  }

  lemma EvictFields(s: State, i: nat)
    requires s.Consistent() && i < |s.order|
    ensures var t := Evict(s, i); t.max == s.max && t.closed == s.closed && |t.order| == |s.order| - 1
  {
  }

  lemma FinishKeeps(w: World, db: Handle)
    requires Inv(w) && db in w.arrived
    ensures Inv(Apply(w, Finish(db)))
  {
    hide Core, Use, Evict, Insert, Granted, EvictWalk;
    CoreRange(w);
    FinishReady(w, db);
    var s, name := w.pool, w.arrived[db];
    var w' := w.(arrived := w.arrived - {db});
    var closing := s.(closes := s.closes + multiset{db});
    if s.closed || name in s.databases {
      LateKeeps(w, db);
      if !s.closed {
        var u := w'.(pool := closing);
        RecencyRange(u, name);
        UseKeeps(u, name);
        UseFields(closing, name);
        GrantedPool(w', Use(closing, name), s.databases[name]);
        GrantedAgain(w', closing, Use(closing, name), s.databases[name]);
      }
    } else {
      RecencyLength(w);
      InsertKeeps(w, name, db);
      var n := |s.entries|;
      var u := Granted(w', Insert(s, name, db), n);
      InsertFields(s, name, db);
      GrantedPool(w', Insert(s, name, db), n);
      CoreRange(u);
      EvictWalkKeeps(u, |u.pool.order|);
      GrantedThen(w', Insert(s, name, db), EvictOverLimit(Insert(s, name, db)), n);
      GrantedPool(w', EvictOverLimit(Insert(s, name, db)), n);
      OverLimitBounded(Insert(s, name, db));
    }
  }

  lemma RecencyLength(w: World)
    requires Core(w)
    ensures |w.usedAt| == |w.pool.entries|
  {
  }

  /** Who was granted what does not depend on the pool's other fields. */
  lemma GrantedAgain(w: World, before: State, pool: State, id: nat)
    requires id <= |w.usedAt|
    ensures Granted(w.(pool := before), pool, id) == Granted(w, pool, id)
  {
  }

  lemma GrantedThen(w: World, pool: State, later: State, id: nat)
    requires id <= |w.usedAt|
    ensures Granted(w, pool, id).(pool := later) == Granted(w, later, id)
  {
  }

  lemma InsertFields(s: State, name: Name, db: Handle)
    ensures var t := Insert(s, name, db);
            && t.max == s.max && t.closed == s.closed && |t.order| == |s.order| + 1
            && t.order[0] == |s.entries| && |t.entries| == |s.entries| + 1 && !t.entries[|s.entries|].pinned
  {
  }

  lemma OverLimitBounded(s: State)
    requires s.Consistent() && 1 <= |s.order| <= s.max + 1 && !s.closed && !s.entries[s.order[0]].pinned
    ensures var t := EvictOverLimit(s); t.max == s.max && t.closed == s.closed && |t.order| <= s.max
  {
    if |s.order| == s.max + 1 {
      OverLimitEvictsOne(s);
    }
  }

  // ---------- the theorems ----------

  /**
   * A listed handle is open and not evicted, references are the outstanding
   * releases, a handle with an outstanding release is open, no handle was
   * closed twice, the pool lists at most max handles, map and list agree, and
   * the list is in the order of last use.
   */
  ghost predicate Safe(w: World) {
    var s := w.pool;
    && (forall id :: id in s.order ==> id < |s.entries| && !s.entries[id].evicted && s.closes[s.entries[id].db] == 0)
    && (forall id :: 0 <= id < |s.entries| ==> s.entries[id].refs == Outstanding(w.grants, id))
    && (forall i :: 0 <= i < |w.grants| && !w.grants[i].fired ==>
          w.grants[i].entry < |s.entries| && s.closes[s.entries[w.grants[i].entry].db] == 0)
    && (forall h: Handle :: s.closes[h] <= 1)
    && |s.order| <= s.max
    && s.Consistent() && Recency(s.order, |s.entries|, w.usedAt, w.clock)
  }

  lemma InvSafe(w: World)
    requires Inv(w)
    ensures Safe(w)
  {
    var s := w.pool;
    forall i | 0 <= i < |w.grants| && !w.grants[i].fired
      ensures w.grants[i].entry < |s.entries| && s.closes[s.entries[w.grants[i].entry].db] == 0
    {
      OutstandingSome(w.grants, i);
    }
    forall id | id in s.order
      ensures id < |s.entries| && !s.entries[id].evicted && s.closes[s.entries[id].db] == 0
    {
      ListedRange(s, id);
    }
  }

  lemma ListedRange(s: State, id: nat)
    requires s.Consistent() && id in s.order
    ensures id < |s.entries|
  {
  }

  /** So it is after every interleaving of the steps, from a new pool. */
  lemma SafeAlways(max: int, steps: seq<Step>)
    requires (StartHolds(max); AllEnabled(Start(max), steps))
    ensures Safe((StartHolds(max); Run(Start(max), steps)))
  {
    hide Inv, AllEnabled, Safe, Run, Start;
    StartHolds(max);
    InvSafe(Run(Start(max), steps));
  }

  /**
   * The victim of an eviction is the least recently used of the entries that
   * may be evicted, also while an insertion has the list over the limit.
   */
  lemma VictimIsOldest(w: World, idleOnly: bool, id: nat)
    requires Core(w) && id in w.pool.order && Evictable(w.pool.entries[id], idleOnly)
    ensures var v := VictimAfter(w.pool, |w.pool.order|, idleOnly);
            v > 0 && w.usedAt[w.pool.order[v - 1]] <= w.usedAt[id]
  {
    hide Listing, Counting, Handles;
    var v := VictimAfter(w.pool, |w.pool.order|, idleOnly);
    var i :| 0 <= i < |w.pool.order| && w.pool.order[i] == id;
    assert i < v;
  }

  /** Making room before connecting closes at most one handle, unpinned and idle, and only at the limit. */
  lemma BeginEvicts(w: World, name: Name)
    requires Inv(w) && !w.pool.closed && name !in w.pool.databases
    ensures var w', v := Apply(w, Begin(name)), VictimAfter(w.pool, |w.pool.order|, true);
            if |w.pool.order| < w.pool.max || v == 0 then w'.pool == w.pool
            else
              var id := w.pool.order[v - 1];
              && w'.pool.order == Drop(w.pool.order, v - 1)
              && w'.pool.closes == w.pool.closes + multiset{w.pool.entries[id].db}
              && OldestOf(w.pool, w.usedAt, id, true)
  {
    hide Core, VictimAfter, Drop, OldestOf;
    CoreRange(w);
    if VictimAfter(w.pool, |w.pool.order|, true) > 0 {
      VictimOldest(w, true);
    }
    hide Linked;
  }

  /** No listed entry that may be evicted was used before `id`. */
  ghost predicate OldestOf(s: State, usedAt: seq<nat>, id: nat, idleOnly: bool) {
    && id in s.order && id < |s.entries| == |usedAt| && Evictable(s.entries[id], idleOnly)
    && forall x :: x in s.order && x < |s.entries| && Evictable(s.entries[x], idleOnly) ==> usedAt[id] <= usedAt[x]
  }

  lemma VictimOldest(w: World, idleOnly: bool)
    requires Core(w) && VictimAfter(w.pool, |w.pool.order|, idleOnly) > 0
    ensures OldestOf(w.pool, w.usedAt, w.pool.order[VictimAfter(w.pool, |w.pool.order|, idleOnly) - 1], idleOnly)
  {
    hide Handles, Counting, VictimAfter;
    var id := w.pool.order[VictimAfter(w.pool, |w.pool.order|, idleOnly) - 1];
    forall x | x in w.pool.order && x < |w.pool.entries| && Evictable(w.pool.entries[x], idleOnly)
      ensures w.usedAt[id] <= w.usedAt[x]
    {
      VictimIsOldest(w, idleOnly, x);
    }
  }

  lemma UnderLimit(s: State)
    requires s.Consistent() && |s.order| <= s.max
    ensures EvictOverLimit(s) == s
  {
  }

  /** An insertion evicts nothing below the limit, and at the limit exactly the least recently used unpinned entry. */
  lemma FinishEvicts(w: World, db: Handle)
    requires Inv(w) && db in w.arrived && !w.pool.closed && w.arrived[db] !in w.pool.databases
    ensures var s, w' := Insert(w.pool, w.arrived[db], db), Apply(w, Finish(db));
            var v := VictimAfter(s, |s.order|, false);
            if |w.pool.order| < w.pool.max then w'.pool == s
            else
              && v > 0 && w'.pool == Evict(s, v - 1) && |w'.pool.order| == w.pool.max
              && OldestOf(s, w'.usedAt, s.order[v - 1], false)
  {
    hide Core, Evict, VictimAfter, EvictWalk, Granted, Insert, OldestOf;
    FinishReady(w, db);
    CoreRange(w);
    var s, n := Insert(w.pool, w.arrived[db], db), |w.pool.entries|;
    RecencyLength(w);
    InsertFields(w.pool, w.arrived[db], db);
    GrantedPool(w.(arrived := w.arrived - {db}), EvictOverLimit(s), n);
    if |w.pool.order| == w.pool.max {
      OverLimitEvictsOne(s);
      var u := w.(arrived := w.arrived - {db});
      InsertKeeps(w, w.arrived[db], db);
      GrantedPool(u, s, n);
      GrantedThen(u, s, EvictOverLimit(s), n);
      VictimOldest(Granted(u, s, n), false);
    } else {
      UnderLimit(s);
    }
  }

  lemma ClosedStep(w: World, step: Step)
    requires Inv(w) && Enabled(w, step) && w.pool.closed
    ensures Apply(w, step).pool.closed && Apply(w, step).pool.order == []
  {
    StepKeeps(w, step);
    match step
    case Finish(db) => FinishReady(w, db);
    case CloseAll => EvictAllConsistent(w.pool.(closed := true));
    case _ =>
  }

  /** Once closed, the pool stays closed and empty whatever follows. */
  lemma {:induction false} ClosedForever(w: World, steps: seq<Step>)
    requires Inv(w) && AllEnabled(w, steps) && w.pool.closed
    ensures Run(w, steps).pool.closed && Run(w, steps).pool.order == []
    decreases |steps|
  {
    hide Apply, Core;
    if steps != [] {
      StepKeeps(w, steps[0]);
      ClosedStep(w, steps[0]);
      ClosedForever(Apply(w, steps[0]), steps[1..]);
    }
  }

  /** Closing empties the pool. */
  lemma CloseEmpties(w: World)
    requires Inv(w)
    ensures Apply(w, CloseAll).pool.closed && Apply(w, CloseAll).pool.order == []
  {
    EvictAllConsistent(w.pool.(closed := true));
  }

  /** An Acquire that connects after Close fails, and closes what it opened. */
  lemma LateAcquire(w: World, db: Handle)
    requires Inv(w) && w.pool.closed && db in w.arrived
    ensures (FinishReady(w, db); AcquireFinish(w.pool, w.arrived[db], db)).1 == Refused
    ensures var w' := Apply(w, Finish(db));
            w'.pool.closes[db] == 1 && db !in w'.arrived && w'.grants == w.grants && w'.pool.entries == w.pool.entries
  {
    FinishReady(w, db);
  }

  /**
   * When the pool is closed, no caller is connecting and every release was
   * called, each handle ever opened has been closed exactly once.
   */
  lemma AllClosedOnce(w: World)
    requires Inv(w) && w.pool.closed && w.arrived == map[]
    requires forall i :: 0 <= i < |w.grants| ==> w.grants[i].fired
    ensures forall h: Handle :: w.pool.closes[h] == if h < w.connects then 1 else 0
  {
    forall h: Handle ensures w.pool.closes[h] == if h < w.connects then 1 else 0 {
      assert w.pool.closes[h] > 0 ==> h < w.connects;
      if h < w.connects && w.pool.closes[h] != 1 {
        var id :| 0 <= id < |w.pool.entries| && w.pool.entries[id].db == h;
        OutstandingNone(w.grants, id);
      }
    }
  }

  /** Marking pins the entry a caller acquired exactly if that entry is still listed. */
  lemma PinMarksListed(w: World, id: nat)
    requires Inv(w) && id < |w.pool.entries|
    ensures var e := w.pool.entries[id];
            Apply(w, Pin(e.database)).pool.entries[id].pinned <==> e.pinned || id in w.pool.order
  {
    var name := w.pool.entries[id].database;
    if name in w.pool.databases {
      assert w.pool.databases[name] in w.pool.order;
    }
  }

  /** A new pool of one handle: `b` takes the place of `a`, which is still in use, and then `a` is pinned. */
  const PIN_TOO_LATE: seq<Step> :=
    [Begin("a"), Connect("a", true), Finish(0), Begin("b"), Connect("b", true), Finish(1), Pin("a")]

  /** So a handle in use can miss its pin: here the caller holds entry 0, which is evicted and stays unpinned. */
  lemma PinMissesEvicted()
    ensures (StartHolds(1); AllEnabled(Start(1), PIN_TOO_LATE))
    ensures var w := (StartHolds(1); Run(Start(1), PIN_TOO_LATE));
            && w.grants == [Grant(0, false), Grant(1, false)]
            && w.pool.entries == [Entry("a", 0, 1, true, false), Entry("b", 1, 1, false, false)]
            && w.pool.order == [1]
  {
    hide Inv, Apply, Enabled, AllEnabled, Run;
    StartHolds(1);
    var w0, w3 := Start(1), Held([Entry("a", 0, 1, false, false)]);
    var w6 := Held([Entry("a", 0, 1, true, false), Entry("b", 1, 1, false, false)]);
    var w1, w2 := w0.(connecting := multiset{"a"}), w0.(arrived := map[0 := "a"], connects := 1);
    var w4, w5 := w3.(connecting := multiset{"b"}), w3.(arrived := map[1 := "b"], connects := 2);
    BeginAndConnect(w0, "a");
    FinishFirst(w2);
    StepKeeps(w2, Finish(0));
    BeginAndConnect(w3, "b");
    FinishSecond(w5);
    StepKeeps(w5, Finish(1));
    PinNothing(w6, "a");
    StepKeeps(w6, Pin("a"));
    var steps := PIN_TOO_LATE;
    RunNothing(w6);
    assert steps[7..] == [];
    RunFrom(w6, steps, 6, w6);
    RunFrom(w5, steps, 5, w6);
    RunFrom(w4, steps, 4, w5);
    RunFrom(w3, steps, 3, w4);
    RunFrom(w2, steps, 2, w3);
    RunFrom(w1, steps, 1, w2);
    RunFrom(w0, steps, 0, w1);
    assert steps[0..] == steps;
  }

  /** The last entry alone is listed, and every entry is held by the one caller that connected it. */
  ghost function Held(entries: seq<Entry>): World
    requires entries != []
  {
    var n := |entries|;
    World(
      State(1, false, map[entries[n - 1].database := n - 1], [n - 1], entries, multiset{}), multiset{}, map[], n,
      seq(n, i requires 0 <= i < n => Grant(i, false)), seq(n, i requires 0 <= i < n => i), n)
  }

  lemma FinishInserts(w: World, db: Handle)
    requires Inv(w) && db in w.arrived && !w.pool.closed && w.arrived[db] !in w.pool.databases
    ensures var s, n := Insert(w.pool, w.arrived[db], db), |w.pool.entries|;
            && s.Consistent() && |w.usedAt| == n
            && Enabled(w, Finish(db))
            && Apply(w, Finish(db)) == Granted(w.(arrived := w.arrived - {db}), EvictOverLimit(s), n)
  {
    hide Core, Granted, Insert, EvictOverLimit;
    CoreRange(w);
    RecencyLength(w);
    FinishReady(w, db);
  }

  lemma FinishFirst(w: World)
    requires Inv(w) && w == Start(1).(arrived := map[0 := "a"], connects := 1)
    ensures Enabled(w, Finish(0)) && Apply(w, Finish(0)) == Held([Entry("a", 0, 1, false, false)])
  {
    hide Inv, Apply, Enabled;
    FinishInserts(w, 0);
    var s := Insert(w.pool, "a", 0);
    assert s.order == [0];
    assert EvictOverLimit(s) == s;
    assert w.arrived - {0} == map[];
  }

  lemma FinishSecond(w: World)
    requires Inv(w) && w == Held([Entry("a", 0, 1, false, false)]).(arrived := map[1 := "b"], connects := 2)
    ensures Enabled(w, Finish(1))
    ensures Apply(w, Finish(1)) == Held([Entry("a", 0, 1, true, false), Entry("b", 1, 1, false, false)])
  {
    hide Inv, Apply, Enabled;
    FinishInserts(w, 1);
    var s := Insert(w.pool, "b", 1);
    assert s.order == [1, 0];
    assert EvictOverLimit(s) == Evict(s, 1) by {
      hide Evict;
      EvictShorter(s, 1);
    }
    assert w.arrived - {1} == map[];
  }

  lemma BeginConnects(w: World, name: Name)
    requires Inv(w) && !w.pool.closed && name !in w.pool.databases
    requires forall id :: 0 <= id < |w.pool.entries| ==> w.pool.entries[id].refs > 0
    ensures Enabled(w, Begin(name)) && Apply(w, Begin(name)) == w.(connecting := w.connecting + multiset{name})
  {
    hide Core, Evict;
    CoreRange(w);
  }

  lemma ConnectArrives(w: World, name: Name)
    requires Inv(w) && name in w.connecting
    ensures Enabled(w, Connect(name, true))
    ensures Apply(w, Connect(name, true)) ==
            w.(connecting := w.connecting - multiset{name},
               arrived := w.arrived[w.connects := name], connects := w.connects + 1)
  {
    hide Inv;
  }

  /** A caller of an idle pool that gets as far as holding a handle. */
  lemma BeginAndConnect(w: World, name: Name)
    requires Inv(w) && !w.pool.closed && name !in w.pool.databases && w.connecting == multiset{} && w.arrived == map[]
    requires forall id :: 0 <= id < |w.pool.entries| ==> w.pool.entries[id].refs > 0
    ensures var w' := w.(connecting := multiset{name});
            && Enabled(w, Begin(name)) && Apply(w, Begin(name)) == w'
            && Inv(w') && Enabled(w', Connect(name, true))
            && Apply(w', Connect(name, true)) == w.(arrived := map[w.connects := name], connects := w.connects + 1)
            && Inv(Apply(w', Connect(name, true)))
  {
    hide Inv, Apply;
    var w' := w.(connecting := multiset{name});
    assert w.connecting + multiset{name} == w'.connecting && w'.connecting - multiset{name} == w.connecting;
    assert w.arrived[w.connects := name] == map[w.connects := name];
    BeginConnects(w, name);
    StepKeeps(w, Begin(name));
    ConnectArrives(w', name);
    StepKeeps(w', Connect(name, true));
  }

  lemma PinNothing(w: World, name: Name)
    requires Inv(w) && name !in w.pool.databases
    ensures Enabled(w, Pin(name)) && Apply(w, Pin(name)) == w
  {
    hide Inv;
  }

  lemma RunNothing(w: World)
    requires Inv(w)
    ensures AllEnabled(w, []) && Run(w, []) == w
  {
    hide Inv;
  }

  lemma RunFrom(w: World, steps: seq<Step>, k: nat, w': World)
    requires Inv(w) && k < |steps| && Enabled(w, steps[k]) && Apply(w, steps[k]) == w'
    requires (StepKeeps(w, steps[k]); AllEnabled(w', steps[k + 1..]))
    ensures AllEnabled(w, steps[k..]) && Run(w, steps[k..]) == (StepKeeps(w, steps[k]); Run(w', steps[k + 1..]))
  {
    hide Inv, Enabled, Apply;
    assert steps[k..][0] == steps[k] && steps[k..][1..] == steps[k + 1..];
    StepKeeps(w, steps[k]);
  }

  /** An entry is listed and pinned, with the handle `db`. */
  ghost predicate Kept(s: State, id: nat, db: Handle) {
    id in s.order && id < |s.entries| && s.entries[id].pinned && s.entries[id].db == db
  }

  lemma KeptUse(s: State, name: Name, id: nat, db: Handle)
    requires s.Consistent() && name in s.databases && Kept(s, id, db)
    ensures Kept(Use(s, name), id, db)
  {
    FrontMembers(s.order, PositionOf(s.order, s.databases[name]));
  }

  lemma KeptEvict(s: State, i: nat, id: nat, db: Handle)
    requires s.Consistent() && i < |s.order| && !s.entries[s.order[i]].pinned && Kept(s, id, db)
    ensures Kept(Evict(s, i), id, db)
  {
    DropMembers(s.order, i);
  }

  lemma KeptInsert(s: State, name: Name, added: Handle, id: nat, db: Handle)
    requires s.Consistent() && Kept(s, id, db)
    ensures Kept(Insert(s, name, added), id, db)
  {
    assert Insert(s, name, added).order[1..] == s.order;
  }

  lemma KeptStep(w: World, step: Step, id: nat, db: Handle)
    requires Inv(w) && Enabled(w, step) && Kept(w.pool, id, db) && step != CloseAll
    ensures Kept(Apply(w, step).pool, id, db)
  {
    hide Core, Kept, Use, Evict, Insert, Granted, EvictWalk, Linked;
    CoreRange(w);
    RecencyLength(w);
    var s := w.pool;
    match step
    case Begin(name) =>
      if s.closed {
      } else if name in s.databases {
        RecencyRange(w, name);
        GrantedPool(w, Use(s, name), s.databases[name]);
        KeptUse(s, name, id, db);
      } else if |s.order| >= s.max {
        OrderInRange(s);
        var v := VictimAfter(s, |s.order|, true);
        if v > 0 {
          KeptEvict(s, v - 1, id, db);
        }
      }
    case Finish(h) => KeptFinish(w, h, id, db);
    case Fire(grant) =>
      if !w.grants[grant].fired {
        GrantRange(w, grant);
        KeptRelease(s, w.grants[grant].entry, id, db);
      }
    case Pin(name) => KeptPin(s, name, id, db);
    case Connect(_, _) =>
  }

  lemma KeptRelease(s: State, entry: nat, id: nat, db: Handle)
    requires entry < |s.entries| && Kept(s, id, db)
    ensures Kept(Release(s, entry), id, db)
  {
  }

  lemma KeptPin(s: State, name: Name, id: nat, db: Handle)
    requires s.Consistent() && Kept(s, id, db)
    ensures Kept(PinMark(s, name), id, db)
  {
  }

  lemma KeptCloses(s: State, closes: multiset<Handle>, id: nat, db: Handle)
    requires Kept(s, id, db)
    ensures Kept(s.(closes := closes), id, db)
  {
  }

  lemma KeptFinish(w: World, h: Handle, id: nat, db: Handle)
    requires Inv(w) && h in w.arrived && Kept(w.pool, id, db)
    ensures Kept(Apply(w, Finish(h)).pool, id, db)
  {
    hide Core, Kept, Use, Evict, Insert, Granted, EvictWalk, Linked;
    CoreRange(w);
    RecencyLength(w);
    FinishReady(w, h);
    var s, name := w.pool, w.arrived[h];
    var closing, w' := s.(closes := s.closes + multiset{h}), w.(arrived := w.arrived - {h});
    KeptCloses(s, closing.closes, id, db);
    if !s.closed && name in s.databases {
      RecencyRange(w, name);
      KeptUse(closing, name, id, db);
      GrantedPool(w', Use(closing, name), s.databases[name]);
    } else if !s.closed {
      var t := Insert(s, name, h);
      KeptInsert(s, name, h, id, db);
      GrantedPool(w', EvictOverLimit(t), |s.entries|);
      InsertFields(s, name, h);
      if |t.order| > t.max {
        OrderInRange(t);
        OverLimitEvictsOne(t);
        KeptEvict(t, VictimAfter(t, |t.order|, false) - 1, id, db);
      } else {
        UnderLimit(t);
      }
    }
  }

  /** A pinned handle stays listed and open until the pool is closed. */
  lemma {:induction false} PinnedStays(w: World, steps: seq<Step>, id: nat)
    requires Inv(w) && AllEnabled(w, steps) && id in w.pool.order && w.pool.entries[id].pinned
    requires CloseAll !in steps
    ensures var w' := Run(w, steps);
            && id in w'.pool.order && w'.pool.entries[id].db == w.pool.entries[id].db
            && w'.pool.closes[w.pool.entries[id].db] == 0
    decreases |steps|
  {
    hide Apply, Core;
    if steps == [] {
      InvSafe(w);
    } else {
      StepKeeps(w, steps[0]);
      CoreRange(w);
      ListedRange(w.pool, id);
      KeptStep(w, steps[0], id, w.pool.entries[id].db);
      PinnedStays(Apply(w, steps[0]), steps[1..], id);
    }
  }
}
