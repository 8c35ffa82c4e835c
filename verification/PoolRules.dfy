/**
 * What each call on the connection pool comes to, told by the listed names,
 * who holds what and the times of last use.
 */
module PoolRules {
  import opened ConnectionPool
  import opened PoolRuns

  ghost predicate Listed(s: State, name: Name, id: nat) {
    id in s.order && id < |s.entries| && s.entries[id].database == name
  }

  ghost predicate Unlisted(s: State, name: Name) {
    forall id: nat :: !Listed(s, name, id)
  }

  /** Of the listed entries that are unpinned and, unless `inUse`, unreferenced, the one used longest ago. */
  ghost predicate Oldest(s: State, usedAt: seq<nat>, id: nat, inUse: bool) {
    && MayGo(s, id, inUse) && |usedAt| == |s.entries|
    && forall x: nat :: MayGo(s, x, inUse) ==> usedAt[id] <= usedAt[x]
  }

  ghost predicate MayGo(s: State, id: nat, inUse: bool) {
    id in s.order && id < |s.entries| && !s.entries[id].pinned && (inUse || s.entries[id].refs == 0)
  }

  /** The entry was unlisted and, when nobody holds it, closed. */
  ghost predicate Removed(s: State, t: State, id: nat) {
    && id < |s.entries| && t.max == s.max && t.closed == s.closed
    && (forall x: nat :: x in t.order <==> x in s.order && x != id)
    && t.entries == s.entries[id := s.entries[id].(evicted := true)]
    && t.closes == if s.entries[id].refs == 0 then s.closes + multiset{s.entries[id].db} else s.closes
  }

  /** The entry was handed out once more and is now the first. */
  ghost predicate Shared(w: World, w': World, id: nat) {
    var s, t := w.pool, w'.pool;
    && id < |s.entries| && t.max == s.max && t.closed == s.closed
    && w'.grants == w.grants + [Grant(id, false)]
    && t.order != [] && t.order[0] == id && (forall x: nat :: x in t.order <==> x in s.order)
    && t.entries == s.entries[id := s.entries[id].(refs := s.entries[id].refs + 1)]
  }

  /**
   * The first half of Acquire: a closed pool refuses; a listed name is shared
   * without connecting; any other name is to be connected, for which a full
   * pool first gives up the idle unpinned handle used longest ago.
   */
  lemma BeginIs(w: World, name: Name)
    requires Inv(w)
    ensures var w', s := Apply(w, Begin(name)), w.pool;
            && (s.closed ==> w' == w)
            && (forall id: nat :: !s.closed && Listed(s, name, id) ==>
                  Shared(w, w', id) && w'.pool.closes == s.closes && w'.connecting == w.connecting)
            && (!s.closed && Unlisted(s, name) ==>
                  && w'.connecting == w.connecting + multiset{name} && w'.grants == w.grants
                  && (|s.order| < s.max || (forall id: nat :: !MayGo(s, id, false)) ==> w'.pool == s)
                  && (forall id: nat :: |s.order| >= s.max && Oldest(s, w.usedAt, id, false) ==>
                        Removed(s, w'.pool, id)))
  {
    hide Core, Shared, Removed, Oldest, Apply, MayGo;
    CoreRange(w);
    NamedIs(w.pool, name);
    if w.pool.closed {
      BeginRefused(w, name);
    } else if name in w.pool.databases {
      BeginShares(w, name);
    } else {
      BeginMakesRoom(w, name);
    }
  }

  lemma BeginRefused(w: World, name: Name)
    requires Inv(w) && w.pool.closed
    ensures Apply(w, Begin(name)) == w
  {
  }

  lemma BeginShares(w: World, name: Name)
    requires Inv(w) && !w.pool.closed && name in w.pool.databases
    ensures var w', id := Apply(w, Begin(name)), w.pool.databases[name];
            Shared(w, w', id) && w'.pool.closes == w.pool.closes && w'.connecting == w.connecting
  {
    hide Core, Shared, Granted, Use;
    CoreRange(w);
    RecencyRange(w, name);
    SharedIs(w, w, w.pool, name);
  }

  lemma BeginMakesRoom(w: World, name: Name)
    requires Inv(w) && !w.pool.closed && name !in w.pool.databases
    ensures var w', s := Apply(w, Begin(name)), w.pool;
            && w'.connecting == w.connecting + multiset{name} && w'.grants == w.grants
            && (|s.order| < s.max || (forall id: nat :: !MayGo(s, id, false)) ==> w'.pool == s)
            && (forall id: nat :: |s.order| >= s.max && Oldest(s, w.usedAt, id, false) ==> Removed(s, w'.pool, id))
  {
    hide Core, Removed, Oldest, MayGo, EvictIdle, VictimAfter, Linked, Evict;
    var s := w.pool;
    CoreRange(w);
    OldestMayGo(w.pool, w.usedAt);
    VictimIs(w, false);
    EvictIdleIs(s);
    var v := VictimAfter(s, |s.order|, true);
    if v > 0 {
      RemovedEvict(s, v - 1);
    }
  }

  lemma OldestMayGo(s: State, usedAt: seq<nat>)
    ensures forall id: nat, inUse :: Oldest(s, usedAt, id, inUse) ==> MayGo(s, id, inUse)
  {
  }

  /**
   * The second half, with a new handle for a name: a closed pool refuses and
   * closes it; a name listed meanwhile is shared and it is closed; any other
   * name gets an entry for it, held once, and a full pool gives up the
   * unpinned entry used longest ago, counting the new one.
   */
  lemma FinishIs(w: World, db: Handle)
    requires Inv(w) && db in w.arrived
    ensures var w', s, name := Apply(w, Finish(db)), w.pool, w.arrived[db];
            && w'.arrived == w.arrived - {db} && w'.connecting == w.connecting
            && (s.closed ==> w'.grants == w.grants && w'.pool == s.(closes := s.closes + multiset{db}))
            && (forall id: nat :: !s.closed && Listed(s, name, id) ==>
                  Shared(w, w', id) && w'.pool.closes == s.closes + multiset{db})
            && (!s.closed && Unlisted(s, name) ==>
                  && w'.grants == w.grants + [Grant(|s.entries|, false)]
                  && (|s.order| < s.max ==> Added(s, w'.pool, name, db))
                  && (|s.order| >= s.max ==>
                        exists t: State, id: nat ::
                          Added(s, t, name, db) && Oldest(t, w'.usedAt, id, true) && Removed(t, w'.pool, id)))
  {
    hide Core, Shared, Removed, Oldest, Apply, Added;
    CoreRange(w);
    NamedIs(w.pool, w.arrived[db]);
    if w.pool.closed {
      FinishRefused(w, db);
    } else if w.arrived[db] in w.pool.databases {
      FinishShares(w, db);
    } else {
      FinishAdds(w, db);
    }
  }

  lemma FinishRefused(w: World, db: Handle)
    requires Inv(w) && w.pool.closed && db in w.arrived
    ensures var w' := Apply(w, Finish(db));
            && w'.grants == w.grants && w'.pool == w.pool.(closes := w.pool.closes + multiset{db})
            && w'.arrived == w.arrived - {db} && w'.connecting == w.connecting
  {
    FinishReady(w, db);
  }

  lemma FinishShares(w: World, db: Handle)
    requires Inv(w) && db in w.arrived && !w.pool.closed && w.arrived[db] in w.pool.databases
    ensures var w', id := Apply(w, Finish(db)), w.pool.databases[w.arrived[db]];
            && Shared(w, w', id) && w'.pool.closes == w.pool.closes + multiset{db}
            && w'.arrived == w.arrived - {db} && w'.connecting == w.connecting
  {
    hide Core, Shared, Granted, Use;
    FinishReady(w, db);
    CoreRange(w);
    RecencyRange(w, w.arrived[db]);
    SharedIs(w, w.(arrived := w.arrived - {db}), w.pool.(closes := w.pool.closes + multiset{db}), w.arrived[db]);
  }

  /** A new entry for the handle is first, unpinned and held once. */
  ghost predicate Added(s: State, t: State, name: Name, db: Handle) {
    && t.max == s.max && t.closed == s.closed && t.closes == s.closes
    && t.order == [|s.entries|] + s.order
    && t.entries == s.entries + [Entry(name, db, 1, false, false)]
  }

  lemma NamedIs(s: State, name: Name)
    requires s.Consistent()
    ensures forall id: nat :: Listed(s, name, id) ==> name in s.databases && s.databases[name] == id
    ensures name in s.databases ==> Listed(s, name, s.databases[name])
  {
    if name in s.databases {
      assert s.databases[name] in s.order;
    }
  }

  lemma SharedIs(w: World, v: World, closing: State, name: Name)
    requires Core(w) && name in w.pool.databases && v.grants == w.grants && v.usedAt == w.usedAt
    requires closing == w.pool.(closes := closing.closes)
    ensures closing.Consistent() && w.pool.databases[name] <= |v.usedAt|
    ensures var id := w.pool.databases[name];
            var w' := Granted(v, Use(closing, name), id);
            && Shared(w, w', id) && w'.pool.closes == closing.closes
            && w'.connecting == v.connecting && w'.arrived == v.arrived
  {
    hide Drop, PositionOf, Counting, Handles;
    CoreRange(w);
    RecencyRange(w, name);
    ListedNotEvicted(w, name);
    FrontMembers(w.pool.order, PositionOf(w.pool.order, w.pool.databases[name]));
  }

  lemma VictimIs(w: World, inUse: bool)
    requires Core(w)
    ensures var s := w.pool;
            var v := VictimAfter(s, |s.order|, !inUse);
            && (v == 0 ==> forall id: nat :: !MayGo(s, id, inUse))
            && (v > 0 ==> Oldest(s, w.usedAt, s.order[v - 1], inUse))
            && (v > 0 ==> forall id: nat :: Oldest(s, w.usedAt, id, inUse) ==> id == s.order[v - 1])
  {
    hide Listing, Counting, Handles, VictimAfter;
    var s := w.pool;
    var v := VictimAfter(s, |s.order|, !inUse);
    forall id: nat | MayGo(s, id, inUse)
      ensures v > 0 && w.usedAt[s.order[v - 1]] <= w.usedAt[id]
    {
      VictimIsOldest(w, !inUse, id);
    }
  }

  lemma RemovedEvict(s: State, i: nat)
    requires s.Consistent() && i < |s.order|
    ensures s.order[i] < |s.entries| && Removed(s, Evict(s, i), s.order[i])
  {
    hide Drop;
    DropMembers(s.order, i);
  }

  lemma AddedInsert(s: State, name: Name, db: Handle)
    ensures Added(s, Insert(s, name, db), name, db)
  {
  }

  lemma FinishAdds(w: World, db: Handle)
    requires Inv(w) && db in w.arrived && !w.pool.closed && w.arrived[db] !in w.pool.databases
    ensures var w', s, name := Apply(w, Finish(db)), w.pool, w.arrived[db];
            && w'.grants == w.grants + [Grant(|s.entries|, false)]
            && w'.arrived == w.arrived - {db} && w'.connecting == w.connecting
            && (|s.order| < s.max ==> Added(s, w'.pool, name, db))
            && (|s.order| >= s.max ==>
                  exists t: State, id: nat ::
                    Added(s, t, name, db) && Oldest(t, w'.usedAt, id, true) && Removed(t, w'.pool, id))
  {
    hide Core, Removed, Oldest, Insert, Added, EvictOverLimit, VictimAfter, Evict, Linked, Apply;
    var s, name := w.pool, w.arrived[db];
    CoreRange(w);
    FinishInserts(w, db);
    AddedInsert(s, name, db);
    FinishEvicts(w, db);
    FinishGrants(w.(arrived := w.arrived - {db}), EvictOverLimit(Insert(s, name, db)), |s.entries|);
    if |s.order| >= s.max {
      FinishRemoves(w, db);
    }
  }

  lemma FinishGrants(w: World, s: State, id: nat)
    requires id <= |w.usedAt|
    ensures var w' := Granted(w, s, id);
            w'.grants == w.grants + [Grant(id, false)] && w'.arrived == w.arrived && w'.connecting == w.connecting
  {
  }

  lemma FinishRemoves(w: World, db: Handle)
    requires Inv(w) && db in w.arrived && !w.pool.closed && w.arrived[db] !in w.pool.databases
    requires |w.pool.order| >= w.pool.max
    ensures var w', t := Apply(w, Finish(db)), Insert(w.pool, w.arrived[db], db);
            exists id: nat :: Oldest(t, w'.usedAt, id, true) && Removed(t, w'.pool, id)
  {
    hide Core, Removed, Oldest, Insert, EvictOverLimit, VictimAfter, Evict, Linked, Apply, Granted;
    CoreRange(w);
    RecencyLength(w);
    FinishInserts(w, db);
    FinishEvicts(w, db);
    var u, t, n := w.(arrived := w.arrived - {db}), Insert(w.pool, w.arrived[db], db), |w.pool.entries|;
    InsertKeeps(w, w.arrived[db], db);
    GrantedPool(u, t, n);
    GrantedThen(u, t, EvictOverLimit(t), n);
    VictimIs(Granted(u, t, n), true);
    OrderInRange(t);
    RemovedEvict(t, VictimAfter(t, |t.order|, false) - 1);
  }
}
