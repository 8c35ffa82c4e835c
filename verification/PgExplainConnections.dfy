/** On which connections PostgreSQL queries are explained, and what becomes of databases that cannot be reached. */
module PgExplainConnections {
  import opened Bytes
  import opened Wrappers
  import opened ExplainErrors
  import opened PgExplain
  import opened PgExplainRuns

  // ---------- the log ----------

  /** The database of the last connection, if it was made. */
  function InHand(log: seq<Event>): Option<Text> {
    if log == [] then None else
      match log[|log| - 1]
      case Connected(database, ok) => if ok then Some(database) else None
      case Executed(_, _, _, _) => InHand(log[..|log| - 1])
  }

  predicate Concerns(e: Event, database: Text) {
    e.database == database
  }

  /** An explain key begins with its database. */
  predicate KeyOf(key: Text, database: Text) {
    database + [0] <= key
  }

  /** A statement is executed on the connection in hand, which is one to the database of its row. */
  predicate OnItsDatabase(log: seq<Event>, i: nat)
    requires i < |log|
  {
    log[i].Executed? ==>
      && log[i].on == Some(log[i].database) && InHand(log[..i]) == Some(log[i].database)
      && KeyOf(log[i].key, log[i].database)
  }

  predicate GivenUp(log: seq<Event>) {
    forall i, j :: 0 <= i < j < |log| && log[i].Connected? && !log[i].ok ==> !Concerns(log[j], log[i].database)
  }

  predicate Sound(s: State) {
    && (forall i :: 0 <= i < |s.log| ==> OnItsDatabase(s.log, i))
    && GivenUp(s.log)
    && s.current == InHand(s.log)
    && (forall i :: 0 <= i < |s.log| && s.log[i].Connected? && !s.log[i].ok ==> s.log[i].database in s.failed)
    && (s.current.Some? ==> s.current.value !in s.failed)
    && (forall database :: database in s.failed ==> s.failed[database] != [])
  }

  lemma LogOne(log: seq<Event>, e: Event)
    requires (forall i :: 0 <= i < |log| ==> OnItsDatabase(log, i)) && GivenUp(log)
    requires e.Executed? ==> e.on == Some(e.database) && InHand(log) == Some(e.database) && KeyOf(e.key, e.database)
    requires forall i :: 0 <= i < |log| && log[i].Connected? && !log[i].ok ==> !Concerns(e, log[i].database)
    ensures (forall i :: 0 <= i <= |log| ==> OnItsDatabase(log + [e], i)) && GivenUp(log + [e])
    ensures InHand(log + [e]) == if e.Executed? then InHand(log) else if e.ok then Some(e.database) else None
  {
    hide KeyOf, InHand;
    var log' := log + [e];
    assert log'[..|log|] == log;
    InHandStep(log, e);
    forall i | 0 <= i <= |log| ensures OnItsDatabase(log', i) {
      if i < |log| {
        assert log'[..i] == log[..i] && OnItsDatabase(log, i);
      }
    }
  }

  lemma InHandStep(log: seq<Event>, e: Event)
    ensures InHand(log + [e]) == if e.Executed? then InHand(log) else if e.ok then Some(e.database) else None
  {
    assert (log + [e])[..|log|] == log;
  }

  lemma ConnectSound(w: World, s: State, database: Text)
    requires Sound(s) && database !in s.failed
    ensures var c := Connection(w, s, database);
            Sound(c) && (database !in c.failed ==> c.current == Some(database))
  {
    hide InHand, GivenUp, OnItsDatabase, OrDefault;
    if s.current != Some(database) {
      LogOne(s.log, Connected(database, w(s.clock).connected));
    }
  }

  lemma ExecuteSound(w: World, s: State, key: Text, database: Text)
    requires Sound(s) && s.current == Some(database) && KeyOf(key, database)
    ensures Sound(Execute(w, s, key, database))
  {
    hide InHand, GivenUp, OnItsDatabase, KeyOf, OutcomeOf;
    LogOne(s.log, Executed(key, database, s.current, OutcomeOf(w(s.clock))));
  }

  lemma KeyIs(d: Detail)
    ensures KeyOf(ExplainKey(d), d.database)
  {
  }

  lemma VisitSound(w: World, p: Pass, row: Text)
    requires row in p.details && Sound(p.state)
    ensures Sound(Visit(w, p, row).state)
  {
    hide Sound, Connection, Execute, ExplainKey, Unreached;
    var d := p.details[row];
    KeyIs(d);
    AttemptSound(p.state, ExplainKey(d));
    if d.database !in p.state.failed {
      var s := p.state.(attempted := p.state.attempted + {ExplainKey(d)});
      ConnectSound(w, s, d.database);
      if d.database !in Connection(w, s, d.database).failed {
        ExecuteSound(w, Connection(w, s, d.database), ExplainKey(d), d.database);
      }
    }
  }

  lemma AttemptSound(s: State, key: Text)
    ensures Sound(s.(attempted := s.attempted + {key})) == Sound(s)
  {
  }

  lemma {:induction false} VisitsSound(w: World, p: Pass, ranking: seq<Text>)
    requires (forall k :: k in ranking ==> k in p.details) && Sound(p.state)
    ensures Sound(Visits(w, p, ranking).state)
    decreases |ranking|
  {
    hide Visit, Sound;
    if ranking != [] && p.successes < MAX_SUCCESSES {
      VisitSound(w, p, ranking[0]);
      VisitKeys(w, p, ranking[0]);
      VisitsSound(w, Visit(w, p, ranking[0]), ranking[1..]);
    }
  }

  lemma {:induction false} RankingsSound(w: World, s: State, details: map<Text, Detail>, orders: seq<Order>)
    requires Sound(s) && forall i :: 0 <= i < |orders| ==> Orders(orders[i], details)
    ensures Sound(Rankings(w, s, details, orders).state)
    decreases |orders|
  {
    hide Visits, Recorded, Sound, FillAll;
    if orders != [] {
      RankedKeys(w, s, details, orders);
      VisitsSound(w, Pass(s, details, Recorded(details, orders[0].listing), 0), orders[0].ranking);
      var p := Ranked(w, s, details, orders[0].listing, orders[0].ranking);
      RankingsSound(w, p.state, p.details, orders[1..]);
    }
  }

  // ---------- the theorems ----------

  /**
   * Over any number of rankings, every statement is executed on a connection to the database of
   * its row, and a database that could not be reached is not asked for again.
   */
  lemma EveryExecution(w: World, details: map<Text, Detail>, orders: seq<Order>)
    requires forall i :: 0 <= i < |orders| ==> Orders(orders[i], details)
    ensures var log := Rankings(w, NewState(), details, orders).state.log;
            && (forall i :: 0 <= i < |log| ==> OnItsDatabase(log, i))
            && (forall i, j :: 0 <= i < j < |log| && log[i].Connected? && !log[i].ok ==>
                  !Concerns(log[j], log[i].database))
  {
    hide Rankings;
    RankingsSound(w, NewState(), details, orders);
  }

  /** A row that is not excluded and whose database has no failure, under a key that is new. */
  predicate IsNew(p: Pass, d: Detail) {
    !d.excluded && d.database !in p.state.failed && ExplainKey(d) !in p.results && ExplainKey(d) !in p.state.attempted
  }

  /**
   * A visit asks for a connection unless it has one to the database, and executes the statement
   * once it has; only for a row that is new.
   */
  lemma VisitLogs(w: World, p: Pass, row: Text)
    requires row in p.details && Sound(p.state)
    ensures var d, log, r0, r1 := p.details[row], p.state.log, w(p.state.clock), w(p.state.clock + 1);
            var key := ExplainKey(d);
            Visit(w, p, row).state.log ==
            if !IsNew(p, d) then log
            else if InHand(log) == Some(d.database) then
              log + [Executed(key, d.database, Some(d.database), OutcomeOf(r0))]
            else if !r0.connected then log + [Connected(d.database, false)]
            else log + [Connected(d.database, true), Executed(key, d.database, Some(d.database), OutcomeOf(r1))]
  {
    hide ExplainKey, OutcomeOf, InHand, OnItsDatabase, GivenUp, OrDefault, Unreached;
    var log, d := p.state.log, p.details[row];
    assert forall e: Event, f: Event :: log + [e] + [f] == log + [e, f];
  }

  /** The reply that an execution at this visit would get. */
  function ReplyFor(w: World, s: State, database: Text): Reply {
    w(if InHand(s.log) == Some(database) then s.clock else s.clock + 1)
  }

  /** What a visit makes of its row: what it was, the failure of its database, or what the server replied. */
  lemma VisitRows(w: World, p: Pass, row: Text)
    requires row in p.details && Sound(p.state)
    ensures var d, q := p.details[row], Visit(w, p, row);
            var r := ReplyFor(w, p.state, d.database);
            q.details[row] ==
            if !d.excluded && d.database in q.state.failed then
              d.(error := Ascii("connection_failed: ") + q.state.failed[d.database])
            else if !IsNew(p, d) then d
            else d.(plan := if r.plan != [] then r.plan else d.plan,
                    error := if r.error.Some? then r.error.value else d.error)
  {
    hide ExplainKey, Connection, Execute, InHand, OnItsDatabase, GivenUp, ConnectionFailedError;
    FailureText();
    var d := p.details[row];
    if IsNew(p, d) {
      ConnectionIs(w, p.state.(attempted := p.state.attempted + {ExplainKey(d)}), d.database);
      var s := p.state.(attempted := p.state.attempted + {ExplainKey(d)});
      ExecuteIs(w, Connection(w, s, d.database), ExplainKey(d), d.database);
    }
  }

  lemma ConnectionIs(w: World, s: State, database: Text)
    requires database !in s.failed
    ensures var c, r := Connection(w, s, database), w(s.clock);
            if s.current == Some(database) then c == s
            else
              && c.clock == s.clock + 1
              && c.failed == if r.connected then s.failed else s.failed[database := OrDefault(r.reason)]
  {
    hide OrDefault;
  }

  lemma ExecuteIs(w: World, s: State, key: Text, database: Text)
    ensures Execute(w, s, key, database).failed == s.failed
  {
    hide OutcomeOf;
  }

  /** A database fails when a connect for a new row of it is refused, and stays failed for that reason. */
  lemma VisitFails(w: World, p: Pass, row: Text, database: Text)
    requires row in p.details && Sound(p.state)
    ensures var d, q, r := p.details[row], Visit(w, p, row), w(p.state.clock);
            if database in p.state.failed then
              database in q.state.failed && q.state.failed[database] == p.state.failed[database]
            else
              && (database in q.state.failed <==>
                    database == d.database && IsNew(p, d) && InHand(p.state.log) != Some(database) && !r.connected)
              && (database in q.state.failed ==>
                    q.state.failed[database] == if r.reason == [] then Ascii("connection failed") else r.reason)
  {
    hide ExplainKey, Connection, Execute, InHand, OnItsDatabase, GivenUp, Unreached;
    var d := p.details[row];
    if IsNew(p, d) {
      ConnectionIs(w, p.state.(attempted := p.state.attempted + {ExplainKey(d)}), d.database);
      var s := p.state.(attempted := p.state.attempted + {ExplainKey(d)});
      ExecuteIs(w, Connection(w, s, d.database), ExplainKey(d), d.database);
    }
  }

  lemma FailureText()
    ensures forall reason: Text ::
              reason != [] ==> ConnectionFailedError(reason) == Ascii("connection_failed: ") + reason
  {
  }

  // ---------- after a ranking ----------

  lemma {:induction false} VisitsJoin(w: World, p: Pass, a: seq<Text>, b: seq<Text>)
    requires forall k :: k in a + b ==> k in p.details
    ensures Visits(w, p, a).details.Keys == p.details.Keys
    ensures forall k :: k in b ==> k in Visits(w, p, a).details
    ensures Visits(w, p, a + b) == Visits(w, Visits(w, p, a), b)
    decreases |a|
  {
    hide Visit;
    if a == [] {
      assert a + b == b;
    } else if p.successes < MAX_SUCCESSES {
      assert (a + b)[1..] == a[1..] + b && (a + b)[0] == a[0];
      VisitKeys(w, p, a[0]);
      VisitsJoin(w, Visit(w, p, a[0]), a[1..], b);
    } else {
      assert forall k :: k in b ==> k in a + b;
    }
  }

  lemma VisitOthers(w: World, p: Pass, row: Text)
    requires row in p.details
    ensures var q := Visit(w, p, row);
            forall k :: k in p.details && k != row ==> k in q.details && q.details[k] == p.details[k]
  {
    hide ExplainKey, Connection, Execute, Unreached;
  }

  /** Visits of other rows leave a row and the failures known so far. */
  lemma {:induction false} VisitsOthers(w: World, p: Pass, ranking: seq<Text>, row: Text)
    requires (forall k :: k in ranking ==> k in p.details) && Sound(p.state)
    requires row in p.details && row !in ranking
    ensures var q := Visits(w, p, ranking);
            && row in q.details && q.details[row] == p.details[row]
            && forall database :: database in p.state.failed ==>
                 database in q.state.failed && q.state.failed[database] == p.state.failed[database]
    decreases |ranking|
  {
    hide Visit, Sound;
    if ranking != [] && p.successes < MAX_SUCCESSES {
      VisitKeys(w, p, ranking[0]);
      VisitOthers(w, p, ranking[0]);
      VisitSound(w, p, ranking[0]);
      forall database ensures database in p.state.failed ==>
          && database in Visit(w, p, ranking[0]).state.failed
          && Visit(w, p, ranking[0]).state.failed[database] == p.state.failed[database]
      {
        VisitFails(w, p, ranking[0], database);
      }
      VisitsOthers(w, Visit(w, p, ranking[0]), ranking[1..], row);
    }
  }

  /** A ranking after its first `n` visits. */
  function UpTo(
    w: World, s: State, details: map<Text, Detail>, listing: seq<Text>, ranking: seq<Text>, n: nat): Pass
    requires (forall k :: k in listing ==> k in details) && (forall k :: k in ranking ==> k in details)
    requires n <= |ranking|
  {
    Visits(w, Pass(s, details, Recorded(details, listing), 0), ranking[..n])
  }

  /** The database of a row failed, and the row tells why, unless its key has a result. */
  predicate CarriesFailure(p: Pass, row: Text, d: Detail) {
    && row in p.details && d.database in p.state.failed
    && (ExplainKey(d) in p.results ||
        p.details[row].error == Ascii("connection_failed: ") + p.state.failed[d.database])
  }

  /**
   * After a ranking, a row that was visited while its database was failed, or failed then, carries
   * the failure, unless its key has a result.
   */
  lemma UnreachedRows(w: World, s: State, details: map<Text, Detail>, listing: seq<Text>, ranking: seq<Text>, i: nat)
    requires (forall k :: k in listing ==> k in details) && (forall k :: k in ranking ==> k in details)
    requires NoRepeats(ranking) && i < |ranking| && Sound(s) && !details[ranking[i]].excluded
    requires UpTo(w, s, details, listing, ranking, i).successes < MAX_SUCCESSES
    requires details[ranking[i]].database in UpTo(w, s, details, listing, ranking, i + 1).state.failed
    ensures CarriesFailure(Ranked(w, s, details, listing, ranking), ranking[i], details[ranking[i]])
  {
    hide Visits, Visit, Recorded, Sound, ExplainKey, Ascii;
    var p0 := Pass(s, details, Recorded(details, listing), 0);
    var row, before, after := ranking[i], ranking[..i], ranking[i + 1..];
    assert ranking == before + ([row] + after) && ranking[..i + 1] == before + [row];
    assert row !in before && row !in after;
    VisitsJoin(w, p0, before, [row] + after);
    VisitsJoin(w, p0, before, [row]);
    var q0 := Visits(w, p0, before);
    VisitsSound(w, p0, before);
    VisitsOthers(w, p0, before, row);
    VisitsOne(w, q0, row);
    var q1 := Visit(w, q0, row);
    VisitsJoin(w, q0, [row], after);
    VisitRows(w, q0, row);
    VisitSound(w, q0, row);
    VisitKeys(w, q0, row);
    VisitsOthers(w, q1, after, row);
    SameKey(details[row], q1.details[row]);
  }

  lemma VisitsOne(w: World, p: Pass, row: Text)
    requires row in p.details && p.successes < MAX_SUCCESSES
    ensures Visits(w, p, [row]) == Visit(w, p, row)
  {
    hide Visit;
    VisitKeys(w, p, row);
    assert [row][1..] == [];
  }
}
