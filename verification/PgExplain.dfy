/**
 * Explaining PostgreSQL queries: rows that stand for the same statement share
 * one explain key, are explained once, and share the result.  What the server
 * answers is arbitrary: the n-th request gets the n-th reply.
 */
module PgExplain {
  import opened Bytes
  import opened Wrappers
  import opened ExplainErrors
  import opened SortedText

  /** A row; `queryId` is its normalized native query id, `excluded` what the row filters find. */
  datatype Detail = Detail(database: Text, queryId: Text, query: Text, excluded: bool, plan: Text, error: Text)

  datatype Outcome = Outcome(plan: Text, error: Text)

  datatype Reply = Reply(connected: bool, reason: Text, plan: Text, error: Option<Text>)

  type World = nat -> Reply

  /** A connect, and an execution for a row of a database on the connection in hand. */
  datatype Event =
    | Connected(database: Text, ok: bool)
    | Executed(key: Text, database: Text, on: Option<Text>, outcome: Outcome)

  /** The part of the collection state that PostgreSQL uses. */
  datatype State = State(
    attempted: set<Text>, failed: map<Text, Text>, current: Option<Text>, clock: nat, log: seq<Event>)

  const MAX_SUCCESSES := 100

  function NewState(): State {
    State({}, map[], None, 0, [])
  }

  function ExplainKey(d: Detail): (key: Text)
    ensures key != []
  {
    d.database + [0] + d.queryId + [0] + d.query
  }

  predicate HasResult(d: Detail) {
    d.plan != [] || d.error != []
  }

  function Unreached(s: State, d: Detail): Detail
    requires d.database in s.failed
  {
    d.(error := ConnectionFailedError(s.failed[d.database]))
  }

  /**
   * Asking for a database's handle: none after a failure, the one in hand, or one from the
   * pool; a failure is remembered.
   */
  function Connection(w: World, s: State, database: Text): State {
    if database in s.failed || s.current == Some(database) then s
    else
      var reply := w(s.clock);
      var next := s.(current := None, clock := s.clock + 1, log := s.log + [Connected(database, reply.connected)]);
      if reply.connected then next.(current := Some(database))
      else next.(failed := s.failed[database := OrDefault(reply.reason)])
  }

  function OutcomeOf(reply: Reply): Outcome {
    Outcome(reply.plan, if reply.error.Some? then reply.error.value else [])
  }

  function Execute(w: World, s: State, key: Text, database: Text): State {
    s.(clock := s.clock + 1, log := s.log + [Executed(key, database, s.current, OutcomeOf(w(s.clock)))])
  }

  /** A ranking in progress: the rows, the results by explain key, and the plans found. */
  datatype Pass = Pass(state: State, details: map<Text, Detail>, results: map<Text, Outcome>, successes: nat)

  /** The results that rows already carry; of several for one key the last one listed counts. */
  function Recorded(details: map<Text, Detail>, listing: seq<Text>): map<Text, Outcome>
    requires forall k :: k in listing ==> k in details
    decreases |listing|
  {
    if listing == [] then map[] else
      var last := listing[|listing| - 1];
      var rest := Recorded(details, listing[..|listing| - 1]);
      var d := details[last];
      if HasResult(d) then rest[ExplainKey(d) := Outcome(d.plan, d.error)] else rest
  }

  function Visit(w: World, p: Pass, row: Text): Pass
    requires row in p.details
  {
    var d := p.details[row];
    var key := ExplainKey(d);
    if d.excluded then p
    else if d.database in p.state.failed then p.(details := p.details[row := Unreached(p.state, d)])
    else if key in p.results || key in p.state.attempted then p
    else
      var s := Connection(w, p.state.(attempted := p.state.attempted + {key}), d.database);
      if d.database in s.failed then p.(state := s, details := p.details[row := Unreached(s, d)])
      else
        var reply := w(s.clock);
        var e := d.(plan := if reply.plan != [] then reply.plan else d.plan,
                    error := if reply.error.Some? then reply.error.value else d.error);
        Pass(Execute(w, s, key, d.database), p.details[row := e], p.results[key := Outcome(e.plan, e.error)],
             if reply.plan != [] then p.successes + 1 else p.successes)
  }

  function Visits(w: World, p: Pass, ranking: seq<Text>): Pass
    requires forall k :: k in ranking ==> k in p.details
    decreases |ranking|
  {
    if ranking == [] || p.successes >= MAX_SUCCESSES then p
    else Visits(w, Visit(w, p, ranking[0]), ranking[1..])
  }

  /** A row with the result recorded for its key, if there is one. */
  function Filled(d: Detail, results: map<Text, Outcome>): Detail {
    if ExplainKey(d) in results then d.(plan := results[ExplainKey(d)].plan, error := results[ExplainKey(d)].error)
    else d
  }

  function FillAll(details: map<Text, Detail>, results: map<Text, Outcome>): map<Text, Detail> {
    map k | k in details :: Filled(details[k], results)
  }

  /** A ranking: the rows are listed, visited in rank order, and filled. */
  function Ranked(w: World, s: State, details: map<Text, Detail>, listing: seq<Text>, ranking: seq<Text>): Pass
    requires forall k :: k in listing ==> k in details
    requires forall k :: k in ranking ==> k in details
  {
    var p := Visits(w, Pass(s, details, Recorded(details, listing), 0), ranking);
    p.(details := FillAll(p.details, p.results))
  }

  class ExplainCollectionState {
    const world: World
    var attempted: set<Text>
    var failedDatabases: map<Text, Text>
    var current: Option<Text>
    var clock: nat
    var log: seq<Event>

    constructor (w: World)
      ensures world == w && Value() == NewState()
    {
      world := w;
      attempted, failedDatabases, current, clock, log := {}, map[], None, 0, [];
    }

    function Value(): State
      reads this
    {
      State(attempted, failedDatabases, current, clock, log)
    }

    method Connect(database: Text) returns (error: Option<Text>)
      modifies this
      ensures Value() == Connection(world, old(Value()), database)
      ensures error.None? <==> database !in failedDatabases
      ensures error.None? ==> current == Some(database)
      ensures database in old(failedDatabases) ==> error == Some(old(failedDatabases)[database])
    {
      if database in failedDatabases {
        return Some(failedDatabases[database]);
      }
      error := None;
      if current == Some(database) {
        return;
      }
      current := None;
      var reply := world(clock);
      clock := clock + 1;
      log := log + [Connected(database, reply.connected)];
      if reply.connected {
        current := Some(database);
      } else {
        error := Some(reply.reason);
        failedDatabases := failedDatabases[database := OrDefault(reply.reason)];
      }
    }

    /** Go's iteration over a map comes in any order; the three orders are parameters. */
    method CollectExplainDetails(
      details0: map<Text, Detail>, listing: seq<Text>, ranking: seq<Text>, filling: seq<Text>)
      returns (details: map<Text, Detail>, successful: nat)
      requires Lists(listing, details0.Keys) && Lists(ranking, details0.Keys) && Lists(filling, details0.Keys)
      modifies this
      ensures details == Ranked(world, old(Value()), details0, listing, ranking).details
      ensures successful == Ranked(world, old(Value()), details0, listing, ranking).successes
      ensures Value() == Ranked(world, old(Value()), details0, listing, ranking).state
    {
      hide Visits, FillAll, Recorded, Lists;
      var results := ListResults(details0, listing);
      details, results, successful := VisitRows(details0, results, ranking);
      details := FillRows(details, results, filling);
    }

    method ListResults(details: map<Text, Detail>, listing: seq<Text>) returns (results: map<Text, Outcome>)
      requires Lists(listing, details.Keys)
      ensures results == Recorded(details, listing)
    {
      results := map[];
      var i := 0;
      while i < |listing|
        invariant 0 <= i <= |listing|
        invariant results == Recorded(details, listing[..i])
      {
        var d := details[listing[i]];
        assert listing[..i + 1][..i] == listing[..i];
        if HasResult(d) {
          results := results[ExplainKey(d) := Outcome(d.plan, d.error)];
        }
        i := i + 1;
      }
      assert listing[..i] == listing;
    }

    method VisitRows(details0: map<Text, Detail>, results0: map<Text, Outcome>, ranking: seq<Text>)
      returns (details: map<Text, Detail>, results: map<Text, Outcome>, successful: nat)
      requires Lists(ranking, details0.Keys)
      modifies this
      ensures Pass(Value(), details, results, successful) ==
              Visits(world, Pass(old(Value()), details0, results0, 0), ranking)
      ensures details.Keys == details0.Keys
    {
      hide Visit;
      details, results, successful := details0, results0, 0;
      var i := 0;
      assert ranking[0..] == ranking;
      while i < |ranking| && successful < MAX_SUCCESSES
        invariant 0 <= i <= |ranking|
        invariant details.Keys == details0.Keys
        invariant Visits(world, Pass(Value(), details, results, successful), ranking[i..]) ==
                  Visits(world, Pass(old(Value()), details0, results0, 0), ranking)
      {
        assert ranking[i..][0] == ranking[i] && ranking[i..][1..] == ranking[i + 1..];
        VisitKeys(world, Pass(Value(), details, results, successful), ranking[i]);
        details, results, successful := VisitRow(details, results, successful, ranking[i]);
        i := i + 1;
      }
    }

    method FillRows(details0: map<Text, Detail>, results: map<Text, Outcome>, filling: seq<Text>)
      returns (details: map<Text, Detail>)
      requires Lists(filling, details0.Keys)
      ensures details == FillAll(details0, results)
    {
      hide Filled;
      details := details0;
      var i := 0;
      while i < |filling|
        invariant 0 <= i <= |filling|
        invariant details.Keys == details0.Keys
        invariant forall k :: k in details0 ==>
                    details[k] == if k in filling[..i] then Filled(details0[k], results) else details0[k]
      {
        NotYet(filling, i);
        details := FillRow(details, results, filling[i]);
        i := i + 1;
      }
      assert filling[..i] == filling;
    }

    method FillRow(details: map<Text, Detail>, results: map<Text, Outcome>, row: Text)
      returns (filled: map<Text, Detail>)
      requires row in details
      ensures filled == details[row := Filled(details[row], results)]
    {
      filled := details;
      var d := details[row];
      if ExplainKey(d) in results {
        var result := results[ExplainKey(d)];
        filled := details[row := d.(plan := result.plan, error := result.error)];
      } else {
        assert details[row := d] == details;
      }
    }

    method VisitRow(details0: map<Text, Detail>, results0: map<Text, Outcome>, successful0: nat, row: Text)
      returns (details: map<Text, Detail>, results: map<Text, Outcome>, successful: nat)
      requires row in details0
      modifies this
      ensures Pass(Value(), details, results, successful) ==
              Visit(world, Pass(old(Value()), details0, results0, successful0), row)
    {
      details, results, successful := details0, results0, successful0;
      var d := details[row];
      if d.excluded {
        return;
      }
      if d.database in failedDatabases {
        details := details[row := Unreached(Value(), d)];
        return;
      }
      var key := ExplainKey(d);
      if key in results || key in attempted {
        return;
      }
      attempted := attempted + {key};
      var error := Connect(d.database);
      if error.Some? {
        details := details[row := Unreached(Value(), d)];
        return;
      }
      var reply := world(clock);
      clock := clock + 1;
      log := log + [Executed(key, d.database, current, OutcomeOf(reply))];
      if reply.error.Some? {
        d := d.(error := reply.error.value);
      }
      if reply.plan != [] {
        d := d.(plan := reply.plan);
        successful := successful + 1;
      }
      details := details[row := d];
      results := results[key := Outcome(d.plan, d.error)];
    }
  }

  lemma VisitKeys(w: World, p: Pass, row: Text)
    requires row in p.details
    ensures Visit(w, p, row).details.Keys == p.details.Keys
  {
  }

  lemma NotYet(order: seq<Text>, i: nat)
    requires i < |order| && forall a, b :: 0 <= a < b < |order| ==> order[a] != order[b]
    ensures order[i] !in order[..i] && forall k :: k in order[..i + 1] <==> k in order[..i] || k == order[i]
  {
    assert order[..i + 1] == order[..i] + [order[i]];
    forall a | 0 <= a < i ensures order[..i][a] != order[i] {}
  }
}
