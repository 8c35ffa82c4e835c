/** What holds of every ranking of PostgreSQL queries, whatever the server replies. */
module PgExplainRuns {
  import opened Bytes
  import opened SortedText
  import opened PgExplain

  // ---------- once per key ----------

  /** No explain key was executed twice, and every executed one is remembered. */
  predicate Distinct(s: State) {
    && (forall i :: 0 <= i < |s.log| && s.log[i].Executed? ==> s.log[i].key in s.attempted)
    && (forall i, j :: 0 <= i < j < |s.log| && s.log[i].Executed? && s.log[j].Executed? ==>
          s.log[i].key != s.log[j].key)
  }

  lemma VisitDistinct(w: World, p: Pass, row: Text)
    requires row in p.details && Distinct(p.state)
    ensures Distinct(Visit(w, p, row).state)
  {
    hide ExplainKey, Unreached, OutcomeOf;
  }

  lemma {:induction false} VisitsDistinct(w: World, p: Pass, ranking: seq<Text>)
    requires (forall k :: k in ranking ==> k in p.details) && Distinct(p.state)
    ensures Distinct(Visits(w, p, ranking).state) && Visits(w, p, ranking).details.Keys == p.details.Keys
    decreases |ranking|
  {
    hide Visit, Distinct;
    if ranking != [] && p.successes < MAX_SUCCESSES {
      VisitDistinct(w, p, ranking[0]);
      VisitKeys(w, p, ranking[0]);
      VisitsDistinct(w, Visit(w, p, ranking[0]), ranking[1..]);
    }
  }

  /** The order in which a ranking lists the rows, and the order of their ranks. */
  datatype Order = Order(listing: seq<Text>, ranking: seq<Text>)

  predicate Orders(order: Order, details: map<Text, Detail>) {
    Lists(order.listing, details.Keys) && Lists(order.ranking, details.Keys)
  }

  /** Rankings of the same rows one after the other. */
  function Rankings(w: World, s: State, details: map<Text, Detail>, orders: seq<Order>): Pass
    requires forall i :: 0 <= i < |orders| ==> Orders(orders[i], details)
    decreases |orders|
  {
    if orders == [] then Pass(s, details, map[], 0)
    else
      assert Orders(orders[0], details);
      var p := Ranked(w, s, details, orders[0].listing, orders[0].ranking);
      RankedKeys(w, s, details, orders);
      Rankings(w, p.state, p.details, orders[1..])
  }

  lemma RankedKeys(w: World, s: State, details: map<Text, Detail>, orders: seq<Order>)
    requires orders != [] && Orders(orders[0], details)
    requires forall i :: 0 <= i < |orders| ==> Orders(orders[i], details)
    ensures var p := Ranked(w, s, details, orders[0].listing, orders[0].ranking);
            forall i :: 0 <= i < |orders[1..]| ==> Orders(orders[1..][i], p.details)
  {
    hide Visits, Recorded;
    var p := Ranked(w, s, details, orders[0].listing, orders[0].ranking);
    VisitsKeys(w, Pass(s, details, Recorded(details, orders[0].listing), 0), orders[0].ranking);
    forall i | 0 <= i < |orders[1..]|
      ensures Orders(orders[1..][i], p.details)
    {
      assert Orders(orders[i + 1], details);
    }
  }

  lemma {:induction false} VisitsKeys(w: World, p: Pass, ranking: seq<Text>)
    requires forall k :: k in ranking ==> k in p.details
    ensures Visits(w, p, ranking).details.Keys == p.details.Keys
    decreases |ranking|
  {
    hide Visit;
    if ranking != [] && p.successes < MAX_SUCCESSES {
      VisitKeys(w, p, ranking[0]);
      VisitsKeys(w, Visit(w, p, ranking[0]), ranking[1..]);
    }
  }

  /** Over any number of rankings, each explain key is executed at most once. */
  lemma {:induction false} ExecutedOnce(
    w: World, s: State, details: map<Text, Detail>, orders: seq<Order>)
    requires Distinct(s)
    requires forall i :: 0 <= i < |orders| ==> Orders(orders[i], details)
    ensures Distinct(Rankings(w, s, details, orders).state)
    decreases |orders|
  {
    hide Visits, Recorded, Distinct, FillAll;
    if orders != [] {
      RankedKeys(w, s, details, orders);
      VisitsDistinct(w, Pass(s, details, Recorded(details, orders[0].listing), 0), orders[0].ranking);
      var p := Ranked(w, s, details, orders[0].listing, orders[0].ranking);
      ExecutedOnce(w, p.state, p.details, orders[1..]);
    }
  }

  // ---------- the quota ----------

  /** How many executions since `start` found a plan. */
  function Plans(log: seq<Event>, start: nat): nat
    requires start <= |log|
    decreases |log|
  {
    if |log| == start then 0
    else Plans(log[..|log| - 1], start) + (if FoundPlan(log[|log| - 1]) then 1 else 0)
  }

  predicate FoundPlan(e: Event) {
    e.Executed? && e.outcome.plan != []
  }

  lemma PlansLast(log: seq<Event>, e: Event, start: nat)
    requires start <= |log|
    ensures Plans(log + [e], start) == Plans(log, start) + (if FoundPlan(e) then 1 else 0)
  {
    assert (log + [e])[..|log|] == log;
  }

  lemma VisitCounts(w: World, p: Pass, row: Text, start: nat)
    requires row in p.details && start <= |p.state.log|
    ensures var q := Visit(w, p, row);
            && |p.state.log| <= |q.state.log|
            && q.successes - p.successes == Plans(q.state.log, start) - Plans(p.state.log, start)
            && p.successes <= q.successes <= p.successes + 1
  {
    hide ExplainKey, Unreached, Plans;
    var d := p.details[row];
    var s := p.state.(attempted := p.state.attempted + {ExplainKey(d)});
    var c := Connection(w, s, d.database);
    if c.log != s.log {
      PlansLast(s.log, c.log[|s.log|], start);
    }
    PlansLast(c.log, Executed(ExplainKey(d), d.database, c.current, OutcomeOf(w(c.clock))), start);
  }

  lemma {:induction false} VisitsCount(w: World, p: Pass, ranking: seq<Text>, start: nat)
    requires (forall k :: k in ranking ==> k in p.details) && start <= |p.state.log|
    requires p.successes == Plans(p.state.log, start) <= MAX_SUCCESSES
    ensures var q := Visits(w, p, ranking);
            start <= |q.state.log| && q.successes == Plans(q.state.log, start) <= MAX_SUCCESSES
    decreases |ranking|
  {
    hide Visit, Plans;
    if ranking != [] && p.successes < MAX_SUCCESSES {
      VisitKeys(w, p, ranking[0]);
      VisitCounts(w, p, ranking[0], start);
      VisitsCount(w, Visit(w, p, ranking[0]), ranking[1..], start);
    }
  }

  /** A ranking finds at most 100 plans, and counts exactly the executions that found one. */
  lemma Quota(w: World, s: State, details: map<Text, Detail>, listing: seq<Text>, ranking: seq<Text>)
    requires Lists(listing, details.Keys) && Lists(ranking, details.Keys)
    ensures var p := Ranked(w, s, details, listing, ranking);
            |s.log| <= |p.state.log| && p.successes == Plans(p.state.log, |s.log|) <= 100
  {
    hide Visits, Recorded;
    VisitsCount(w, Pass(s, details, Recorded(details, listing), 0), ranking, |s.log|);
  }

  /** A ranking goes on until 100 plans are found. */
  lemma GoesOn(w: World, p: Pass, ranking: seq<Text>)
    requires (forall k :: k in ranking ==> k in p.details) && ranking != []
    ensures Visit(w, p, ranking[0]).details.Keys == p.details.Keys
    ensures p.successes >= 100 ==> Visits(w, p, ranking) == p
    ensures p.successes < 100 ==> Visits(w, p, ranking) == Visits(w, Visit(w, p, ranking[0]), ranking[1..])
  {
    VisitKeys(w, p, ranking[0]);
    hide Visit;
  }

  // ---------- siblings ----------

  /** Rows have one explain key exactly if database, id and query agree, as names hold no zero byte. */
  lemma KeyExactly(a: Detail, b: Detail)
    requires 0 !in a.database && 0 !in b.database && 0 !in a.queryId && 0 !in b.queryId
    ensures ExplainKey(a) == ExplainKey(b) <==> a.database == b.database && a.queryId == b.queryId && a.query == b.query
  {
    if ExplainKey(a) == ExplainKey(b) {
      var s, t := a.queryId + [0] + a.query, b.queryId + [0] + b.query;
      assert ExplainKey(a) == a.database + [0] + s && ExplainKey(b) == b.database + [0] + t;
      ToZero(a.database, s, b.database, t);
      ToZero(a.queryId, a.query, b.queryId, b.query);
    }
  }

  /** A text is told by what is before and after its first zero byte. */
  lemma ToZero(a: Text, s: Text, b: Text, t: Text)
    requires 0 !in a && 0 !in b && a + [0] + s == b + [0] + t
    ensures a == b && s == t
  {
    var u := a + [0] + s;
    assert u[|a|] == 0 && (b + [0] + t)[|b|] == 0;
    assert forall i :: 0 <= i < |a| ==> u[i] == a[i];
    assert forall i :: 0 <= i < |b| ==> (b + [0] + t)[i] == b[i];
    assert u[..|a|] == a && (b + [0] + t)[..|b|] == b;
    assert u[|a| + 1..] == s && (b + [0] + t)[|b| + 1..] == t;
  }

  predicate SameRow(a: Detail, b: Detail) {
    a.database == b.database && a.queryId == b.queryId && a.query == b.query && a.excluded == b.excluded
  }

  predicate NoRepeats(order: seq<Text>) {
    forall i, j :: 0 <= i < j < |order| ==> order[i] != order[j]
  }

  /** Rows still to be visited either have no result or one that is recorded. */
  predicate Pending(p: Pass, ranking: seq<Text>)
    requires forall k :: k in ranking ==> k in p.details
  {
    forall k :: k in ranking && HasResult(p.details[k]) ==> ExplainKey(p.details[k]) in p.results
  }

  /** From `start` on, each execution's outcome is the result recorded for its key. */
  predicate Logged(p: Pass, start: nat) {
    && start <= |p.state.log|
    && forall i :: start <= i < |p.state.log| && p.state.log[i].Executed? ==>
         p.state.log[i].key in p.results && p.results[p.state.log[i].key] == p.state.log[i].outcome
  }

  lemma VisitResults(w: World, p: Pass, row: Text, start: nat)
    requires row in p.details && Logged(p, start)
    requires HasResult(p.details[row]) ==> ExplainKey(p.details[row]) in p.results
    ensures var q := Visit(w, p, row);
            && Logged(q, start)
            && (forall k :: k in p.results ==> k in q.results && q.results[k] == p.results[k])
            && (forall k :: k in p.details && k != row ==> q.details[k] == p.details[k])
            && SameRow(p.details[row], q.details[row])
  {
    hide Connection, ExplainKey;
    ConnectionLog(w, p.state.(attempted := p.state.attempted + {ExplainKey(p.details[row])}), p.details[row].database);
  }

  lemma ConnectionLog(w: World, s: State, database: Text)
    ensures var log := Connection(w, s, database).log;
            s.log <= log && |log| <= |s.log| + 1 && (|log| > |s.log| ==> log[|s.log|].Connected?)
  {
  }

  lemma {:induction false} VisitsResults(w: World, p: Pass, ranking: seq<Text>, start: nat)
    requires forall k :: k in ranking ==> k in p.details
    requires NoRepeats(ranking) && Pending(p, ranking) && Logged(p, start)
    ensures var q := Visits(w, p, ranking);
            && Logged(q, start)
            && (forall k :: k in p.results ==> k in q.results && q.results[k] == p.results[k])
            && q.details.Keys == p.details.Keys
            && (forall k :: k in p.details ==> SameRow(p.details[k], q.details[k]))
    decreases |ranking|
  {
    hide Visit, Logged, ExplainKey;
    if ranking != [] && p.successes < MAX_SUCCESSES {
      var row, rest := ranking[0], ranking[1..];
      VisitKeys(w, p, row);
      VisitResults(w, p, row, start);
      var q := Visit(w, p, row);
      assert row !in rest;
      VisitsResults(w, q, rest, start);
    }
  }

  /** The recorded results are those of rows that have one. */
  lemma {:induction false} RecordedRows(details: map<Text, Detail>, listing: seq<Text>)
    requires forall k :: k in listing ==> k in details
    ensures var r := Recorded(details, listing);
            && (forall k :: k in listing && HasResult(details[k]) ==> ExplainKey(details[k]) in r)
            && (forall key :: key in r ==> exists k :: k in listing && IsResult(details[k], key, r[key]))
    decreases |listing|
  {
    hide ExplainKey;
    if listing != [] {
      var rest, last := listing[..|listing| - 1], listing[|listing| - 1];
      RecordedRows(details, rest);
      var r, r0 := Recorded(details, listing), Recorded(details, rest);
      assert listing == rest + [last];
      forall key | key in r ensures exists k :: k in listing && IsResult(details[k], key, r[key]) {
        if HasResult(details[last]) && key == ExplainKey(details[last]) {
          assert last in listing && IsResult(details[last], key, r[key]);
        } else {
          var k :| k in rest && IsResult(details[k], key, r0[key]);
          assert k in listing;
        }
      }
    }
  }

  function Result(d: Detail): Outcome {
    Outcome(d.plan, d.error)
  }

  /** Rows with the same explain key, and the executions of a row's key. */
  predicate Siblings(a: Detail, b: Detail) {
    ExplainKey(a) == ExplainKey(b)
  }

  predicate Of(e: Event, d: Detail) {
    e.Executed? && e.key == ExplainKey(d)
  }

  predicate IsResult(d: Detail, key: Text, o: Outcome) {
    HasResult(d) && ExplainKey(d) == key && Result(d) == o
  }

  /**
   * After a ranking, every row of a key that was executed carries that execution's plan and
   * error, and every row of a key that had a result before carries the result of one of its
   * rows; so siblings agree, whether or not their database failed meanwhile.
   */
  lemma SiblingsShare(w: World, s: State, details: map<Text, Detail>, listing: seq<Text>, ranking: seq<Text>)
    requires Lists(listing, details.Keys) && Lists(ranking, details.Keys)
    ensures var p := Ranked(w, s, details, listing, ranking);
            && p.details.Keys == details.Keys && |s.log| <= |p.state.log|
            && (forall k :: k in details ==> SameRow(details[k], p.details[k]))
            && (forall k, i :: k in details && |s.log| <= i < |p.state.log| && Of(p.state.log[i], details[k]) ==>
                  Result(p.details[k]) == p.state.log[i].outcome)
            && (forall k, k0 ::
                  k in details && k0 in details && HasResult(details[k0]) && Siblings(details[k0], details[k]) ==>
                  exists k1 :: k1 in details && IsResult(details[k1], ExplainKey(details[k]), Result(p.details[k])))
  {
    hide Visits, Recorded, ExplainKey;
    var r := Recorded(details, listing);
    RecordedRows(details, listing);
    var p0 := Pass(s, details, r, 0);
    assert Pending(p0, ranking);
    VisitsResults(w, p0, ranking, |s.log|);
    var q, p := Visits(w, p0, ranking), Ranked(w, s, details, listing, ranking);
    forall k | k in details
      ensures ExplainKey(q.details[k]) == ExplainKey(details[k]) && SameRow(details[k], p.details[k])
    {
      SameKey(details[k], q.details[k]);
    }
    forall k, k0 | k in details && k0 in details && HasResult(details[k0]) && Siblings(details[k0], details[k])
      ensures exists k1 :: k1 in details && IsResult(details[k1], ExplainKey(details[k]), Result(p.details[k]))
    {
      var k1 :| k1 in listing && IsResult(details[k1], ExplainKey(details[k]), r[ExplainKey(details[k])]);
      assert k1 in details;
    }
  }

  lemma SameKey(a: Detail, b: Detail)
    requires SameRow(a, b)
    ensures ExplainKey(a) == ExplainKey(b)
  {
  }

  /** Siblings of a key with a result, old or new, end with the same plan and error. */
  lemma SiblingsAgree(
    w: World, s: State, details: map<Text, Detail>, listing: seq<Text>, ranking: seq<Text>, a: Text, b: Text)
    requires Lists(listing, details.Keys) && Lists(ranking, details.Keys)
    requires a in details && b in details && ExplainKey(details[a]) == ExplainKey(details[b])
    requires HadResult(details, ExplainKey(details[a])) ||
             Runs(Ranked(w, s, details, listing, ranking).state.log, |s.log|, ExplainKey(details[a]))
    ensures var p := Ranked(w, s, details, listing, ranking);
            && a in p.details && b in p.details
            && p.details[a].plan == p.details[b].plan && p.details[a].error == p.details[b].error
  {
    hide Visits, Recorded, ExplainKey;
    var r := Recorded(details, listing);
    RecordedRows(details, listing);
    var p0 := Pass(s, details, r, 0);
    assert Pending(p0, ranking);
    VisitsResults(w, p0, ranking, |s.log|);
    var q := Visits(w, p0, ranking);
    SameKey(details[a], q.details[a]);
    SameKey(details[b], q.details[b]);
  }

  predicate HadResult(details: map<Text, Detail>, key: Text) {
    exists k :: k in details && HasResult(details[k]) && ExplainKey(details[k]) == key
  }

  /** Whether a key was executed from `start` on. */
  predicate Runs(log: seq<Event>, start: nat, key: Text) {
    exists i :: start <= i < |log| && log[i].Executed? && log[i].key == key
  }
}
