/**
 * Explaining MySQL queries over one pinned session: the session is switched
 * between schemas with USE, may break at any time and is then replaced.  What
 * the server answers is arbitrary: the n-th request gets the n-th reply.
 */
module MySqlExplain {
  import opened Bytes
  import opened Wrappers
  import opened ExplainErrors

  datatype Denial = NotDenied | SelectDenied | OtherDenied

  /** A reply: text is a plan or an error message; a broken reply means that the connection is gone. */
  datatype Reply = Reply(ok: bool, text: Text, broken: bool, denial: Denial)

  type World = nat -> Reply

  datatype Problem = Problem(text: Text, broken: bool)

  /**
   * What happened.  An EXPLAIN is logged with the schema the server had selected on the
   * connection, how many variants were left, this one included, and the reply.
   */
  datatype Event =
    | Begun(key: Text)
    | Used(conn: nat, schema: Text, ok: bool, broken: bool)
    | Sent(conn: nat, schema: Text, selected: Option<Text>, query: Text, left: nat, reply: Reply)
    | Marked(schema: Text)

  /** The collection state, and what the server knows: the schema selected on each connection. */
  datatype State = State(
    attempted: set<Text>, failed: map<Text, Text>,
    handle: bool, connectError: Option<Text>, session: Option<nat>, database: Text,
    clock: nat, openings: nat, selected: map<nat, Text>, log: seq<Event>)

  const MAX_PLANS := 100

  /** The schema of every new connection: the pass connects without a name, and this one is put in its place. */
  const DEFAULT_SCHEMA := Ascii("mysql")

  function NewState(): State {
    State({}, map[], false, None, None, [], 0, 0, map[], [])
  }

  // ---------- the state's operations ----------

  datatype Opening = Pinned(conn: nat) | NoSession(error: Text)

  function Connected(w: World, s: State): State
    requires s.session.None? && s.connectError.None? && !s.handle
  {
    var reply := w(s.clock);
    if reply.ok then s.(handle := true, clock := s.clock + 1)
    else s.(connectError := Some(OrDefault(reply.text)), clock := s.clock + 1)
  }

  function Pin(w: World, s: State): (State, Opening)
    requires s.session.None?
  {
    var reply := w(s.clock);
    if reply.ok then
      (s.(session := Some(s.openings), openings := s.openings + 1, clock := s.clock + 1,
          selected := s.selected[s.openings := DEFAULT_SCHEMA]), Pinned(s.openings))
    else (s.(clock := s.clock + 1), NoSession(reply.text))
  }

  /** The pinned session, opened if there is none; a failed connect is remembered, a failed pin is not. */
  function OpenSession(w: World, s: State): (State, Opening) {
    if s.session.Some? then (s, Pinned(s.session.value))
    else if s.connectError.Some? then (s, NoSession(s.connectError.value))
    else if s.handle then Pin(w, s)
    else
      var c := Connected(w, s);
      if c.connectError.Some? then (c, NoSession(c.connectError.value)) else Pin(w, c)
  }

  function Reset(s: State): State {
    if s.session.None? then s else s.(session := None, database := [])
  }

  function MarkFailed(s: State, schema: Text, reason: Text): State {
    s.(failed := s.failed[schema := OrDefault(reason)], log := s.log + [Marked(schema)])
  }

  function Begin(s: State, key: Text): State {
    s.(attempted := s.attempted + {key}, log := s.log + [Begun(key)])
  }

  // ---------- selecting a schema ----------

  /** A USE statement and its effect on the server and on what the state remembers. */
  function Use(w: World, s: State, conn: nat, schema: Text): State {
    var reply := w(s.clock);
    var ok := reply.ok;
    s.(clock := s.clock + 1,
       selected := if ok then s.selected[conn := schema] else s.selected,
       database := if ok then schema else s.database,
       log := s.log + [Used(conn, schema, ok, !ok && reply.broken)])
  }

  function UseSchema(w: World, s: State, schema: Text, attempts: nat, error: Text): (State, Opening)
    decreases attempts
  {
    if attempts == 0 then (s, NoSession(error)) else
      var (o, opening) := OpenSession(w, s);
      if opening.NoSession? then (o, opening)
      else if o.database == schema then (o, opening)
      else
        var reply := w(o.clock);
        var u := Use(w, o, opening.conn, schema);
        if reply.ok then (u, opening)
        else if !reply.broken then (u, NoSession(reply.text))
        else UseSchema(w, Reset(u), schema, attempts - 1, reply.text)
  }

  const USE_ATTEMPTS := 2

  function SelectSchema(w: World, s: State, schema: Text): (State, Opening) {
    UseSchema(w, s, schema, USE_ATTEMPTS, [])
  }

  // ---------- one query ----------

  function Replaced(s: Text, other: Byte): (t: Text)
    ensures |t| == |s|
  {
    seq(|s|, i requires 0 <= i < |s| => if s[i] == DQUOTE then other else s[i])
  }

  /** The query as written, and with double quotes read as string and as identifier quotes. */
  function Variants(query: Text): seq<Text> {
    [query, Replaced(query, QUOTE), Replaced(query, BACKTICK)]
  }

  /** The second variant has `'` for each `"`, the third a backtick, and nothing else is changed. */
  lemma VariantsAre(query: Text)
    ensures var vs := Variants(query);
            && |vs| == 3 && vs[0] == query && |vs[1]| == |vs[2]| == |query|
            && forall i :: 0 <= i < |query| ==>
                 && vs[1][i] == (if query[i] == 34 then 39 else query[i])
                 && vs[2][i] == (if query[i] == 34 then 96 else query[i])
  {
  }

  function SelectedOn(s: State, conn: nat): Option<Text> {
    if conn in s.selected then Some(s.selected[conn]) else None
  }

  function Send(w: World, s: State, conn: nat, schema: Text, query: Text, left: nat): State {
    s.(clock := s.clock + 1, log := s.log + [Sent(conn, schema, SelectedOn(s, conn), query, left, w(s.clock))])
  }

  datatype Explanation = Explanation(plan: Text, error: Option<Problem>)

  /** One variant after the other, until one gets a plan or is denied; an earlier error is kept. */
  function Explain(w: World, s: State, conn: nat, schema: Text, queries: seq<Text>, earlier: Option<Problem>)
    : (State, Explanation)
    decreases |queries|
  {
    if queries == [] then (s, Explanation([], earlier)) else
      var reply := w(s.clock);
      var t := Send(w, s, conn, schema, queries[0], |queries|);
      if reply.ok then (t, Explanation(reply.text, earlier))
      else if reply.denial.SelectDenied? then (t, Explanation([], Some(Problem(NEED_GRANT, false))))
      else if reply.denial.OtherDenied? then (t, Explanation([], Some(Problem(reply.text, reply.broken))))
      else Explain(w, t, conn, schema, queries[1..], Some(Problem(reply.text, reply.broken)))
  }

  predicate Broke(e: Explanation) {
    e.error.Some? && e.error.value.broken
  }

  /** How an attempt ends: no session, or an explanation. */
  datatype Attempt = Unreachable(error: Text) | Answered(explanation: Explanation)

  /** Selecting the schema, explaining, and once more on a new session if the connection broke. */
  function TryExplain(w: World, s: State, schema: Text, query: Text): (State, Attempt) {
    var (u, opening) := SelectSchema(w, s, schema);
    if opening.NoSession? then (u, Unreachable(opening.error)) else
      var (e, first) := Explain(w, u, opening.conn, schema, Variants(query), None);
      if !Broke(first) then (e, Answered(first)) else
        var (v, again) := SelectSchema(w, Reset(e), schema);
        if again.NoSession? then (v, Unreachable(again.error)) else
          var (f, second) := Explain(w, v, again.conn, schema, Variants(query), None);
          (if Broke(second) then Reset(f) else f, Answered(second))
  }

  // ---------- the pass over the digests ----------

  /** A digest row; `excluded` and `recent` are what the row filters find. */
  datatype Digest = Digest(
    query: Text, schema: Text, excluded: bool, recent: bool, plan: Option<Text>, error: Option<Text>)

  predicate EndsWithDots(s: Text) {
    |s| >= 3 && s[|s| - 3] == DOT && s[|s| - 2] == DOT && s[|s| - 1] == DOT
  }

  function Unreached(s: State, d: Digest): Digest {
    d.(error := Some(ConnectionFailedError(if d.schema in s.failed then s.failed[d.schema] else [])))
  }

  predicate Passed(d: Digest) {
    d.query == [] || d.excluded || d.plan.Some? || d.error.Some?
  }

  /** One row: the new state, the new row, and whether it gained a plan. */
  function Row(w: World, s: State, key: Text, d: Digest): (State, Digest, bool) {
    if Passed(d) then (s, d, false)
    else if EndsWithDots(d.query) then (s, d.(error := Some(NEED_FULL_QUERY)), false)
    else if !d.recent then (s, d, false)
    else if d.schema in s.failed then (s, Unreached(s, d), false)
    else if key == [] || key in s.attempted then (s, d, false)
    else
      var (t, attempt) := TryExplain(w, Begin(s, key), d.schema, d.query);
      match attempt
      case Unreachable(error) =>
        var m := MarkFailed(t, d.schema, error);
        (m, Unreached(m, d), false)
      case Answered(e) => (t, Answer(d, e), e.plan != [])
  }

  function Answer(d: Digest, e: Explanation): Digest {
    d.(error := if e.error.Some? then Some(e.error.value.text) else d.error,
       plan := if e.plan != [] then Some(e.plan) else d.plan)
  }

  datatype Pass = Pass(state: State, digests: map<Text, Digest>, plans: nat)

  /** The rows in the order of their ranking, until enough plans are found. */
  function Collect(w: World, p: Pass, ranking: seq<Text>): Pass
    requires forall k :: k in ranking ==> k in p.digests
    decreases |ranking|
  {
    if ranking == [] || p.plans >= MAX_PLANS then p
    else Collect(w, NextPass(w, p, ranking[0]), ranking[1..])
  }

  function NextPass(w: World, p: Pass, key: Text): Pass
    requires key in p.digests
  {
    var (s, d, gained) := Row(w, p.state, key, p.digests[key]);
    Pass(s, p.digests[key := d], if gained then p.plans + 1 else p.plans)
  }

  // ---------- the state as an object ----------

  class ExplainCollectionState {
    const world: World
    var attempted: set<Text>
    var failedDatabases: map<Text, Text>
    var sessionDB: bool
    var sessionErr: Option<Text>
    var session: Option<nat>
    var sessionDatabase: Text
    var clock: nat
    var pinned: nat
    var selected: map<nat, Text>
    var log: seq<Event>

    constructor (w: World)
      ensures world == w && Value() == NewState()
    {
      world := w;
      attempted, failedDatabases := {}, map[];
      sessionDB, sessionErr, session, sessionDatabase := false, None, None, [];
      clock, pinned, selected, log := 0, 0, map[], [];
    }

    function Value(): State
      reads this
    {
      State(attempted, failedDatabases, sessionDB, sessionErr, session, sessionDatabase, clock, pinned, selected, log)
    }

    /** The next reply of the server. */
    method Ask() returns (reply: Reply)
      modifies this`clock
      ensures reply == world(old(clock)) && clock == old(clock) + 1
    {
      reply := world(clock);
      clock := clock + 1;
    }

    method Session() returns (opening: Opening)
      modifies this
      ensures (Value(), opening) == OpenSession(world, old(Value()))
    {
      if session.Some? {
        return Pinned(session.value);
      }
      if sessionErr.Some? {
        return NoSession(sessionErr.value);
      }
      if !sessionDB {
        var connected := Ask();
        if !connected.ok {
          sessionErr := Some(OrDefault(connected.text));
          return NoSession(sessionErr.value);
        }
        sessionDB := true;
      }
      var conn := Ask();
      if !conn.ok {
        return NoSession(conn.text);
      }
      session, selected := Some(pinned), selected[pinned := DEFAULT_SCHEMA];
      pinned := pinned + 1;
      return Pinned(session.value);
    }

    method ResetSession()
      modifies this
      ensures Value() == Reset(old(Value()))
    {
      if session.None? {
        return;
      }
      session, sessionDatabase := None, [];
    }

    method TryBeginAttempt(key: Text) returns (began: bool)
      modifies this
      ensures began == (key != [] && key !in old(attempted))
      ensures Value() == if began then Begin(old(Value()), key) else old(Value())
    {
      if key == [] || key in attempted {
        return false;
      }
      attempted := attempted + {key};
      log := log + [Begun(key)];
      return true;
    }

    method MarkDatabaseFailed(schema: Text, reason: Text)
      modifies this
      ensures Value() == MarkFailed(old(Value()), schema, reason)
    {
      failedDatabases := failedDatabases[schema := OrDefault(reason)];
      log := log + [Marked(schema)];
    }

    method UseExplainSchema(schema: Text) returns (opening: Opening)
      modifies this
      ensures (Value(), opening) == SelectSchema(world, old(Value()), schema)
    {
      hide OpenSession;
      var error: Text := [];
      var attempt := 0;
      while attempt < USE_ATTEMPTS
        invariant 0 <= attempt <= USE_ATTEMPTS
        invariant UseSchema(world, Value(), schema, USE_ATTEMPTS - attempt, error)
               == SelectSchema(world, old(Value()), schema)
      {
        opening := Session();
        if opening.NoSession? || sessionDatabase == schema {
          return opening;
        }
        var reply := Ask();
        log := log + [Used(opening.conn, schema, reply.ok, !reply.ok && reply.broken)];
        if reply.ok {
          selected, sessionDatabase := selected[opening.conn := schema], schema;
          return opening;
        }
        if !reply.broken {
          return NoSession(reply.text);
        }
        error := reply.text;
        ResetSession();
        attempt := attempt + 1;
      }
      return NoSession(error);
    }

    method ExecuteExplain(conn: nat, schema: Text, query: Text) returns (e: Explanation)
      modifies this
      ensures (Value(), e) == Explain(world, old(Value()), conn, schema, Variants(query), None)
    {
      var queries := Variants(query);
      var error: Option<Problem> := None;
      var i := 0;
      while i < |queries|
        invariant 0 <= i <= |queries|
        invariant Explain(world, Value(), conn, schema, queries[i..], error)
               == Explain(world, old(Value()), conn, schema, Variants(query), None)
      {
        assert queries[i..][1..] == queries[i + 1..];
        var reply := Ask();
        log := log + [Sent(conn, schema, SelectedOn(Value(), conn), queries[i], |queries| - i, reply)];
        if reply.ok {
          return Explanation(reply.text, error);
        }
        if reply.denial.SelectDenied? {
          return Explanation([], Some(Problem(NEED_GRANT, false)));
        }
        error := Some(Problem(reply.text, reply.broken));
        if reply.denial.OtherDenied? {
          return Explanation([], error);
        }
        i := i + 1;
      }
      return Explanation([], error);
    }

    /** The retry of a query whose connection broke. */
    method Attempted(schema: Text, query: Text) returns (attempt: Attempt)
      modifies this
      ensures (Value(), attempt) == TryExplain(world, old(Value()), schema, query)
    {
      hide SelectSchema, Explain, Variants;
      var opening := UseExplainSchema(schema);
      if opening.NoSession? {
        return Unreachable(opening.error);
      }
      var e := ExecuteExplain(opening.conn, schema, query);
      if Broke(e) {
        ResetSession();
        opening := UseExplainSchema(schema);
        if opening.NoSession? {
          return Unreachable(opening.error);
        }
        e := ExecuteExplain(opening.conn, schema, query);
        if Broke(e) {
          ResetSession();
        }
      }
      return Answered(e);
    }

    method CollectExplain(digests: map<Text, Digest>, ranking: seq<Text>)
      returns (result: map<Text, Digest>, plans: nat)
      requires forall k :: k in ranking ==> k in digests
      modifies this
      ensures Pass(Value(), result, plans) == Collect(world, Pass(old(Value()), digests, 0), ranking)
    {
      hide TryExplain;
      result, plans := digests, 0;
      var i := 0;
      while i < |ranking| && plans < MAX_PLANS
        invariant 0 <= i <= |ranking|
        invariant forall k :: k in ranking[i..] ==> k in result
        invariant result.Keys == digests.Keys
        invariant Collect(world, Pass(Value(), result, plans), ranking[i..])
               == Collect(world, Pass(old(Value()), digests, 0), ranking)
      {
        var k := ranking[i];
        assert ranking[i..][0] == k && ranking[i..][1..] == ranking[i + 1..];
        var d, gained := ExplainRow(k, result[k]);
        result := result[k := d];
        if gained {
          plans := plans + 1;
        }
        i := i + 1;
      }
    }

    method ExplainRow(key: Text, d: Digest) returns (row: Digest, gained: bool)
      modifies this
      ensures (Value(), row, gained) == Row(world, old(Value()), key, d)
    {
      hide TryExplain;
      row, gained := d, false;
      if Passed(d) {
        return;
      }
      if EndsWithDots(d.query) {
        row := d.(error := Some(NEED_FULL_QUERY));
        return;
      }
      if !d.recent {
        return;
      }
      if d.schema in failedDatabases {
        row := Unreached(Value(), d);
        return;
      }
      var began := TryBeginAttempt(key);
      if !began {
        return;
      }
      var attempt := Attempted(d.schema, d.query);
      match attempt {
        case Unreachable(error) =>
          MarkDatabaseFailed(d.schema, error);
          row := Unreached(Value(), d);
        case Answered(e) =>
          if e.error.Some? {
            row := row.(error := Some(e.error.value.text));
          }
          if e.plan != [] {
            row, gained := row.(plan := Some(e.plan)), true;
          }
      }
    }
  }
}
