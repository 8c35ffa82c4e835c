/** What becomes of a pinned session whose connection breaks, and of the row that was being explained. */
module MySqlExplainSessions {
  import opened Bytes
  import opened Wrappers
  import opened ExplainErrors
  import opened MySqlExplain
  import opened MySqlExplainRuns

  // ---------- the log ----------

  /** A reply that tells that the connection is gone; a missing privilege is told before that. */
  predicate Dropped(r: Reply) {
    !r.ok && r.broken && !r.denial.SelectDenied?
  }

  /** The last EXPLAIN of a log. */
  function LastSent(log: seq<Event>): (e: Option<Event>)
    ensures e.Some? ==> e.value.Sent?
  {
    if log == [] then None
    else if log[|log| - 1].Sent? then Some(log[|log| - 1])
    else LastSent(log[..|log| - 1])
  }

  /** The last EXPLAIN got no reply but that its connection is gone. */
  predicate EndsDropped(log: seq<Event>) {
    LastSent(log).Some? && Dropped(LastSent(log).value.reply)
  }

  /** After such an EXPLAIN the next goes to a later connection, unless it is the next variant of the same query. */
  predicate Follows(log: seq<Event>, e: Event) {
    e.Sent? && EndsDropped(log) ==>
      var last := LastSent(log).value;
      || last.conn < e.conn
      || (last.conn == e.conn && log[|log| - 1] == last && e.schema == last.schema && e.left + 1 == last.left)
  }

  predicate MovesOn(log: seq<Event>) {
    forall i :: 0 <= i < |log| ==> Follows(log[..i], log[i])
  }

  /** Connections are numbered as they are opened. */
  predicate Numbered(s: State) {
    && (s.session.Some? ==> s.session.value < s.openings)
    && (LastSent(s.log).Some? ==> LastSent(s.log).value.conn < s.openings)
  }

  /** The session is later than a connection that was found gone last. */
  predicate Alive(s: State) {
    s.session.Some? && EndsDropped(s.log) ==> LastSent(s.log).value.conn < s.session.value
  }

  predicate Moving(s: State) {
    MovesOn(s.log) && Numbered(s)
  }

  lemma LastOf(log: seq<Event>, e: Event)
    ensures LastSent(log + [e]) == if e.Sent? then Some(e) else LastSent(log)
  {
    assert (log + [e])[..|log|] == log;
  }

  lemma MovesMore(log: seq<Event>, e: Event)
    requires MovesOn(log) && Follows(log, e)
    ensures MovesOn(log + [e])
  {
    hide Follows;
    forall i | 0 <= i <= |log| ensures Follows((log + [e])[..i], (log + [e])[i]) {
      assert (log + [e])[..i] == log[..i] && log[..|log|] == log;
    }
  }

  /** Any event but an EXPLAIN. */
  lemma Quietly(log: seq<Event>, e: Event)
    requires MovesOn(log) && !e.Sent?
    ensures MovesOn(log + [e]) && LastSent(log + [e]) == LastSent(log)
  {
    LastOf(log, e);
    MovesMore(log, e);
  }

  // ---------- the operations ----------

  lemma OpenMoves(w: World, s: State)
    requires Moving(s) && Alive(s)
    ensures var (t, o) := OpenSession(w, s);
            && Moving(t) && Alive(t) && t.log == s.log && t.openings >= s.openings
            && (o.Pinned? <==> t.session.Some?) && (o.Pinned? ==> t.session == Some(o.conn))
            && (s.session.None? && o.Pinned? ==> o.conn == s.openings)
            && (s.session.Some? ==> t == s) && t.database == s.database
  {
    hide MovesOn, LastSent, Dropped;
  }

  lemma UseMoves(w: World, s: State, conn: nat, schema: Text)
    requires Moving(s) && Alive(s) && s.session == Some(conn)
    ensures Moving(Use(w, s, conn, schema)) && Alive(Use(w, s, conn, schema))
  {
    hide MovesOn, LastSent, Dropped;
    Quietly(s.log, Used(conn, schema, w(s.clock).ok, !w(s.clock).ok && w(s.clock).broken));
  }

  lemma ResetMoves(s: State)
    requires Moving(s)
    ensures Moving(Reset(s)) && Alive(Reset(s)) && Reset(s).session.None? && Reset(s).log == s.log
    ensures Reset(s).openings == s.openings && (s.session.Some? ==> Reset(s).database == [])
  {
    hide MovesOn;
  }

  lemma {:induction false} SchemaMoves(w: World, s: State, schema: Text, attempts: nat, error: Text)
    requires Moving(s) && Alive(s)
    ensures var (t, o) := UseSchema(w, s, schema, attempts, error);
            && Moving(t) && Alive(t) && t.openings >= s.openings
            && (o.Pinned? ==> t.session == Some(o.conn))
            && (s.session.None? && o.Pinned? ==> o.conn >= s.openings)
            && LastSent(t.log) == LastSent(s.log)
    decreases attempts
  {
    hide Moving, Alive, OpenSession, Use, LastSent;
    if attempts > 0 {
      OpenMoves(w, s);
      var (o, opening) := OpenSession(w, s);
      if opening.Pinned? && o.database != schema {
        UseMoves(w, o, opening.conn, schema);
        UseIs(w, o, opening.conn, schema);
        var u := Use(w, o, opening.conn, schema);
        ResetMoves(u);
        SchemaMoves(w, Reset(u), schema, attempts - 1, w(o.clock).text);
      }
    }
  }

  lemma UseIs(w: World, s: State, conn: nat, schema: Text)
    ensures var u, r := Use(w, s, conn, schema), w(s.clock);
            && u.session == s.session && u.openings == s.openings && LastSent(u.log) == LastSent(s.log)
            && u.log == s.log + [Used(conn, schema, r.ok, !r.ok && r.broken)]
            && u.database == if r.ok then schema else s.database
  {
    hide LastSent;
    LastOf(s.log, Used(conn, schema, w(s.clock).ok, !w(s.clock).ok && w(s.clock).broken));
  }

  /** The EXPLAIN that an error came from is the last one, if that found its connection gone. */
  predicate Goes(s: State, conn: nat, schema: Text, left: nat, earlier: Option<Problem>) {
    EndsDropped(s.log) ==>
      var last := LastSent(s.log).value;
      || last.conn < conn
      || (&& last.conn == conn && s.log[|s.log| - 1] == last && last.schema == schema && last.left == left + 1
          && earlier.Some? && earlier.value.broken)
  }

  lemma SendMoves(w: World, s: State, conn: nat, schema: Text, queries: seq<Text>, earlier: Option<Problem>)
    requires Moving(s) && s.session == Some(conn) && queries != [] && Goes(s, conn, schema, |queries|, earlier)
    ensures var t, r := Send(w, s, conn, schema, queries[0], |queries|), w(s.clock);
            && Moving(t) && t.session == s.session && t.openings == s.openings
            && (EndsDropped(t.log) <==> Dropped(r))
            && Goes(t, conn, schema, |queries| - 1, Some(Problem(r.text, r.broken)))
  {
    hide MovesOn, LastSent;
    var e := Sent(conn, schema, SelectedOn(s, conn), queries[0], |queries|, w(s.clock));
    LastOf(s.log, e);
    MovesMore(s.log, e);
  }

  /** An explanation whose last reply tells that the connection is gone says so. */
  lemma {:induction false} ExplainMoves(
    w: World, s: State, conn: nat, schema: Text, queries: seq<Text>, earlier: Option<Problem>)
    requires Moving(s) && s.session == Some(conn) && Goes(s, conn, schema, |queries|, earlier)
    ensures var (t, e) := Explain(w, s, conn, schema, queries, earlier);
            && Moving(t) && t.session == s.session && t.openings == s.openings
            && (Broke(e) || Alive(t))
    decreases |queries|
  {
    hide Moving, Send, LastSent, SelectedOn;
    if queries != [] {
      SendMoves(w, s, conn, schema, queries, earlier);
      var r, t := w(s.clock), Send(w, s, conn, schema, queries[0], |queries|);
      ExplainMoves(w, t, conn, schema, queries[1..], Some(Problem(r.text, r.broken)));
    }
  }

  lemma AliveGoes(s: State, conn: nat, schema: Text, left: nat)
    requires Alive(s) && s.session == Some(conn)
    ensures Goes(s, conn, schema, left, None)
  {
    hide LastSent;
  }

  lemma TryMoves(w: World, s: State, schema: Text, query: Text)
    requires Moving(s) && Alive(s)
    ensures var t := TryExplain(w, s, schema, query).0; Moving(t) && Alive(t)
  {
    hide Moving, Alive, UseSchema, Explain, Variants, Reset, Broke, Goes;
    SchemaMoves(w, s, schema, USE_ATTEMPTS, []);
    var (u, opening) := SelectSchema(w, s, schema);
    if opening.Pinned? {
      AliveGoes(u, opening.conn, schema, |Variants(query)|);
      ExplainMoves(w, u, opening.conn, schema, Variants(query), None);
      var (e, first) := Explain(w, u, opening.conn, schema, Variants(query), None);
      if Broke(first) {
        ResetMoves(e);
        SchemaMoves(w, Reset(e), schema, USE_ATTEMPTS, []);
        var (v, again) := SelectSchema(w, Reset(e), schema);
        if again.Pinned? {
          AliveGoes(v, again.conn, schema, |Variants(query)|);
          ExplainMoves(w, v, again.conn, schema, Variants(query), None);
          ResetMoves(Explain(w, v, again.conn, schema, Variants(query), None).0);
        }
      }
    }
  }

  lemma RowMoves(w: World, s: State, key: Text, d: Digest)
    requires Moving(s) && Alive(s)
    ensures Moving(Row(w, s, key, d).0) && Alive(Row(w, s, key, d).0)
  {
    hide TryExplain, Unreached, MovesOn, LastSent, Passed;
    Quietly(s.log, Begun(key));
    TryMoves(w, Begin(s, key), d.schema, d.query);
    Quietly(TryExplain(w, Begin(s, key), d.schema, d.query).0.log, Marked(d.schema));
  }

  lemma {:induction false} CollectMoves(w: World, p: Pass, ranking: seq<Text>)
    requires Moving(p.state) && Alive(p.state) && forall k :: k in ranking ==> k in p.digests
    ensures Moving(Collect(w, p, ranking).state) && Alive(Collect(w, p, ranking).state)
    decreases |ranking|
  {
    hide Moving, Alive, Row;
    if ranking != [] && p.plans < MAX_PLANS {
      RowMoves(w, p.state, ranking[0], p.digests[ranking[0]]);
      CollectMoves(w, NextPass(w, p, ranking[0]), ranking[1..]);
    }
  }

  lemma {:induction false} RunMoves(w: World, s: State, jobs: seq<Job>)
    requires Moving(s) && Alive(s) && forall i :: 0 <= i < |jobs| ==> IsJob(jobs[i])
    ensures Moving(Run(w, s, jobs)) && Alive(Run(w, s, jobs))
    decreases |jobs|
  {
    hide Moving, Alive, Collect;
    if jobs != [] {
      assert IsJob(jobs[0]);
      CollectMoves(w, Pass(s, jobs[0].digests, 0), jobs[0].ranking);
      RunMoves(w, Collect(w, Pass(s, jobs[0].digests, 0), jobs[0].ranking).state, jobs[1..]);
    }
  }

  // ---------- the theorems ----------

  /**
   * In every run: after an EXPLAIN whose reply told that the connection is gone, the next one goes
   * to a later connection, unless it is the next variant of the same query; and no session is left
   * on a connection that was found gone last.
   */
  lemma EverySession(w: World, jobs: seq<Job>)
    requires forall i :: 0 <= i < |jobs| ==> IsJob(jobs[i])
    ensures var s := Run(w, NewState(), jobs);
            && (forall i :: 0 <= i < |s.log| ==> Follows(s.log[..i], s.log[i]))
            && (s.session.Some? && EndsDropped(s.log) ==> LastSent(s.log).value.conn < s.session.value)
  {
    hide Run, Follows;
    RunMoves(w, NewState(), jobs);
  }

  /** A row that is attempted: complete, recent, without a result, of a schema that did not fail, under a new key. */
  predicate IsAttempted(s: State, key: Text, d: Digest) {
    && d.query != [] && !d.excluded && d.plan.None? && d.error.None? && d.recent
    && !(|d.query| >= 3 && d.query[|d.query| - 3..] == Ascii("..."))
    && d.schema !in s.failed && key != [] && key !in s.attempted
  }

  /** The row as an explanation leaves it. */
  predicate Carries(row: Digest, d: Digest, e: Explanation) {
    && row == d.(plan := row.plan, error := row.error)
    && row.plan == (if e.plan == [] then None else Some(e.plan))
    && row.error == (if e.error.None? then None else Some(e.error.value.text))
  }

  /** A schema is given up: it is remembered with the reason, and the row tells it. */
  predicate GivesUp(s: State, t: State, d: Digest, row: Digest, reason: Text) {
    && t.failed == s.failed[d.schema := if reason == [] then Ascii("connection failed") else reason]
    && t.log == s.log + [Marked(d.schema)] && t.session == s.session
    && row == d.(error := Some(Ascii("connection_failed: ") + t.failed[d.schema]))
  }

  /**
   * An attempt selects the schema and explains.  If the connection broke, the schema is selected on
   * a new and later session and the query explained again there, and the row carries the second
   * explanation; a session that broke twice is dropped.  A schema that cannot be selected, the first
   * time or then, is given up.
   */
  lemma RowAttempt(w: World, s: State, key: Text, d: Digest)
    requires IsAttempted(s, key, d) && Moving(s) && Alive(s)
    ensures var s1 := s.(attempted := s.attempted + {key}, log := s.log + [Begun(key)]);
            var (t, row, gained) := Row(w, s, key, d);
            var (u, opening) := SelectSchema(w, s1, d.schema);
            && (gained <==> row.plan.Some?)
            && if opening.NoSession? then GivesUp(u, t, d, row, opening.error)
               else
                 var (e, first) := Explain(w, u, opening.conn, d.schema, Variants(d.query), None);
                 if first.error.None? || !first.error.value.broken then t == e && Carries(row, d, first)
                 else
                   var (v, again) := SelectSchema(w, e.(session := None, database := []), d.schema);
                   if again.NoSession? then GivesUp(v, t, d, row, again.error)
                   else
                     var (f, second) := Explain(w, v, again.conn, d.schema, Variants(d.query), None);
                     && opening.conn < again.conn && Carries(row, d, second) && t.log == f.log
                     && (if second.error.Some? && second.error.value.broken then t.session.None? else t == f)
  {
    hide Moving, Alive, UseSchema, Explain, Variants, Ascii;
    var s1 := s.(attempted := s.attempted + {key}, log := s.log + [Begun(key)]);
    Attempts(s, key, d);
    BeginMoves(s, key);
    SchemaMoves(w, s1, d.schema, USE_ATTEMPTS, []);
    var (u, opening) := SelectSchema(w, s1, d.schema);
    if opening.Pinned? {
      AliveGoes(u, opening.conn, d.schema, |Variants(d.query)|);
      ExplainMoves(w, u, opening.conn, d.schema, Variants(d.query), None);
      var (e, first) := Explain(w, u, opening.conn, d.schema, Variants(d.query), None);
      OpenedBefore(e);
      ResetMoves(e);
      assert e.session == Some(opening.conn) && Reset(e) == e.(session := None, database := []);
      SchemaMoves(w, Reset(e), d.schema, USE_ATTEMPTS, []);
      var (v, again) := SelectSchema(w, Reset(e), d.schema);
      assert again.Pinned? ==> opening.conn < again.conn;
      if again.Pinned? {
        AliveGoes(v, again.conn, d.schema, |Variants(d.query)|);
        ExplainMoves(w, v, again.conn, d.schema, Variants(d.query), None);
      }
    }
    Reasons();
  }

  lemma Attempts(s: State, key: Text, d: Digest)
    ensures IsAttempted(s, key, d) ==> !Passed(d) && !EndsWithDots(d.query)
  {
    if EndsWithDots(d.query) {
      assert d.query[|d.query| - 3..] == Ascii("...");
    }
  }

  lemma BeginMoves(s: State, key: Text)
    requires Moving(s) && Alive(s)
    ensures var s1 := s.(attempted := s.attempted + {key}, log := s.log + [Begun(key)]); Moving(s1) && Alive(s1)
  {
    hide MovesOn, LastSent;
    Quietly(s.log, Begun(key));
  }

  lemma OpenedBefore(s: State)
    requires Moving(s)
    ensures s.session.Some? ==> s.session.value < s.openings
  {
    hide MovesOn, LastSent;
  }

  lemma Reasons()
    ensures forall reason: Text ::
              OrDefault(reason) == if reason == [] then Ascii("connection failed") else reason
    ensures forall reason: Text ::
              reason != [] ==> ConnectionFailedError(reason) == Ascii("connection_failed: ") + reason
  {
  }

  /** The other rows: a query cut off is said to need its full text, a row of a failed schema carries the failure. */
  lemma RowNotAttempted(w: World, s: State, key: Text, d: Digest)
    requires !IsAttempted(s, key, d)
    ensures var (t, row, gained) := Row(w, s, key, d);
            var open := d.query != [] && !d.excluded && d.plan.None? && d.error.None?;
            var cut := |d.query| >= 3 && d.query[|d.query| - 3..] == Ascii("...");
            && t == s && !gained
            && row == if open && cut then d.(error := Some(Ascii("need_full_query")))
                      else if open && d.recent && d.schema in s.failed then
                        d.(error := Some(ConnectionFailedError(s.failed[d.schema])))
                      else d
  {
    hide TryExplain, MarkFailed, ConnectionFailedError;
    Dots(d.query);
  }

  lemma Dots(query: Text)
    ensures EndsWithDots(query) <==> |query| >= 3 && query[|query| - 3..] == Ascii("...")
  {
    if |query| >= 3 {
      var n := |query|;
      assert query[n - 3..] == [query[n - 3], query[n - 2], query[n - 1]];
    }
  }

  // ---------- opening a session ----------

  /**
   * Opening a session asks the server nothing when there is one, or when a connect failed before.
   * Else it connects once for all sessions, and a failure, with its reason, is kept; then it pins a
   * connection, which is new and has `mysql` selected, and a failure of that is not kept.
   */
  lemma SessionOpens(w: World, s: State)
    ensures var (t, o) := OpenSession(w, s);
            var asks := s.session.None? && s.connectError.None?;
            var connect, pin := w(s.clock), w(if s.handle then s.clock else s.clock + 1);
            && (s.session.Some? ==> t == s && o == Pinned(s.session.value))
            && (s.session.None? && s.connectError.Some? ==> t == s && o == NoSession(s.connectError.value))
            && (asks && !s.handle && !connect.ok ==>
                  var reason := if connect.text == [] then Ascii("connection failed") else connect.text;
                  && o == NoSession(reason) && t == s.(connectError := Some(reason), clock := s.clock + 1))
            && (asks && (s.handle || connect.ok) ==>
                  && t.handle && t.connectError.None? && t.log == s.log
                  && t.clock == (if s.handle then s.clock + 1 else s.clock + 2)
                  && (o.Pinned? <==> pin.ok)
                  && (pin.ok ==>
                        && o.conn == s.openings && t.session == Some(s.openings) && t.openings == s.openings + 1
                        && t.selected == s.selected[s.openings := Ascii("mysql")])
                  && (!pin.ok ==> o == NoSession(pin.text) && t.session.None? && t.openings == s.openings))
  {
    hide Ascii;
    ReasonText();
  }

  lemma ReasonText()
    ensures forall reason: Text :: OrDefault(reason) == if reason == [] then Ascii("connection failed") else reason
    ensures DEFAULT_SCHEMA == Ascii("mysql")
  {
  }

  // ---------- selecting a schema ----------

  /** What the tries of a selection leave behind. */
  predicate Tried(s: State, t: State, o: Opening, schema: Text, tries: nat) {
    && s.log <= t.log
    && var used := t.log[|s.log|..];
    && |used| <= tries && (forall i :: 0 <= i < |used| ==> used[i].Used? && used[i].schema == schema)
    && (o.Pinned? ==> t.database == schema && t.session == Some(o.conn))
    && (used != [] ==>
          var last := used[|used| - 1];
          && (last.ok ==> o == Pinned(last.conn))
          && (!last.ok && o.Pinned? ==> schema == [] && last.broken && last.conn < o.conn)
          && (last.broken && o.NoSession? ==> t.session.None?))
  }

  /**
   * A selection needs no USE on a session that has the schema; else it tries one, and a second on a
   * later session only after the first broke its own.
   */
  lemma SelectTries(w: World, s: State, schema: Text)
    requires Moving(s) && Alive(s)
    ensures var (t, o) := SelectSchema(w, s, schema);
            && Tried(s, t, o, schema, 2)
            && var used := t.log[|s.log|..];
            && (s.session.Some? && s.database == schema ==> used == [] && o == Pinned(s.session.value))
            && (|used| == 2 ==> used[0].broken && used[0].conn < used[1].conn)
  {
    hide Moving, Alive, OpenSession, Use, UseSchema, LastSent;
    OneTry(w, s, schema, 2, []);
    var (o, opening) := OpenSession(w, s);
    OpenMoves(w, s);
    if opening.Pinned? && o.database != schema {
      var u := Use(w, o, opening.conn, schema);
      UseMoves(w, o, opening.conn, schema);
      UseIs(w, o, opening.conn, schema);
      OpenedBefore(o);
      ResetMoves(u);
      var r := Reset(u);
      OneTry(w, r, schema, 1, w(o.clock).text);
      var (o2, opening2) := OpenSession(w, r);
      OpenMoves(w, r);
      if opening2.Pinned? && o2.database != schema {
        UseMoves(w, o2, opening2.conn, schema);
        UseIs(w, o2, opening2.conn, schema);
        ResetMoves(Use(w, o2, opening2.conn, schema));
        NoTry(w, Reset(Use(w, o2, opening2.conn, schema)), schema, w(o2.clock).text);
      }
    }
  }

  lemma OneTry(w: World, s: State, schema: Text, attempts: nat, error: Text)
    requires attempts > 0
    ensures var (o, opening) := OpenSession(w, s);
            UseSchema(w, s, schema, attempts, error) ==
            if opening.NoSession? || o.database == schema then (o, opening)
            else
              var u, r := Use(w, o, opening.conn, schema), w(o.clock);
              if r.ok then (u, opening)
              else if !r.broken then (u, NoSession(r.text))
              else UseSchema(w, Reset(u), schema, attempts - 1, r.text)
  {
    hide OpenSession, Use;
  }

  lemma NoTry(w: World, s: State, schema: Text, error: Text)
    ensures UseSchema(w, s, schema, 0, error) == (s, NoSession(error))
  {
  }
}
