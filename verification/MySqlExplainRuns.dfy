/** What holds of every run of MySQL explain passes, whatever the server replies. */
module MySqlExplainRuns {
  import opened Bytes
  import opened Wrappers
  import opened ExplainErrors
  import opened MySqlExplain

  // ---------- the invariant ----------

  /** The server once accepted a USE of the empty schema name on the connection. */
  predicate UsedEmpty(log: seq<Event>, conn: nat) {
    exists j :: 0 <= j < |log| && log[j] == Used(conn, [], true, false)
  }

  /** What is selected on a connection that is meant for a schema: the default for an empty name that was never used. */
  function Meant(log: seq<Event>, conn: nat, schema: Text): Option<Text> {
    Some(if schema != [] || UsedEmpty(log, conn) then schema else Ascii("mysql"))
  }

  /** What the state remembers of its session is what the server has selected on it. */
  predicate SessionTrue(s: State) {
    && (s.session.Some? ==> s.session.value < s.openings)
    && (forall c :: c in s.selected ==> c < s.openings)
    && (forall j :: 0 <= j < |s.log| && s.log[j].Used? ==> s.log[j].conn < s.openings)
    && (s.session.None? ==> s.database == [])
    && (s.session.Some? ==> SelectedOn(s, s.session.value) == Meant(s.log, s.session.value, s.database))
  }

  /** Every EXPLAIN was sent on a connection meant for its own schema. */
  predicate Grounded(log: seq<Event>) {
    forall i :: 0 <= i < |log| && log[i].Sent? ==> log[i].selected == Meant(log[..i], log[i].conn, log[i].schema)
  }

  predicate Touches(e: Event, schema: Text) {
    (e.Used? || e.Sent?) && e.schema == schema
  }

  /** A schema marked as failed is remembered, and nothing after the mark touches it. */
  predicate Settled(log: seq<Event>, failed: set<Text>) {
    && (forall i :: 0 <= i < |log| && log[i].Marked? ==> log[i].schema in failed)
    && (forall i, j :: 0 <= i < j < |log| && log[i].Marked? ==> !Touches(log[j], log[i].schema))
  }

  /** No key is begun twice. */
  predicate Distinct(log: seq<Event>, attempted: set<Text>) {
    && (forall i :: 0 <= i < |log| && log[i].Begun? ==> log[i].key in attempted)
    && (forall i, j :: 0 <= i < j < |log| && log[i].Begun? && log[j].Begun? ==> log[i].key != log[j].key)
  }

  predicate Good(s: State) {
    SessionTrue(s) && Grounded(s.log) && Settled(s.log, s.failed.Keys) && Distinct(s.log, s.attempted)
  }

  /** Logging an event that fits keeps the log's part of the invariant. */
  lemma LogFits(log: seq<Event>, failed: set<Text>, attempted: set<Text>, e: Event)
    requires Grounded(log) && Settled(log, failed) && Distinct(log, attempted)
    requires e.Sent? ==> e.selected == Meant(log, e.conn, e.schema)
    requires (e.Used? || e.Sent?) ==> e.schema !in failed
    requires !e.Begun?
    ensures Grounded(log + [e]) && Distinct(log + [e], attempted)
    ensures Settled(log + [e], if e.Marked? then failed + {e.schema} else failed)
  {
    var log' := log + [e];
    forall i | 0 <= i < |log'| && log'[i].Sent?
      ensures log'[i].selected == Meant(log'[..i], log'[i].conn, log'[i].schema)
    {
      assert log'[..i] == log[..i] && log[..|log|] == log;
    }
  }

  /** Only an accepted USE of the empty name changes what the connections are meant to have selected. */
  lemma MeantAfter(log: seq<Event>, e: Event, conn: nat, schema: Text)
    ensures Meant(log + [e], conn, schema) ==
            if e == Used(conn, [], true, false) then Some(schema) else Meant(log, conn, schema)
  {
    assert UsedEmpty(log + [e], conn) <==> UsedEmpty(log, conn) || e == Used(conn, [], true, false) by {
      assert (log + [e])[|log|] == e;
      assert forall j :: 0 <= j < |log| ==> (log + [e])[j] == log[j];
    }
  }

  // ---------- each operation keeps it ----------

  lemma SessionKeeps(w: World, s: State)
    requires Good(s)
    ensures var (t, opening) := OpenSession(w, s);
            && Good(t) && t.log == s.log && t.failed == s.failed && t.attempted == s.attempted
            && (opening.Pinned? ==> t.session == Some(opening.conn))
  {
    hide Grounded, Settled, Distinct, SessionTrue, Pin;
    if s.session.None? {
      PinKeeps(w, s);
      if s.connectError.None? && !s.handle {
        ConnectKeeps(w, s);
        PinKeeps(w, Connected(w, s));
      }
    }
  }

  lemma PinKeeps(w: World, s: State)
    requires SessionTrue(s) && s.session.None?
    ensures var (t, opening) := Pin(w, s);
            && SessionTrue(t) && t.log == s.log && t.failed == s.failed && t.attempted == s.attempted
            && (opening.Pinned? ==> t.session == Some(opening.conn))
  {
    hide Meant;
    NewConnection(s);
  }

  lemma ConnectKeeps(w: World, s: State)
    requires SessionTrue(s) && s.session.None? && s.connectError.None? && !s.handle
    ensures SessionTrue(Connected(w, s))
  {
  }

  lemma NewConnection(s: State)
    requires SessionTrue(s)
    ensures Meant(s.log, s.openings, []) == Some(DEFAULT_SCHEMA)
  {
  }

  lemma ResetKeeps(s: State)
    requires Good(s)
    ensures Good(Reset(s)) && Reset(s).failed == s.failed
  {
  }

  lemma UseKeeps(w: World, s: State, conn: nat, schema: Text)
    requires Good(s) && s.session == Some(conn) && schema !in s.failed
    ensures var u := Use(w, s, conn, schema);
            && Good(u) && u.failed == s.failed && u.session == s.session
            && (w(s.clock).ok ==> u.database == schema)
  {
    hide Grounded, Settled, Distinct, Meant;
    var e := Used(conn, schema, w(s.clock).ok, !w(s.clock).ok && w(s.clock).broken);
    LogFits(s.log, s.failed.Keys, s.attempted, e);
    MeantAfter(s.log, e, conn, Use(w, s, conn, schema).database);
    MeantNamed(s.log + [e], conn, schema);
  }

  lemma MeantNamed(log: seq<Event>, conn: nat, schema: Text)
    ensures schema != [] ==> Meant(log, conn, schema) == Some(schema)
  {
  }

  /** A session that was selected for a schema has it selected on the server. */
  lemma {:induction false} UseSchemaKeeps(w: World, s: State, schema: Text, attempts: nat, error: Text)
    requires Good(s) && schema !in s.failed
    ensures var (t, opening) := UseSchema(w, s, schema, attempts, error);
            && Good(t) && t.failed == s.failed
            && (opening.Pinned? ==> SelectedOn(t, opening.conn) == Meant(t.log, opening.conn, schema))
    decreases attempts
  {
    hide Good, OpenSession, Use, Meant, SelectedOn;
    if attempts > 0 {
      SessionKeeps(w, s);
      var (o, opening) := OpenSession(w, s);
      if opening.Pinned? {
        if o.database == schema {
          Remembered(o);
        } else {
          UseKeeps(w, o, opening.conn, schema);
          var u := Use(w, o, opening.conn, schema);
          Remembered(u);
          ResetKeeps(u);
          UseSchemaKeeps(w, Reset(u), schema, attempts - 1, w(o.clock).text);
        }
      }
    }
  }

  lemma Remembered(s: State)
    requires Good(s)
    ensures s.session.Some? ==> SelectedOn(s, s.session.value) == Meant(s.log, s.session.value, s.database)
  {
  }

  lemma SendKeeps(w: World, s: State, conn: nat, schema: Text, query: Text, left: nat)
    requires Good(s) && schema !in s.failed && SelectedOn(s, conn) == Meant(s.log, conn, schema)
    ensures var t := Send(w, s, conn, schema, query, left);
            Good(t) && t.failed == s.failed && SelectedOn(t, conn) == Meant(t.log, conn, schema)
  {
    hide Grounded, Settled, Distinct, Meant;
    var e := Sent(conn, schema, SelectedOn(s, conn), query, left, w(s.clock));
    LogFits(s.log, s.failed.Keys, s.attempted, e);
    MeantAfter(s.log, e, conn, schema);
    if s.session.Some? {
      MeantAfter(s.log, e, s.session.value, s.database);
    }
  }

  lemma {:induction false} ExplainKeeps(
    w: World, s: State, conn: nat, schema: Text, queries: seq<Text>, earlier: Option<Problem>)
    requires Good(s) && schema !in s.failed && SelectedOn(s, conn) == Meant(s.log, conn, schema)
    ensures var t := Explain(w, s, conn, schema, queries, earlier).0; Good(t) && t.failed == s.failed
    decreases |queries|
  {
    hide Good, Send, SelectedOn, Meant;
    if queries != [] {
      SendKeeps(w, s, conn, schema, queries[0], |queries|);
      var reply := w(s.clock);
      var problem := Problem(reply.text, reply.broken);
      var t := Send(w, s, conn, schema, queries[0], |queries|);
      ExplainKeeps(w, t, conn, schema, queries[1..], Some(problem));
    }
  }

  lemma TryKeeps(w: World, s: State, schema: Text, query: Text)
    requires Good(s) && schema !in s.failed
    ensures var t := TryExplain(w, s, schema, query).0; Good(t) && t.failed == s.failed
  {
    hide Good, UseSchema, Explain, SelectedOn, Meant, Variants, Reset;
    UseSchemaKeeps(w, s, schema, USE_ATTEMPTS, []);
    var (u, opening) := SelectSchema(w, s, schema);
    if opening.Pinned? {
      ExplainKeeps(w, u, opening.conn, schema, Variants(query), None);
      var (e, first) := Explain(w, u, opening.conn, schema, Variants(query), None);
      if Broke(first) {
        ResetKeeps(e);
        UseSchemaKeeps(w, Reset(e), schema, USE_ATTEMPTS, []);
        var (v, again) := SelectSchema(w, Reset(e), schema);
        if again.Pinned? {
          ExplainKeeps(w, v, again.conn, schema, Variants(query), None);
          ResetKeeps(Explain(w, v, again.conn, schema, Variants(query), None).0);
        }
      }
    }
  }

  lemma BeginKeeps(s: State, key: Text)
    requires Good(s) && key !in s.attempted
    ensures Good(Begin(s, key))
  {
    hide Meant, Settled;
    var e := Begun(key);
    BeginLog(s.log, s.failed.Keys, s.attempted, key);
    if s.session.Some? {
      MeantAfter(s.log, e, s.session.value, s.database);
    }
  }

  lemma BeginLog(log: seq<Event>, failed: set<Text>, attempted: set<Text>, key: Text)
    requires Grounded(log) && Settled(log, failed) && Distinct(log, attempted) && key !in attempted
    ensures Grounded(log + [Begun(key)]) && Settled(log + [Begun(key)], failed)
    ensures Distinct(log + [Begun(key)], attempted + {key})
  {
    assert forall i :: 0 <= i <= |log| ==> (log + [Begun(key)])[..i] == log[..i];
  }

  lemma MarkKeeps(s: State, schema: Text, reason: Text)
    requires Good(s)
    ensures Good(MarkFailed(s, schema, reason))
  {
    hide Grounded, Settled, Distinct, Meant;
    LogFits(s.log, s.failed.Keys, s.attempted, Marked(schema));
    if s.session.Some? {
      MeantAfter(s.log, Marked(schema), s.session.value, s.database);
    }
    assert s.failed[schema := OrDefault(reason)].Keys == s.failed.Keys + {schema};
  }

  lemma RowKeeps(w: World, s: State, key: Text, d: Digest)
    requires Good(s)
    ensures Good(Row(w, s, key, d).0) && Row(w, s, key, d).1.schema == d.schema
  {
    hide Good, TryExplain, MarkFailed, Unreached;
    if !Passed(d) && key !in s.attempted && d.schema !in s.failed {
      BeginKeeps(s, key);
      TryKeeps(w, Begin(s, key), d.schema, d.query);
      var (t, attempt) := TryExplain(w, Begin(s, key), d.schema, d.query);
      if attempt.Unreachable? {
        MarkKeeps(t, d.schema, attempt.error);
      }
    }
    RowSchema(w, s, key, d);
  }

  lemma RowSchema(w: World, s: State, key: Text, d: Digest)
    ensures var (_, row, gained) := Row(w, s, key, d);
            && row.schema == d.schema && row.query == d.query
            && (d.plan.Some? || d.error.Some? ==> row == d)
            && (gained <==> d.plan.None? && row.plan.Some?)
  {
    hide TryExplain, MarkFailed;
  }

  lemma {:induction false} CollectKeeps(w: World, p: Pass, ranking: seq<Text>)
    requires Good(p.state)
    requires forall k :: k in ranking ==> k in p.digests
    ensures Good(Collect(w, p, ranking).state)
    decreases |ranking|
  {
    hide Good, Row;
    if ranking != [] && p.plans < MAX_PLANS {
      RowKeeps(w, p.state, ranking[0], p.digests[ranking[0]]);
      CollectKeeps(w, NextPass(w, p, ranking[0]), ranking[1..]);
    }
  }

  // ---------- whole runs ----------

  /** One pass: the digests and the order in which they are ranked. */
  datatype Job = Job(digests: map<Text, Digest>, ranking: seq<Text>)

  predicate IsJob(job: Job) {
    forall k :: k in job.ranking ==> k in job.digests
  }

  /** Passes over any digests in any order, one after the other, with one state. */
  function Run(w: World, s: State, jobs: seq<Job>): State
    requires forall i :: 0 <= i < |jobs| ==> IsJob(jobs[i])
    decreases |jobs|
  {
    if jobs == [] then s
    else
      assert IsJob(jobs[0]);
      Run(w, Collect(w, Pass(s, jobs[0].digests, 0), jobs[0].ranking).state, jobs[1..])
  }

  lemma {:induction false} RunKeeps(w: World, s: State, jobs: seq<Job>)
    requires Good(s) && forall i :: 0 <= i < |jobs| ==> IsJob(jobs[i])
    ensures Good(Run(w, s, jobs))
    decreases |jobs|
  {
    hide Good, Collect;
    if jobs != [] {
      assert IsJob(jobs[0]);
      CollectKeeps(w, Pass(s, jobs[0].digests, 0), jobs[0].ranking);
      RunKeeps(w, Collect(w, Pass(s, jobs[0].digests, 0), jobs[0].ranking).state, jobs[1..]);
    }
  }

  /**
   * In every run: an EXPLAIN is sent with its schema selected if and only if the name is not empty or the
   * server accepted a USE of the empty name on that connection before, and else with `mysql` selected;
   * a schema once marked failed is never used again; and no query is begun twice.
   */
  lemma EveryRun(w: World, jobs: seq<Job>)
    requires forall i :: 0 <= i < |jobs| ==> IsJob(jobs[i])
    ensures var log := Run(w, NewState(), jobs).log;
            && (forall i :: 0 <= i < |log| && log[i].Sent? ==>
                  && (log[i].selected == Some(log[i].schema) <==>
                      log[i].schema != [] || exists j :: 0 <= j < i && log[j] == Used(log[i].conn, [], true, false))
                  && (log[i].selected == Some(log[i].schema) || log[i].selected == Some(Ascii("mysql"))))
            && (forall i, j :: 0 <= i < j < |log| && log[i].Marked? ==> !Touches(log[j], log[i].schema))
            && (forall i, j :: 0 <= i < j < |log| && log[i].Begun? && log[j].Begun? ==> log[i].key != log[j].key)
  {
    hide Run;
    assert Good(NewState());
    hide Settled, Distinct;
    RunKeeps(w, NewState(), jobs);
    var log := Run(w, NewState(), jobs).log;
    forall i | 0 <= i < |log| && log[i].Sent?
      ensures log[i].selected == Some(log[i].schema) <==>
              log[i].schema != [] || exists j :: 0 <= j < i && log[j] == Used(log[i].conn, [], true, false)
      ensures log[i].selected == Some(log[i].schema) || log[i].selected == Some(DEFAULT_SCHEMA)
    {
      assert forall j :: 0 <= j < i ==> log[..i][j] == log[j];
    }
    SettledSays(log, Run(w, NewState(), jobs));
  }

  lemma SettledSays(log: seq<Event>, s: State)
    requires Good(s) && log == s.log
    ensures forall i, j :: 0 <= i < j < |log| && log[i].Marked? ==> !Touches(log[j], log[i].schema)
    ensures forall i, j :: 0 <= i < j < |log| && log[i].Begun? && log[j].Begun? ==> log[i].key != log[j].key
  {
    hide Grounded, SessionTrue;
  }

  /** A query without a schema, on a new session, is explained in the system schema. */
  lemma UnnamedSchema(w: World, key: Text, query: Text)
    requires w(0).ok && w(1).ok && w(2).ok && key != [] && query != [] && !EndsWithDots(query)
    ensures var d := Digest(query, [], false, true, None, None);
            var log := Collect(w, Pass(NewState(), map[key := d], 0), [key]).state.log;
            log == [Begun(key), Sent(0, [], Some(Ascii("mysql")), query, 3, w(2))]
  {
    var d := Digest(query, [], false, true, None, None);
    var p := Pass(NewState(), map[key := d], 0);
    var s := Begin(NewState(), key);
    assert [key][1..] == [];
    var open := s.(
      handle := true, session := Some(0), openings := 1, clock := 2, selected := map[0 := DEFAULT_SCHEMA]);
    assert map[][0 := DEFAULT_SCHEMA] == map[0 := DEFAULT_SCHEMA];
    assert UseSchema(w, s, [], 2, []) == (open, Pinned(0));
    var u := SelectSchema(w, s, []).0;
    assert Explain(w, u, 0, [], Variants(query), None) == (Send(w, u, 0, [], query, 3), Explanation(w(2).text, None));
    assert Row(w, NewState(), key, d).0 == Send(w, u, 0, [], query, 3);
  }

  // ---------- the rows ----------

  /** The rows that had no plan before a pass and have one after it. */
  function Gained(before: map<Text, Digest>, after: map<Text, Digest>): set<Text> {
    set k | k in before && k in after && before[k].plan.None? && after[k].plan.Some?
  }

  /**
   * A pass finds at most 100 plans and counts exactly the rows that gained one; rows with
   * a plan or an error, and rows outside the ranking, stay as they are.
   */
  lemma {:induction false} CollectRows(w: World, p: Pass, ranking: seq<Text>)
    requires forall k :: k in ranking ==> k in p.digests
    ensures var r := Collect(w, p, ranking);
            && r.digests.Keys == p.digests.Keys
            && (p.plans <= 100 ==> r.plans <= 100)
            && r.plans == p.plans + |Gained(p.digests, r.digests)|
            && (forall k :: k in p.digests ==>
                  && r.digests[k].query == p.digests[k].query && r.digests[k].schema == p.digests[k].schema
                  && (p.digests[k].plan.Some? || p.digests[k].error.Some? || k !in ranking ==>
                        r.digests[k] == p.digests[k]))
    decreases |ranking|
  {
    hide Row;
    if ranking == [] || p.plans >= MAX_PLANS {
      assert Gained(p.digests, p.digests) == {};
    } else {
      var k := ranking[0];
      var q := NextPass(w, p, k);
      RowSchema(w, p.state, k, p.digests[k]);
      CollectRows(w, q, ranking[1..]);
      var r := Collect(w, q, ranking[1..]);
      GainedStep(p.digests, q.digests, r.digests, k);
    }
  }

  /** Counting one row and then the others. */
  lemma GainedStep(a: map<Text, Digest>, b: map<Text, Digest>, c: map<Text, Digest>, k: Text)
    requires a.Keys == b.Keys == c.Keys && k in a
    requires forall x :: x in a && x != k ==> b[x] == a[x]
    requires a[k].plan.Some? ==> b[k] == a[k]
    requires b[k].plan.Some? ==> c[k] == b[k]
    ensures |Gained(a, c)| == (if a[k].plan.None? && b[k].plan.Some? then 1 else 0) + |Gained(b, c)|
  {
    if a[k].plan.None? && b[k].plan.Some? {
      assert Gained(a, c) == Gained(b, c) + {k};
    } else {
      assert Gained(a, c) == Gained(b, c);
    }
  }

  // ---------- one explanation ----------

  lemma ExplainStep(
    w: World, s: State, conn: nat, schema: Text, queries: seq<Text>, earlier: Option<Problem>)
    requires queries != []
    ensures var reply, t := w(s.clock), Send(w, s, conn, schema, queries[0], |queries|);
            Explain(w, s, conn, schema, queries, earlier) ==
            if reply.ok then (t, Explanation(reply.text, earlier))
            else if reply.denial.SelectDenied? then (t, Explanation([], Some(Problem(NEED_GRANT, false))))
            else if reply.denial.OtherDenied? then (t, Explanation([], Some(Problem(reply.text, reply.broken))))
            else Explain(w, t, conn, schema, queries[1..], Some(Problem(reply.text, reply.broken)))
  {
  }

  /**
   * A plan comes with an error exactly when the first of the three variants failed for a
   * reason that is no denial and a later one, before any denial, got a plan that is not empty.
   */
  lemma PlanAfterError(w: World, s: State, conn: nat, schema: Text, query: Text)
    ensures var e := Explain(w, s, conn, schema, Variants(query), None).1;
            var r0, r1, r2 := w(s.clock), w(s.clock + 1), w(s.clock + 2);
            e.plan != [] && e.error.Some? <==>
            && !r0.ok && r0.denial.NotDenied?
            && ((r1.ok && r1.text != []) || (!r1.ok && r1.denial.NotDenied? && r2.ok && r2.text != []))
  {
    hide Explain;
    var q := Variants(query);
    var t := Send(w, s, conn, schema, q[0], 3);
    var u := Send(w, t, conn, schema, q[1], 2);
    var v := Send(w, u, conn, schema, q[2], 1);
    var r0, r1, r2 := w(s.clock), w(s.clock + 1), w(s.clock + 2);
    assert q[1..] == [q[1], q[2]] && q[1..][1..] == [q[2]] && q[1..][1..][1..] == [];
    ExplainStep(w, s, conn, schema, q, None);
    ExplainStep(w, t, conn, schema, q[1..], Some(Problem(r0.text, r0.broken)));
    ExplainStep(w, u, conn, schema, q[1..][1..], Some(Problem(r1.text, r1.broken)));
    ExplainEnd(w, v, conn, schema, Some(Problem(r2.text, r2.broken)));
  }

  lemma ExplainEnd(w: World, s: State, conn: nat, schema: Text, earlier: Option<Problem>)
    ensures Explain(w, s, conn, schema, [], earlier) == (s, Explanation([], earlier))
  {
  }

  /** A row of a first pass that ends with both: its query fails as written, and is explained with other quotes. */
  lemma PlanAndError(w: World, key: Text, d: Digest)
    requires w(0).ok && w(1).ok && w(2).ok
    requires !w(3).ok && !w(3).broken && w(3).denial.NotDenied? && w(4).ok && w(4).text != []
    requires key != [] && d.schema != [] && !Passed(d) && !EndsWithDots(d.query) && d.recent
    ensures var p := Collect(w, Pass(NewState(), map[key := d], 0), [key]);
            key in p.digests && p.digests[key] == d.(plan := Some(w(4).text), error := Some(w(3).text)) && p.plans == 1
  {
    hide Explain, Variants;
    var s := Begin(NewState(), key);
    var (u, opening) := SelectSchema(w, s, d.schema);
    assert opening == Pinned(0) && u.clock == 3 by {
      FirstUse(w, s, d.schema);
    }
    var q := Variants(d.query);
    assert |q| == 3 && q[1..] != [] by {
      VariantCount(d.query);
    }
    ExplainStep(w, u, 0, d.schema, q, None);
    ExplainStep(w, Send(w, u, 0, d.schema, q[0], 3), 0, d.schema, q[1..], Some(Problem(w(3).text, w(3).broken)));
    assert [key][1..] == [];
  }

  lemma VariantCount(query: Text)
    ensures |Variants(query)| == 3
  {
  }

  lemma FirstUse(w: World, s: State, schema: Text)
    requires w(0).ok && w(1).ok && w(2).ok && schema != []
    requires s.clock == 0 && !s.handle && s.session.None? && s.connectError.None? && s.database == []
    ensures var (u, opening) := SelectSchema(w, s, schema); opening == Pinned(s.openings) && u.clock == 3
  {
  }

  /** From `start` on, the log holds EXPLAIN statements of a prefix of the queries, in order. */
  predicate SentInOrder(log: seq<Event>, start: nat, queries: seq<Text>) {
    && start <= |log| <= start + |queries|
    && forall i :: start <= i < |log| ==> log[i].Sent? && log[i].query == queries[i - start]
  }

  /** The ranking goes on until 100 plans are found. */
  lemma GoesOn(w: World, p: Pass, ranking: seq<Text>)
    requires forall k :: k in ranking ==> k in p.digests
    ensures p.plans >= 100 || ranking == [] ==> Collect(w, p, ranking) == p
    ensures p.plans < 100 && ranking != [] ==>
              Collect(w, p, ranking) == Collect(w, NextPass(w, p, ranking[0]), ranking[1..])
  {
    hide NextPass;
  }

  /** A reply after which no other variant is sent: a plan, or a missing privilege. */
  predicate Decides(r: Reply) {
    r.ok || !r.denial.NotDenied?
  }

  /**
   * The first reply that decides, or else the third, gives the plan, or the error; with a plan
   * comes the error of the variant before it.
   */
  lemma ExplainReplies(w: World, s: State, conn: nat, schema: Text, query: Text)
    ensures var (t, e) := Explain(w, s, conn, schema, Variants(query), None);
            var n := if Decides(w(s.clock)) then 0 else if Decides(w(s.clock + 1)) then 1 else 2;
            var last := w(s.clock + n);
            && |t.log| == |s.log| + n + 1
            && e.plan == (if last.ok then last.text else [])
            && e.error ==
               if last.ok then (if n == 0 then None else
                                  var r := w(s.clock + n - 1); Some(Problem(r.text, r.broken)))
               else if last.denial.SelectDenied? then Some(Problem(Ascii("need_grant_permission"), false))
               else Some(Problem(last.text, last.broken))
  {
    hide Explain;
    var q := Variants(query);
    var t := Send(w, s, conn, schema, q[0], 3);
    var u := Send(w, t, conn, schema, q[1], 2);
    var v := Send(w, u, conn, schema, q[2], 1);
    var r0, r1, r2 := w(s.clock), w(s.clock + 1), w(s.clock + 2);
    assert q[1..] == [q[1], q[2]] && q[1..][1..] == [q[2]] && q[1..][1..][1..] == [];
    ExplainStep(w, s, conn, schema, q, None);
    ExplainStep(w, t, conn, schema, q[1..], Some(Problem(r0.text, r0.broken)));
    ExplainStep(w, u, conn, schema, q[1..][1..], Some(Problem(r1.text, r1.broken)));
    ExplainEnd(w, v, conn, schema, Some(Problem(r2.text, r2.broken)));
  }

  /** An explanation sends one to three EXPLAIN statements: the query, then its two re-quoted forms. */
  lemma ExplainSends(w: World, s: State, conn: nat, schema: Text, query: Text)
    ensures var log := Explain(w, s, conn, schema, Variants(query), None).0.log;
            && |s.log| < |log| <= |s.log| + 3 && log[..|s.log|] == s.log
            && SentInOrder(log, |s.log|, Variants(query))
  {
    hide Explain;
    ExplainSendsSome(w, s, conn, schema, Variants(query), None);
  }

  lemma {:induction false} ExplainSendsSome(
    w: World, s: State, conn: nat, schema: Text, queries: seq<Text>, earlier: Option<Problem>)
    ensures var log := Explain(w, s, conn, schema, queries, earlier).0.log;
            && SentInOrder(log, |s.log|, queries) && log[..|s.log|] == s.log
            && (queries != [] ==> |log| > |s.log|)
    decreases |queries|
  {
    hide Explain;
    if queries == [] {
      ExplainEnd(w, s, conn, schema, earlier);
    } else {
      ExplainStep(w, s, conn, schema, queries, earlier);
      var reply := w(s.clock);
      var t := Send(w, s, conn, schema, queries[0], |queries|);
      var next := Some(Problem(reply.text, reply.broken));
      ExplainSendsSome(w, t, conn, schema, queries[1..], next);
      var log := Explain(w, t, conn, schema, queries[1..], next).0.log;
      assert log[..|s.log|] == log[..|t.log|][..|s.log|] == s.log;
      assert log[|s.log|] == log[..|t.log|][|s.log|];
      assert SentInOrder(log, |s.log|, queries);
    }
  }
}
