/**
 * What holds of every run of a schema change, however its external steps end.
 * A monitor reads the trace; every run satisfies it, and what it accepts is
 * then stated about the events themselves.
 */
module SchemaChangeRuns {
  import opened Bytes
  import opened Wrappers
  import opened Identifiers
  import opened OnlineDdl
  import opened PtoscSql
  import opened SchemaChange
  import OnlineDdlAgain
  import Retargeted

  /** The pinned session: none, with its own timeout, with the reduced one, or discarded. */
  datatype Session = Unpinned | Untouched | Reduced | Discarded

  datatype Monitor = Monitor(
    backedUp: bool, session: Session, read: bool, schema: bool, scratch: Option<Text>, rehearsed: Option<Text>,
    dryRun: Option<(Text, Text)>)

  const START := Monitor(false, Unpinned, false, false, None, None, None)

  /** What must be true before an event. */
  predicate Allowed(r: Request, m: Monitor, e: Event) {
    match e.step
    case CheckCapacity => true
    case Backup => r.wantsBackup
    case Acquire => m.session == Unpinned
    case ReadTimeout => m.session == Untouched
    case SetTimeout => m.session == Untouched && m.read
    case CreateSchema(schema) => m.session == Reduced && schema == TestSchema(r)
    case CreateScratch(_, source) => m.session == Reduced && m.schema && m.scratch.None? && source == SourceRef(r)
    case Preflight(sql) =>
      && m.session == Reduced && m.scratch.Some? && IsBuilt(r)
      && Retarget(Build(r.sql).sql, m.scratch.value) == Some(sql)
    case Production(sql) =>
      && m.session == Reduced && m.scratch.Some? && Build(r.sql) == Done(sql)
      && m.rehearsed.Some? && Retarget(sql, m.scratch.value) == m.rehearsed
      && (r.wantsBackup ==> m.backedUp)
    case DropScratch(scratch) => m.scratch == Some(scratch)
    case Discard => m.session == Reduced || m.session == Discarded
    case RestoreTimeout =>
      (m.session == Reduced || m.session == Discarded) && m.scratch.None? && (e.ok ==> m.session == Reduced)
    case Release => (m.session == Untouched || m.session == Discarded) && m.scratch.None?
    case DryRun(_, alter) => (r.wantsBackup ==> m.backedUp) && BuildChange(r.sql) == Alter(alter)
    case Migrate(dsn, alter) => (r.wantsBackup ==> m.backedUp) && m.dryRun == Some((dsn, alter))
  }

  predicate IsBuilt(r: Request) {
    Build(r.sql).Done?
  }

  function After(m: Monitor, e: Event): Monitor {
    match e.step
    case Backup => m.(backedUp := m.backedUp || e.ok)
    case Acquire => if e.ok then m.(session := Untouched) else m
    case ReadTimeout => m.(read := e.ok)
    case SetTimeout => if e.ok then m.(session := Reduced) else m
    case CreateSchema(_) => m.(schema := e.ok)
    case CreateScratch(scratch, _) => if e.ok then m.(scratch := Some(scratch), rehearsed := None) else m
    case Preflight(sql) => if e.ok then m.(rehearsed := Some(sql)) else m
    case DropScratch(_) => m.(scratch := None, rehearsed := None)
    case Discard => m.(session := Discarded)
    case RestoreTimeout => if e.ok then m.(session := Untouched) else m
    case Release => m.(session := Unpinned, read := false, schema := false)
    case DryRun(dsn, alter) => if e.ok then m.(dryRun := Some((dsn, alter))) else m
    case _ => m
  }

  predicate Accepted(r: Request, m: Monitor, t: Trace)
    decreases |t|
  {
    t == [] || (Allowed(r, m, t[0]) && Accepted(r, After(m, t[0]), t[1..]))
  }

  function AfterAll(m: Monitor, t: Trace): Monitor
    decreases |t|
  {
    if t == [] then m else AfterAll(After(m, t[0]), t[1..])
  }

  lemma {:induction false} AcceptedJoin(r: Request, m: Monitor, t: Trace, u: Trace)
    ensures Accepted(r, m, t + u) <==> Accepted(r, m, t) && Accepted(r, AfterAll(m, t), u)
    ensures AfterAll(m, t + u) == AfterAll(AfterAll(m, t), u)
    decreases |t|
  {
    hide Allowed, After;
    if t == [] {
      assert t + u == u;
    } else {
      assert (t + u)[1..] == t[1..] + u;
      AcceptedJoin(r, After(m, t[0]), t[1..], u);
    }
  }

  lemma Step(r: Request, m: Monitor, e: Event)
    ensures Accepted(r, m, [e]) == Allowed(r, m, e)
    ensures AfterAll(m, [e]) == After(m, e)
  {
    hide Allowed, After;
    assert [e][1..] == [];
  }

  /** One more event at the end. */
  lemma Then(r: Request, m: Monitor, t: Trace, e: Event)
    requires Accepted(r, m, t) && Allowed(r, AfterAll(m, t), e)
    ensures Accepted(r, m, t + [e])
    ensures AfterAll(m, t + [e]) == After(AfterAll(m, t), e)
  {
    hide Allowed, After;
    AcceptedJoin(r, m, t, [e]);
    Step(r, AfterAll(m, t), e);
  }

  // ---------- every run is accepted ----------

  /** The monitor while a scratch table stands on the reduced session. */
  predicate Standing(m: Monitor, scratch: Text) {
    m.session == Reduced && m.scratch == Some(scratch)
  }

  lemma CleanupAccepted(r: Request, w: World, m: Monitor, scratch: Text)
    requires Standing(m, scratch)
    ensures Accepted(r, m, Cleanup(scratch, w))
    ensures AfterAll(m, Cleanup(scratch, w)) ==
            m.(scratch := None, rehearsed := None, session := if w.drop.DropTimedOut? then Discarded else Reduced)
  {
    hide Accepted, AfterAll;
    var drop := Event(DropScratch(scratch), w.drop.Dropped?);
    Step(r, m, drop);
    if w.drop.DropTimedOut? {
      Then(r, m, [drop], Event(Discard, true));
    } else {
      assert [drop] + [] == [drop];
    }
  }

  /** Where the work on the session leaves the monitor. */
  function Worked(m: Monitor, w: World): Monitor {
    m.(schema := w.schema.Good?, session := if ScratchMade(w) && w.drop.DropTimedOut? then Discarded else Reduced)
  }

  lemma RehearsedAccepted(r: Request, w: World, m: Monitor, final: Text, test: Text)
    requires m.session == Reduced && m.scratch.None? && m.rehearsed.None? && (r.wantsBackup ==> m.backedUp)
    requires Build(r.sql) == Done(final) && Retarget(final, ScratchRef(r, w)) == Some(test)
    ensures Accepted(r, m, Rehearsed(r, w, final, test).trace)
    ensures AfterAll(m, Rehearsed(r, w, final, test).trace) == Worked(m, w)
  {
    hide Accepted, AfterAll, Build, Retarget, Canonical, Cleanup, BuildChange;
    var schema := Event(CreateSchema(TestSchema(r)), w.schema.Good?);
    var scratch := Event(CreateScratch(ScratchRef(r, w), SourceRef(r)), w.scratch.Good?);
    var preflight := Event(Preflight(test), w.preflight.Good?);
    var production := Event(Production(final), w.production.Good?);
    Step(r, m, schema);
    if w.schema.Good? {
      Then(r, m, [schema], scratch);
      assert [schema] + [scratch] == [schema, scratch];
      if w.scratch.Good? {
        Then(r, m, [schema, scratch], preflight);
        assert [schema, scratch] + [preflight] == [schema, scratch, preflight];
        var done := [schema, scratch, preflight];
        if w.preflight.Good? {
          Then(r, m, done, production);
          assert done + [production] == [schema, scratch, preflight, production];
          done := [schema, scratch, preflight, production];
        }
        CleanupAccepted(r, w, AfterAll(m, done), ScratchRef(r, w));
        AcceptedJoin(r, m, done, Cleanup(ScratchRef(r, w), w));
      }
    }
  }

  lemma RestoringAccepted(r: Request, w: World, m: Monitor)
    requires m.scratch.None? && m.session == (if ScratchMade(w) && w.drop.DropTimedOut? then Discarded else Reduced)
    ensures Accepted(r, m, Restoring(w) + [Event(Release, true)])
    ensures AfterAll(m, Restoring(w) + [Event(Release, true)]) ==
            m.(session := Unpinned, read := false, schema := false)
  {
    hide Accepted, AfterAll;
    var restore := Event(RestoreTimeout, Restores(w));
    Step(r, m, restore);
    if Restores(w) {
      assert [restore] + [] == [restore];
      Then(r, m, [restore], Event(Release, true));
    } else {
      Then(r, m, [restore], Event(Discard, true));
      Then(r, m, [restore] + [Event(Discard, true)], Event(Release, true));
    }
  }

  lemma PinnedAccepted(r: Request, w: World, m: Monitor, final: Text, test: Text)
    requires m.session == Unpinned && !m.read && !m.schema
    requires m.scratch.None? && m.rehearsed.None? && (r.wantsBackup ==> m.backedUp)
    requires Build(r.sql) == Done(final) && Retarget(final, ScratchRef(r, w)) == Some(test)
    ensures Accepted(r, m, Pinned(r, w, final, test).trace)
    ensures AfterAll(m, Pinned(r, w, final, test).trace) == m
  {
    hide Accepted, AfterAll, Build, Retarget, Canonical, Rehearsed, Restoring, BuildChange;
    var acquire, read, reduce :=
      Event(Acquire, w.acquire.Good?), Event(ReadTimeout, w.read.Good?), Event(SetTimeout, w.reduce.Good?);
    var release := Event(Release, true);
    Step(r, m, acquire);
    if w.acquire.Good? {
      Then(r, m, [acquire], read);
      assert [acquire] + [read] == [acquire, read];
      if w.read.Bad? {
        Then(r, m, [acquire, read], release);
        assert [acquire, read] + [release] == [acquire, read, release];
      } else {
        Then(r, m, [acquire, read], reduce);
        var done := [acquire, read, reduce];
        assert [acquire, read] + [reduce] == done;
        if w.reduce.Bad? {
          Then(r, m, done, release);
          assert done + [release] == [acquire, read, reduce, release];
        } else {
          var mid := AfterAll(m, done);
          var work := Rehearsed(r, w, final, test).trace;
          RehearsedAccepted(r, w, mid, final, test);
          RestoringAccepted(r, w, Worked(mid, w));
          AcceptedJoin(r, mid, work, Restoring(w) + [release]);
          AcceptedJoin(r, m, done, work + (Restoring(w) + [release]));
        }
      }
    }
  }

  lemma PtoscAccepted(r: Request, w: World, m: Monitor)
    requires r.wantsBackup ==> m.backedUp
    ensures Accepted(r, m, PtoscTrace(r, w))
    ensures var n := AfterAll(m, PtoscTrace(r, w)); n.session == m.session && n.scratch == m.scratch
  {
    hide Accepted, AfterAll, Dsn, BuildChange, Named;
    if PtoscTrace(r, w) == [] {
      Nothing(r, m);
    } else {
      var dsn, alter := Dsn(r.config.value, r.target), BuildChange(r.sql).text;
      var dry := Event(DryRun(dsn, alter), w.dryRun);
      Step(r, m, dry);
      if w.dryRun {
        Then(r, m, [dry], Event(Migrate(dsn, alter), w.migrate));
      } else {
        assert [dry] + [] == [dry];
      }
    }
  }

  lemma Nothing(r: Request, m: Monitor)
    ensures Accepted(r, m, []) && AfterAll(m, []) == m
  {
  }

  /** Every run keeps to the monitor, and ends with no scratch table and no session left. */
  lemma RunAccepted(r: Request, w: World)
    ensures Accepted(r, START, RunTrace(r, w))
    ensures AfterAll(START, RunTrace(r, w)).scratch.None? && AfterAll(START, RunTrace(r, w)).session == Unpinned
  {
    hide Accepted, AfterAll, PlanValid, Named, OnlinePart, PtoscTrace;
    Nothing(r, START);
    var capacity, backup := CapacityTrace(r, w), BackupTrace(r, w);
    if capacity != [] {
      Step(r, START, Event(CheckCapacity, w.capacity));
    }
    if backup == [] {
      assert capacity + backup == capacity;
    } else {
      Then(r, START, capacity, Event(Backup, w.backup));
    }
    if PlanValid(r) && CapacityFound(r, w) && BackupDone(r, w) {
      ChangeAccepted(r, w, AfterAll(START, capacity + backup));
      AcceptedJoin(r, START, capacity + backup, ChangeTrace(r, w));
    }
  }

  lemma ChangeAccepted(r: Request, w: World, m: Monitor)
    requires m.session == Unpinned && !m.read && !m.schema
    requires m.scratch.None? && m.rehearsed.None? && (r.wantsBackup ==> m.backedUp)
    ensures Accepted(r, m, ChangeTrace(r, w))
    ensures var n := AfterAll(m, ChangeTrace(r, w)); n.session == Unpinned && n.scratch.None?
  {
    hide Accepted, AfterAll, PtoscTrace, Pinned, FallsBack, Build, Retarget, Named, Canonical;
    Nothing(r, m);
    var online := if r.okOnline then OnlinePart(r, w).trace else [];
    if r.okOnline && Prepare(r, w).Ready? {
      PinnedAccepted(r, w, m, Prepare(r, w).final, Prepare(r, w).test);
    }
    PtoscAccepted(r, w, m);
    AcceptedJoin(r, m, online, PtoscTrace(r, w));
    assert online + [] == online;
  }

  // ---------- what an accepted trace says ----------

  predicate Happens(t: Trace, i: nat, step: SchemaChange.Step) {
    i < |t| && t[i] == Event(step, true)
  }

  /** A scratch table was created, and then a statement succeeded. */
  predicate RehearsedAt(t: Trace, k: nat, j: nat, scratch: Text, source: Text, test: Text) {
    k < j && Happens(t, k, CreateScratch(scratch, source)) && Happens(t, j, Preflight(test))
  }

  /** What the monitor remembers is explained by earlier events. */
  ghost predicate Explained(r: Request, m: Monitor, t: Trace) {
    && (m.backedUp ==> exists i: nat :: Happens(t, i, Backup))
    && (m.scratch.Some? ==> exists i: nat :: Happens(t, i, CreateScratch(m.scratch.value, SourceRef(r))))
    && (m.rehearsed.Some? ==>
          && m.scratch.Some?
          && exists k: nat, j: nat :: RehearsedAt(t, k, j, m.scratch.value, SourceRef(r), m.rehearsed.value))
    && (m.dryRun.Some? ==> exists i: nat :: Happens(t, i, DryRun(m.dryRun.value.0, m.dryRun.value.1)))
  }

  lemma StillHappens(t: Trace, e: Event)
    ensures forall i: nat, s: SchemaChange.Step :: Happens(t, i, s) ==> Happens(t + [e], i, s)
    ensures e.ok ==> Happens(t + [e], |t|, e.step)
  {
  }

  lemma ExplainedStep(r: Request, m: Monitor, t: Trace, e: Event)
    requires Explained(r, m, t) && Allowed(r, m, e)
    ensures Explained(r, After(m, e), t + [e])
  {
    hide Allowed, After, SourceRef, Explained;
    BackupExplained(r, m, t, e);
    ScratchExplained(r, m, t, e);
    RehearsalExplained(r, m, t, e);
    DryRunExplained(r, m, t, e);
    ExplainedIs(r, After(m, e), t + [e]);
  }

  ghost predicate BackupKnown(m: Monitor, t: Trace) {
    m.backedUp ==> exists i: nat :: Happens(t, i, Backup)
  }

  ghost predicate ScratchKnown(r: Request, m: Monitor, t: Trace) {
    m.scratch.Some? ==> exists i: nat :: Happens(t, i, CreateScratch(m.scratch.value, SourceRef(r)))
  }

  ghost predicate RehearsalKnown(r: Request, m: Monitor, t: Trace) {
    m.rehearsed.Some? ==>
      && m.scratch.Some?
      && exists k: nat, j: nat :: RehearsedAt(t, k, j, m.scratch.value, SourceRef(r), m.rehearsed.value)
  }

  ghost predicate DryRunKnown(m: Monitor, t: Trace) {
    m.dryRun.Some? ==> exists i: nat :: Happens(t, i, DryRun(m.dryRun.value.0, m.dryRun.value.1))
  }

  lemma ExplainedIs(r: Request, m: Monitor, t: Trace)
    ensures Explained(r, m, t) <==>
            BackupKnown(m, t) && ScratchKnown(r, m, t) && RehearsalKnown(r, m, t) && DryRunKnown(m, t)
  {
    hide SourceRef, Happens, RehearsedAt;
  }

  lemma BackupExplained(r: Request, m: Monitor, t: Trace, e: Event)
    requires Explained(r, m, t)
    ensures BackupKnown(After(m, e), t + [e])
  {
    hide SourceRef;
    StillHappens(t, e);
    if m.backedUp {
      var i: nat :| Happens(t, i, Backup);
      assert Happens(t + [e], i, Backup);
    }
  }

  lemma ScratchExplained(r: Request, m: Monitor, t: Trace, e: Event)
    requires Explained(r, m, t) && Allowed(r, m, e)
    ensures ScratchKnown(r, After(m, e), t + [e])
  {
    hide Build, Retarget, BuildChange, SourceRef;
    StillHappens(t, e);
    var n := After(m, e);
    if n.scratch.Some? && n.scratch == m.scratch {
      var i: nat :| Happens(t, i, CreateScratch(m.scratch.value, SourceRef(r)));
      assert Happens(t + [e], i, CreateScratch(m.scratch.value, SourceRef(r)));
    }
  }

  lemma RehearsalExplained(r: Request, m: Monitor, t: Trace, e: Event)
    requires Explained(r, m, t) && Allowed(r, m, e)
    ensures RehearsalKnown(r, After(m, e), t + [e])
  {
    hide Build, Retarget, BuildChange, SourceRef;
    StillHappens(t, e);
    var n, u := After(m, e), t + [e];
    if e.ok && e.step.Preflight? {
      var i: nat :| Happens(t, i, CreateScratch(m.scratch.value, SourceRef(r)));
      assert RehearsedAt(u, i, |t|, m.scratch.value, SourceRef(r), e.step.sql);
    } else if n.rehearsed.Some? && n.scratch == m.scratch {
      var k: nat, j: nat :| RehearsedAt(t, k, j, m.scratch.value, SourceRef(r), m.rehearsed.value);
      assert RehearsedAt(u, k, j, m.scratch.value, SourceRef(r), m.rehearsed.value);
    }
  }

  lemma DryRunExplained(r: Request, m: Monitor, t: Trace, e: Event)
    requires Explained(r, m, t)
    ensures DryRunKnown(After(m, e), t + [e])
  {
    hide SourceRef;
    StillHappens(t, e);
    var n := After(m, e);
    if n.dryRun.Some? && n.dryRun == m.dryRun {
      var i: nat :| Happens(t, i, DryRun(m.dryRun.value.0, m.dryRun.value.1));
      assert Happens(t + [e], i, DryRun(m.dryRun.value.0, m.dryRun.value.1));
    }
  }

  /** At each event of an accepted trace, the monitor allows it and is explained by what came before. */
  lemma {:induction false} AcceptedAt(r: Request, t: Trace, i: nat)
    requires Accepted(r, START, t) && i < |t|
    ensures Allowed(r, AfterAll(START, t[..i]), t[i])
    ensures Explained(r, AfterAll(START, t[..i]), t[..i])
    decreases i
  {
    hide Allowed, After, Explained;
    assert t == t[..i] + t[i..];
    AcceptedJoin(r, START, t[..i], t[i..]);
    if i == 0 {
      assert t[..0] == [];
      StartExplained(r);
    } else {
      AcceptedAt(r, t, i - 1);
      ExplainedStep(r, AfterAll(START, t[..i - 1]), t[..i - 1], t[i - 1]);
      assert t[..i] == t[..i - 1] + [t[i - 1]];
      AcceptedJoin(r, START, t[..i - 1], [t[i - 1]]);
      Step(r, AfterAll(START, t[..i - 1]), t[i - 1]);
    }
  }

  lemma StartExplained(r: Request)
    ensures Explained(r, START, []) && AfterAll(START, []) == START
  {
  }

  // ---------- the theorems ----------

  /**
   * Production DDL runs only after the requested backup succeeded, and after the same
   * statement, with a scratch table of the source's layout in place of its target, succeeded.
   */
  lemma ProductionGuarded(r: Request, w: World, i: nat, sql: Text)
    requires var t := RunTrace(r, w); i < |t| && t[i].step == Production(sql)
    ensures var t := RunTrace(r, w)[..i];
            && Build(r.sql) == Done(sql)
            && (r.wantsBackup ==> exists b: nat :: Happens(t, b, Backup))
            && exists k: nat, j: nat, scratch: Text, test: Text ::
                 RehearsedAt(t, k, j, scratch, SourceRef(r), test) && Retarget(sql, scratch) == Some(test)
  {
    hide RunTrace, Accepted, AfterAll, Build, Retarget;
    var t := RunTrace(r, w);
    RunAccepted(r, w);
    AcceptedAt(r, t, i);
    var m := AfterAll(START, t[..i]);
    var k: nat, j: nat :| RehearsedAt(t[..i], k, j, m.scratch.value, SourceRef(r), m.rehearsed.value);
    assert Retarget(sql, m.scratch.value) == Some(m.rehearsed.value);
  }

  /** pt-online-schema-change migrates only after a dry run with the same arguments succeeded, and after the backup. */
  lemma MigrationGuarded(r: Request, w: World, i: nat, dsn: Text, alter: Text)
    requires var t := RunTrace(r, w); i < |t| && t[i].step == Migrate(dsn, alter)
    ensures var t := RunTrace(r, w)[..i];
            && (r.wantsBackup ==> exists b: nat :: Happens(t, b, Backup))
            && exists j: nat :: Happens(t, j, DryRun(dsn, alter))
  {
    hide RunTrace, Accepted, AfterAll, Build, Retarget, BuildChange;
    RunAccepted(r, w);
    AcceptedAt(r, RunTrace(r, w), i);
  }

  /** From `i` on, something puts the session back or ends it, or drops the table. */
  predicate LaterStep(t: Trace, i: nat, step: SchemaChange.Step) {
    exists j: nat :: i < j < |t| && t[j].step == step
  }

  /** A scratch table in the monitor is dropped before the trace ends without one. */
  lemma {:induction false} DropComes(r: Request, m: Monitor, t: Trace, scratch: Text) returns (j: nat)
    requires Accepted(r, m, t) && m.scratch == Some(scratch) && AfterAll(m, t).scratch.None?
    ensures j < |t| && t[j].step == DropScratch(scratch)
    decreases |t|
  {
    hide Build, Retarget, BuildChange;
    if t[0].step.DropScratch? {
      j := 0;
    } else {
      var k := DropComes(r, After(m, t[0]), t[1..], scratch);
      j := k + 1;
    }
  }

  /** Every scratch table that was created gets a drop attempt later in the run. */
  lemma ScratchDropped(r: Request, w: World, i: nat, scratch: Text, source: Text)
    requires Happens(RunTrace(r, w), i, CreateScratch(scratch, source))
    ensures LaterStep(RunTrace(r, w), i, DropScratch(scratch))
  {
    hide RunTrace, Accepted, Allowed, AfterAll;
    var t := RunTrace(r, w);
    RunAccepted(r, w);
    Onward(r, t, i);
    var j := DropComes(r, AfterAll(START, t[..i + 1]), t[i + 1..], scratch);
    assert t[i + 1 + j].step == DropScratch(scratch);
  }

  /** The monitor just after an event, and the rest of the trace from there. */
  lemma Onward(r: Request, t: Trace, i: nat)
    requires Accepted(r, START, t) && i < |t|
    ensures AfterAll(START, t[..i + 1]) == After(AfterAll(START, t[..i]), t[i])
    ensures Accepted(r, AfterAll(START, t[..i + 1]), t[i + 1..])
    ensures AfterAll(AfterAll(START, t[..i + 1]), t[i + 1..]) == AfterAll(START, t)
  {
    hide Allowed, After;
    assert t[..i + 1] == t[..i] + [t[i]] && t == t[..i + 1] + t[i + 1..];
    AcceptedJoin(r, START, t[..i], [t[i]]);
    Step(r, AfterAll(START, t[..i]), t[i]);
    AcceptedJoin(r, START, t[..i + 1], t[i + 1..]);
  }

  /** A session with a reduced timeout is restored or discarded before it is released. */
  lemma {:induction false} ReturnComes(r: Request, m: Monitor, t: Trace) returns (j: nat)
    requires Accepted(r, m, t) && m.session == Reduced && AfterAll(m, t).session == Unpinned
    ensures j < |t| && (t[j] == Event(RestoreTimeout, true) || t[j].step == Discard)
    ensures forall k :: 0 <= k < j ==> t[k].step != Release
    decreases |t|
  {
    hide Build, Retarget, BuildChange;
    if t[0] == Event(RestoreTimeout, true) || t[0].step == Discard {
      j := 0;
    } else {
      var k := ReturnComes(r, After(m, t[0]), t[1..]);
      j := k + 1;
    }
  }

  /** Once the lock timeout was changed, the session is restored or discarded, before it goes back to the pool. */
  lemma SessionPutBack(r: Request, w: World, i: nat)
    requires Happens(RunTrace(r, w), i, SetTimeout)
    ensures var t := RunTrace(r, w);
            exists j: nat :: i < j < |t| && (t[j] == Event(RestoreTimeout, true) || t[j].step == Discard)
                             && forall k :: i < k < j ==> t[k].step != Release
  {
    hide RunTrace, Accepted, Allowed, AfterAll;
    var t := RunTrace(r, w);
    RunAccepted(r, w);
    Onward(r, t, i);
    var j := ReturnComes(r, AfterAll(START, t[..i + 1]), t[i + 1..]);
    forall k | i < k < i + 1 + j ensures t[k].step != Release {
      assert t[k] == t[i + 1..][k - i - 1];
    }
    assert t[i + 1 + j] == t[i + 1..][j];
  }

  predicate IsChange(e: Event) {
    e.ok && (e.step.Production? || e.step.Migrate?)
  }

  /** How many change steps reported success. */
  function Changes(t: Trace): nat {
    if t == [] then 0 else (if IsChange(t[0]) then 1 else 0) + Changes(t[1..])
  }

  lemma {:induction false} ChangesJoin(t: Trace, u: Trace)
    ensures Changes(t + u) == Changes(t) + Changes(u)
    decreases |t|
  {
    if t == [] {
      assert t + u == u;
    } else {
      assert (t + u)[1..] == t[1..] + u;
      ChangesJoin(t[1..], u);
    }
  }

  lemma {:induction false} NoChanges(t: Trace)
    requires forall i :: 0 <= i < |t| ==> !IsChange(t[i])
    ensures Changes(t) == 0
  {
    if t != [] {
      NoChanges(t[1..]);
    }
  }

  lemma OneChange(t: Trace, e: Event, u: Trace)
    requires forall i :: 0 <= i < |t| ==> !IsChange(t[i])
    requires forall i :: 0 <= i < |u| ==> !IsChange(u[i])
    ensures Changes(t + ([e] + u)) == if IsChange(e) then 1 else 0
  {
    NoChanges(t);
    NoChanges(u);
    ChangesJoin(t, [e] + u);
    ChangesJoin([e], u);
    assert [e][1..] == [];
  }

  lemma RehearsedChanges(r: Request, w: World, final: Text, test: Text)
    ensures Changes(Rehearsed(r, w, final, test).trace) ==
            if Rehearsed(r, w, final, test).error.None? then 1 else 0
  {
    hide Changes, Canonical;
    var schema := Event(CreateSchema(TestSchema(r)), w.schema.Good?);
    var scratch := Event(CreateScratch(ScratchRef(r, w), SourceRef(r)), w.scratch.Good?);
    var preflight := Event(Preflight(test), w.preflight.Good?);
    var production := Event(Production(final), w.production.Good?);
    var cleanup := Cleanup(ScratchRef(r, w), w);
    var t := Rehearsed(r, w, final, test).trace;
    if ScratchMade(w) && w.preflight.Good? {
      OneChange([schema, scratch, preflight], production, cleanup);
      assert t == [schema, scratch, preflight] + ([production] + cleanup);
    } else {
      NoChanges(t);
    }
  }

  lemma PinnedChanges(r: Request, w: World, final: Text, test: Text)
    ensures Changes(Pinned(r, w, final, test).trace) == if Pinned(r, w, final, test).error.None? then 1 else 0
  {
    hide Changes, Rehearsed;
    var t := Pinned(r, w, final, test).trace;
    if Reduces(w) {
      var before := [Event(Acquire, true), Event(ReadTimeout, true), Event(SetTimeout, true)];
      var work := Rehearsed(r, w, final, test).trace;
      var after := Restoring(w) + [Event(Release, true)];
      NoChanges(before);
      NoChanges(after);
      RehearsedChanges(r, w, final, test);
      ChangesJoin(before, work + after);
      ChangesJoin(work, after);
      assert t == before + (work + after);
    } else {
      NoChanges(t);
    }
  }

  lemma PtoscChanges(r: Request, w: World)
    ensures Changes(PtoscTrace(r, w)) == if PtoscRuns(r, w) then 1 else 0
  {
    hide Changes, Dsn, BuildChange, Named;
    var t := PtoscTrace(r, w);
    if |t| == 2 {
      OneChange([t[0]], t[1], []);
      assert t == [t[0]] + ([t[1]] + []);
    } else {
      NoChanges(t);
    }
  }

  /** A run reports success exactly when one change step reported success, and else none did. */
  lemma SuccessIsOneChange(r: Request, w: World)
    ensures Changes(RunTrace(r, w)) == if RunResult(r, w).Success? then 1 else 0
  {
    hide Changes, PlanValid, Named, Pinned, PtoscTrace, PtoscRuns, Prepare;
    var capacity, backup := CapacityTrace(r, w), BackupTrace(r, w);
    NoChanges(capacity);
    NoChanges(capacity + backup);
    NoChanges([]);
    if r.okOnline && Prepare(r, w).Ready? {
      PinnedChanges(r, w, Prepare(r, w).final, Prepare(r, w).test);
    }
    PtoscChanges(r, w);
    var online := if r.okOnline then OnlinePart(r, w).trace else [];
    ChangesJoin(online, PtoscTrace(r, w));
    assert online + [] == online;
    ChangesJoin(capacity + backup, ChangeTrace(r, w));
  }

  // ---------- what the rehearsal touches ----------

  /** Every scratch table created is the given one, and then `named` holds. */
  predicate ScratchOnly(t: Trace, scratch: Text, named: bool) {
    forall i :: 0 <= i < |t| && t[i].step.CreateScratch? ==> t[i].step.scratch == scratch && named
  }

  lemma ScratchJoin(t: Trace, u: Trace, scratch: Text, named: bool)
    requires ScratchOnly(t, scratch, named) && ScratchOnly(u, scratch, named)
    ensures ScratchOnly(t + u, scratch, named)
  {
  }

  /** The only scratch table of a run is the one named for it, in a test schema that has a name. */
  lemma ScratchNamed(r: Request, w: World)
    ensures ScratchOnly(RunTrace(r, w), ScratchRef(r, w), TestSchema(r) != [])
  {
    hide PlanValid, Named, OnlinePart, PtoscTrace, ScratchOnly, Canonical, CapacityTrace, BackupTrace;
    var scratch, named := ScratchRef(r, w), TestSchema(r) != [];
    OnlineScratch(r, w);
    OtherScratch(r, w, scratch, named);
    var online := if r.okOnline then OnlinePart(r, w).trace else [];
    ScratchJoin(online, PtoscTrace(r, w), scratch, named);
    ScratchJoin(online, [], scratch, named);
    ScratchJoin(CapacityTrace(r, w), BackupTrace(r, w), scratch, named);
    ScratchJoin(CapacityTrace(r, w) + BackupTrace(r, w), ChangeTrace(r, w), scratch, named);
  }

  lemma OtherScratch(r: Request, w: World, scratch: Text, named: bool)
    ensures ScratchOnly(PtoscTrace(r, w), scratch, named) && ScratchOnly([], scratch, named)
    ensures ScratchOnly(CapacityTrace(r, w), scratch, named) && ScratchOnly(BackupTrace(r, w), scratch, named)
  {
    hide Named, BuildChange, Dsn;
  }

  lemma OnlineScratch(r: Request, w: World)
    ensures ScratchOnly(OnlinePart(r, w).trace, ScratchRef(r, w), TestSchema(r) != [])
  {
    hide Named, Build, Retarget, Canonical;
    assert Trim([]) == [];
  }

  /**
   * For a request whose statement is sound, what was rehearsed before production names exactly
   * the scratch table, and goes on after it as the production statement does.
   */
  lemma RehearsalIsolated(r: Request, w: World, i: nat, sql: Text)
    requires var t := RunTrace(r, w); i < |t| && t[i].step == Production(sql)
    requires w.scratchName != [] && OnlineDdlAgain.Sound(SplitSuffix(r.sql).statement)
    ensures exists k: nat, j: nat, test: Text ::
              && RehearsedAt(RunTrace(r, w)[..i], k, j, ScratchRef(r, w), SourceRef(r), test)
              && Retargeted.Names(test, TestSchema(r), w.scratchName) && TailOf(test) == TailOf(sql)
  {
    hide RunTrace, Build, Retarget, Retargeted.Names, TailOf, OnlineDdlAgain.Sound, SplitSuffix, Canonical;
    ProductionGuarded(r, w, i, sql);
    ScratchNamed(r, w);
    var t := RunTrace(r, w);
    var k: nat, j: nat, scratch: Text, test: Text :|
      RehearsedAt(t[..i], k, j, scratch, SourceRef(r), test) && Retarget(sql, scratch) == Some(test);
    assert t[k] == t[..i][k];
    Retargeted.RehearsalFaithful(r.sql, TestSchema(r), w.scratchName);
  }
}
