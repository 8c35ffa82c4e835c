/**
 * When each method of a schema change runs, how a run ends and what it warns
 * of, told from the events of the run and the outcomes of its steps.
 */
module SchemaChangeMethods {
  import opened Bytes
  import opened Wrappers
  import opened Identifiers
  import opened OnlineDdl
  import opened PtoscSql
  import opened SchemaChange

  // ---------- events ----------

  /** The steps of the online method whose failure ends it. */
  predicate IsWork(s: Step) {
    || s.Acquire? || s.ReadTimeout? || s.SetTimeout? || s.CreateSchema?
    || s.CreateScratch? || s.Preflight? || s.Production?
  }

  predicate IsOnline(s: Step) {
    IsWork(s) || s.DropScratch? || s.Discard? || s.RestoreTimeout? || s.Release?
  }

  predicate IsPtosc(s: Step) {
    s.DryRun? || s.Migrate?
  }

  /** How a step of the online method ends. */
  function Ends(w: World, s: Step): Outcome {
    match s
    case Acquire => w.acquire
    case ReadTimeout => w.read
    case SetTimeout => w.reduce
    case CreateSchema(_) => w.schema
    case CreateScratch(_, _) => w.scratch
    case Preflight(_) => w.preflight
    case Production(_) => w.production
    case _ => Good
  }

  predicate FailedWork(e: Event) {
    IsWork(e.step) && !e.ok
  }

  predicate SomeFailed(t: Trace) {
    exists i :: 0 <= i < |t| && FailedWork(t[i])
  }

  /** A step failed, and its error means that online DDL is not supported. */
  predicate SomeUnsupported(t: Trace, w: World) {
    exists i :: 0 <= i < |t| && FailedWork(t[i]) && Ends(w, t[i].step) == Bad(true)
  }

  predicate NoOnline(t: Trace) {
    forall i :: 0 <= i < |t| ==> !IsOnline(t[i].step)
  }

  predicate NoPtosc(t: Trace) {
    forall i :: 0 <= i < |t| ==> !IsPtosc(t[i].step)
  }

  predicate Has(t: Trace, e: Event) {
    exists i :: 0 <= i < |t| && t[i] == e
  }

  /** The statement asks for an algorithm or lock under which it would not be online. */
  predicate AsksOtherwise(b: Built) {
    b.Failed? &&
    match b.failure
    case UnsafeAlgorithm(v) => v == Ascii("COPY") || v == Ascii("DEFAULT")
    case UnsafeLock(v) => v == Ascii("DEFAULT") || v == Ascii("SHARED") || v == Ascii("EXCLUSIVE")
    case _ => false
  }

  /** Online DDL proved unsupported: on the server, or before the first step by what the statement asks for. */
  predicate ProvedUnsupported(r: Request, w: World, t: Trace) {
    || SomeUnsupported(t, w)
    || (NoOnline(t) && Named(r.target) && !Blank(TestSchema(r)) && AsksOtherwise(Build(r.sql)))
  }

  predicate Blank(t: Text) {
    forall i :: 0 <= i < |t| ==> 9 <= t[i] <= 13 || t[i] == 32
  }

  /** A target has a name and a database that are not blank. */
  lemma NamedIs(target: Table)
    ensures Named(target) <==> !Blank(target.database) && !Blank(target.name)
  {
    hide Trim, Blank;
    BlankIs(target.database);
    BlankIs(target.name);
  }

  lemma BlankIs(t: Text)
    ensures Trim(t) == [] <==> Blank(t)
  {
    hide Trim;
    var before, after := TrimParts(t);
    if Blank(t) {
      assert t + [] + [] == t;
      TrimUnique(t, [], []);
    }
  }

  lemma ListedValues(b: Built)
    ensures AsksOtherwise(b) <==> b.Failed? && OnlineDdl.Unsupported(b.failure)
  {
  }

  // ---------- the online method ----------

  /** A trace of online steps whose failures are those of the steps, and an error that is the failure's. */
  predicate Tells(w: World, t: Trace, error: Option<bool>) {
    && (forall i :: 0 <= i < |t| ==> IsOnline(t[i].step))
    && (forall i :: 0 <= i < |t| && FailedWork(t[i]) ==>
          Ends(w, t[i].step).Bad? && error == Some(Ends(w, t[i].step).unsupported))
    && (error.Some? ==> SomeFailed(t))
  }

  predicate Smooth(t: Trace) {
    forall i :: 0 <= i < |t| ==> IsOnline(t[i].step) && !FailedWork(t[i])
  }

  lemma TellsBetween(w: World, a: Trace, t: Trace, b: Trace, error: Option<bool>)
    requires Smooth(a) && Tells(w, t, error) && Smooth(b)
    ensures Tells(w, a + (t + b), error)
  {
    var all := a + (t + b);
    if error.Some? {
      var i :| 0 <= i < |t| && FailedWork(t[i]);
      assert all[|a| + i] == t[i];
    }
  }

  lemma RehearsedTells(r: Request, w: World, final: Text, test: Text)
    ensures Tells(w, Rehearsed(r, w, final, test).trace, Rehearsed(r, w, final, test).error)
  {
    hide Canonical;
    var p := Rehearsed(r, w, final, test);
    if p.error.Some? {
      var i := if w.schema.Bad? then 0 else if w.scratch.Bad? then 1 else if w.preflight.Bad? then 2 else 3;
      assert FailedWork(p.trace[i]);
    }
  }

  lemma PinnedTells(r: Request, w: World, final: Text, test: Text)
    ensures var p := Pinned(r, w, final, test); Tells(w, p.trace, p.error) && p.trace != []
  {
    hide Rehearsed;
    var p := Pinned(r, w, final, test);
    if Reduces(w) {
      var before := [Event(Acquire, true), Event(ReadTimeout, true), Event(SetTimeout, true)];
      RehearsedTells(r, w, final, test);
      TellsBetween(w, before, Rehearsed(r, w, final, test).trace, Restoring(w) + [Event(Release, true)], p.error);
    } else {
      var i := if w.acquire.Bad? then 0 else if w.read.Bad? then 1 else 2;
      assert FailedWork(p.trace[i]);
    }
  }

  /** The online method ends with an unsupported error exactly if its events or the statement say so. */
  lemma OnlineTells(r: Request, w: World)
    ensures var p := OnlinePart(r, w);
            && (forall i :: 0 <= i < |p.trace| ==> IsOnline(p.trace[i].step))
            && (p.error == Some(true) <==> ProvedUnsupported(r, w, p.trace))
            && (p.trace != [] ==> Tells(w, p.trace, p.error))
            && (p.trace == [] ==> p.error.Some?)
  {
    hide Build, Retarget, Named, Pinned, AsksOtherwise, Canonical;
    ListedValues(Build(r.sql));
    BlankIs(TestSchema(r));
    var p := OnlinePart(r, w);
    if Prepare(r, w).Ready? {
      PinnedTells(r, w, Prepare(r, w).final, Prepare(r, w).test);
      assert IsOnline(p.trace[0].step);
      if p.error == Some(true) {
        var i :| 0 <= i < |p.trace| && FailedWork(p.trace[i]);
      }
    }
  }

  // ---------- the parts of a run ----------

  predicate AllOnline(t: Trace) {
    forall i :: 0 <= i < |t| ==> IsOnline(t[i].step)
  }

  predicate AllPtosc(t: Trace) {
    forall i :: 0 <= i < |t| ==> IsPtosc(t[i].step)
  }

  /** The run was not stopped before the change. */
  predicate Reached(r: Request, w: World) {
    RunResult(r, w) !in [Failure(InvalidPlan), Failure(NoCapacity), Failure(NoBackup)]
  }

  /** What pt-online-schema-change needs. */
  predicate Usable(r: Request) {
    r.config.Some? && r.config.value.host != [] && Named(r.target) && BuildChange(r.sql).Alter?
  }

  lemma PtoscParts(r: Request, w: World)
    ensures var t := PtoscTrace(r, w);
            && (forall i :: 0 <= i < |t| ==> IsPtosc(t[i].step))
            && (Usable(r) <==> t != [])
            && (Usable(r) ==> t[0].step.DryRun?)
  {
    hide Named, BuildChange, Dsn;
  }

  lemma ReachedIs(r: Request, w: World)
    ensures Reached(r, w) <==> PlanValid(r) && CapacityFound(r, w) && BackupDone(r, w)
    ensures Reached(r, w) ==> RunResult(r, w) == ChangeResult(r, w)
  {
    hide PlanValid, CapacityFound, BackupDone, OnlinePart, OnlineWarnings, PtoscRuns;
  }

  /** The checks before the change. */
  function Checks(r: Request, w: World): Trace {
    if !PlanValid(r) then []
    else if !CapacityFound(r, w) then CapacityTrace(r, w)
    else CapacityTrace(r, w) + BackupTrace(r, w)
  }

  function OnlineSteps(r: Request, w: World): Trace {
    if Reached(r, w) && r.okOnline then OnlinePart(r, w).trace else []
  }

  function PtoscSteps(r: Request, w: World): Trace {
    if Reached(r, w) && (!r.okOnline || FallsBack(r, w)) then PtoscTrace(r, w) else []
  }

  lemma RunParts(r: Request, w: World)
    ensures RunTrace(r, w) == Checks(r, w) + OnlineSteps(r, w) + PtoscSteps(r, w)
    ensures Quiet(Checks(r, w)) && AllOnline(OnlineSteps(r, w)) && AllPtosc(PtoscSteps(r, w))
  {
    hide PlanValid, CapacityFound, BackupDone, OnlinePart, PtoscTrace, Reached, FallsBack, CapacityTrace, BackupTrace;
    hide Quiet;
    ReachedIs(r, w);
    ChecksTell(r, w);
    OnlineTells(r, w);
    PtoscParts(r, w);
    assert Checks(r, w) + [] + [] == Checks(r, w);
    if Reached(r, w) {
      Regroup(Checks(r, w), OnlineSteps(r, w), PtoscSteps(r, w));
    }
  }

  lemma Regroup(a: Trace, b: Trace, c: Trace)
    ensures a + (b + c) == a + b + c
  {
  }

  lemma ChecksTell(r: Request, w: World)
    ensures Quiet(Checks(r, w))
  {
    hide Named, PlanValid;
  }

  /** No step of either method. */
  predicate Quiet(t: Trace) {
    NoOnline(t) && NoPtosc(t) && !SomeFailed(t)
  }

  lemma JoinTells(w: World, a: Trace, b: Trace)
    ensures SomeUnsupported(a + b, w) == (SomeUnsupported(a, w) || SomeUnsupported(b, w))
    ensures SomeFailed(a + b) == (SomeFailed(a) || SomeFailed(b))
    ensures NoOnline(a + b) == (NoOnline(a) && NoOnline(b)) && NoPtosc(a + b) == (NoPtosc(a) && NoPtosc(b))
    ensures forall e: Event :: Has(a + b, e) == (Has(a, e) || Has(b, e))
  {
    hide IsOnline, IsPtosc, FailedWork, Ends;
    forall i | 0 <= i < |a| ensures (a + b)[i] == a[i] {}
    forall i | 0 <= i < |b| ensures (a + b)[|a| + i] == b[i] {}
  }

  /** What is said of all events is said of the parts. */
  lemma PartsTell(r: Request, w: World)
    ensures var t, online, ptosc := RunTrace(r, w), OnlineSteps(r, w), PtoscSteps(r, w);
            && SomeUnsupported(t, w) == SomeUnsupported(online, w) && SomeFailed(t) == SomeFailed(online)
            && (NoOnline(t) <==> online == []) && (NoPtosc(t) <==> ptosc == [])
            && (forall sql :: Has(t, Event(Production(sql), true)) == Has(online, Event(Production(sql), true)))
  {
    hide RunTrace, Checks, OnlineSteps, PtoscSteps;
    RunParts(r, w);
    var before, online, ptosc := Checks(r, w), OnlineSteps(r, w), PtoscSteps(r, w);
    JoinTells(w, before + online, ptosc);
    JoinTells(w, before, online);
    assert online != [] ==> IsOnline(online[0].step);
    assert ptosc != [] ==> IsPtosc(ptosc[0].step);
  }

  // ---------- the theorems ----------

  /**
   * An online step occurs only if online DDL is allowed.  A step of pt-online-schema-change
   * occurs only if that is allowed and online DDL is not, or proved unsupported; and then, with
   * what it needs, a dry run does occur.
   */
  lemma MethodsChosen(r: Request, w: World)
    ensures var t := RunTrace(r, w);
            && (!r.okOnline ==> NoOnline(t))
            && (!NoPtosc(t) ==> r.okPtosc && (r.okOnline ==> ProvedUnsupported(r, w, t)))
            && (Reached(r, w) && r.okPtosc && (r.okOnline ==> ProvedUnsupported(r, w, t)) && Usable(r) ==>
                  exists i :: 0 <= i < |t| && t[i].step.DryRun?)
  {
    hide RunTrace, RunResult, OnlinePart, PtoscTrace, Usable, ProvedUnsupported, IsPtosc, IsOnline;
    RunParts(r, w);
    PartsTell(r, w);
    OnlineTells(r, w);
    PtoscParts(r, w);
    PtoscAllowed(r, w);
    if r.okOnline && Reached(r, w) {
      SameProof(r, w, OnlineSteps(r, w));
    }
    if PtoscSteps(r, w) != [] {
      assert RunTrace(r, w)[|Checks(r, w)| + |OnlineSteps(r, w)|] == PtoscSteps(r, w)[0];
    }
  }

  lemma PtoscAllowed(r: Request, w: World)
    ensures Reached(r, w) && !r.okOnline ==> r.okPtosc
  {
    hide Named, OnlinePart, OnlineWarnings, Build, BuildChange;
  }

  lemma SameProof(r: Request, w: World, online: Trace)
    requires SomeUnsupported(RunTrace(r, w), w) == SomeUnsupported(online, w)
    requires NoOnline(RunTrace(r, w)) <==> online == []
    requires forall i :: 0 <= i < |online| ==> IsOnline(online[i].step)
    ensures ProvedUnsupported(r, w, RunTrace(r, w)) == ProvedUnsupported(r, w, online)
  {
    hide RunTrace, AsksOtherwise, Build, Named, SomeUnsupported;
    if online != [] {
      assert IsOnline(online[0].step);
    }
  }

  /**
   * A run allowed online DDL succeeds online exactly if the production statement succeeded;
   * else, unless pt-online-schema-change took over, it fails with the online error and none of
   * that tool's steps.
   */
  lemma OnlineEnds(r: Request, w: World)
    requires Reached(r, w) && r.okOnline
    ensures var t, result := RunTrace(r, w), RunResult(r, w);
            && (result.Success? && result.used.Online? <==> exists sql :: Has(t, Event(Production(sql), true)))
            && (result == Failure(OnlineError) <==>
                  !(result.Success? && result.used.Online?) && !(r.okPtosc && ProvedUnsupported(r, w, t)))
            && ((result == Failure(OnlineError) || (result.Success? && result.used.Online?)) ==> NoPtosc(t))
  {
    hide RunTrace, RunResult, OnlinePart, PtoscTrace, Usable, ProvedUnsupported, IsPtosc, IsOnline, OnlineWarnings;
    ReachedIs(r, w);
    PartsTell(r, w);
    OnlineTells(r, w);
    OnlineSucceeds(r, w);
    RunParts(r, w);
    SameProof(r, w, OnlineSteps(r, w));
  }

  lemma OnlineSucceeds(r: Request, w: World)
    ensures var p := OnlinePart(r, w);
            p.error.None? <==> exists sql :: Has(p.trace, Event(Production(sql), true))
  {
    hide Build, Retarget, Named, Pinned, Canonical;
    if Prepare(r, w).Ready? {
      PinnedSucceeds(r, w, Prepare(r, w).final, Prepare(r, w).test);
    }
  }

  lemma PinnedSucceeds(r: Request, w: World, final: Text, test: Text)
    ensures var p := Pinned(r, w, final, test);
            p.error.None? <==> exists sql :: Has(p.trace, Event(Production(sql), true))
  {
    hide Canonical;
    var p := Pinned(r, w, final, test);
    if p.error.None? {
      assert p.trace[6] == Event(Production(final), true);
    }
  }

  /** Which checks stop a run before any change, in their order. */
  lemma StopsEarly(r: Request, w: World)
    ensures var result := RunResult(r, w);
            var planned := if r.okOnline then
                             || Build(r.sql).Done?
                             || (r.okPtosc && AsksOtherwise(Build(r.sql)) && BuildChange(r.sql).Alter?)
                           else r.okPtosc && BuildChange(r.sql).Alter?;
            var checked := r.config.None? || !r.config.value.skipSpaceChecks;
            var room := !checked || (Named(r.target) && w.capacity);
            var saved := !r.wantsBackup || (r.config.Some? && w.backup);
            && (result == Failure(InvalidPlan) <==> !planned)
            && (result == Failure(NoCapacity) <==> planned && !room)
            && (result == Failure(NoBackup) <==> planned && room && !saved)
  {
    hide Named, Build, BuildChange, OnlinePart, AsksOtherwise, PtoscRuns, OnlineWarnings;
    ListedValues(Build(r.sql));
  }

  /** The checks are the first events, the run stops at one that fails, and a plan that is not valid starts none. */
  lemma ChecksFirst(r: Request, w: World)
    ensures var t, result := RunTrace(r, w), RunResult(r, w);
            var checked := r.config.None? || !r.config.value.skipSpaceChecks;
            && (result == Failure(InvalidPlan) ==> t == [])
            && (result != Failure(InvalidPlan) && checked && Named(r.target) ==>
                  t != [] && t[0] == Event(CheckCapacity, w.capacity))
            && (forall i :: 0 <= i < |t| && t[i].step == CheckCapacity ==> i == 0 && checked)
            && (forall i :: 0 <= i < |t| && t[i] == Event(CheckCapacity, false) ==>
                  i == |t| - 1 && result == Failure(NoCapacity))
            && (forall i :: 0 <= i < |t| && t[i] == Event(Backup, false) ==>
                  i == |t| - 1 && result == Failure(NoBackup))
            && (Reached(r, w) && r.wantsBackup ==> Has(t, Event(Backup, true)))
            && ((exists ok :: Has(t, Event(Backup, ok))) ==> r.wantsBackup)
  {
    hide RunTrace, RunResult, PlanValid, Named, Reached, OnlineSteps, PtoscSteps, Quiet;
    RunParts(r, w);
    ReachedIs(r, w);
    ResultReason(r, w);
    var t, before := RunTrace(r, w), Checks(r, w);
    ChecksAre(r, w);
    ChecksInFront(before, OnlineSteps(r, w), PtoscSteps(r, w));
    StoppedNothing(r, w);
    assert Reached(r, w) && r.wantsBackup ==> before[|before| - 1] == Event(Backup, true) == t[|before| - 1];
  }

  lemma ChecksInFront(before: Trace, online: Trace, ptosc: Trace)
    requires AllOnline(online) && AllPtosc(ptosc)
    ensures var t := before + online + ptosc;
            forall i :: |before| <= i < |t| ==> t[i].step != CheckCapacity && t[i].step != Backup
  {
    var t := before + online + ptosc;
    forall i | |before| <= i < |t| ensures IsOnline(t[i].step) || IsPtosc(t[i].step) {
      assert t[i] == if i < |before| + |online| then online[i - |before|] else ptosc[i - |before| - |online|];
    }
  }

  /** One event at most for each check. */
  lemma ChecksAre(r: Request, w: World)
    ensures var before := Checks(r, w);
            && |before| <= 2
            && (before != [] && before[0].step != CheckCapacity ==>
                  |before| == 1 && before[0] == Event(Backup, w.backup))
            && (before != [] && before[0].step == CheckCapacity ==>
                  before[0] == Event(CheckCapacity, w.capacity) && ChecksCapacity(r) && (!w.capacity ==> |before| == 1))
            && (|before| == 2 ==> before[1] == Event(Backup, w.backup))
            && (before != [] && before[|before| - 1].step == Backup ==> r.wantsBackup && r.config.Some?)
            && (PlanValid(r) && ChecksCapacity(r) && Named(r.target) ==>
                  before != [] && before[0].step == CheckCapacity)
            && (PlanValid(r) && CapacityFound(r, w) && r.wantsBackup && r.config.Some? ==>
                  before != [] && before[|before| - 1].step == Backup)
  {
    hide PlanValid, Named;
  }

  lemma ResultReason(r: Request, w: World)
    ensures RunResult(r, w) == Failure(InvalidPlan) <==> !PlanValid(r)
    ensures RunResult(r, w) == Failure(NoCapacity) <==> PlanValid(r) && !CapacityFound(r, w)
    ensures RunResult(r, w) == Failure(NoBackup) <==> PlanValid(r) && CapacityFound(r, w) && !BackupDone(r, w)
  {
    hide PlanValid, Named, OnlinePart, OnlineWarnings, PtoscRuns;
  }

  lemma StoppedNothing(r: Request, w: World)
    ensures !Reached(r, w) ==> OnlineSteps(r, w) == [] && PtoscSteps(r, w) == []
  {
    hide Reached, OnlinePart, PtoscTrace;
  }

  // ---------- single events ----------

  /** Whether an event happens is up to the part of the run that it belongs to. */
  lemma HasInPart(r: Request, w: World, e: Event)
    ensures IsOnline(e.step) ==> Has(RunTrace(r, w), e) == Has(OnlineSteps(r, w), e)
    ensures IsPtosc(e.step) ==> Has(RunTrace(r, w), e) == Has(PtoscSteps(r, w), e)
    ensures !IsOnline(e.step) && !IsPtosc(e.step) ==> Has(RunTrace(r, w), e) == Has(Checks(r, w), e)
  {
    hide RunTrace, Checks, OnlineSteps, PtoscSteps;
    RunParts(r, w);
    JoinTells(w, Checks(r, w) + OnlineSteps(r, w), PtoscSteps(r, w));
    JoinTells(w, Checks(r, w), OnlineSteps(r, w));
  }

  /** What pt-online-schema-change is given: where to connect, the target, and the change text. */
  lemma PtoscArguments(r: Request, w: World, e: Event)
    requires IsPtosc(e.step) && Has(RunTrace(r, w), e)
    ensures r.config.Some? && BuildChange(r.sql) == Alter(e.step.alter) && IsDsn(e.step.dsn, r.config.value, r.target)
  {
    hide RunTrace, BuildChange, Named, FallsBack, Reached, IsDsn, Dsn;
    HasInPart(r, w, e);
    DsnIs(r.config.value, r.target);
  }

  predicate IsDsn(dsn: Text, c: Config, target: Table) {
    var place := if c.host != [] && c.host[0] == SLASH then Ascii("S=") + c.host
                 else Ascii("h=") + c.host + Ascii(",P=") + c.port;
    dsn == place + (Ascii(",u=") + c.user + Ascii(",p=") + c.password +
                    Ascii(",D=") + target.database + Ascii(",t=") + target.name)
  }

  lemma DsnIs(c: Config, target: Table)
    ensures IsDsn(Dsn(c, target), c, target)
  {
    hide Ascii;
  }

  /** A success says which method made the change, and whether a backup was made. */
  lemma SuccessSays(r: Request, w: World)
    requires RunResult(r, w).Success?
    ensures var t, result := RunTrace(r, w), RunResult(r, w);
            && (result.used.Online? <==> exists sql :: Has(t, Event(Production(sql), true)))
            && (result.used.Ptosc? <==> exists dsn, alter :: Has(t, Event(Migrate(dsn, alter), true)))
            && (result.backedUp <==> Has(t, Event(Backup, true)))
            && (FellBack in result.warnings <==> r.okOnline && result.used.Ptosc?)
  {
    hide RunTrace, RunResult, OnlinePart, PtoscTrace, PtoscRuns, Reached, Checks, OnlineWarnings;
    ReachedIs(r, w);
    SuccessReached(r, w);
    forall sql
      ensures var e := Event(Production(sql), true); Has(RunTrace(r, w), e) == Has(OnlineSteps(r, w), e)
    {
      HasInPart(r, w, Event(Production(sql), true));
    }
    forall dsn, alter
      ensures var e := Event(Migrate(dsn, alter), true); Has(RunTrace(r, w), e) == Has(PtoscSteps(r, w), e)
    {
      HasInPart(r, w, Event(Migrate(dsn, alter), true));
    }
    HasInPart(r, w, Event(Backup, true));
    OnlineSucceeds(r, w);
    PtoscSucceeds(r, w);
    BackupMade(r, w);
    NotYetBack(r, w);
  }

  lemma SuccessReached(r: Request, w: World)
    ensures RunResult(r, w).Success? ==> Reached(r, w)
  {
    hide RunResult;
  }

  lemma PtoscSucceeds(r: Request, w: World)
    ensures PtoscRuns(r, w) <==> exists dsn, alter :: Has(PtoscTrace(r, w), Event(Migrate(dsn, alter), true))
  {
    hide Named, BuildChange, Dsn;
    var t := PtoscTrace(r, w);
    if PtoscRuns(r, w) {
      assert t[1] == Event(Migrate(t[0].step.dsn, t[0].step.alter), true);
    }
  }

  lemma BackupMade(r: Request, w: World)
    requires Reached(r, w)
    ensures Has(Checks(r, w), Event(Backup, true)) <==> r.wantsBackup
  {
    hide Reached, Named, PlanValid;
    ReachedIs(r, w);
    var before := Checks(r, w);
    if r.wantsBackup {
      assert before[|before| - 1] == Event(Backup, true);
    }
  }

  lemma NotYetBack(r: Request, w: World)
    ensures FellBack !in OnlineWarnings(r, w)
  {
    hide OnlinePart, Prepare;
  }

  // ---------- warnings ----------

  /** A success warns of a scratch table or a session that could not be put back, and of an online error. */
  lemma WarningsTell(r: Request, w: World)
    requires RunResult(r, w).Success?
    ensures var t, warnings := RunTrace(r, w), RunResult(r, w).warnings;
            && (ScratchLeft in warnings <==> exists scratch :: Has(t, Event(DropScratch(scratch), false)))
            && (SessionLeft in warnings <==> Has(t, Event(RestoreTimeout, false)))
            && (OnlineFailed in warnings <==> SomeFailed(t))
            && (OnlineUnsupported in warnings <==> SomeUnsupported(t, w))
  {
    hide RunTrace, RunResult, OnlinePart, PtoscTrace, PtoscRuns, Reached, Checks, OnlineWarnings;
    hide SomeFailed, SomeUnsupported;
    ReachedIs(r, w);
    SuccessReached(r, w);
    PartsTell(r, w);
    forall scratch
      ensures var e := Event(DropScratch(scratch), false); Has(RunTrace(r, w), e) == Has(OnlineSteps(r, w), e)
    {
      HasInPart(r, w, Event(DropScratch(scratch), false));
    }
    HasInPart(r, w, Event(RestoreTimeout, false));
    OnlineWarns(r, w);
    NoEvents(w);
  }

  lemma NoEvents(w: World)
    ensures !SomeFailed([]) && !SomeUnsupported([], w) && forall e: Event :: !Has([], e)
  {
  }

  lemma OnlineWarns(r: Request, w: World)
    ensures var t, warnings := OnlinePart(r, w).trace, OnlineWarnings(r, w);
            && (ScratchLeft in warnings <==> exists scratch :: Has(t, Event(DropScratch(scratch), false)))
            && (SessionLeft in warnings <==> Has(t, Event(RestoreTimeout, false)))
            && (OnlineFailed in warnings <==> SomeFailed(t))
            && (OnlineUnsupported in warnings <==> SomeUnsupported(t, w))
  {
    hide Pinned, Prepare, PinnedWarnings, SomeFailed, SomeUnsupported;
    if Prepare(r, w).Ready? {
      PinnedWarns(r, w, Prepare(r, w).final, Prepare(r, w).test);
    } else {
      NoEvents(w);
    }
  }

  lemma PinnedWarns(r: Request, w: World, final: Text, test: Text)
    ensures var t, warnings := Pinned(r, w, final, test).trace, PinnedWarnings(w, Pinned(r, w, final, test).error);
            && (ScratchLeft in warnings <==> exists scratch :: Has(t, Event(DropScratch(scratch), false)))
            && (SessionLeft in warnings <==> Has(t, Event(RestoreTimeout, false)))
            && (OnlineFailed in warnings <==> SomeFailed(t))
            && (OnlineUnsupported in warnings <==> SomeUnsupported(t, w))
  {
    hide Rehearsed, Restoring, PinnedWarnings, SomeFailed, SomeUnsupported;
    var p := Pinned(r, w, final, test);
    PinnedTells(r, w, final, test);
    TellsErrors(w, p.trace, p.error);
    WarningsAre(w, p.error);
    var before := [Event(Acquire, true), Event(ReadTimeout, true), Event(SetTimeout, true)];
    var work, after := Rehearsed(r, w, final, test).trace, Restoring(w) + [Event(Release, true)];
    JoinTells(w, before, work + after);
    JoinTells(w, work, after);
    RehearsedDrops(r, w, final, test);
    RestoreWarns(w);
  }

  lemma TellsErrors(w: World, t: Trace, error: Option<bool>)
    requires Tells(w, t, error)
    ensures (error.Some? <==> SomeFailed(t)) && (error == Some(true) <==> SomeUnsupported(t, w))
  {
    if error.Some? {
      var i :| 0 <= i < |t| && FailedWork(t[i]);
    }
  }

  lemma WarningsAre(w: World, error: Option<bool>)
    ensures var warnings := PinnedWarnings(w, error);
            && (ScratchLeft in warnings <==> Reduces(w) && ScratchMade(w) && !w.drop.Dropped?)
            && (SessionLeft in warnings <==> Reduces(w) && !Restores(w))
            && (OnlineFailed in warnings <==> error.Some?)
            && (OnlineUnsupported in warnings <==> error == Some(true))
  {
  }

  lemma RehearsedDrops(r: Request, w: World, final: Text, test: Text)
    ensures var t := Rehearsed(r, w, final, test).trace;
            && ((exists scratch :: Has(t, Event(DropScratch(scratch), false))) <==> ScratchMade(w) && !w.drop.Dropped?)
            && !Has(t, Event(RestoreTimeout, false))
  {
    hide Canonical;
    var t := Rehearsed(r, w, final, test).trace;
    if ScratchMade(w) && !w.drop.Dropped? {
      var i := if w.preflight.Bad? then 3 else 4;
      assert t[i] == Event(DropScratch(ScratchRef(r, w)), false);
    }
  }

  lemma RestoreWarns(w: World)
    ensures var t := Restoring(w) + [Event(Release, true)];
            && (Has(t, Event(RestoreTimeout, false)) <==> !Restores(w))
            && (forall scratch :: !Has(t, Event(DropScratch(scratch), false)))
  {
    assert (Restoring(w) + [Event(Release, true)])[0] == Event(RestoreTimeout, Restores(w));
  }
}
