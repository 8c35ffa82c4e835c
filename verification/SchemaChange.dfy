/**
 * Running a schema change: backup, rehearsal on a scratch table, the change
 * itself, the fallback to pt-online-schema-change, and cleanup.  Every external
 * step is recorded with its outcome; the outcomes are arbitrary.
 */
module SchemaChange {
  import opened Bytes
  import opened Wrappers
  import opened Identifiers
  import opened OnlineDdl
  import opened PtoscSql

  datatype Table = Table(database: Text, name: Text)

  datatype Config = Config(
    skipSpaceChecks: bool, testSchema: Text, host: Text, port: Text, user: Text, password: Text)

  /** A validated request: the statement names its target, which is the analyzed table. */
  datatype Request = Request(
    sql: Text, target: Table, wantsBackup: bool, okOnline: bool, okPtosc: bool, config: Option<Config>)

  datatype Step =
    | CheckCapacity
    | Backup
    | Acquire
    | ReadTimeout
    | SetTimeout
    | CreateSchema(schema: Text)
    | CreateScratch(scratch: Text, source: Text)
    | Preflight(sql: Text)
    | Production(sql: Text)
    | DropScratch(scratch: Text)
    | Discard
    | RestoreTimeout
    | Release
    | DryRun(dsn: Text, alter: Text)
    | Migrate(dsn: Text, alter: Text)

  datatype Event = Event(step: Step, ok: bool)

  type Trace = seq<Event>

  /** A failed step tells whether its error means that online DDL is not supported. */
  datatype Outcome = Good | Bad(unsupported: bool)

  datatype Drop = Dropped | DropFailed | DropTimedOut

  /** How each external step ends, should it be reached; each is reached at most once. */
  datatype World = World(
    capacity: bool, backup: bool, acquire: Outcome, read: Outcome, reduce: Outcome, schema: Outcome,
    scratch: Outcome, preflight: Outcome, production: Outcome, drop: Drop, restore: bool,
    dryRun: bool, migrate: bool, scratchName: Text)

  datatype Warning = ScratchLeft | SessionLeft | OnlineFailed | OnlineUnsupported | FellBack

  datatype Method = Online | Ptosc

  datatype Reason = InvalidPlan | NoCapacity | NoBackup | OnlineError | PtoscError

  datatype Returned = Success(backedUp: bool, used: Method, warnings: seq<Warning>) | Failure(reason: Reason)

  // ---------- the plan ----------

  predicate Named(target: Table) {
    Trim(target.database) != [] && Trim(target.name) != []
  }

  predicate PlanValid(r: Request) {
    if r.okOnline then
      || Build(r.sql).Done?
      || (r.okPtosc && OnlineDdl.Unsupported(Build(r.sql).failure) && BuildChange(r.sql).Alter?)
    else r.okPtosc && BuildChange(r.sql).Alter?
  }

  predicate ChecksCapacity(r: Request) {
    r.config.None? || !r.config.value.skipSpaceChecks
  }

  function TestSchema(r: Request): Text {
    if r.config.None? then [] else r.config.value.testSchema
  }

  function ScratchRef(r: Request, w: World): Text {
    Canonical(TestSchema(r), w.scratchName)
  }

  function SourceRef(r: Request): Text {
    Canonical(r.target.database, r.target.name)
  }

  function Dsn(c: Config, target: Table): Text {
    (if c.host != [] && c.host[0] == SLASH then Ascii("S=") + c.host
     else Ascii("h=") + c.host + Ascii(",P=") + c.port) +
    (Ascii(",u=") + c.user + Ascii(",p=") + c.password +
     Ascii(",D=") + target.database + Ascii(",t=") + target.name)
  }

  // ---------- what a run does ----------

  /** The events of a part of a run and the error it ends with, if any. */
  datatype Part = Part(trace: Trace, error: Option<bool>)

  function ErrorOf(o: Outcome): Option<bool> {
    if o.Good? then None else Some(o.unsupported)
  }

  /** The drop of the scratch table, after which a session that hangs is discarded. */
  function Cleanup(scratch: Text, w: World): Trace {
    [Event(DropScratch(scratch), w.drop.Dropped?)] + (if w.drop.DropTimedOut? then [Event(Discard, true)] else [])
  }

  /** The work on the pinned session. */
  function Rehearsed(r: Request, w: World, final: Text, test: Text): Part {
    var schema := Event(CreateSchema(TestSchema(r)), w.schema.Good?);
    var scratch := Event(CreateScratch(ScratchRef(r, w), SourceRef(r)), w.scratch.Good?);
    var preflight := Event(Preflight(test), w.preflight.Good?);
    var production := Event(Production(final), w.production.Good?);
    var cleanup := Cleanup(ScratchRef(r, w), w);
    if w.schema.Bad? then Part([schema], ErrorOf(w.schema))
    else if w.scratch.Bad? then Part([schema, scratch], ErrorOf(w.scratch))
    else if w.preflight.Bad? then Part([schema, scratch, preflight] + cleanup, ErrorOf(w.preflight))
    else Part([schema, scratch, preflight, production] + cleanup, ErrorOf(w.production))
  }

  predicate ScratchMade(w: World) {
    w.schema.Good? && w.scratch.Good?
  }

  /** Whether the session is put back: not if the cleanup already discarded it. */
  predicate Restores(w: World) {
    w.restore && !(ScratchMade(w) && w.drop.DropTimedOut?)
  }

  function Restoring(w: World): Trace {
    [Event(RestoreTimeout, Restores(w))] + (if Restores(w) then [] else [Event(Discard, true)])
  }

  /** A session taken from the pool with its lock timeout reduced for the work. */
  function Pinned(r: Request, w: World, final: Text, test: Text): Part {
    var acquire, read, reduce :=
      Event(Acquire, w.acquire.Good?), Event(ReadTimeout, w.read.Good?), Event(SetTimeout, w.reduce.Good?);
    var release := Event(Release, true);
    if w.acquire.Bad? then Part([acquire], ErrorOf(w.acquire))
    else if w.read.Bad? then Part([acquire, read, release], ErrorOf(w.read))
    else if w.reduce.Bad? then Part([acquire, read, reduce, release], ErrorOf(w.reduce))
    else
      var work := Rehearsed(r, w, final, test);
      Part([acquire, read, reduce] + (work.trace + (Restoring(w) + [release])), work.error)
  }

  predicate Reduces(w: World) {
    w.acquire.Good? && w.read.Good? && w.reduce.Good?
  }

  function PinnedWarnings(w: World, error: Option<bool>): seq<Warning> {
    (if Reduces(w) && ScratchMade(w) && !w.drop.Dropped? then [ScratchLeft] else []) +
    (if Reduces(w) && !Restores(w) then [SessionLeft] else []) +
    (if error.Some? then [OnlineFailed] else []) +
    (if error == Some(true) then [OnlineUnsupported] else [])
  }

  /** The statement and its rehearsal, or an error found while preparing them. */
  datatype Prepared = Ready(final: Text, test: Text) | NotReady(unsupported: bool)

  function Prepare(r: Request, w: World): Prepared {
    if !Named(r.target) || Trim(TestSchema(r)) == [] then NotReady(false)
    else if Build(r.sql).Failed? then NotReady(OnlineDdl.Unsupported(Build(r.sql).failure))
    else
      var test := Retarget(Build(r.sql).sql, ScratchRef(r, w));
      if test.None? then NotReady(false) else Ready(Build(r.sql).sql, test.value)
  }

  function OnlinePart(r: Request, w: World): Part {
    match Prepare(r, w)
    case NotReady(unsupported) => Part([], Some(unsupported))
    case Ready(final, test) => Pinned(r, w, final, test)
  }

  function OnlineWarnings(r: Request, w: World): seq<Warning> {
    if Prepare(r, w).NotReady? then [] else PinnedWarnings(w, OnlinePart(r, w).error)
  }

  /** A dry run, then the migration with the same arguments. */
  function PtoscTrace(r: Request, w: World): Trace {
    if r.config.None? || r.config.value.host == [] || !Named(r.target) || BuildChange(r.sql).Refused? then []
    else
      var dsn, alter := Dsn(r.config.value, r.target), BuildChange(r.sql).text;
      [Event(DryRun(dsn, alter), w.dryRun)] + (if w.dryRun then [Event(Migrate(dsn, alter), w.migrate)] else [])
  }

  predicate PtoscRuns(r: Request, w: World) {
    r.config.Some? && r.config.value.host != [] && Named(r.target) && BuildChange(r.sql).Alter? && w.dryRun && w.migrate
  }

  predicate CapacityFound(r: Request, w: World) {
    !ChecksCapacity(r) || (Named(r.target) && w.capacity)
  }

  function CapacityTrace(r: Request, w: World): Trace {
    if ChecksCapacity(r) && Named(r.target) then [Event(CheckCapacity, w.capacity)] else []
  }

  predicate BackupDone(r: Request, w: World) {
    !r.wantsBackup || (r.config.Some? && w.backup)
  }

  function BackupTrace(r: Request, w: World): Trace {
    if r.wantsBackup && r.config.Some? then [Event(Backup, w.backup)] else []
  }

  predicate FallsBack(r: Request, w: World) {
    r.okOnline && r.okPtosc && OnlinePart(r, w).error == Some(true)
  }

  /** The change itself, by the methods that are allowed. */
  function ChangeTrace(r: Request, w: World): Trace {
    (if r.okOnline then OnlinePart(r, w).trace else []) +
    (if !r.okOnline || FallsBack(r, w) then PtoscTrace(r, w) else [])
  }

  function ChangeResult(r: Request, w: World): Returned {
    if r.okOnline && OnlinePart(r, w).error.None? then Success(r.wantsBackup, Online, OnlineWarnings(r, w))
    else if r.okOnline && !FallsBack(r, w) then Failure(OnlineError)
    else if !PtoscRuns(r, w) then Failure(PtoscError)
    else Success(r.wantsBackup, Ptosc, if r.okOnline then OnlineWarnings(r, w) + [FellBack] else [])
  }

  function RunTrace(r: Request, w: World): Trace {
    if !PlanValid(r) then []
    else if !CapacityFound(r, w) then CapacityTrace(r, w)
    else if !BackupDone(r, w) then CapacityTrace(r, w) + BackupTrace(r, w)
    else CapacityTrace(r, w) + BackupTrace(r, w) + ChangeTrace(r, w)
  }

  function RunResult(r: Request, w: World): Returned {
    if !PlanValid(r) then Failure(InvalidPlan)
    else if !CapacityFound(r, w) then Failure(NoCapacity)
    else if !BackupDone(r, w) then Failure(NoBackup)
    else ChangeResult(r, w)
  }

  // ---------- the executor ----------

  class Executor {
    const world: World
    var trace: Trace

    constructor (w: World)
      ensures world == w && trace == []
    {
      world := w;
      trace := [];
    }

    /** An external step. */
    method Perform(step: Step, ok: bool)
      modifies this`trace
      ensures trace == old(trace) + [Event(step, ok)]
    {
      trace := trace + [Event(step, ok)];
    }

    method CleanupTestTable(scratch: Text) returns (left: bool)
      modifies this`trace
      ensures trace == old(trace) + Cleanup(scratch, world) && left == !world.drop.Dropped?
    {
      Perform(DropScratch(scratch), world.drop.Dropped?);
      if world.drop.DropTimedOut? {
        Perform(Discard, true);
      }
      left := !world.drop.Dropped?;
    }

    /** The callback run on the pinned session; the scratch table is dropped however it ends. */
    method Rehearse(r: Request, final: Text, test: Text) returns (error: Option<bool>, scratchLeft: bool)
      modifies this`trace
      ensures trace == old(trace) + Rehearsed(r, world, final, test).trace
      ensures error == Rehearsed(r, world, final, test).error
      ensures scratchLeft == (ScratchMade(world) && !world.drop.Dropped?)
    {
      hide Canonical;
      scratchLeft := false;
      Perform(CreateSchema(TestSchema(r)), world.schema.Good?);
      if world.schema.Bad? {
        return ErrorOf(world.schema), false;
      }
      Perform(CreateScratch(ScratchRef(r, world), SourceRef(r)), world.scratch.Good?);
      if world.scratch.Bad? {
        return ErrorOf(world.scratch), false;
      }
      Perform(Preflight(test), world.preflight.Good?);
      error := ErrorOf(world.preflight);
      if world.preflight.Good? {
        Perform(Production(final), world.production.Good?);
        error := ErrorOf(world.production);
      }
      scratchLeft := CleanupTestTable(ScratchRef(r, world));
    }

    method WithPinnedLockWaitTimeout(r: Request, final: Text, test: Text)
      returns (error: Option<bool>, sessionLeft: bool, scratchLeft: bool)
      modifies this`trace
      ensures trace == old(trace) + Pinned(r, world, final, test).trace
      ensures error == Pinned(r, world, final, test).error
      ensures sessionLeft == (Reduces(world) && !Restores(world))
      ensures scratchLeft == (Reduces(world) && ScratchMade(world) && !world.drop.Dropped?)
    {
      hide Rehearsed;
      sessionLeft, scratchLeft := false, false;
      Perform(Acquire, world.acquire.Good?);
      if world.acquire.Bad? {
        return ErrorOf(world.acquire), false, false;
      }
      Perform(ReadTimeout, world.read.Good?);
      if world.read.Bad? {
        Perform(Release, true);
        return ErrorOf(world.read), false, false;
      }
      Perform(SetTimeout, world.reduce.Good?);
      if world.reduce.Bad? {
        Perform(Release, true);
        return ErrorOf(world.reduce), false, false;
      }
      error, scratchLeft := Rehearse(r, final, test);
      sessionLeft := !Restores(world);
      Perform(RestoreTimeout, !sessionLeft);
      if sessionLeft {
        Perform(Discard, true);
      }
      Perform(Release, true);
    }

    method ExecuteWithOnlineDDL(r: Request) returns (error: Option<bool>, warnings: seq<Warning>)
      modifies this`trace
      ensures trace == old(trace) + OnlinePart(r, world).trace
      ensures error == OnlinePart(r, world).error && warnings == OnlineWarnings(r, world)
    {
      hide Pinned, Build, Retarget, Canonical, Named;
      warnings := [];
      var prepared := Prepare(r, world);
      if prepared.NotReady? {
        assert trace + [] == trace;
        return Some(prepared.unsupported), [];
      }
      var sessionLeft, scratchLeft;
      error, sessionLeft, scratchLeft := WithPinnedLockWaitTimeout(r, prepared.final, prepared.test);
      if scratchLeft {
        warnings := warnings + [ScratchLeft];
      }
      if sessionLeft {
        warnings := warnings + [SessionLeft];
      }
      if error.Some? {
        warnings := warnings + [OnlineFailed];
        if error.value {
          warnings := warnings + [OnlineUnsupported];
        }
      }
    }

    method ExecuteWithPTOSC(r: Request) returns (ok: bool)
      modifies this`trace
      ensures trace == old(trace) + PtoscTrace(r, world) && ok == PtoscRuns(r, world)
    {
      hide BuildChange, Dsn, Named;
      if r.config.None? || r.config.value.host == [] || !Named(r.target) || BuildChange(r.sql).Refused? {
        return false;
      }
      var dsn, alter := Dsn(r.config.value, r.target), BuildChange(r.sql).text;
      Perform(DryRun(dsn, alter), world.dryRun);
      if !world.dryRun {
        return false;
      }
      Perform(Migrate(dsn, alter), world.migrate);
      ok := world.migrate;
    }

    method Execute(r: Request) returns (result: Returned)
      modifies this`trace
      ensures trace == old(trace) + RunTrace(r, world)
      ensures result == RunResult(r, world)
    {
      hide PlanValid, Named, OnlinePart, OnlineWarnings, PtoscTrace, PtoscRuns;
      ghost var before := trace;
      if !PlanValid(r) {
        return Failure(InvalidPlan);
      }
      if ChecksCapacity(r) {
        if Named(r.target) {
          Perform(CheckCapacity, world.capacity);
        }
        if !Named(r.target) || !world.capacity {
          return Failure(NoCapacity);
        }
      }
      assert trace == before + CapacityTrace(r, world);
      if r.wantsBackup {
        if r.config.Some? {
          Perform(Backup, world.backup);
        }
        if r.config.None? || !world.backup {
          return Failure(NoBackup);
        }
      }
      assert trace == before + (CapacityTrace(r, world) + BackupTrace(r, world));
      result := Change(r);
    }

    /** The choice of method, with the fallback. */
    method Change(r: Request) returns (result: Returned)
      modifies this`trace
      ensures trace == old(trace) + ChangeTrace(r, world)
      ensures result == ChangeResult(r, world)
    {
      hide PlanValid, Named, OnlinePart, OnlineWarnings, PtoscTrace, PtoscRuns;
      if r.okOnline {
        var error, warnings := ExecuteWithOnlineDDL(r);
        if error.None? {
          return Success(r.wantsBackup, Online, warnings);
        }
        if !(r.okPtosc && error.value) {
          return Failure(OnlineError);
        }
        warnings := warnings + [FellBack];
        var migrated := ExecuteWithPTOSC(r);
        if !migrated {
          return Failure(PtoscError);
        }
        return Success(r.wantsBackup, Ptosc, warnings);
      }
      var migrated := ExecuteWithPTOSC(r);
      result := if migrated then Success(r.wantsBackup, Ptosc, []) else Failure(PtoscError);
    }
  }
}
