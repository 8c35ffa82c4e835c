/**
 * Routing recommended parameters to the parameter groups that own them, and
 * applying the plan in batches.
 */
module ApplyPlan {
  import opened Bytes
  import opened Wrappers
  import opened Decimals
  import opened SortedText

  /** A recommended or current value; a float comes with its shortest decimal form. */
  datatype Value =
    | Str(text: Text)
    | JsonNumber(text: Text)
    | Signed(int)
    | Unsigned(nat)
    | Float(finite: bool, printed: Text)
    | Other

  datatype Scope = Instance | Cluster

  datatype Info = Info(name: Text, applyType: Text, modifiable: bool, engineModes: seq<Text>, value: Option<Text>)

  datatype Metadata = Metadata(engineMode: Text, isPostgreSQL: bool, isAurora: bool, isClusterWriter: bool)

  datatype Input = Input(
    metadata: Metadata, instance: map<Text, Info>, cluster: map<Text, Info>,
    recommendations: map<Text, Value>, current: map<Text, Value>,
    pendingRebootOnly: bool, dynamicOnly: bool, truncate: Text -> Option<Text>)

  datatype Method = Immediate | PendingReboot

  datatype Parameter = Parameter(name: Text, value: Text, applyMethod: Method)

  datatype Reason =
    | Absent
    | Unmodifiable
    | NotClusterWriter
    | ClusterNotSupported
    | UnsupportedEngineMode
    | UnsupportedApplyType
    | NotDynamic
    | Unchanged
    | InvalidValue

  datatype Skip = Skip(name: Text, reason: Reason)

  datatype Verdict = Planned(parameter: Parameter) | Rejected(reason: Reason)

  const DIRTY_PAGES := Ascii("innodb_max_dirty_pages_pct")
  const DYNAMIC := Ascii("DYNAMIC")
  const STATIC := Ascii("STATIC")

  // ---------- values ----------

  function FractionLength(s: Text): Option<nat> {
    if s == [] || s[0] != DOT then Some(0)
    else if DigitCount(s[1..]) == 0 then None
    else Some(1 + DigitCount(s[1..]))
  }

  function ExponentLength(s: Text): Option<nat> {
    if s == [] || (s[0] != 69 && s[0] != 101) then Some(0)
    else
      var sign := if |s| > 1 && (s[1] == 43 || s[1] == DASH) then 1 else 0;
      var n := DigitCount(s[1 + sign..]);
      if n == 0 then None else Some(1 + sign + n)
  }

  /** Whether a text is an optional fraction and an optional exponent. */
  predicate IsTail(s: Text) {
    var fraction := FractionLength(s);
    fraction.Some? && fraction.value <= |s| && IsExponent(s[fraction.value..])
  }

  predicate IsExponent(s: Text) {
    ExponentLength(s) == Some(|s|)
  }

  /** A number of the JSON grammar (section 6 of RFC 8259), nothing before or after it. */
  predicate IsJsonNumber(s: Text) {
    var i := if s != [] && s[0] == DASH then 1 else 0;
    var n := DigitCount(s[i..]);
    n > 0 && (n == 1 || s[i] != 48) && IsTail(s[i + n..])
  }

  function TextOf(value: Value): Option<Text> {
    match value
    case Str(text) => Some(text)
    case JsonNumber(text) => if IsJsonNumber(text) then Some(text) else None
    case Signed(n) => Some(PrintInt(n))
    case Unsigned(n) => Some(Print(n))
    case Float(finite, printed) => if finite then Some(printed) else None
    case Other => None
  }

  function Normalize(truncate: Text -> Option<Text>, name: Text, value: Value): Option<Text> {
    var text := TextOf(value);
    if text.None? then None
    else if name == DIRTY_PAGES then truncate(text.value)
    else text
  }

  /** The bytes in one native unit of a PostgreSQL memory parameter. */
  function UnitDivisor(name: Text): Option<nat> {
    if name == Ascii("work_mem") || name == Ascii("maintenance_work_mem") then Some(1024)
    else if name in [Ascii("shared_buffers"), Ascii("effective_cache_size"), Ascii("wal_buffers")] then Some(8192)
    else None
  }

  /** A number of bytes in native units, if it is a whole number of them. */
  function InUnits(text: Text, divisor: nat): Option<Text>
    requires divisor > 0
  {
    var bytes := ParseUint(text);
    if bytes.None? || bytes.value % divisor != 0 then None else Some(Print(bytes.value / divisor))
  }

  function NormalizeRecommendation(input: Input, name: Text, value: Value): Option<Text> {
    var text := Normalize(input.truncate, name, value);
    if text.None? || !input.metadata.isPostgreSQL || UnitDivisor(name).None? then text
    else InUnits(text.value, UnitDivisor(name).value)
  }

  // ---------- decisions ----------

  predicate SupportsMode(modes: seq<Text>, mode: Text) {
    modes == [] || exists i :: 0 <= i < |modes| && UpperText(modes[i]) == UpperText(mode)
  }

  /** Whether the live value, or else the known current one, is already the wanted one. */
  predicate AlreadySet(input: Input, name: Text, info: Info, value: Text) {
    if info.value.Some? then Normalize(input.truncate, name, Str(info.value.value)) == Some(value)
    else name in input.current && Normalize(input.truncate, name, input.current[name]) == Some(value)
  }

  function Decide(input: Input, name: Text, info: Info, scope: Scope): Verdict
    requires name in input.recommendations
  {
    if scope.Cluster? && !input.metadata.isAurora then Rejected(ClusterNotSupported)
    else if scope.Cluster? && !input.metadata.isClusterWriter then Rejected(NotClusterWriter)
    else if !info.modifiable then Rejected(Unmodifiable)
    else if !SupportsMode(info.engineModes, input.metadata.engineMode) then Rejected(UnsupportedEngineMode)
    else
      var value := NormalizeRecommendation(input, name, input.recommendations[name]);
      if value.None? then Rejected(InvalidValue)
      else if AlreadySet(input, name, info, value.value) then Rejected(Unchanged)
      else
        var kind := UpperText(info.applyType);
        var target := if info.name == [] then name else info.name;
        if kind == DYNAMIC then
          Planned(Parameter(target, value.value, if input.pendingRebootOnly then PendingReboot else Immediate))
        else if kind != STATIC then Rejected(UnsupportedApplyType)
        else if input.dynamicOnly then Rejected(NotDynamic)
        else Planned(Parameter(target, value.value, PendingReboot))
  }

  /** The group a name belongs to; a name in neither is reported with the instance. */
  function Home(input: Input, name: Text): Scope {
    if name in input.instance || name !in input.cluster then Instance else Cluster
  }

  function Route(input: Input, name: Text): Verdict
    requires name in input.recommendations
  {
    if name in input.instance then Decide(input, name, input.instance[name], Instance)
    else if name in input.cluster then Decide(input, name, input.cluster[name], Cluster)
    else Rejected(Absent)
  }

  /** The parameters planned for a scope, in the order of the names. */
  function PlanFor(input: Input, names: seq<Text>, scope: Scope): seq<Parameter>
    requires forall i :: 0 <= i < |names| ==> names[i] in input.recommendations
  {
    if names == [] then [] else
      var rest := PlanFor(input, names[..|names| - 1], scope);
      var name := names[|names| - 1];
      if Home(input, name) == scope && Route(input, name).Planned? then rest + [Route(input, name).parameter] else rest
  }

  function SkipsFor(input: Input, names: seq<Text>, scope: Scope): seq<Skip>
    requires forall i :: 0 <= i < |names| ==> names[i] in input.recommendations
  {
    if names == [] then [] else
      var rest := SkipsFor(input, names[..|names| - 1], scope);
      var name := names[|names| - 1];
      if Home(input, name) == scope && Route(input, name).Rejected? then rest + [Skip(name, Route(input, name).reason)]
      else rest
  }

  // ---------- applying ----------

  const BATCH_SIZE := 20

  datatype Call = Call(scope: Scope, batch: seq<Parameter>)

  /** Whether the n-th modify call succeeds. */
  type World = nat -> bool

  /** The calls made, the parameters applied, and the batch that failed, if one did. */
  datatype Progress = Progress(calls: seq<Call>, applied: seq<Parameter>, failed: Option<seq<Parameter>>)

  function BatchLength(parameters: seq<Parameter>): (n: nat)
    ensures n <= |parameters| && n <= BATCH_SIZE && (parameters != [] ==> n > 0)
  {
    if |parameters| < BATCH_SIZE then |parameters| else BATCH_SIZE
  }

  function ApplyBatches(w: World, clock: nat, scope: Scope, parameters: seq<Parameter>): Progress
    decreases |parameters|
  {
    if parameters == [] then Progress([], [], None) else
      var batch := parameters[..BatchLength(parameters)];
      if !w(clock) then Progress([Call(scope, batch)], [], Some(batch))
      else
        var rest := ApplyBatches(w, clock + 1, scope, parameters[|batch|..]);
        Progress([Call(scope, batch)] + rest.calls, batch + rest.applied, rest.failed)
  }

  /** The instance's batches, and then the cluster's unless a batch failed. */
  function ApplyBoth(w: World, clock: nat, instance: seq<Parameter>, cluster: seq<Parameter>): (Progress, Progress) {
    var i := ApplyBatches(w, clock, Instance, instance);
    (i, if i.failed.Some? then Progress([], [], None) else ApplyBatches(w, clock + |i.calls|, Cluster, cluster))
  }

  function FailedNames(p: Progress): seq<seq<Text>> {
    if p.failed.None? then [] else [NamesOf(p.failed.value)]
  }

  function NamesOf(parameters: seq<Parameter>): (names: seq<Text>)
    ensures |names| == |parameters|
  {
    seq(|parameters|, i requires 0 <= i < |parameters| => parameters[i].name)
  }

  /** One scope's plan and result. */
  class ScopeState {
    const scope: Scope
    var parameters: seq<Parameter>
    var applied: seq<Text>
    var skipped: seq<Skip>
    var failed: seq<seq<Text>>

    constructor (s: Scope)
      ensures scope == s && parameters == [] && applied == [] && skipped == [] && failed == []
    {
      scope := s;
      parameters, applied, skipped, failed := [], [], [], [];
    }

    method SkipParameter(name: Text, reason: Reason)
      modifies this`skipped
      ensures skipped == old(skipped) + [Skip(name, reason)]
    {
      skipped := skipped + [Skip(name, reason)];
    }

    method BuildScopeParameter(input: Input, name: Text, info: Info)
      requires name in input.recommendations
      modifies this`parameters, this`skipped
      ensures match Decide(input, name, info, scope)
              case Planned(p) => parameters == old(parameters) + [p] && skipped == old(skipped)
              case Rejected(reason) => parameters == old(parameters) && skipped == old(skipped) + [Skip(name, reason)]
    {
      hide NormalizeRecommendation, AlreadySet, SupportsMode;
      if scope.Cluster? {
        if !input.metadata.isAurora {
          SkipParameter(name, ClusterNotSupported);
          return;
        }
        if !input.metadata.isClusterWriter {
          SkipParameter(name, NotClusterWriter);
          return;
        }
      }
      if !info.modifiable {
        SkipParameter(name, Unmodifiable);
        return;
      }
      if !SupportsMode(info.engineModes, input.metadata.engineMode) {
        SkipParameter(name, UnsupportedEngineMode);
        return;
      }
      var value := NormalizeRecommendation(input, name, input.recommendations[name]);
      if value.None? {
        SkipParameter(name, InvalidValue);
        return;
      }
      if AlreadySet(input, name, info, value.value) {
        SkipParameter(name, Unchanged);
        return;
      }
      var applyMethod;
      var kind := UpperText(info.applyType);
      if kind == DYNAMIC {
        applyMethod := if input.pendingRebootOnly then PendingReboot else Immediate;
      } else if kind == STATIC {
        if input.dynamicOnly {
          SkipParameter(name, NotDynamic);
          return;
        }
        applyMethod := PendingReboot;
      } else {
        SkipParameter(name, UnsupportedApplyType);
        return;
      }
      parameters := parameters + [Parameter(if info.name == [] then name else info.name, value.value, applyMethod)];
    }
  }

  lemma PlanNothing(input: Input)
    ensures forall scope: Scope :: PlanFor(input, [], scope) == [] && SkipsFor(input, [], scope) == []
  {
  }

  /** One more name in a scope's plan or among its skipped names. */
  lemma PlanStep(input: Input, names: seq<Text>, i: nat, scope: Scope)
    requires i < |names| && forall k :: 0 <= k < |names| ==> names[k] in input.recommendations
    ensures var here, verdict := Home(input, names[i]) == scope, Route(input, names[i]);
            && PlanFor(input, names[..i + 1], scope) ==
               PlanFor(input, names[..i], scope) + (if here && verdict.Planned? then [verdict.parameter] else [])
            && SkipsFor(input, names[..i + 1], scope) ==
               SkipsFor(input, names[..i], scope) +
               (if here && verdict.Rejected? then [Skip(names[i], verdict.reason)] else [])
  {
    hide Home, Route;
    assert names[..i + 1][..i] == names[..i];
  }

  /** The names of the recommendations, which a map gives in any order, sorted. */
  method RecommendedNames(input: Input) returns (names: seq<Text>)
    ensures names == Sorted(input.recommendations.Keys)
  {
    hide Sorted, Ascending;
    names := [];
    var left := input.recommendations.Keys;
    while left != {}
      invariant left <= input.recommendations.Keys
      invariant forall k :: k in names <==> k in input.recommendations.Keys - left
      invariant forall i, j :: 0 <= i < j < |names| ==> names[i] != names[j]
      decreases |left|
    {
      var name :| name in left;
      assert name !in names;
      names := names + [name];
      left := left - {name};
    }
    ghost var gathered := names;
    names := SortStrings(names);
    assert forall k :: k in names <==> k in gathered by {
      assert forall k :: k in names <==> k in multiset(names);
    }
    OneOrder(names, Sorted(input.recommendations.Keys));
  }

  method BuildApplyPlan(input: Input) returns (instance: ScopeState, cluster: ScopeState)
    ensures fresh(instance) && fresh(cluster) && instance != cluster
    ensures instance.scope == Instance && cluster.scope == Cluster
    ensures var names := Sorted(input.recommendations.Keys);
            && instance.parameters == PlanFor(input, names, Instance)
            && instance.skipped == SkipsFor(input, names, Instance)
            && cluster.parameters == PlanFor(input, names, Cluster)
            && cluster.skipped == SkipsFor(input, names, Cluster)
    ensures instance.applied == cluster.applied == [] && instance.failed == cluster.failed == []
  {
    hide Decide, PlanFor, SkipsFor, Sorted, Ascending;
    instance := new ScopeState(Instance);
    cluster := new ScopeState(Cluster);
    var names := RecommendedNames(input);
    var i := 0;
    PlanNothing(input);
    while i < |names|
      invariant 0 <= i <= |names|
      invariant fresh(instance) && fresh(cluster) && instance != cluster
      invariant instance.parameters == PlanFor(input, names[..i], Instance)
      invariant instance.skipped == SkipsFor(input, names[..i], Instance)
      invariant cluster.parameters == PlanFor(input, names[..i], Cluster)
      invariant cluster.skipped == SkipsFor(input, names[..i], Cluster)
      invariant instance.applied == cluster.applied == [] && instance.failed == cluster.failed == []
    {
      var name := names[i];
      PlanStep(input, names, i, Instance);
      PlanStep(input, names, i, Cluster);
      if name in input.instance {
        instance.BuildScopeParameter(input, name, input.instance[name]);
      } else if name in input.cluster {
        cluster.BuildScopeParameter(input, name, input.cluster[name]);
      } else {
        instance.SkipParameter(name, Absent);
      }
      i := i + 1;
    }
    assert names[..i] == names;
  }

  /** The service client: it records the calls, and each succeeds or fails. */
  class Client {
    const world: World
    var calls: seq<Call>

    constructor (w: World)
      ensures world == w && calls == []
    {
      world := w;
      calls := [];
    }

    method Modify(scope: Scope, batch: seq<Parameter>) returns (ok: bool)
      modifies this
      ensures calls == old(calls) + [Call(scope, batch)] && ok == world(|old(calls)|)
    {
      ok := world(|calls|);
      calls := calls + [Call(scope, batch)];
    }

    method ApplyScopeBatches(plan: ScopeState) returns (applied: seq<Parameter>, ok: bool)
      modifies this, plan`applied, plan`failed
      ensures var p := ApplyBatches(world, |old(calls)|, plan.scope, plan.parameters);
              && calls == old(calls) + p.calls && applied == p.applied && ok == p.failed.None?
              && plan.applied == old(plan.applied) + NamesOf(p.applied)
              && plan.failed == old(plan.failed) + FailedNames(p)
    {
      hide NamesOf, BatchLength, ApplyBatches, Remaining;
      applied := [];
      ghost var whole := ApplyBatches(world, |calls|, plan.scope, plan.parameters);
      ghost var before, had := calls, plan.applied;
      NothingDone(world, before, plan.scope, plan.parameters);
      var start := 0;
      while start < |plan.parameters|
        invariant 0 <= start <= |plan.parameters|
        invariant plan.parameters == old(plan.parameters) && plan.failed == old(plan.failed)
        invariant plan.applied == had + NamesOf(applied)
        invariant Remaining(world, before, calls, applied, plan.scope, plan.parameters[start..], whole)
      {
        var n := BatchLength(plan.parameters[start..]);
        var batch := plan.parameters[start..start + n];
        ghost var made, got, left := calls, applied, plan.parameters[start..];
        assert left[..n] == batch && left[n..] == plan.parameters[start + n..];
        var modified := Modify(plan.scope, batch);
        if !modified {
          FailedHere(world, before, made, got, plan.scope, left, whole);
          plan.failed := plan.failed + [NamesOf(batch)];
          return applied, false;
        }
        AppliedHere(world, before, made, got, plan.scope, left, whole);
        NamesJoin(applied, batch);
        applied := applied + batch;
        plan.applied := plan.applied + NamesOf(batch);
        start := start + n;
      }
      NothingRemains(world, before, calls, applied, plan.scope, plan.parameters[start..], whole);
      ok := true;
    }

    method ApplyAWSPlan(instance: ScopeState, cluster: ScopeState)
      returns (instanceApplied: seq<Parameter>, clusterApplied: seq<Parameter>, ok: bool)
      requires instance != cluster && instance.scope == Instance && cluster.scope == Cluster
      modifies this, instance`applied, instance`failed, cluster`applied, cluster`failed
      ensures var (i, c) := ApplyBoth(world, |old(calls)|, instance.parameters, cluster.parameters);
              && calls == old(calls) + i.calls + c.calls && ok == (i.failed.None? && c.failed.None?)
              && instanceApplied == i.applied && clusterApplied == c.applied
              && instance.applied == old(instance.applied) + NamesOf(i.applied)
              && instance.failed == old(instance.failed) + FailedNames(i)
              && cluster.applied == old(cluster.applied) + NamesOf(c.applied)
              && cluster.failed == old(cluster.failed) + FailedNames(c)
    {
      hide ApplyBatches, NamesOf;
      NothingDone(world, calls, Cluster, []);
      clusterApplied := [];
      instanceApplied, ok := ApplyScopeBatches(instance);
      if !ok {
        return;
      }
      clusterApplied, ok := ApplyScopeBatches(cluster);
    }
  }

  // ---------- the loop over the batches ----------

  /** What was done so far and what is still to be done make up the whole. */
  predicate Remaining(
    w: World, before: seq<Call>, calls: seq<Call>, applied: seq<Parameter>, scope: Scope, left: seq<Parameter>,
    whole: Progress)
  {
    var rest := ApplyBatches(w, |calls|, scope, left);
    && calls + rest.calls == before + whole.calls
    && applied + rest.applied == whole.applied
    && rest.failed == whole.failed
  }

  lemma NothingDone(w: World, calls: seq<Call>, scope: Scope, parameters: seq<Parameter>)
    ensures Remaining(w, calls, calls, [], scope, parameters[0..], ApplyBatches(w, |calls|, scope, parameters))
    ensures NamesOf([]) == []
  {
    assert parameters[0..] == parameters;
    var whole := ApplyBatches(w, |calls|, scope, parameters);
    assert [] + whole.applied == whole.applied;
  }

  lemma NamesJoin(a: seq<Parameter>, b: seq<Parameter>)
    ensures NamesOf(a + b) == NamesOf(a) + NamesOf(b)
  {
  }

  lemma FailedHere(
    w: World, before: seq<Call>, calls: seq<Call>, applied: seq<Parameter>, scope: Scope, left: seq<Parameter>,
    whole: Progress)
    requires Remaining(w, before, calls, applied, scope, left, whole) && left != [] && !w(|calls|)
    ensures var batch := left[..BatchLength(left)];
            && calls + [Call(scope, batch)] == before + whole.calls
            && applied == whole.applied && whole.failed == Some(batch)
  {
    assert applied + [] == applied;
  }

  lemma AppliedHere(
    w: World, before: seq<Call>, calls: seq<Call>, applied: seq<Parameter>, scope: Scope, left: seq<Parameter>,
    whole: Progress)
    requires Remaining(w, before, calls, applied, scope, left, whole) && left != [] && w(|calls|)
    ensures var batch := left[..BatchLength(left)];
            Remaining(w, before, calls + [Call(scope, batch)], applied + batch, scope, left[|batch|..], whole)
  {
    var batch := left[..BatchLength(left)];
    var rest := ApplyBatches(w, |calls| + 1, scope, left[|batch|..]);
    assert calls + ([Call(scope, batch)] + rest.calls) == calls + [Call(scope, batch)] + rest.calls;
    assert applied + (batch + rest.applied) == applied + batch + rest.applied;
  }

  lemma NothingRemains(
    w: World, before: seq<Call>, calls: seq<Call>, applied: seq<Parameter>, scope: Scope, left: seq<Parameter>,
    whole: Progress)
    requires Remaining(w, before, calls, applied, scope, left, whole) && left == []
    ensures calls == before + whole.calls && applied == whole.applied && whole.failed.None?
  {
    assert calls + [] == calls && applied + [] == applied;
  }
}
