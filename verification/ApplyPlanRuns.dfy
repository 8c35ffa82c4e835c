/** What holds of every apply plan and of every run of its batches. */
module ApplyPlanRuns {
  import opened Bytes
  import opened Wrappers
  import opened Decimals
  import opened SortedText
  import opened ApplyPlan

  predicate Recommended(input: Input, names: seq<Text>) {
    forall i :: 0 <= i < |names| ==> names[i] in input.recommendations
  }

  /** Live entries are indexed by their own name, as reading a parameter group indexes them. */
  predicate OwnNames(t: map<Text, Info>) {
    forall k :: k in t ==> k != [] && t[k].name == k
  }

  // ---------- planning converges ----------

  /** A parameter table after planned values were written to it. */
  function Written(t: map<Text, Info>, plan: seq<Parameter>): map<Text, Info> {
    if plan == [] then t else
      var rest, p := Written(t, plan[..|plan| - 1]), plan[|plan| - 1];
      if p.name in rest then rest[p.name := rest[p.name].(value := Some(p.value))] else rest
  }

  /** The input once its plan for these names has been written to the live tables. */
  function Applied(input: Input, names: seq<Text>): Input
    requires Recommended(input, names)
  {
    input.(instance := Written(input.instance, PlanFor(input, names, Instance)),
           cluster := Written(input.cluster, PlanFor(input, names, Cluster)))
  }

  function Table(input: Input, scope: Scope): map<Text, Info> {
    if scope.Instance? then input.instance else input.cluster
  }

  predicate IsPlanned(input: Input, name: Text, scope: Scope)
    requires name in input.recommendations
  {
    Home(input, name) == scope && Route(input, name).Planned?
  }

  /** A planned parameter bears the name it was recommended under. */
  lemma PlannedName(input: Input, name: Text)
    requires name in input.recommendations && OwnNames(input.instance) && OwnNames(input.cluster)
    requires Route(input, name).Planned?
    ensures Route(input, name).parameter.name == name
    ensures name in Table(input, Home(input, name))
  {
    hide NormalizeRecommendation, AlreadySet, SupportsMode;
  }

  /** Whether `u` is the table `t` with exactly the planned entries changed, and only in their value. */
  predicate PlannedEntries(input: Input, names: seq<Text>, scope: Scope, t: map<Text, Info>, u: map<Text, Info>)
    requires Recommended(input, names)
  {
    && u.Keys == t.Keys
    && (forall k :: k in t ==>
          u[k] == if k in names && IsPlanned(input, k, scope) then t[k].(value := Some(Route(input, k).parameter.value))
                  else t[k])
  }

  lemma {:induction false} WrittenEntries(input: Input, names: seq<Text>, scope: Scope)
    requires Recommended(input, names) && OwnNames(input.instance) && OwnNames(input.cluster)
    ensures var t := Table(input, scope);
            PlannedEntries(input, names, scope, t, Written(t, PlanFor(input, names, scope)))
    decreases |names|
  {
    hide Route, Home, Table, OwnNames, Written;
    var t := Table(input, scope);
    if names == [] {
      assert Written(t, []) == t by { NothingWritten(t); }
    } else {
      var rest, name := names[..|names| - 1], names[|names| - 1];
      WrittenEntries(input, rest, scope);
      assert names == rest + [name];
      if IsPlanned(input, name, scope) {
        PlannedName(input, name);
        WrittenOne(t, PlanFor(input, rest, scope), Route(input, name).parameter);
      }
    }
  }

  lemma NothingWritten(t: map<Text, Info>)
    ensures Written(t, []) == t
  {
  }

  lemma WrittenOne(t: map<Text, Info>, plan: seq<Parameter>, p: Parameter)
    ensures var u := Written(t, plan);
            Written(t, plan + [p]) == if p.name in u then u[p.name := u[p.name].(value := Some(p.value))] else u
  {
    assert (plan + [p])[..|plan|] == plan;
  }

  /** A planned value, once it is the live value, is recognized as already set. */
  lemma PlannedIsSet(input: Input, name: Text, value: Text)
    requires RoundTrips(input.truncate)
    requires name in input.recommendations
    requires NormalizeRecommendation(input, name, input.recommendations[name]) == Some(value)
    ensures Normalize(input.truncate, name, Str(value)) == Some(value)
  {
    hide TextOf;
    assert TextOf(Str(value)) == Some(value) by { TextOfStr(value); }
    if name == DIRTY_PAGES {
      var text := TextOf(input.recommendations[name]);
      assert input.truncate(text.value) == Some(value);
    }
  }

  lemma TextOfStr(value: Text)
    ensures TextOf(Str(value)) == Some(value)
  {
  }

  lemma DecisionRepeats(input: Input, again: Input, name: Text, info: Info, scope: Scope)
    requires RoundTrips(input.truncate) && name in input.recommendations
    requires again == input.(instance := again.instance, cluster := again.cluster)
    ensures Decide(input, name, info, scope).Rejected? ==> Decide(again, name, info, scope).Rejected?
    ensures Decide(input, name, info, scope).Planned? ==>
              var value := Decide(input, name, info, scope).parameter.value;
              Decide(again, name, info.(value := Some(value)), scope).Rejected?
  {
    hide NormalizeRecommendation, Normalize, SupportsMode;
    SameNormal(input, again, name);
    if Decide(input, name, info, scope).Planned? {
      PlannedIsSet(input, name, Decide(input, name, info, scope).parameter.value);
    }
  }

  lemma SameNormal(input: Input, again: Input, name: Text)
    requires name in input.recommendations
    requires again == input.(instance := again.instance, cluster := again.cluster)
    ensures NormalizeRecommendation(again, name, again.recommendations[name]) ==
            NormalizeRecommendation(input, name, input.recommendations[name])
  {
  }

  /** After the plan was written, no name is planned again. */
  lemma RouteRepeats(input: Input, names: seq<Text>, name: Text)
    requires RoundTrips(input.truncate) && Recommended(input, names) && name in names
    requires OwnNames(input.instance) && OwnNames(input.cluster) && name in input.recommendations
    ensures Route(Applied(input, names), name).Rejected?
  {
    hide Decide, PlanFor, Written, RoundTrips;
    var again := Applied(input, names);
    WrittenEntries(input, names, Instance);
    WrittenEntries(input, names, Cluster);
    if name in input.instance {
      DecisionRepeats(input, again, name, input.instance[name], Instance);
    } else if name in input.cluster {
      DecisionRepeats(input, again, name, input.cluster[name], Cluster);
    }
  }

  lemma {:induction false} NothingPlanned(input: Input, names: seq<Text>, scope: Scope)
    requires Recommended(input, names)
    requires forall i :: 0 <= i < |names| ==> Route(input, names[i]).Rejected?
    ensures PlanFor(input, names, scope) == []
    decreases |names|
  {
    hide Route;
    if names != [] {
      NothingPlanned(input, names[..|names| - 1], scope);
    }
  }

  /**
   * Planning converges: once the planned values are the live values, planning the same
   * recommendations again gives an empty plan in both scopes.
   */
  lemma PlanningConverges(input: Input, names: seq<Text>)
    requires RoundTrips(input.truncate) && Recommended(input, names)
    requires OwnNames(input.instance) && OwnNames(input.cluster)
    ensures Recommended(Applied(input, names), names)
    ensures forall scope: Scope :: PlanFor(Applied(input, names), names, scope) == []
  {
    hide Route, PlanFor, Written, RoundTrips;
    var again := Applied(input, names);
    forall i | 0 <= i < |names| ensures Route(again, names[i]).Rejected? {
      RouteRepeats(input, names, names[i]);
    }
    forall scope: Scope ensures PlanFor(again, names, scope) == [] {
      NothingPlanned(again, names, scope);
    }
  }

  /** A PostgreSQL memory parameter is planned as the recommended bytes in its native unit, with nothing lost. */
  lemma UnitsExact(input: Input, name: Text)
    requires name in input.recommendations && Route(input, name).Planned?
    requires input.metadata.isPostgreSQL && UnitDivisor(name).Some?
    ensures TextOf(input.recommendations[name]).Some?
    ensures ParseUint(TextOf(input.recommendations[name]).value).Some?
    ensures Amounts(Route(input, name).parameter.value, UnitDivisor(name).value,
                    ParseUint(TextOf(input.recommendations[name]).value).value)
  {
    hide AlreadySet, SupportsMode, InUnits, TextOf, UnitDivisor, Amounts;
    UnitName(name);
    var text := TextOf(input.recommendations[name]);
    var units, divisor := Route(input, name).parameter.value, UnitDivisor(name).value;
    assert InUnits(text.value, divisor) == Some(units);
    InUnitsExact(text.value, divisor);
  }

  /** Decimal digits for a number of units that amounts to so many bytes. */
  predicate Amounts(units: Text, divisor: nat, bytes: nat) {
    AllDigits(units) && ValueOf(units) * divisor == bytes
  }

  lemma UnitName(name: Text)
    requires UnitDivisor(name).Some?
    ensures name != DIRTY_PAGES && UnitDivisor(name).value > 0
  {
  }

  lemma InUnitsExact(text: Text, divisor: nat)
    requires divisor > 0 && InUnits(text, divisor).Some?
    ensures var units := InUnits(text, divisor).value;
            ParseUint(text).Some? && Amounts(units, divisor, ParseUint(text).value)
  {
    hide ValueOf, Print;
    var bytes := ParseUint(text).value;
    ParsePrinted(bytes / divisor);
    Whole(bytes, divisor);
  }

  lemma Whole(n: nat, d: nat)
    requires d > 0 && n % d == 0
    ensures n / d * d == n
  {
  }

  // ---------- accounting ----------

  function SkippedNames(skips: seq<Skip>): (names: seq<Text>)
    ensures |names| == |skips|
  {
    seq(|skips|, i requires 0 <= i < |skips| => skips[i].name)
  }

  /** The names skipped and planned in a scope. */
  function Placed(input: Input, names: seq<Text>, scope: Scope): multiset<Text>
    requires Recommended(input, names)
  {
    multiset(SkippedNames(SkipsFor(input, names, scope))) + multiset(NamesOf(PlanFor(input, names, scope)))
  }

  lemma PlacedStep(input: Input, names: seq<Text>, scope: Scope)
    requires Recommended(input, names) && names != [] && OwnNames(input.instance) && OwnNames(input.cluster)
    ensures var rest, name := names[..|names| - 1], names[|names| - 1];
            Placed(input, names, scope) ==
            Placed(input, rest, scope) + (if Home(input, name) == scope then multiset{name} else multiset{})
  {
    hide Route, Home, OwnNames, SkippedNames, NamesOf;
    var rest, name := names[..|names| - 1], names[|names| - 1];
    var plan, skips := PlanFor(input, rest, scope), SkipsFor(input, rest, scope);
    if Home(input, name) == scope {
      if Route(input, name).Planned? {
        PlannedName(input, name);
        NameAdded(plan, Route(input, name).parameter);
      } else {
        SkipAdded(skips, Skip(name, Route(input, name).reason));
      }
    }
  }

  lemma NameAdded(plan: seq<Parameter>, p: Parameter)
    ensures NamesOf(plan + [p]) == NamesOf(plan) + [p.name]
  {
  }

  lemma SkipAdded(skips: seq<Skip>, s: Skip)
    ensures SkippedNames(skips + [s]) == SkippedNames(skips) + [s.name]
  {
  }

  /** Every recommended name is skipped or planned, exactly once, in exactly one scope. */
  lemma {:induction false} EveryNamePlaced(input: Input, names: seq<Text>)
    requires Recommended(input, names) && OwnNames(input.instance) && OwnNames(input.cluster)
    ensures multiset(names) == Placed(input, names, Instance) + Placed(input, names, Cluster)
    decreases |names|
  {
    hide Home, Placed;
    if names == [] {
      assert Placed(input, [], Instance) == multiset{} && Placed(input, [], Cluster) == multiset{} by {
        NothingPlaced(input);
      }
    } else {
      var rest, name := names[..|names| - 1], names[|names| - 1];
      EveryNamePlaced(input, rest);
      PlacedStep(input, names, Instance);
      PlacedStep(input, names, Cluster);
      assert names == rest + [name];
    }
  }

  lemma NothingPlaced(input: Input)
    ensures Placed(input, [], Instance) == multiset{} && Placed(input, [], Cluster) == multiset{}
  {
  }

  function Batch(p: Progress): seq<Parameter> {
    if p.failed.Some? then p.failed.value else []
  }

  /** What was neither applied nor in the failed batch. */
  function Tail(parameters: seq<Parameter>, p: Progress): seq<Parameter> {
    if |p.applied| + |Batch(p)| <= |parameters| then parameters[|p.applied| + |Batch(p)|..] else []
  }

  /** One batch, and then the others if it succeeded. */
  lemma BatchStep(w: World, clock: nat, scope: Scope, parameters: seq<Parameter>)
    returns (batch: seq<Parameter>, left: seq<Parameter>)
    requires parameters != []
    ensures parameters == batch + left && 1 <= |batch| <= 20 && (|batch| == 20 || left == [])
    ensures ApplyBatches(w, clock, scope, parameters) ==
            if !w(clock) then Progress([Call(scope, batch)], [], Some(batch))
            else
              var rest := ApplyBatches(w, clock + 1, scope, left);
              Progress([Call(scope, batch)] + rest.calls, batch + rest.applied, rest.failed)
  {
    batch := parameters[..BatchLength(parameters)];
    left := parameters[|batch|..];
  }

  lemma NoBatches(w: World, clock: nat, scope: Scope)
    ensures ApplyBatches(w, clock, scope, []) == Progress([], [], None)
  {
  }

  /** Whether a progress is that of a plan: applied parameters, a failed batch and a tail, in order. */
  predicate Splits(parameters: seq<Parameter>, p: Progress) {
    && |p.applied| + |Batch(p)| <= |parameters|
    && parameters == p.applied + Batch(p) + Tail(parameters, p)
    && (p.failed.None? ==> p.applied == parameters)
  }

  /**
   * The applied parameters, the failed batch and the tail make up the plan, in order; without
   * a failure there is no tail.
   */
  lemma {:induction false} BatchesSplit(w: World, clock: nat, scope: Scope, parameters: seq<Parameter>)
    ensures Splits(parameters, ApplyBatches(w, clock, scope, parameters))
    decreases |parameters|
  {
    hide ApplyBatches;
    if parameters == [] {
      NoBatches(w, clock, scope);
    } else {
      var batch, left := BatchStep(w, clock, scope, parameters);
      if w(clock) {
        BatchesSplit(w, clock + 1, scope, left);
        var rest := ApplyBatches(w, clock + 1, scope, left);
        SplitMore(batch, left, rest, [Call(scope, batch)] + rest.calls);
      }
    }
  }

  lemma SplitMore(batch: seq<Parameter>, left: seq<Parameter>, rest: Progress, calls: seq<Call>)
    requires Splits(left, rest)
    ensures Splits(batch + left, Progress(calls, batch + rest.applied, rest.failed))
  {
    var p := Progress(calls, batch + rest.applied, rest.failed);
    assert Tail(batch + left, p) == Tail(left, rest);
    assert batch + (rest.applied + Batch(rest) + Tail(left, rest)) == p.applied + Batch(p) + Tail(left, rest);
  }

  /** The parameters sent, in the order of the calls. */
  function SentBy(calls: seq<Call>): seq<Parameter> {
    if calls == [] then [] else calls[0].batch + SentBy(calls[1..])
  }

  predicate Succeeded(w: World, clock: nat, i: nat) {
    w(clock + i)
  }

  /** Calls of twenty parameters each, but for the last with one to twenty; all but the last succeeded. */
  predicate Sends(w: World, clock: nat, scope: Scope, p: Progress) {
    && (forall i :: 0 <= i < |p.calls| ==> p.calls[i].scope == scope && 1 <= |p.calls[i].batch| <= 20)
    && (forall i :: 0 <= i < |p.calls| - 1 ==> |p.calls[i].batch| == 20)
    && SentBy(p.calls) == p.applied + Batch(p)
    && (forall i: nat :: i < |p.calls| - 1 ==> Succeeded(w, clock, i))
    && (p.failed.Some? ==> p.calls != [])
    && (p.calls != [] ==> Succeeded(w, clock, |p.calls| - 1) == p.failed.None?)
  }

  /**
   * Each call carries twenty parameters of its scope, or one to twenty at the end of the plan;
   * together they are the attempted part of the plan.
   */
  lemma {:induction false} BatchesSent(w: World, clock: nat, scope: Scope, parameters: seq<Parameter>)
    ensures var p := ApplyBatches(w, clock, scope, parameters);
            && Sends(w, clock, scope, p)
            && (p.calls != [] && |p.calls[|p.calls| - 1].batch| < 20 ==> SentBy(p.calls) == parameters)
    decreases |parameters|
  {
    hide ApplyBatches;
    if parameters == [] {
      NoBatches(w, clock, scope);
    } else {
      var batch, left := BatchStep(w, clock, scope, parameters);
      if w(clock) {
        BatchesSent(w, clock + 1, scope, left);
        if left == [] {
          NoBatches(w, clock + 1, scope);
        }
        SentMore(Call(scope, batch), ApplyBatches(w, clock + 1, scope, left).calls);
        SendsMore(w, clock, scope, batch, ApplyBatches(w, clock + 1, scope, left));
      } else {
        assert [Call(scope, batch)][1..] == [];
        assert SentBy([Call(scope, batch)]) == batch + [] == [] + batch;
      }
    }
  }

  lemma SendsMore(w: World, clock: nat, scope: Scope, batch: seq<Parameter>, rest: Progress)
    requires Sends(w, clock + 1, scope, rest) && w(clock) && 1 <= |batch| <= 20
    requires rest.calls == [] || |batch| == 20
    ensures Sends(w, clock, scope, Progress([Call(scope, batch)] + rest.calls, batch + rest.applied, rest.failed))
  {
    hide SentBy;
    var calls := [Call(scope, batch)] + rest.calls;
    SentMore(Call(scope, batch), rest.calls);
    assert batch + (rest.applied + Batch(rest)) == batch + rest.applied + Batch(rest);
    forall i: nat | i < |calls| && (i == 0 || Succeeded(w, clock + 1, i - 1)) ensures Succeeded(w, clock, i) {}
    forall i: nat | 0 < i < |calls| && Succeeded(w, clock, i) ensures Succeeded(w, clock + 1, i - 1) {}
    assert rest.calls != [] ==> Succeeded(w, clock, |calls| - 1) == Succeeded(w, clock + 1, |rest.calls| - 1);
  }

  lemma SentMore(call: Call, calls: seq<Call>)
    ensures SentBy([call] + calls) == call.batch + SentBy(calls)
  {
    assert ([call] + calls)[1..] == calls;
  }

  /** After a failed instance batch there is no cluster call; before any cluster call every instance call succeeded. */
  lemma NoClusterAfterFailure(w: World, clock: nat, instance: seq<Parameter>, cluster: seq<Parameter>)
    ensures var (i, c) := ApplyBoth(w, clock, instance, cluster);
            var calls := i.calls + c.calls;
            forall k :: 0 <= k < |calls| && calls[k].scope.Cluster? ==>
              i.applied == instance && forall j: nat :: j < k && calls[j].scope.Instance? ==> Succeeded(w, clock, j)
  {
    hide ApplyBatches;
    BatchesSent(w, clock, Instance, instance);
    BatchesSplit(w, clock, Instance, instance);
    var (i, c) := ApplyBoth(w, clock, instance, cluster);
    if i.failed.None? {
      BatchesSent(w, clock + |i.calls|, Cluster, cluster);
    }
  }

  /**
   * Every recommended name is accounted for exactly once: applied, skipped, in a failed
   * batch or in a tail that was not attempted.
   */
  lemma EveryNameAccounted(w: World, input: Input, names: seq<Text>)
    requires Recommended(input, names) && OwnNames(input.instance) && OwnNames(input.cluster)
    ensures var instance, cluster := PlanFor(input, names, Instance), PlanFor(input, names, Cluster);
            var (i, c) := ApplyBoth(w, 0, instance, cluster);
            multiset(names) ==
            multiset(SkippedNames(SkipsFor(input, names, Instance))) +
            multiset(SkippedNames(SkipsFor(input, names, Cluster))) +
            multiset(NamesOf(i.applied)) + multiset(NamesOf(Batch(i))) + multiset(NamesOf(Tail(instance, i))) +
            multiset(NamesOf(c.applied)) + multiset(NamesOf(Batch(c))) + multiset(NamesOf(Tail(cluster, c)))
  {
    hide ApplyBatches, PlanFor, SkipsFor, NamesOf, SkippedNames, Tail, OwnNames;
    var instance, cluster := PlanFor(input, names, Instance), PlanFor(input, names, Cluster);
    var (i, c) := ApplyBoth(w, 0, instance, cluster);
    EveryNamePlaced(input, names);
    BatchesSplit(w, 0, Instance, instance);
    BatchesSplit(w, |i.calls|, Cluster, cluster);
    ThreeParts(instance, i);
    if i.failed.Some? {
      AllTail(cluster, c);
    }
    ThreeParts(cluster, c);
  }

  lemma AllTail(parameters: seq<Parameter>, p: Progress)
    requires p == Progress([], [], None)
    ensures parameters == p.applied + Batch(p) + Tail(parameters, p)
  {
  }

  lemma ThreeParts(parameters: seq<Parameter>, p: Progress)
    requires parameters == p.applied + Batch(p) + Tail(parameters, p)
    ensures multiset(NamesOf(parameters)) ==
            multiset(NamesOf(p.applied)) + multiset(NamesOf(Batch(p))) + multiset(NamesOf(Tail(parameters, p)))
  {
    hide NamesOf, Tail, Batch;
    NamesJoin(p.applied + Batch(p), Tail(parameters, p));
    NamesJoin(p.applied, Batch(p));
  }

  // ---------- order ----------

  /** The planned names of a scope are some of the names, in their order. */
  lemma {:induction false} PlanInOrder(input: Input, names: seq<Text>, scope: Scope)
    requires Recommended(input, names) && OwnNames(input.instance) && OwnNames(input.cluster) && Ascending(names)
    ensures Ascending(NamesOf(PlanFor(input, names, scope)))
    ensures forall k :: k in NamesOf(PlanFor(input, names, scope)) ==> k in names
    decreases |names|
  {
    hide Route, Home, Before;
    if names != [] {
      var rest, name := names[..|names| - 1], names[|names| - 1];
      PlanInOrder(input, rest, scope);
      assert names == rest + [name];
      var plan, plan0 := PlanFor(input, names, scope), PlanFor(input, rest, scope);
      if IsPlanned(input, name, scope) {
        PlannedName(input, name);
        assert NamesOf(plan) == NamesOf(plan0) + [name];
        forall i | 0 <= i < |plan0| ensures Before(NamesOf(plan0)[i], name) {
          assert NamesOf(plan0)[i] in rest;
          var j :| 0 <= j < |rest| && rest[j] == NamesOf(plan0)[i];
          assert Before(names[j], names[|names| - 1]);
        }
      }
    }
  }

  /** What is applied in a scope is a prefix of its plan, which is sorted by name. */
  lemma AppliedPrefix(w: World, clock: nat, input: Input, names: seq<Text>, scope: Scope)
    requires Recommended(input, names) && OwnNames(input.instance) && OwnNames(input.cluster) && Ascending(names)
    ensures var plan := PlanFor(input, names, scope);
            var p := ApplyBatches(w, clock, scope, plan);
            p.applied <= plan && Ascending(NamesOf(plan)) && Ascending(NamesOf(p.applied))
  {
    hide ApplyBatches, PlanFor, Before;
    PlanInOrder(input, names, scope);
    BatchesSplit(w, clock, scope, PlanFor(input, names, scope));
    var plan := PlanFor(input, names, scope);
    var p := ApplyBatches(w, clock, scope, plan);
    assert plan == p.applied + (Batch(p) + Tail(plan, p));
    forall i, j | 0 <= i < j < |p.applied| ensures Before(NamesOf(p.applied)[i], NamesOf(p.applied)[j]) {
      assert NamesOf(plan)[i] == NamesOf(p.applied)[i] && NamesOf(plan)[j] == NamesOf(p.applied)[j];
    }
  }
}
