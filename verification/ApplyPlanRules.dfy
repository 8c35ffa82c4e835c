/**
 * Which recommendations become parameters of a plan, with what value and apply
 * method, and why the others are skipped, told from the live entries alone.
 */
module ApplyPlanRules {
  import opened Bytes
  import opened Wrappers
  import opened Decimals
  import opened ApplyPlan
  import opened ApplyPlanRuns

  // ---------- the rules ----------

  /** The bytes in a unit of a PostgreSQL memory parameter; zero for any other parameter. */
  function BytesPerUnit(name: Text): nat {
    if name in [Ascii("work_mem"), Ascii("maintenance_work_mem")] then 1024
    else if name in [Ascii("shared_buffers"), Ascii("effective_cache_size"), Ascii("wal_buffers")] then 8192
    else 0
  }

  predicate IsPercentage(name: Text) {
    name == Ascii("innodb_max_dirty_pages_pct")
  }

  /** A value stands for a text: as it is written, truncated if it is a percentage. */
  predicate StandsFor(input: Input, name: Text, value: Value, text: Text) {
    TextOf(value).Some? &&
    if IsPercentage(name) then input.truncate(TextOf(value).value) == Some(text) else TextOf(value).value == text
  }

  /** The text that is to be set: for a memory parameter, the units that amount to the bytes. */
  predicate Wanted(input: Input, name: Text, text: Text)
    requires name in input.recommendations
  {
    var value := input.recommendations[name];
    if input.metadata.isPostgreSQL && BytesPerUnit(name) > 0 then
      && TextOf(value).Some? && ParseUint(TextOf(value).value).Some?
      && AllDigits(text) && ValueOf(text) * BytesPerUnit(name) == ParseUint(TextOf(value).value).value
      && text == Print(ValueOf(text))
    else StandsFor(input, name, value, text)
  }

  /** The live entry has the text already, or where it has no value, the known current value stands for it. */
  predicate Already(input: Input, name: Text, info: Info, text: Text) {
    if info.value.Some? then StandsFor(input, name, Str(info.value.value), text)
    else name in input.current && StandsFor(input, name, input.current[name], text)
  }

  /** The group that a name belongs to; the instance's counts first. */
  predicate Belongs(input: Input, name: Text, scope: Scope) {
    if scope.Instance? then name in input.instance else name in input.cluster && name !in input.instance
  }

  function Live(input: Input, name: Text, scope: Scope): Info
    requires Belongs(input, name, scope)
  {
    if scope.Instance? then input.instance[name] else input.cluster[name]
  }

  predicate IsDynamic(info: Info) {
    SameWord(info.applyType, Ascii("dynamic"))
  }

  predicate IsStatic(info: Info) {
    SameWord(info.applyType, Ascii("static"))
  }

  predicate RunsIn(info: Info, mode: Text) {
    info.engineModes == [] || exists i :: 0 <= i < |info.engineModes| && SameWord(info.engineModes[i], mode)
  }

  predicate Writable(input: Input, scope: Scope) {
    scope.Cluster? ==> input.metadata.isAurora && input.metadata.isClusterWriter
  }

  /** What a recommendation needs for becoming the parameter `p` of a scope. */
  predicate Plans(input: Input, name: Text, scope: Scope, p: Parameter)
    requires name in input.recommendations
  {
    && Belongs(input, name, scope) && Writable(input, scope)
    && var info := Live(input, name, scope);
    && info.modifiable && RunsIn(info, input.metadata.engineMode)
    && Wanted(input, name, p.value) && !Already(input, name, info, p.value)
    && p.name == (if info.name == [] then name else info.name)
    && (|| (IsDynamic(info) && p.applyMethod == if input.pendingRebootOnly then PendingReboot else Immediate)
        || (IsStatic(info) && !input.dynamicOnly && p.applyMethod == PendingReboot))
  }

  /** The first check that a recommendation fails. */
  ghost predicate Fails(input: Input, name: Text, scope: Scope, reason: Reason)
    requires name in input.recommendations
  {
    if reason.Absent? then scope.Instance? && name !in input.instance && name !in input.cluster
    else Belongs(input, name, scope) && FailsLive(input, name, Live(input, name, scope), scope, reason)
  }

  ghost predicate FailsLive(input: Input, name: Text, info: Info, scope: Scope, reason: Reason)
    requires name in input.recommendations
  {
    var entry := Writable(input, scope) && info.modifiable;
    var usable := entry && RunsIn(info, input.metadata.engineMode);
    match reason
    case Absent => false
    case ClusterNotSupported => scope.Cluster? && !input.metadata.isAurora
    case NotClusterWriter => scope.Cluster? && input.metadata.isAurora && !input.metadata.isClusterWriter
    case Unmodifiable => Writable(input, scope) && !info.modifiable
    case UnsupportedEngineMode => entry && !RunsIn(info, input.metadata.engineMode)
    case InvalidValue => usable && forall text :: !Wanted(input, name, text)
    case Unchanged => usable && exists text :: Wanted(input, name, text) && Already(input, name, info, text)
    case UnsupportedApplyType => usable && Changes(input, name, info) && !IsDynamic(info) && !IsStatic(info)
    case NotDynamic => usable && Changes(input, name, info) && IsStatic(info) && input.dynamicOnly
  }

  ghost predicate Changes(input: Input, name: Text, info: Info)
    requires name in input.recommendations
  {
    exists text :: Wanted(input, name, text) && !Already(input, name, info, text)
  }

  // ---------- the decision follows them ----------

  lemma KindIs(info: Info)
    ensures UpperText(info.applyType) == DYNAMIC <==> IsDynamic(info)
    ensures UpperText(info.applyType) == STATIC <==> IsStatic(info)
  {
    hide SameWord, UpperText;
    KindWords();
    SameUpper(info.applyType, Ascii("dynamic"));
    SameUpper(info.applyType, Ascii("static"));
  }

  lemma KindWords()
    ensures UpperText(Ascii("dynamic")) == DYNAMIC && UpperText(Ascii("static")) == STATIC && DYNAMIC != STATIC
  {
    assert |DYNAMIC| == 7 && |STATIC| == 6;
  }

  lemma ModeIs(info: Info, mode: Text)
    ensures SupportsMode(info.engineModes, mode) <==> RunsIn(info, mode)
  {
    hide SameWord, UpperText;
    forall i | 0 <= i < |info.engineModes|
      ensures UpperText(info.engineModes[i]) == UpperText(mode) <==> SameWord(info.engineModes[i], mode)
    {
      SameUpper(info.engineModes[i], mode);
    }
  }

  lemma NormalIs(input: Input, name: Text, value: Value, text: Text)
    ensures Normalize(input.truncate, name, value) == Some(text) <==> StandsFor(input, name, value, text)
  {
    hide TextOf;
  }

  lemma UnitIs(name: Text)
    ensures UnitDivisor(name) == if BytesPerUnit(name) > 0 then Some(BytesPerUnit(name)) else None
  {
    hide Ascii;
  }

  /** The value that normalizing gives is the wanted one, and there is no other. */
  lemma WantedIs(input: Input, name: Text, text: Text)
    requires name in input.recommendations
    ensures NormalizeRecommendation(input, name, input.recommendations[name]) == Some(text) <==>
            Wanted(input, name, text)
  {
    hide TextOf, ParseUint, ValueOf, Print, BytesPerUnit, UnitDivisor, IsPercentage, Normalize;
    var value := input.recommendations[name];
    NormalIs(input, name, value, text);
    UnitIs(name);
    if input.metadata.isPostgreSQL && BytesPerUnit(name) > 0 {
      NoPercentage(input, name, value);
      if TextOf(value).Some? && ParseUint(TextOf(value).value).Some? {
        UnitsAre(TextOf(value).value, BytesPerUnit(name), text);
      }
    }
  }

  lemma NoPercentage(input: Input, name: Text, value: Value)
    requires BytesPerUnit(name) > 0
    ensures Normalize(input.truncate, name, value) == TextOf(value)
  {
    hide TextOf;
    assert |Ascii("innodb_max_dirty_pages_pct")| == 26;
  }

  lemma UnitsAre(written: Text, unit: nat, text: Text)
    requires unit > 0 && ParseUint(written).Some?
    ensures InUnits(written, unit) == Some(text) <==>
            AllDigits(text) && ValueOf(text) * unit == ParseUint(written).value && text == Print(ValueOf(text))
  {
    hide ParseUint, Print, ValueOf;
    var bytes := ParseUint(written).value;
    if InUnits(written, unit) == Some(text) {
      ParsePrinted(bytes / unit);
      Whole(bytes, unit);
    } else if AllDigits(text) && ValueOf(text) * unit == bytes && text == Print(ValueOf(text)) {
      Divides(ValueOf(text), unit);
    }
  }

  lemma Divides(n: nat, d: nat)
    requires d > 0
    ensures (n * d) % d == 0 && (n * d) / d == n
  {
    var m := n * d;
    Near(n - m / d, d, m % d);
  }

  /** A multiple of `d` that is less than `d` is zero. */
  lemma Near(k: int, d: nat, r: nat)
    requires k * d == r < d
    ensures k == 0 && r == 0
  {
    assert k >= 1 ==> (k - 1) * d >= 0;
    assert k <= -1 ==> (-k - 1) * d >= 0;
  }

  lemma AlreadyIs(input: Input, name: Text, info: Info, text: Text)
    ensures AlreadySet(input, name, info, text) <==> Already(input, name, info, text)
  {
    hide Normalize, StandsFor;
    if info.value.Some? {
      NormalIs(input, name, Str(info.value.value), text);
    } else if name in input.current {
      NormalIs(input, name, input.current[name], text);
    }
  }

  /** A decision about a live entry is planned, or rejected, exactly by the rules. */
  lemma DecisionIs(input: Input, name: Text, scope: Scope)
    requires name in input.recommendations && Belongs(input, name, scope)
    ensures forall p ::
              Decide(input, name, Live(input, name, scope), scope) == Planned(p) <==> Plans(input, name, scope, p)
    ensures forall reason ::
              Decide(input, name, Live(input, name, scope), scope) == Rejected(reason) <==>
              FailsLive(input, name, Live(input, name, scope), scope, reason)
  {
    hide UpperText, SupportsMode, RunsIn, AlreadySet, Already, Wanted, NormalizeRecommendation, IsDynamic, IsStatic;
    hide DYNAMIC, STATIC;
    var info := Live(input, name, scope);
    KindIs(info);
    KindWords();
    ModeIs(info, input.metadata.engineMode);
    forall text
      ensures NormalizeRecommendation(input, name, input.recommendations[name]) == Some(text) <==>
              Wanted(input, name, text)
      ensures AlreadySet(input, name, info, text) <==> Already(input, name, info, text)
    {
      WantedIs(input, name, text);
      AlreadyIs(input, name, info, text);
    }
  }

  /** So it is for every name, listed in a group or not. */
  lemma RouteIs(input: Input, name: Text, scope: Scope)
    requires name in input.recommendations
    ensures forall p ::
              Home(input, name) == scope && Route(input, name) == Planned(p) <==> Plans(input, name, scope, p)
    ensures forall reason ::
              Home(input, name) == scope && Route(input, name) == Rejected(reason) <==>
              Fails(input, name, scope, reason)
  {
    hide Decide, FailsLive, Plans;
    if Belongs(input, name, scope) {
      DecisionIs(input, name, scope);
      LiveIsThere(input, name, Live(input, name, scope), scope);
    } else {
      PlansNothing(input, name, scope);
    }
    if name !in input.instance && name !in input.cluster && scope.Instance? {
      assert Route(input, name) == Rejected(Absent);
    }
  }

  lemma LiveIsThere(input: Input, name: Text, info: Info, scope: Scope)
    requires name in input.recommendations
    ensures !FailsLive(input, name, info, scope, Absent)
  {
  }

  lemma PlansNothing(input: Input, name: Text, scope: Scope)
    requires name in input.recommendations && !Belongs(input, name, scope)
    ensures forall p :: !Plans(input, name, scope, p)
  {
  }

  // ---------- the theorems ----------

  /** The plan of a scope holds exactly the parameters of the recommendations that the rules admit. */
  lemma {:induction false} PlanExactly(input: Input, names: seq<Text>, scope: Scope)
    requires Recommended(input, names)
    ensures forall p ::
              p in PlanFor(input, names, scope) <==> exists name :: name in names && Plans(input, name, scope, p)
    decreases |names|
  {
    hide Plans, Route, Home;
    if names != [] {
      var rest, name := names[..|names| - 1], names[|names| - 1];
      assert names == rest + [name];
      PlanExactly(input, rest, scope);
      RouteIs(input, name, scope);
      PlanLast(input, names, scope);
      forall p ensures p in PlanFor(input, names, scope) <==> exists x :: x in names && Plans(input, x, scope, p) {
        assert p in PlanFor(input, names, scope) <==> p in PlanFor(input, rest, scope) || Plans(input, name, scope, p);
      }
    }
  }

  lemma PlanLast(input: Input, names: seq<Text>, scope: Scope)
    requires Recommended(input, names) && names != []
    ensures var rest, name := names[..|names| - 1], names[|names| - 1];
            && (forall p ::
                  p in PlanFor(input, names, scope) <==>
                  p in PlanFor(input, rest, scope) || (Home(input, name) == scope && Route(input, name) == Planned(p)))
            && (forall k ::
                  k in SkipsFor(input, names, scope) <==>
                  || k in SkipsFor(input, rest, scope)
                  || (k.name == name && Home(input, name) == scope && Route(input, name) == Rejected(k.reason)))
  {
    hide Route, Home;
  }

  /** The names skipped in a scope come exactly with the first check that they fail. */
  lemma {:induction false} SkipsExactly(input: Input, names: seq<Text>, scope: Scope)
    requires Recommended(input, names)
    ensures forall k ::
              k in SkipsFor(input, names, scope) <==>
              k.name in names && Fails(input, k.name, scope, k.reason)
    decreases |names|
  {
    hide Fails, Route, Home;
    if names != [] {
      var rest, name := names[..|names| - 1], names[|names| - 1];
      assert names == rest + [name];
      SkipsExactly(input, rest, scope);
      RouteIs(input, name, scope);
      PlanLast(input, names, scope);
      forall k
        ensures k in SkipsFor(input, names, scope) <==> k.name in names && Fails(input, k.name, scope, k.reason)
      {
        assert k.name in names <==> k.name in rest || k.name == name;
      }
    }
  }

  // ---------- the number grammar ----------

  predicate Digits(t: Text) {
    t != [] && forall i :: 0 <= i < |t| ==> 48 <= t[i] <= 57
  }

  predicate IntegerPart(t: Text) {
    Digits(t) && (|t| == 1 || t[0] != 48)
  }

  predicate FractionPart(t: Text) {
    t == [] || (t[0] == 46 && Digits(t[1..]))
  }

  predicate ExponentPart(t: Text) {
    || t == []
    || ((t[0] == 69 || t[0] == 101)
        && (Digits(t[1..]) || (|t| > 1 && (t[1] == 43 || t[1] == 45) && Digits(t[2..]))))
  }

  /** A number as section 6 of RFC 8259 gives it: a minus or none, an integer, and a fraction and exponent or none. */
  ghost predicate NumberText(s: Text) {
    exists minus: Text, whole: Text, fraction: Text, exponent: Text ::
      && (minus == [] || minus == [45]) && IntegerPart(whole) && FractionPart(fraction) && ExponentPart(exponent)
      && s == minus + (whole + (fraction + exponent))
  }

  lemma {:induction false} DigitsThen(d: Text, rest: Text)
    requires AllDigits(d) && (rest != [] ==> !IsDigit(rest[0]))
    ensures DigitCount(d + rest) == |d|
    decreases |d|
  {
    if d == [] {
      assert d + rest == rest;
    } else {
      assert (d + rest)[1..] == d[1..] + rest;
      DigitsThen(d[1..], rest);
    }
  }

  /** The digits at the start of a text. */
  lemma DigitsFirst(s: Text)
    ensures var n := DigitCount(s);
            s == s[..n] + s[n..] && (n > 0 ==> Digits(s[..n])) && (n < |s| ==> !IsDigit(s[n..][0]))
  {
  }

  lemma ExponentIs(s: Text)
    ensures IsExponent(s) <==> ExponentPart(s)
  {
    hide DigitCount;
    if s != [] {
      var sign := if |s| > 1 && (s[1] == 43 || s[1] == DASH) then 1 else 0;
      var t := s[1 + sign..];
      DigitsFirst(t);
      if AllDigits(t) {
        DigitsThen(t, []);
        assert t + [] == t;
      }
      assert t == s[1..] || t == s[2..];
      assert sign == 1 ==> s[1..][0] == s[1];
    }
  }

  lemma TailRead(fraction: Text, exponent: Text)
    requires FractionPart(fraction) && ExponentPart(exponent)
    ensures IsTail(fraction + exponent)
  {
    hide ExponentLength;
    var s := fraction + exponent;
    ExponentIs(exponent);
    if fraction == [] {
      assert s == exponent;
      assert s[0..] == s;
    } else {
      assert s[1..] == fraction[1..] + exponent && s[0] == 46;
      DigitsThen(fraction[1..], exponent);
      assert s[|fraction|..] == exponent;
    }
  }

  lemma TailFound(s: Text) returns (fraction: Text, exponent: Text)
    requires IsTail(s)
    ensures FractionPart(fraction) && ExponentPart(exponent) && s == fraction + exponent
  {
    hide ExponentLength, DigitCount, Digits, ExponentPart, AllDigits;
    var n := FractionLength(s).value;
    fraction, exponent := s[..n], s[n..];
    ExponentIs(exponent);
    if n > 0 {
      DigitsFirst(s[1..]);
      assert fraction[1..] == s[1..][..n - 1];
    }
  }

  /** What is accepted as a number is exactly what the grammar gives. */
  lemma NumberExactly(s: Text)
    ensures IsJsonNumber(s) <==> NumberText(s)
  {
    hide IsJsonNumber, IntegerPart, FractionPart, ExponentPart;
    if IsJsonNumber(s) {
      NumberFound(s);
    }
    if NumberText(s) {
      var minus: Text, whole: Text, fraction: Text, exponent: Text :|
        && (minus == [] || minus == [45]) && IntegerPart(whole) && FractionPart(fraction) && ExponentPart(exponent)
        && s == minus + (whole + (fraction + exponent));
      NumberRead(minus, whole, fraction, exponent);
    }
  }

  lemma NumberFound(s: Text)
    requires IsJsonNumber(s)
    ensures NumberText(s)
  {
    hide IsTail, FractionPart, ExponentPart, DigitCount;
    var i := if s[0] == DASH then 1 else 0;
    var n := DigitCount(s[i..]);
    DigitsFirst(s[i..]);
    var fraction, exponent := TailFound(s[i + n..]);
    assert s == s[..i] + (s[i..i + n] + (fraction + exponent));
    assert s[i..][..n] == s[i..i + n] && IntegerPart(s[i..i + n]);
    assert s[..i] == if i == 0 then [] else [45];
  }

  lemma NumberRead(minus: Text, whole: Text, fraction: Text, exponent: Text)
    requires (minus == [] || minus == [45]) && IntegerPart(whole) && FractionPart(fraction) && ExponentPart(exponent)
    ensures IsJsonNumber(minus + (whole + (fraction + exponent)))
  {
    hide IsTail, FractionPart, ExponentPart, DigitCount;
    var s := minus + (whole + (fraction + exponent));
    TailRead(fraction, exponent);
    TailStarts(fraction, exponent);
    DigitsThen(whole, fraction + exponent);
    assert s[|minus|..] == whole + (fraction + exponent) && s[|minus|] == whole[0];
    assert s[|minus| + |whole|..] == fraction + exponent;
  }

  /** What each kind of value stands for; texts are taken as they are, and numbers only if they are numbers. */
  lemma TextExactly(value: Value)
    ensures TextOf(value) ==
            match value
            case Str(text) => Some(text)
            case JsonNumber(text) => if NumberText(text) then Some(text) else None
            case Signed(n) => Some(if n < 0 then Ascii("-") + Print(-n) else Print(n))
            case Unsigned(n) => Some(Print(n))
            case Float(finite, printed) => if finite then Some(printed) else None
            case Other => None
  {
    hide IsJsonNumber, NumberText, Print;
    assert Ascii("-") == [DASH];
    if value.JsonNumber? {
      NumberExactly(value.text);
    }
  }

  lemma TailStarts(fraction: Text, exponent: Text)
    requires FractionPart(fraction) && ExponentPart(exponent)
    ensures fraction + exponent != [] ==> !IsDigit((fraction + exponent)[0])
  {
  }
}
