/**
 * The cache of the last good table-size snapshot: it is refreshed on demand,
 * kept when a refresh fails, and never shared with its callers.
 */
module SnapshotCache {
  import opened Bytes
  import opened Wrappers
  import opened TableSize

  // ---------- snapshots as objects ----------

  /** The metrics of one engine or table type, as a mutable map. */
  class Metrics {
    var values: map<Text, Metric>

    constructor (v: map<Text, Metric>)
      ensures values == v
    {
      values := v;
    }
  }

  /** A mutable map of mutable maps. */
  class EngineMap {
    var engines: map<Text, Metrics>

    constructor (e: map<Text, Metrics>)
      ensures engines == e
    {
      engines := e;
    }

    ghost function Repr(): set<object>
      reads this
    {
      {this} + engines.Values
    }

    function Value(): (c: Contents)
      reads this, engines.Values
      ensures c.Keys == engines.Keys
    {
      map k | k in engines :: engines[k].values
    }
  }

  method CloneMetrics(m: Metrics) returns (c: Metrics)
    ensures fresh(c) && c.values == m.values
  {
    c := new Metrics(map[]);
    var left := m.values.Keys;
    while left != {}
      invariant left <= m.values.Keys
      invariant c.values.Keys == m.values.Keys - left
      invariant forall k :: k in c.values ==> c.values[k] == m.values[k]
      decreases |left|
    {
      var k :| k in left;
      c.values := c.values[k := m.values[k]];
      left := left - {k};
    }
  }

  /** A copy that shares no object with the original. */
  method CloneEngine(e: EngineMap) returns (c: EngineMap)
    ensures fresh(c.Repr()) && c.Value() == e.Value()
  {
    var copies := CloneAll(e.engines);
    c := new EngineMap(copies);
  }

  method CloneAll(engines: map<Text, Metrics>) returns (copies: map<Text, Metrics>)
    ensures copies.Keys == engines.Keys
    ensures forall k :: k in copies ==> fresh(copies[k]) && copies[k].values == engines[k].values
  {
    copies := map[];
    var left := engines.Keys;
    while left != {}
      invariant left <= engines.Keys
      invariant copies.Keys == engines.Keys - left
      invariant forall k :: k in copies ==> fresh(copies[k]) && copies[k].values == engines[k].values
      decreases |left|
    {
      var k :| k in left;
      var copy := CloneMetrics(engines[k]);
      copies := copies[k := copy];
      left := left - {k};
    }
  }

  // ---------- the cache as values ----------

  /** A snapshot with its summary, its size category and the time it expires. */
  datatype Snapshot = Snapshot(contents: Contents, summary: Summary, large: bool, expiresAt: int)

  datatype Reply = Value(contents: Contents, stale: bool) | Error

  const ORDINARY_TTL: int := 42_900_000_000_000

  /** A stored snapshot can be used again: it has not expired and its size category is still right. */
  predicate Usable(entry: Option<Snapshot>, input: Input) {
    entry.Some? && input.now < entry.value.expiresAt && Eligible(input, entry.value.summary) == entry.value.large
  }

  function NewSnapshot(input: Input, contents: Contents, summary: Summary): Snapshot {
    var large := Eligible(input, summary);
    Snapshot(contents, summary, large, input.now + if large then input.ttl else ORDINARY_TTL)
  }

  /** What a refresh would bring: a snapshot with its summary, or nothing. */
  datatype Refresh = Brings(contents: Contents, summary: Summary) | Fails

  function Stored(entry: Option<Snapshot>, input: Input, refresh: Refresh): Option<Snapshot> {
    if Usable(entry, input) || refresh.Fails? then entry
    else Some(NewSnapshot(input, refresh.contents, refresh.summary))
  }

  function Answer(entry: Option<Snapshot>, input: Input, refresh: Refresh): Reply {
    if Usable(entry, input) then Value(entry.value.contents, false)
    else if refresh.Brings? then Value(refresh.contents, false)
    else if entry.Some? then Value(entry.value.contents, true)
    else Error
  }

  // ---------- the cache as an object ----------

  /** What a refresh function returns when it is called. */
  datatype Refreshed = Good(value: EngineMap, summary: Summary) | Bad

  ghost function RefreshOf(r: Refreshed): Refresh
    reads if r.Good? then r.value.Repr() else {}
    reads if r.Good? then {r.value} else {}
  {
    if r.Good? then Brings(r.value.Value(), r.summary) else Fails
  }

  /** Whether a returned snapshot and its staleness are those of a reply. */
  ghost predicate Gives(value: EngineMap?, stale: bool, reply: Reply)
    reads if value != null then value.Repr() else {}
    reads if value != null then {value} else {}
  {
    match reply
    case Value(contents, isStale) => value != null && value.Value() == contents && stale == isStale
    case Error => value == null
  }

  /** What is stored and answered, case by case. */
  lemma WhenUsable(entry: Option<Snapshot>, input: Input, refresh: Refresh)
    ensures Usable(entry, input) ==
            (&& entry.Some? && input.now < entry.value.expiresAt
             && Eligible(input, entry.value.summary) == entry.value.large)
    ensures Usable(entry, input) || refresh.Fails? ==> Stored(entry, input, refresh) == entry
    ensures !Usable(entry, input) && refresh.Brings? ==>
              && Stored(entry, input, refresh) == Some(NewSnapshot(input, refresh.contents, refresh.summary))
              && Answer(entry, input, refresh) == Value(refresh.contents, false)
    ensures Usable(entry, input) ==> Answer(entry, input, refresh) == Value(entry.value.contents, false)
    ensures !Usable(entry, input) && refresh.Fails? ==>
              Answer(entry, input, refresh) == if entry.Some? then Value(entry.value.contents, true) else Error
  {
    hide Eligible, NewSnapshot;
  }

  lemma RefreshIs(r: Refreshed)
    ensures RefreshOf(r) == if r.Good? then Brings(r.value.Value(), r.summary) else Fails
  {
  }

  lemma NewParts(input: Input, contents: Contents, summary: Summary)
    ensures var large := Eligible(input, summary);
            NewSnapshot(input, contents, summary) ==
            Snapshot(contents, summary, large, input.now + if large then input.ttl else ORDINARY_TTL)
  {
  }

  lemma NewContents(input: Input, contents: Contents, summary: Summary)
    ensures NewSnapshot(input, contents, summary).contents == contents
  {
  }

  class Cache {
    var lastSuccessful: EngineMap?
    var summary: Summary
    var large: bool
    var expiresAt: int

    constructor ()
      ensures fresh(Repr()) && Held() == None
    {
      lastSuccessful, summary, large, expiresAt := null, Summary(0, 0), false, 0;
    }

    /** The cache's own objects: nothing outside them decides its value. */
    ghost function Repr(): set<object>
      reads this, if lastSuccessful != null then {lastSuccessful} else {}
    {
      {this} + if lastSuccessful != null then lastSuccessful.Repr() else {}
    }

    ghost function Held(): Option<Snapshot>
      reads this, Repr()
    {
      if lastSuccessful == null then None else Some(Snapshot(lastSuccessful.Value(), summary, large, expiresAt))
    }

    /** A copy of the stored snapshot that shares nothing with it. */
    method Copy() returns (value: EngineMap)
      requires lastSuccessful != null
      ensures Held() == old(Held()) && Repr() == old(Repr())
      ensures Held().Some? && value.Value() == Held().value.contents
      ensures fresh(value.Repr()) && value.Repr() !! Repr()
    {
      value := CloneEngine(lastSuccessful);
    }

    /** The last good snapshot, even after it expired. */
    method Peek() returns (value: EngineMap?)
      ensures value == null <==> Held().None?
      ensures value != null ==> fresh(value.Repr()) && value.Repr() !! Repr() && value.Value() == Held().value.contents
    {
      if lastSuccessful == null {
        return null;
      }
      value := Copy();
    }

    /**
     * The refresh function is called exactly when the stored snapshot is not usable.  The
     * returned snapshot is a new object, and what the cache stores is another.
     */
    method GetOrRefresh(input: Input, refresh: Refreshed) returns (value: EngineMap?, stale: bool, called: bool)
      modifies this
      ensures called == !Usable(old(Held()), input)
      ensures Held() == Stored(old(Held()), input, old(RefreshOf(refresh)))
      ensures Gives(value, stale, Answer(old(Held()), input, old(RefreshOf(refresh))))
      ensures value != null ==> fresh(value.Repr()) && value.Repr() !! Repr()
      ensures Repr() == old(Repr()) || fresh(Repr() - {this})
    {
      hide Eligible, NewSnapshot, Usable, Stored, Answer, RefreshOf;
      ghost var held, brings := Held(), RefreshOf(refresh);
      RefreshIs(refresh);
      WhenUsable(held, input, brings);
      stale, called := false, false;
      if lastSuccessful != null && input.now < expiresAt && Eligible(input, summary) == large {
        value := Copy();
        return;
      }
      called := true;
      if refresh.Bad? {
        if lastSuccessful == null {
          return null, false, true;
        }
        stale := true;
        value := Copy();
        return;
      }
      Store(input, refresh.value, refresh.summary);
      NewContents(input, brings.contents, refresh.summary);
      value := Copy();
    }

    method Store(input: Input, value: EngineMap, s: Summary)
      modifies this
      ensures lastSuccessful != null
      ensures Held() == Some(NewSnapshot(input, old(value.Value()), s))
      ensures fresh(Repr() - {this})
    {
      hide Eligible, NewSnapshot;
      ghost var contents := value.Value();
      var stored := CloneEngine(value);
      assert this !in stored.Repr() && stored.Value() == contents;
      summary, large := s, Eligible(input, s);
      lastSuccessful, expiresAt := stored, input.now + if large then input.ttl else ORDINARY_TTL;
      assert lastSuccessful.Value() == contents;
      NewParts(input, contents, s);
      assert NewSnapshot(input, contents, s) == Snapshot(contents, summary, large, expiresAt);
    }
  }

  // ---------- what callers do with their objects ----------

  /**
   * A change that the holder of an engine map can make: any contents of an inner map, and
   * any object of its own under any name.
   */
  datatype Edit =
    | Rewrite(name: Text, values: map<Text, Metric>)
    | Link(name: Text, metrics: Metrics)
    | Alias(name: Text, other: Text)
    | Remove(name: Text)

  /** The caller's own objects that are linked. */
  function Linked(edits: seq<Edit>): set<Metrics> {
    set i | 0 <= i < |edits| && edits[i].Link? :: edits[i].metrics
  }

  method Change(e: EngineMap, edits: seq<Edit>)
    modifies e, e.engines.Values, Linked(edits)
  {
    var i := 0;
    while i < |edits|
      invariant 0 <= i <= |edits|
      invariant e.engines.Values <= old(e.engines.Values) + Linked(edits)
    {
      match edits[i] {
        case Rewrite(name, values) =>
          if name in e.engines {
            assert e.engines[name] in e.engines.Values;
            e.engines[name].values := values;
          }
        case Link(name, metrics) => e.engines := e.engines[name := metrics];
        case Alias(name, other) =>
          if other in e.engines {
            e.engines := e.engines[name := e.engines[other]];
          }
        case Remove(name) => e.engines := e.engines - {name};
      }
      i := i + 1;
    }
  }

  /** A caller may change what it was given in any way: the cache goes on holding what it stored. */
  method ChangeReturned(c: Cache, input: Input, refresh: Refreshed, edits: seq<Edit>)
    requires Linked(edits) !! c.Repr()
    modifies c, Linked(edits)
    ensures c.Held() == Stored(old(c.Held()), input, old(RefreshOf(refresh)))
  {
    hide Stored, Eligible, RefreshOf, Usable, Answer;
    var value, stale, called := c.GetOrRefresh(input, refresh);
    assert Linked(edits) !! c.Repr();
    if value != null {
      Change(value, edits);
    }
  }

  /** So it is for what the caller gave to the refresh. */
  method ChangeRefreshed(c: Cache, input: Input, source: EngineMap, s: Summary, edits: seq<Edit>)
    requires source.Repr() !! c.Repr() && Linked(edits) !! c.Repr()
    modifies c, source.Repr(), Linked(edits)
    ensures c.Held() == Stored(old(c.Held()), input, Brings(old(source.Value()), s))
  {
    hide Stored, Eligible, Usable, Answer;
    var value, stale, called := c.GetOrRefresh(input, Good(source, s));
    assert source.Repr() !! c.Repr() && Linked(edits) !! c.Repr();
    Change(source, edits);
  }

  // ---------- runs ----------

  datatype Call = Call(input: Input, refresh: Refresh)

  function After(calls: seq<Call>): Option<Snapshot> {
    if calls == [] then None
    else Stored(After(calls[..|calls| - 1]), calls[|calls| - 1].input, calls[|calls| - 1].refresh)
  }

  /** The reply to the last call. */
  function LastReply(calls: seq<Call>): Reply
    requires calls != []
  {
    Answer(After(calls[..|calls| - 1]), calls[|calls| - 1].input, calls[|calls| - 1].refresh)
  }

  predicate Refreshes(calls: seq<Call>)
    requires calls != []
  {
    !Usable(After(calls[..|calls| - 1]), calls[|calls| - 1].input)
  }

  /** The last call whose refresh was called and succeeded. */
  function LastGood(calls: seq<Call>): (i: Option<nat>)
    ensures i.Some? ==> i.value < |calls| && calls[i.value].refresh.Brings?
  {
    if calls == [] then None
    else if Refreshes(calls) && calls[|calls| - 1].refresh.Brings? then Some(|calls| - 1)
    else LastGood(calls[..|calls| - 1])
  }

  /** The cache holds the snapshot of the last successful refresh, with the expiry set then. */
  lemma {:induction false} HoldsLastGood(calls: seq<Call>)
    ensures After(calls) ==
            if LastGood(calls).None? then None
            else
              var call := calls[LastGood(calls).value];
              Some(NewSnapshot(call.input, call.refresh.contents, call.refresh.summary))
    decreases |calls|
  {
    hide Usable, NewSnapshot;
    if calls != [] {
      HoldsLastGood(calls[..|calls| - 1]);
    }
  }

  /**
   * Every reply is the value of the last successful refresh, this call's included; it is
   * stale exactly if this call's refresh failed; and there is an error only before the
   * first success.
   */
  lemma EveryReply(calls: seq<Call>)
    requires calls != []
    ensures LastReply(calls) ==
            if LastGood(calls).None? then Error
            else
              var stale := Refreshes(calls) && calls[|calls| - 1].refresh.Fails?;
              Value(calls[LastGood(calls).value].refresh.contents, stale)
  {
    hide NewSnapshot, After, Usable;
    var before := calls[..|calls| - 1];
    HoldsLastGood(before);
    if LastGood(before).Some? {
      var call := before[LastGood(before).value];
      NewContents(call.input, call.refresh.contents, call.refresh.summary);
    }
    assert Usable(None, calls[|calls| - 1].input) == false by { NothingUsable(calls[|calls| - 1].input); }
  }

  lemma NothingUsable(input: Input)
    ensures !Usable(None, input)
  {
  }

  /** After the first success there are no errors. */
  lemma {:induction false} NoErrorAfterSuccess(calls: seq<Call>, i: nat)
    requires i < |calls| && LastReply(calls[..i + 1]).Value?
    ensures LastReply(calls).Value?
  {
    hide LastReply, LastGood;
    EveryReply(calls[..i + 1]);
    EveryReply(calls);
    StillGood(calls, i + 1);
  }

  lemma {:induction false} StillGood(calls: seq<Call>, n: nat)
    requires n <= |calls| && LastGood(calls[..n]).Some?
    ensures LastGood(calls).Some?
    decreases |calls|
  {
    hide Refreshes;
    if n == |calls| {
      assert calls[..n] == calls;
    } else {
      assert calls[..|calls| - 1][..n] == calls[..n];
      StillGood(calls[..|calls| - 1], n);
    }
  }

  /** A snapshot taken of a large server expires as configured, and any other after 11 hours and 55 minutes. */
  lemma Expires(input: Input, contents: Contents, summary: Summary)
    ensures var large := && input.effectiveRAM != 0 && input.tableThreshold >= 0 && input.ramMultiplier >= 0
                         && (if input.totalTables.Some? then input.totalTables.value else summary.totalTables) >
                            input.tableThreshold
                         && summary.totalSize > input.effectiveRAM * input.ramMultiplier;
            NewSnapshot(input, contents, summary) ==
            Snapshot(
              contents, summary, large,
              input.now + if large then input.ttl else (11 * 60 + 55) * 60 * 1_000_000_000)
  {
    hide Eligible;
    EligibleExact(input, summary);
  }

  /** A refresh is called exactly when nothing is held, it has expired, or the size category changed. */
  lemma RefreshesWhen(calls: seq<Call>)
    requires calls != []
    ensures var held, input := After(calls[..|calls| - 1]), calls[|calls| - 1].input;
            Refreshes(calls) <==>
            || held.None?
            || input.now >= held.value.expiresAt
            || held.value.large != (&& input.effectiveRAM != 0 && input.tableThreshold >= 0 && input.ramMultiplier >= 0
                                    && Count(input, held.value.summary) > input.tableThreshold
                                    && held.value.summary.totalSize > input.effectiveRAM * input.ramMultiplier)
  {
    hide Eligible, After;
    var held, input := After(calls[..|calls| - 1]), calls[|calls| - 1].input;
    if held.Some? {
      EligibleExact(input, held.value.summary);
    }
  }
}
