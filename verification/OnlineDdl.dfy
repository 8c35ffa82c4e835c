/**
 * Building the statement that is run as online DDL: the trailing comments are
 * split off, the ALGORITHM and LOCK clauses that are missing are appended, and
 * the comments are put back.
 */
module OnlineDdl {
  import opened Bytes
  import opened Wrappers
  import opened SqlScanner
  import opened AlterClauses
  import opened DdlTarget
  import opened DdlClauses

  datatype Failure =
    | ExecutableComment
    | AmbiguousQuote
    | EmptyStatement
    | ManyStatements
    | UnknownTarget
    | BadClause(clause: Text)
    | RepeatedClause(clause: Text)
    | UnsafeAlgorithm(value: Text)
    | UnsafeLock(value: Text)

  datatype Built = Done(sql: Text) | Failed(failure: Failure)

  /** A statement without what follows its last code, and what follows it without the semicolon. */
  datatype Parts = Parts(statement: Text, suffix: Text)

  /** The failures after which pt-online-schema-change may be tried. */
  predicate Unsupported(f: Failure) {
    || (f.UnsafeAlgorithm? && (f.value == COPY || f.value == DEFAULT_VALUE))
    || (f.UnsafeLock? && (f.value == DEFAULT_VALUE || f.value == SHARED || f.value == EXCLUSIVE))
  }

  function SplitSuffix(sql: Text): Parts {
    var s := Trim(sql);
    var shown := Mask(s, COMMENTS_ONLY);
    var last := Content(shown);
    if last == 0 then Parts([], [])
    else if shown[last - 1] != SEMICOLON then Parts(Trim(s[..last]), Trim(s[last..]))
    else
      var end := Content(shown[..last - 1]);
      if end == 0 then Parts([], [])
      else Parts(Trim(s[..end]), Trim(s[end..last - 1] + s[last..]))
  }

  function Padded(suffix: Text): Text {
    if suffix == [] || IsSpace(suffix[0]) then suffix else [SPACE] + suffix
  }

  /** What follows the target, at top level. */
  function TailOf(statement: Text): Option<Text> {
    var target := Target(Mask(statement, STRINGS));
    if target.None? then None
    else Some(TopLevel(Mask(statement, EVERYTHING)[target.value.end..], 0))
  }

  method OnlineDDLTopLevelTail(sql: Text) returns (tail: Option<Text>)
    ensures tail == TailOf(sql)
  {
    hide Mask, Target, TopLevel;
    var targetMasked, _, _ := ScanSQL(sql, STRINGS);
    var target := Target(targetMasked);
    if target.None? {
      return None;
    }
    var masked, _, _ := ScanSQL(sql, EVERYTHING);
    var blanked := BlankParentheses(masked, target.value.end);
    return Some(blanked);
  }

  function Separator(statement: Text): Text {
    if AlterTarget(Mask(statement, STRINGS)).Some? then [COMMA, SPACE] else [SPACE]
  }

  function ClauseText(clause: Text, value: Text): Text {
    clause + ([EQUALS] + value)
  }

  /** The clauses to append. */
  function Missing(separator: Text, hasAlgorithm: bool, hasLock: bool): Text {
    (if hasAlgorithm then [] else separator + ClauseText(ALGORITHM, INPLACE)) +
    (if hasLock then [] else separator + ClauseText(LOCK, NONE))
  }

  predicate AllowedAlgorithm(value: Text) {
    value == INPLACE || value == INSTANT || value == NOCOPY
  }

  /** A statement with the clauses that online DDL needs. */
  function Complete(statement: Text): Built {
    var tail := TailOf(statement);
    if tail.None? then Failed(UnknownTarget) else
      var algorithm, lock := ReadClause(tail.value, ALGORITHM), ReadClause(tail.value, LOCK);
      if algorithm.Unreadable? then Failed(BadClause(ALGORITHM))
      else if algorithm.Repeated? then Failed(RepeatedClause(ALGORITHM))
      else if lock.Unreadable? then Failed(BadClause(LOCK))
      else if lock.Repeated? then Failed(RepeatedClause(LOCK))
      else if algorithm.Present? && !AllowedAlgorithm(algorithm.value) then Failed(UnsafeAlgorithm(algorithm.value))
      else if lock.Present? && lock.value != NONE then Failed(UnsafeLock(lock.value))
      else Done(statement + Missing(Separator(statement), algorithm.Present?, lock.Present?))
  }

  function Build(sql: Text): Built {
    if Warned(sql, Plain).executable then Failed(ExecutableComment)
    else if Warned(sql, Plain).ambiguous then Failed(AmbiguousQuote)
    else
      var parts := SplitSuffix(sql);
      if parts.statement == [] then Failed(EmptyStatement)
      else if SEMICOLON in Mask(parts.statement, EVERYTHING) then Failed(ManyStatements)
      else
        var completed := Complete(parts.statement);
        if completed.Failed? then completed else Done(completed.sql + Padded(parts.suffix))
  }

  /** The statement with another table in place of its target. */
  function Retarget(sql: Text, reference: Text): Option<Text> {
    var target := Target(Mask(sql, STRINGS));
    if target.None? then None
    else Some(sql[..target.value.start] + reference + sql[target.value.end..])
  }
}
