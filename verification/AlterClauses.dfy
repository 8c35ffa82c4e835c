/**
 * Removing the ALGORITHM and LOCK clauses of an ALTER TABLE body before it is
 * handed to pt-online-schema-change, and what rescanning the result finds.
 */
module AlterClauses {
  import opened Bytes
  import opened SqlScanner

  datatype Result = Ok(value: Text) | Unsupported

  /** A top-level clause: its own text, and the same bytes masked. */
  datatype Clause = Clause(raw: Text, masked: Text)

  const ALGORITHM: Text := Ascii("ALGORITHM")
  const LOCK: Text := Ascii("LOCK")

  function Nest(b: Byte, depth: nat): nat {
    if b == LPAREN then depth + 1
    else if b == RPAREN && depth > 0 then depth - 1
    else depth
  }

  /** The position of the first comma outside parentheses, or the length if there is none. */
  function Cut(masked: Text, depth: nat): (k: nat)
    ensures k <= |masked|
    ensures k < |masked| ==> masked[k] == COMMA
  {
    if masked == [] || (masked[0] == COMMA && depth == 0) then 0
    else 1 + Cut(masked[1..], Nest(masked[0], depth))
  }

  function DepthAfter(masked: Text, depth: nat): nat {
    if masked == [] then depth else DepthAfter(masked[1..], Nest(masked[0], depth))
  }

  /** Whether a text starts with a keyword, in any case, that ends at a word boundary. */
  predicate StartsWithWord(s: Text, keyword: Text) {
    |keyword| <= |s| && UpperText(s[..|keyword|]) == keyword && (|s| == |keyword| || !IsWord(s[|keyword|]))
  }

  predicate IsOnlineClause(masked: Text) {
    StartsWithWord(masked, ALGORITHM) || StartsWithWord(masked, LOCK)
  }

  /** All top-level clauses of a masked body, trimmed, empty ones included. */
  function Split(body: Text, masked: Text): (cs: seq<Clause>)
    requires |body| == |masked|
    decreases |body|
  {
    var k := Cut(masked, 0);
    [Clause(Trim(body[..k]), Trim(masked[..k]))] + (if k == |body| then [] else Split(body[k + 1..], masked[k + 1..]))
  }

  function Pieces(body: Text): seq<Clause> {
    Split(body, Mask(body, EVERYTHING))
  }

  /** The clauses that are not empty. */
  function Present(cs: seq<Clause>): seq<Text> {
    if cs == [] then []
    else (if cs[0].raw != [] then [cs[0].raw] else []) + Present(cs[1..])
  }

  predicate Keeps(c: Clause) {
    c.raw != [] && !IsOnlineClause(c.masked)
  }

  /** The clauses that are neither empty nor an ALGORITHM or LOCK clause. */
  function Changes(cs: seq<Clause>): seq<Text> {
    if cs == [] then []
    else (if Keeps(cs[0]) then [cs[0].raw] else []) + Changes(cs[1..])
  }

  function Join(ks: seq<Text>): Text {
    if ks == [] then []
    else if |ks| == 1 then ks[0]
    else ks[0] + ([COMMA, SPACE] + Join(ks[1..]))
  }

  /** What the code returns: the changes joined by `, `, or an error when none is left. */
  function Stripped(body: Text): Result {
    if Changes(Pieces(body)) == [] then Unsupported else Ok(Join(Changes(Pieces(body))))
  }

  /** The changes among the clauses from `start` on. */
  function ChangesFrom(body: Text, masked: Text, start: nat): seq<Text>
    requires |body| == |masked| && start <= |body| + 1
  {
    if start > |body| then [] else Changes(Split(body[start..], masked[start..]))
  }

  method StripAlterOnlineDDLClauses(body: Text) returns (r: Result)
    ensures r == Stripped(body)
  {
    hide Split, Changes, Cut, Mask, Keeps;
    var masked, executable, ambiguous := ScanSQL(body, EVERYTHING);
    var start, depth := 0, 0;
    var kept: seq<Text> := [];
    var i := 0;
    AllChanges(body, masked);
    while i < |masked|
      invariant 0 <= start <= i <= |masked| == |body|
      invariant start + Cut(masked[start..], 0) == i + Cut(masked[i..], depth)
      invariant Changes(Pieces(body)) == kept + ChangesFrom(body, masked, start)
    {
      CutStep(masked, i, depth);
      if masked[i] == LPAREN {
        depth := depth + 1;
      } else if masked[i] == RPAREN {
        if depth > 0 {
          depth := depth - 1;
        }
      } else if masked[i] == COMMA && depth == 0 {
        kept := AppendClause(body, masked, start, i, kept);
        start := i + 1;
      }
      i := i + 1;
    }
    CutEnd(masked, depth);
    kept := AppendClause(body, masked, start, |body|, kept);
    assert kept + [] == kept;
    if kept == [] {
      return Unsupported;
    }
    return Ok(Join(kept));
  }

  /** The closure that keeps the clause ending at `end` unless it is empty or an online clause. */
  method AppendClause(body: Text, masked: Text, start: nat, end: nat, kept: seq<Text>) returns (kept': seq<Text>)
    requires start <= end <= |body| == |masked|
    requires start + Cut(masked[start..], 0) == end
    ensures kept' + ChangesFrom(body, masked, end + 1) == kept + ChangesFrom(body, masked, start)
  {
    hide Split, Changes, Cut, ChangesFrom, IsOnlineClause, Trim;
    var rawClause, maskedClause := Trim(body[start..end]), Trim(masked[start..end]);
    kept' := kept;
    if rawClause != [] && !IsOnlineClause(maskedClause) {
      kept' := kept + [rawClause];
    }
    NextChange(body, masked, start, end);
    ghost var rest := ChangesFrom(body, masked, end + 1);
    assert kept + ([rawClause] + rest) == kept + [rawClause] + rest;
  }

  lemma NextChange(body: Text, masked: Text, start: nat, end: nat)
    requires start <= end <= |body| == |masked|
    requires start + Cut(masked[start..], 0) == end
    ensures var c := Clause(Trim(body[start..end]), Trim(masked[start..end]));
            ChangesFrom(body, masked, start) == (if Keeps(c) then [c.raw] else []) + ChangesFrom(body, masked, end + 1)
  {
    hide Trim, Cut, Keeps;
    var b, m, k := body[start..], masked[start..], end - start;
    var c := Clause(Trim(body[start..end]), Trim(masked[start..end]));
    assert b[..k] == body[start..end] && m[..k] == masked[start..end];
    if end < |body| {
      assert b[k + 1..] == body[end + 1..] && m[k + 1..] == masked[end + 1..];
      assert Split(b, m) == [c] + Split(body[end + 1..], masked[end + 1..]);
      assert Split(b, m)[1..] == Split(body[end + 1..], masked[end + 1..]);
    } else {
      assert Split(b, m) == [c];
      assert [c][1..] == [] && Changes([c][1..]) == [];
      assert Changes([c]) == if Keeps(c) then [c.raw] else [];
    }
  }

  lemma AllChanges(body: Text, masked: Text)
    requires masked == Mask(body, EVERYTHING)
    ensures |masked| == |body| && Changes(Pieces(body)) == [] + ChangesFrom(body, masked, 0)
    ensures masked[0..] == masked
  {
    assert body[0..] == body;
  }

  lemma CutStep(masked: Text, i: nat, depth: nat)
    requires i < |masked|
    ensures masked[i] == COMMA && depth == 0 ==> Cut(masked[i..], depth) == 0
    ensures !(masked[i] == COMMA && depth == 0) ==>
              Cut(masked[i..], depth) == 1 + Cut(masked[i + 1..], Nest(masked[i], depth))
  {
    assert masked[i..][1..] == masked[i + 1..];
  }

  lemma CutEnd(masked: Text, depth: nat)
    ensures Cut(masked[|masked|..], depth) == 0
  {
  }
}
