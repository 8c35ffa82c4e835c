/**
 * The MySQL scanner behind every DDL check: comments, strings and quoted
 * identifiers are blanked in place, so that what is left is SQL syntax at
 * unchanged offsets.  A pure region lexer over the original bytes gives the
 * meaning; the in-place loop is proved to compute it.
 */
module SqlScanner {
  import opened Bytes

  /** What a byte belongs to; also the state of the lexer between tokens. */
  datatype Region = Plain | LineComment | BlockComment | Quoted(quote: Byte) {
    predicate Valid() {
      Quoted? ==> IsQuote(quote)
    }
  }

  /** What the scanner reports besides the masked text. */
  datatype Warnings = Warnings(executable: bool, ambiguous: bool) {
    function Or(w: Warnings): Warnings {
      Warnings(executable || w.executable, ambiguous || w.ambiguous)
    }
  }

  const QUIET := Warnings(false, false)

  datatype Options = Options(maskStrings: bool, maskIdentifiers: bool)

  const COMMENTS_ONLY := Options(false, false)
  const STRINGS := Options(true, false)
  const EVERYTHING := Options(true, true)

  predicate IsQuote(b: Byte) {
    b == QUOTE || b == DQUOTE || b == BACKTICK
  }

  predicate IsGap(b: Byte) {
    b <= SPACE || b == 127
  }

  /** Whether a text is empty or goes on with white space or a control byte. */
  predicate AtGap(s: Text) {
    s == [] || IsGap(s[0])
  }

  /** The next token: how many bytes it takes and the state after it. */
  function Move(s: Text, m: Region): (r: (nat, Region))
    requires s != []
    ensures 1 <= r.0 <= |s| && r.0 <= 2
    ensures m.Valid() ==> r.1.Valid()
  {
    match m
    case LineComment => if s[0] == LF || s[0] == CR then (1, Plain) else (1, m)
    case BlockComment => if s[0] == STAR && |s| > 1 && s[1] == SLASH then (2, Plain) else (1, m)
    case Quoted(q) =>
      if s[0] == BACKSLASH && q != BACKTICK && |s| > 1 then (2, m)
      else if s[0] == q && |s| > 1 && s[1] == q then (2, m)
      else if s[0] == q then (1, Plain)
      else (1, m)
    case Plain =>
      if IsQuote(s[0]) then (1, Quoted(s[0]))
      else if s[0] == HASH then (1, LineComment)
      else if s[0] == SLASH && |s| > 1 && s[1] == STAR then (2, BlockComment)
      else if s[0] == DASH && |s| > 1 && s[1] == DASH && AtGap(s[2..]) then (2, LineComment)
      else (1, Plain)
  }

  /** The region of the bytes that a token taking state `m` to state `next` covers. */
  function Covered(m: Region, next: Region): Region {
    if m.Plain? then next
    else if m.LineComment? then next
    else m
  }

  function Regions(s: Text, m: Region): (r: seq<Region>)
    ensures |r| == |s|
  {
    if s == [] then [] else
      var (n, next) := Move(s, m);
      var rest := Regions(s[n..], next);
      if n == 1 then [Covered(m, next)] + rest else [Covered(m, next), Covered(m, next)] + rest
  }

  predicate Hidden(r: Region, o: Options) {
    match r
    case Plain => false
    case LineComment => true
    case BlockComment => true
    case Quoted(q) => o.maskStrings && (q == QUOTE || o.maskIdentifiers)
  }

  function Blank(b: Byte): Byte {
    if b == LF || b == CR then b else SPACE
  }

  /** How a byte of a region is shown. */
  function Show(b: Byte, r: Region, o: Options): Byte {
    if Hidden(r, o) || (r.Plain? && IsGap(b)) then Blank(b) else b
  }

  function ShowAll(s: Text, rs: seq<Region>, o: Options): (t: Text)
    requires |rs| == |s|
    ensures |t| == |s|
    ensures forall i :: 0 <= i < |s| ==> t[i] == Show(s[i], rs[i], o)
  {
    seq(|s|, i requires 0 <= i < |s| => Show(s[i], rs[i], o))
  }

  function MaskFrom(s: Text, m: Region, o: Options): (t: Text)
    ensures |t| == |s|
  {
    ShowAll(s, Regions(s, m), o)
  }

  function Mask(s: Text, o: Options): (t: Text)
    ensures |t| == |s|
  {
    MaskFrom(s, Plain, o)
  }

  /** A comment opened as one the server would execute. */
  predicate OpensExecutable(s: Text, m: Region) {
    m.Plain? && |s| > 2 && s[0] == SLASH && s[1] == STAR &&
    (s[2] == BANG || (|s| > 3 && (s[2] == 77 || s[2] == 109) && s[3] == BANG))
  }

  /** A backslash before the closing quote, whose meaning depends on sql_mode. */
  predicate EscapesQuote(s: Text, m: Region) {
    m.Quoted? && m.quote != BACKTICK && |s| > 1 && s[0] == BACKSLASH && s[1] == m.quote
  }

  function TokenWarns(s: Text, m: Region): Warnings {
    Warnings(OpensExecutable(s, m), EscapesQuote(s, m))
  }

  function Warned(s: Text, m: Region): Warnings {
    if s == [] then QUIET else
      var (n, next) := Move(s, m);
      TokenWarns(s, m).Or(Warned(s[n..], next))
  }

  /** The loop's state variables, read as a state of the lexer. */
  function StateOf(quote: Byte, lineComment: bool, blockComment: bool): Region {
    if lineComment then LineComment
    else if blockComment then BlockComment
    else if quote != 0 then Quoted(quote)
    else Plain
  }

  method ScanSQL(sql: Text, o: Options) returns (masked: Text, executable: bool, ambiguous: bool)
    ensures masked == Mask(sql, o)
    ensures Warnings(executable, ambiguous) == Warned(sql, Plain)
  {
    hide Regions, Warned, Move;
    var buffer := new Byte[|sql|](i requires 0 <= i < |sql| => sql[i]);
    var quote: Byte := 0;
    var lineComment, blockComment := false, false;
    executable, ambiguous := false, false;
    ghost var target, m, seen := Mask(sql, o), Plain, QUIET;
    var i := 0;
    while i < buffer.Length
      invariant 0 <= i <= buffer.Length == |sql|
      invariant StateValid(quote, lineComment, blockComment) && m == StateOf(quote, lineComment, blockComment)
      invariant Halfway(buffer[..], sql, target, i)
      invariant seen == Warnings(executable, ambiguous)
      invariant Scanned(sql, i, m, seen)
    {
      TokenDisplay(sql, o, i, m, seen);
      var length, opens, escapes;
      length, quote, lineComment, blockComment, opens, escapes :=
        Advance(buffer, i, sql, target, o, quote, lineComment, blockComment);
      m, seen := NextToken(sql, i, m, seen, length);
      executable, ambiguous, i := executable || opens, ambiguous || escapes, i + length;
    }
    masked := buffer[..];
    NothingLeft(sql, m, seen);
  }

  /** The first `i` bytes of the buffer are masked and the rest is untouched. */
  ghost predicate Halfway(buffer: Text, sql: Text, target: Text, i: nat) {
    && |buffer| == |sql| == |target| && i <= |sql|
    && (forall k :: 0 <= k < i ==> buffer[k] == target[k])
    && (forall k :: i <= k < |sql| ==> buffer[k] == sql[k])
  }

  /** After `i` bytes, the lexer is in state `m` at a token boundary and `seen` covers what was read. */
  ghost predicate Scanned(sql: Text, i: nat, m: Region, seen: Warnings) {
    && i <= |sql|
    && Regions(sql[i..], m) == Regions(sql, Plain)[i..]
    && Warned(sql, Plain) == seen.Or(Warned(sql[i..], m))
  }

  /** The token at `i` is shown in `target` as its region asks. */
  ghost predicate TokenShown(sql: Text, target: Text, o: Options, i: nat, m: Region)
    requires i < |sql| == |target|
  {
    var (n, next) := Move(sql[i..], m);
    forall k :: i <= k < i + n ==> target[k] == Show(sql[k], Covered(m, next), o)
  }

  predicate StateValid(quote: Byte, lineComment: bool, blockComment: bool) {
    !(lineComment && blockComment) && (quote != 0 ==> IsQuote(quote) && !lineComment && !blockComment)
  }

  /** One turn of the scanning loop: masks a token in place and updates the flags. */
  method Advance(
    buffer: array<Byte>, i: nat, ghost sql: Text, ghost target: Text, o: Options,
    quote0: Byte, lineComment0: bool, blockComment0: bool)
    returns (length: nat, quote: Byte, lineComment: bool, blockComment: bool, executable: bool, ambiguous: bool)
    requires i < buffer.Length && Halfway(buffer[..], sql, target, i)
    requires StateValid(quote0, lineComment0, blockComment0)
    requires TokenShown(sql, target, o, i, StateOf(quote0, lineComment0, blockComment0))
    modifies buffer
    ensures StateValid(quote, lineComment, blockComment)
    ensures var m := StateOf(quote0, lineComment0, blockComment0);
            && Move(sql[i..], m) == (length, StateOf(quote, lineComment, blockComment))
            && Warnings(executable, ambiguous) == TokenWarns(sql[i..], m)
    ensures Halfway(buffer[..], sql, target, i + length)
  {
    quote, lineComment, blockComment := quote0, lineComment0, blockComment0;
    executable, ambiguous := false, false;
    length := 1;
    var b := buffer[i];
    if lineComment {
      if b == LF || b == CR {
        lineComment := false;
      } else {
        buffer[i] := Blank(b);
      }
    } else if blockComment {
      buffer[i] := Blank(b);
      if b == STAR && i + 1 < buffer.Length && buffer[i + 1] == SLASH {
        buffer[i + 1] := Blank(SLASH);
        length := 2;
        blockComment := false;
      }
    } else if quote != 0 {
      var masking := o.maskStrings && (quote == QUOTE || o.maskIdentifiers);
      if masking {
        buffer[i] := Blank(b);
      }
      if b == BACKSLASH && quote != BACKTICK && i + 1 < buffer.Length {
        ambiguous := buffer[i + 1] == quote;
        length := 2;
        if masking {
          buffer[i + 1] := Blank(buffer[i + 1]);
        }
      } else if b == quote {
        if i + 1 < buffer.Length && buffer[i + 1] == quote {
          length := 2;
          if masking {
            buffer[i + 1] := Blank(buffer[i + 1]);
          }
        } else {
          quote := 0;
        }
      }
    } else if IsGap(b) {
      buffer[i] := Blank(b);
    } else if b == QUOTE || b == DQUOTE || b == BACKTICK {
      quote := b;
      if o.maskStrings && (quote == QUOTE || o.maskIdentifiers) {
        buffer[i] := Blank(b);
      }
    } else if b == HASH {
      lineComment := true;
      buffer[i] := Blank(b);
    } else if b == SLASH {
      if i + 1 < buffer.Length && buffer[i + 1] == STAR {
        if i + 2 < buffer.Length && buffer[i + 2] == BANG {
          executable := true;
        }
        if i + 3 < buffer.Length && (buffer[i + 2] == 77 || buffer[i + 2] == 109) && buffer[i + 3] == BANG {
          executable := true;
        }
        blockComment := true;
        buffer[i], buffer[i + 1] := Blank(b), Blank(STAR);
        length := 2;
      }
    } else if b == DASH {
      if i + 1 < buffer.Length && buffer[i + 1] == DASH && (i + 2 == buffer.Length || IsGap(buffer[i + 2])) {
        lineComment := true;
        buffer[i], buffer[i + 1] := Blank(b), Blank(DASH);
        length := 2;
      }
    }
  }

  /** A token's bytes are shown as its region asks. */
  lemma TokenDisplay(sql: Text, o: Options, i: nat, m: Region, seen: Warnings)
    requires i < |sql| && Scanned(sql, i, m, seen)
    ensures TokenShown(sql, Mask(sql, o), o, i, m)
  {
    var (n, next) := Move(sql[i..], m);
    forall k | i <= k < i + n ensures Regions(sql, Plain)[k] == Covered(m, next) {
      assert Regions(sql, Plain)[k] == Regions(sql, Plain)[i..][k - i];
    }
  }

  /** After a token the lexer stands at the next one. */
  lemma NextToken(sql: Text, i: nat, m: Region, seen: Warnings, length: nat) returns (next: Region, seen': Warnings)
    requires i < |sql| && Scanned(sql, i, m, seen) && length == Move(sql[i..], m).0
    ensures next == Move(sql[i..], m).1 && seen' == seen.Or(TokenWarns(sql[i..], m))
    ensures Scanned(sql, i + length, next, seen')
  {
    next, seen' := Move(sql[i..], m).1, seen.Or(TokenWarns(sql[i..], m));
    assert sql[i..][length..] == sql[i + length..];
    assert Regions(sql, Plain)[i + length..] == Regions(sql[i..], m)[length..];
  }

  lemma NothingLeft(sql: Text, m: Region, seen: Warnings)
    requires Scanned(sql, |sql|, m, seen)
    ensures Warned(sql, Plain) == seen
  {
  }

  /** Masking keeps the length and every line break, and changes other bytes only to spaces. */
  lemma MaskShape(s: Text, m: Region, o: Options)
    ensures |MaskFrom(s, m, o)| == |s|
    ensures forall i :: 0 <= i < |s| ==> MaskFrom(s, m, o)[i] == s[i] || MaskFrom(s, m, o)[i] == SPACE
    ensures forall i :: 0 <= i < |s| && (s[i] == LF || s[i] == CR) ==> MaskFrom(s, m, o)[i] == s[i]
  {
  }

  /** Plain code holds no quote, no `#` and no comment opener. */
  lemma {:induction false} PlainCode(s: Text, m: Region, i: nat)
    requires i < |s| && Regions(s, m)[i].Plain?
    ensures !IsQuote(s[i]) && s[i] != HASH
    ensures s[i] == SLASH && i + 1 < |s| ==> s[i + 1] != STAR
    decreases |s|
  {
    hide Move, Covered;
    var (n, next) := Move(s, m);
    if i < n {
      PlainToken(s, m);
    } else {
      PlainCode(s[n..], next, i - n);
    }
  }

  /** A token of plain code is one byte that opens nothing. */
  lemma PlainToken(s: Text, m: Region)
    requires s != [] && Covered(m, Move(s, m).1).Plain?
    ensures Move(s, m).0 == 1 && !IsQuote(s[0]) && s[0] != HASH
    ensures s[0] == SLASH && |s| > 1 ==> s[1] != STAR
  {
  }

  /** Fully masked text shows only code: no quote, no comment opener, nothing from inside a region. */
  lemma FullyMasked(s: Text, i: nat)
    requires i < |s|
    ensures var t := Mask(s, EVERYTHING);
            && !IsQuote(t[i]) && t[i] != HASH
            && (i + 1 < |s| ==> !(t[i] == SLASH && t[i + 1] == STAR))
            && (t[i] != SPACE && t[i] != LF && t[i] != CR ==> Regions(s, Plain)[i].Plain? && t[i] == s[i])
  {
    hide Regions, Move;
    if Regions(s, Plain)[i].Plain? {
      PlainCode(s, Plain, i);
    }
  }

  /** From comments only, to strings, to everything: what is hidden only grows. */
  lemma MaskGrows(s: Text, m: Region, i: nat)
    requires i < |s|
    ensures Hidden(Regions(s, m)[i], COMMENTS_ONLY) ==> Hidden(Regions(s, m)[i], STRINGS)
    ensures Hidden(Regions(s, m)[i], STRINGS) ==> Hidden(Regions(s, m)[i], EVERYTHING)
    ensures MaskFrom(s, m, STRINGS)[i] == MaskFrom(s, m, COMMENTS_ONLY)[i] || MaskFrom(s, m, STRINGS)[i] == SPACE
    ensures MaskFrom(s, m, EVERYTHING)[i] == MaskFrom(s, m, STRINGS)[i] || MaskFrom(s, m, EVERYTHING)[i] == SPACE
    ensures MaskFrom(s, m, EVERYTHING)[i] == s[i] ==> MaskFrom(s, m, STRINGS)[i] == s[i]
    ensures MaskFrom(s, m, STRINGS)[i] == s[i] ==> MaskFrom(s, m, COMMENTS_ONLY)[i] == s[i]
  {
  }
}
