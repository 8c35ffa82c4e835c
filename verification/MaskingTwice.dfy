/** Masking a text that is already masked: when it changes nothing. */
module MaskingTwice {
  import opened Bytes
  import opened SqlScanner
  import opened SqlContext
  import opened SqlEdges

  /** Two dashes of code stand directly before a byte that masking hides. */
  predicate DashesMeetHidden(s: Text, rs: seq<Region>, i: nat)
    requires |rs| == |s|
  {
    i + 2 < |s| && s[i] == DASH && s[i + 1] == DASH && rs[i].Plain? && rs[i + 1].Plain? && !rs[i + 2].Plain?
  }

  /** Masking twice is masking once if and only if no two dashes of code stand directly before a hidden byte. */
  lemma MaskedTwice(s: Text)
    ensures Mask(Mask(s, EVERYTHING), EVERYTHING) == Mask(s, EVERYTHING) <==>
            forall i :: 0 <= i < |s| ==> !DashesMeetHidden(s, Regions(s, Plain), i)
  {
    hide Regions, Mask, DashesMeetHidden, DashesAt, Calm;
    var t := Mask(s, EVERYTHING);
    MaskedCalm(s);
    forall i | 0 <= i < |s| ensures DashesAt(t, i) <==> DashesMeetHidden(s, Regions(s, Plain), i) {
      MaskedDashes(s, i);
    }
    if i :| 0 <= i < |s| && DashesAt(t, i) {
      DashesHide(t, i);
      assert DashesMeetHidden(s, Regions(s, Plain), i);
    } else {
      CalmPlain(t);
      PlainMask(t);
    }
  }

  /**
   * It fails for two dashes before a quoted letter: the first pass leaves the
   * dashes before blanks, which rescan as a comment.
   */
  lemma MaskingTwiceDiffers()
    ensures var t := Mask([DASH, DASH, QUOTE, 120, QUOTE], EVERYTHING);
            t == [DASH, DASH, SPACE, SPACE, SPACE] && Mask(t, EVERYTHING) != t
  {
    var s: Text := [DASH, DASH, QUOTE, 120, QUOTE];
    assert Regions(s[4..], Quoted(QUOTE)) == [Quoted(QUOTE)];
    assert s[3..][1..] == s[4..];
    assert s[2..][1..] == s[3..] && s[1..][1..] == s[2..];
    assert Regions(s[3..], Quoted(QUOTE)) == [Quoted(QUOTE), Quoted(QUOTE)];
    assert Regions(s[2..], Plain) == [Quoted(QUOTE), Quoted(QUOTE), Quoted(QUOTE)];
    assert Regions(s[1..], Plain) == [Plain] + Regions(s[2..], Plain);
    assert Regions(s, Plain) == [Plain] + Regions(s[1..], Plain);
    MaskedTwice(s);
    assert DashesMeetHidden(s, Regions(s, Plain), 0);
  }

  // ---------- masked text ----------

  /** Text in which only two dashes can open anything, and whose white space is blank already. */
  predicate Calm(t: Text) {
    forall i :: 0 <= i < |t| ==> CalmAt(t, i)
  }

  predicate CalmAt(t: Text, i: nat)
    requires i < |t|
  {
    && !IsQuote(t[i]) && t[i] != HASH && (IsGap(t[i]) ==> Blank(t[i]) == t[i])
    && !(t[i] == SLASH && i + 1 < |t| && t[i + 1] == STAR)
  }

  /** A line comment opens here if the scanner is in code. */
  predicate DashesAt(t: Text, i: nat) {
    i + 1 < |t| && t[i] == DASH && t[i + 1] == DASH && AtGap(t[i + 2..])
  }

  lemma MaskedCalm(s: Text)
    ensures Calm(Mask(s, EVERYTHING))
  {
    hide Regions;
    forall i | 0 <= i < |s| ensures CalmAt(Mask(s, EVERYTHING), i) {
      FullyMasked(s, i);
    }
  }

  /** In masked text, a comment opens exactly where two dashes of code met something hidden. */
  lemma MaskedDashes(s: Text, i: nat)
    requires i < |s|
    ensures DashesAt(Mask(s, EVERYTHING), i) <==> DashesMeetHidden(s, Regions(s, Plain), i)
  {
    hide Regions;
    var t := Mask(s, EVERYTHING);
    assert i + 2 < |s| ==> t[i + 2..][0] == t[i + 2];
    if DashesAt(t, i) {
      FullyMasked(s, i);
      FullyMasked(s, i + 1);
      NoCommentHere(s, i);
    }
  }

  /** Two dashes of code are not followed by white space or the end. */
  lemma NoCommentHere(s: Text, i: nat)
    requires i + 1 < |s| && s[i] == DASH && s[i + 1] == DASH && Regions(s, Plain)[i].Plain?
    ensures i + 2 < |s| && !IsGap(s[i + 2])
  {
    hide Regions, ViewOf;
    PlainBoundary(s, Plain, i);
    RegionsStep(s[i..], Plain);
    assert Regions(s[i..], Plain)[0] == Regions(s, Plain)[i];
    assert s[i..][0] == s[i] && s[i..][1] == s[i + 1] && s[i..][2..] == s[i + 2..];
  }

  // ---------- scanning it again ----------

  /** Calm text without such dashes is code throughout. */
  lemma {:induction false} CalmPlain(t: Text)
    requires Calm(t) && forall i :: 0 <= i < |t| ==> !DashesAt(t, i)
    ensures Regions(t, Plain) == AllPlain(|t|)
    decreases |t|
  {
    hide Regions;
    if t == [] {
      assert Regions(t, Plain) == [];
    } else {
      CalmMove(t);
      CalmRest(t);
      forall i | 0 <= i < |t[1..]| ensures !DashesAt(t[1..], i) {
        DashesRest(t, i + 1);
      }
      CalmPlain(t[1..]);
      RegionsStep(t, Plain);
      assert [Plain] + AllPlain(|t| - 1) == AllPlain(|t|);
    }
  }

  lemma CalmMove(t: Text)
    requires t != [] && Calm(t)
    ensures Move(t, Plain) == if DashesAt(t, 0) then (2, LineComment) else (1, Plain)
  {
    assert CalmAt(t, 0);
  }

  lemma CalmRest(t: Text)
    requires t != [] && Calm(t)
    ensures Calm(t[1..])
  {
    forall i | 0 <= i < |t| - 1 ensures CalmAt(t[1..], i) {
      assert CalmAt(t, i + 1);
    }
  }

  lemma DashesRest(t: Text, i: nat)
    requires 0 < i < |t|
    ensures DashesAt(t[1..], i - 1) == DashesAt(t, i)
  {
    if i + 1 < |t| {
      assert t[1..][i + 1..] == t[i + 2..];
    }
  }

  lemma PlainMask(t: Text)
    requires Calm(t) && Regions(t, Plain) == AllPlain(|t|)
    ensures Mask(t, EVERYTHING) == t
  {
    hide Regions;
    forall i | 0 <= i < |t| ensures Mask(t, EVERYTHING)[i] == t[i] {
      assert CalmAt(t, i) && Regions(t, Plain)[i] == Plain;
    }
  }

  /** Such dashes are blanked, the first of them at the latest. */
  lemma {:induction false} DashesHide(t: Text, i: nat)
    requires Calm(t) && DashesAt(t, i)
    ensures Mask(t, EVERYTHING) != t
    decreases |t|
  {
    hide Regions, Calm, DashesAt, Mask;
    assert t != [] && i < |t| by { DashesRange(t, i); }
    CalmMove(t);
    if DashesAt(t, 0) {
      DashesBlanked(t);
    } else {
      CalmRest(t);
      DashesRest(t, i);
      DashesHide(t[1..], i - 1);
      MaskRest(t);
    }
  }

  lemma DashesRange(t: Text, i: nat)
    requires DashesAt(t, i)
    ensures i + 1 < |t|
  {
  }

  lemma DashesBlanked(t: Text)
    requires DashesAt(t, 0)
    ensures Mask(t, EVERYTHING) != t
  {
    hide Regions;
    RegionsStep(t, Plain);
    assert Mask(t, EVERYTHING)[0] == SPACE;
  }

  lemma MaskRest(t: Text)
    requires t != [] && Move(t, Plain) == (1, Plain)
    ensures Mask(t, EVERYTHING)[1..] == Mask(t[1..], EVERYTHING)
  {
    hide Regions, Move;
    RegionsStep(t, Plain);
    assert t == [t[0]] + t[1..];
    ShowJoin([t[0]], [Plain], t[1..], Regions(t[1..], Plain), EVERYTHING);
  }
}
