/** The utterance-to-move-string parser of voice_input/move_parser.py:
    normalisation of the transcribed text, square and promotion extraction,
    and assembly of either a UCI string (`e2e4`, `e7e8=Q`) or a SAN-like
    string `[piece][x]square[=P]`. Each regular expression of the parser is a
    fixed pattern and is written here as an explicit scanner. */
module MoveParser {
  import opened Common
  import opened Text

  predicate IsFile(c: char) { 'a' <= c <= 'h' }

  predicate IsRank(c: char) { '1' <= c <= '8' }

  /** A square name such as "e4". */
  predicate IsSquare(s: string)
  {
    |s| == 2 && IsFile(s[0]) && IsRank(s[1])
  }

  /** The pattern `[a-h][1-8]` matches at index `i`. */
  predicate SquareAt(t: string, i: int)
  {
    0 <= i && i + 1 < |t| && IsFile(t[i]) && IsRank(t[i + 1])
  }

  // ---------------------------------------------------------------------
  // normalize_command
  // ---------------------------------------------------------------------

  /** Length of the whitespace run at the start of `t`. */
  function SpaceRun(t: string): (k: nat)
    ensures k <= |t|
  {
    if |t| > 0 && IsSpace(t[0]) then 1 + SpaceRun(t[1..]) else 0
  }

  /** The run is all whitespace and is maximal. */
  lemma {:induction false} SpaceRunSpec(t: string)
    ensures var k := SpaceRun(t);
            && (forall m :: 0 <= m < k ==> IsSpace(t[m]))
            && (k == |t| || !IsSpace(t[k]))
  {
    if |t| > 0 && IsSpace(t[0]) {
      SpaceRunSpec(t[1..]);
    }
  }

  /** The pattern `([a-h])\s+([1-8])` matches at index `i`. The greedy `\s+`
      can only be followed by the rank digit, so the match uses the whole
      whitespace run. */
  predicate SpacedSquareAt(t: string, i: nat)
  {
    && i < |t|
    && IsFile(t[i])
    && var k := SpaceRun(t[i + 1..]);
       k > 0 && i + 1 + k < |t| && IsRank(t[i + 1 + k])
  }

  /** `re.sub(r"([a-h])\s+([1-8])", r"\1\2", t)`: scanning left to right, a
      file letter separated from a rank digit by whitespace is joined to it;
      everything else is copied. */
  function MergeSpacedSquares(t: string): string
    decreases |t|
  {
    if |t| == 0 then []
    else if SpacedSquareAt(t, 0) then
      var k := SpaceRun(t[1..]);
      SpaceRunSpec(t[1..]);
      [t[0], t[1 + k]] + MergeSpacedSquares(t[2 + k..])
    else
      [t[0]] + MergeSpacedSquares(t[1..])
  }

  /** The text with every whitespace character deleted. */
  ghost function DropSpaces(s: string): string
  {
    if |s| == 0 then [] else (if IsSpace(s[0]) then [] else [s[0]]) + DropSpaces(s[1..])
  }

  lemma {:induction false} DropSpacesAppend(a: string, b: string)
    ensures DropSpaces(a + b) == DropSpaces(a) + DropSpaces(b)
    decreases |a|
  {
    if |a| == 0 {
      assert a + b == b;
    } else {
      assert (a + b)[1..] == a[1..] + b;
      DropSpacesAppend(a[1..], b);
    }
  }

  lemma {:induction false} DropSpacesOfSpaces(s: string)
    requires forall m :: 0 <= m < |s| ==> IsSpace(s[m])
    ensures DropSpaces(s) == []
    decreases |s|
  {
    if |s| > 0 {
      DropSpacesOfSpaces(s[1..]);
    }
  }

  /** Helper for `MergeOnlyDropsSpaces`: the whitespace between a file
      letter and its rank digit contributes nothing. */
  lemma DropSpacesOfSpacedSquare(t: string, k: nat)
    requires SpacedSquareAt(t, 0) && k == SpaceRun(t[1..])
    ensures DropSpaces(t) == DropSpaces([t[0], t[1 + k]]) + DropSpaces(t[2 + k..])
  {
    assert t[0 + 1..] == t[1..];
    assert 1 + k < |t|;
    SpaceRunSpec(t[1..]);
    var rest := t[2 + k..];
    var gap := t[1..1 + k];
    assert t[..1 + k] == [t[0]] + gap;
    assert t[..2 + k] == t[..1 + k] + [t[1 + k]];
    assert t == t[..2 + k] + rest;
    forall m | 0 <= m < |gap|
      ensures IsSpace(gap[m])
    {
      assert gap[m] == t[1..][m];
    }
    DropSpacesOfSpaces(gap);
    DropSpacesAppend([t[0]] + gap + [t[1 + k]], rest);
    DropSpacesAppend([t[0]] + gap, [t[1 + k]]);
    DropSpacesAppend([t[0]], gap);
    assert [t[0], t[1 + k]] == [t[0]] + [t[1 + k]];
    DropSpacesAppend([t[0]], [t[1 + k]]);
  }

  /** Merging spaced squares deletes whitespace and nothing else: the
      non-space characters come out unchanged and in order. */
  lemma {:induction false} MergeOnlyDropsSpaces(t: string)
    ensures DropSpaces(MergeSpacedSquares(t)) == DropSpaces(t)
    decreases |t|
  {
    if |t| == 0 {
    } else if SpacedSquareAt(t, 0) {
      var k := SpaceRun(t[1..]);
      var rest := t[2 + k..];
      MergeOnlyDropsSpaces(rest);
      DropSpacesOfSpacedSquare(t, k);
      DropSpacesAppend([t[0], t[1 + k]], MergeSpacedSquares(rest));
    } else {
      MergeOnlyDropsSpaces(t[1..]);
      assert t == [t[0]] + t[1..];
      DropSpacesAppend([t[0]], t[1..]);
      DropSpacesAppend([t[0]], MergeSpacedSquares(t[1..]));
    }
  }

  /** The replacement table of normalize_command, applied entry by entry in
      its iteration order: capture verbs (each longer form before its
      prefix), then filler phrases, then piece words with their trailing
      space. */
  function ApplyReplacements(t: string): string
  {
    var t1 := ReplaceAll(t, "takes", "x");
    var t2 := ReplaceAll(t1, "captures", "x");
    var t3 := ReplaceAll(t2, "take", "x");
    var t4 := ReplaceAll(t3, "capture", "x");
    var t5 := ReplaceAll(t4, "pawn to ", "");
    var t6 := ReplaceAll(t5, "move ", "");
    var t7 := ReplaceAll(t6, "go to ", "");
    var t8 := ReplaceAll(t7, "bishop ", "b");
    var t9 := ReplaceAll(t8, "knight ", "n");
    var t10 := ReplaceAll(t9, "rook ", "r");
    var t11 := ReplaceAll(t10, "queen ", "q");
    ReplaceAll(t11, "king ", "k")
  }

  lemma ReplaceKeepsNoUpper(t: string, p: string, r: string)
    requires |p| > 0 && NoUpper(t) && NoUpper(r)
    ensures NoUpper(ReplaceAll(t, p, r))
  {
    ReplaceAllFacts(t, p, r);
  }

  /** The replacements introduce no upper-case letter. */
  lemma ApplyReplacementsNoUpper(t: string)
    requires NoUpper(t)
    ensures NoUpper(ApplyReplacements(t))
  {
    var t1 := ReplaceAll(t, "takes", "x");
    ReplaceKeepsNoUpper(t, "takes", "x");
    var t2 := ReplaceAll(t1, "captures", "x");
    ReplaceKeepsNoUpper(t1, "captures", "x");
    var t3 := ReplaceAll(t2, "take", "x");
    ReplaceKeepsNoUpper(t2, "take", "x");
    var t4 := ReplaceAll(t3, "capture", "x");
    ReplaceKeepsNoUpper(t3, "capture", "x");
    var t5 := ReplaceAll(t4, "pawn to ", "");
    ReplaceKeepsNoUpper(t4, "pawn to ", "");
    var t6 := ReplaceAll(t5, "move ", "");
    ReplaceKeepsNoUpper(t5, "move ", "");
    var t7 := ReplaceAll(t6, "go to ", "");
    ReplaceKeepsNoUpper(t6, "go to ", "");
    var t8 := ReplaceAll(t7, "bishop ", "b");
    ReplaceKeepsNoUpper(t7, "bishop ", "b");
    var t9 := ReplaceAll(t8, "knight ", "n");
    ReplaceKeepsNoUpper(t8, "knight ", "n");
    var t10 := ReplaceAll(t9, "rook ", "r");
    ReplaceKeepsNoUpper(t9, "rook ", "r");
    var t11 := ReplaceAll(t10, "queen ", "q");
    ReplaceKeepsNoUpper(t10, "queen ", "q");
    ReplaceKeepsNoUpper(t11, "king ", "k");
  }

  /** Merging copies characters of the text only and never lengthens it. */
  lemma {:induction false} MergeKeepsChars(t: string)
    ensures |MergeSpacedSquares(t)| <= |t|
    ensures forall c :: c in MergeSpacedSquares(t) ==> c in t
    decreases |t|
  {
    if |t| == 0 {
    } else if SpacedSquareAt(t, 0) {
      var k := SpaceRun(t[1..]);
      SpaceRunSpec(t[1..]);
      MergeKeepsChars(t[2 + k..]);
    } else {
      MergeKeepsChars(t[1..]);
    }
  }

  /** Text in which no file letter is followed by whitespace is left alone
      by the merge. */
  lemma {:induction false} MergeUnchanged(t: string)
    requires forall i :: 0 <= i < |t| - 1 && IsFile(t[i]) ==> !IsSpace(t[i + 1])
    ensures MergeSpacedSquares(t) == t
    decreases |t|
  {
    if |t| > 0 {
      assert !SpacedSquareAt(t, 0);
      MergeUnchanged(t[1..]);
      assert t == [t[0]] + t[1..];
    }
  }

  /** The merged text starts with the text's first character. */
  lemma MergeFirstChar(u: string)
    requires |u| > 0
    ensures |MergeSpacedSquares(u)| > 0 && MergeSpacedSquares(u)[0] == u[0]
  {
  }

  /** The merge copies a leading whitespace run and the character after
      it. */
  lemma {:induction false} MergeKeepsLeadingRun(u: string)
    ensures SpaceRun(MergeSpacedSquares(u)) == SpaceRun(u)
    ensures SpaceRun(u) < |u| ==>
              SpaceRun(u) < |MergeSpacedSquares(u)| && MergeSpacedSquares(u)[SpaceRun(u)] == u[SpaceRun(u)]
    decreases |u|
  {
    if |u| > 0 && IsSpace(u[0]) {
      assert !SpacedSquareAt(u, 0);
      var tail := MergeSpacedSquares(u[1..]);
      MergeKeepsLeadingRun(u[1..]);
      assert MergeSpacedSquares(u) == [u[0]] + tail;
      assert ([u[0]] + tail)[1..] == tail;
    } else if |u| > 0 {
      MergeFirstChar(u);
    }
  }

  /** Whether a spaced square starts at an index of `b` does not change
      when text is put in front of `b`. */
  lemma SpacedSquareShift(a: string, b: string, j: nat)
    requires j < |b|
    ensures SpacedSquareAt(a + b, |a| + j) == SpacedSquareAt(b, j)
  {
    assert (a + b)[|a| + j + 1..] == b[j + 1..];
    assert (a + b)[|a| + j] == b[j];
    forall m | j + 1 <= m < |b|
      ensures (a + b)[|a| + m] == b[m]
    {
    }
  }

  /** No file letter is followed by whitespace and then a rank digit. */
  predicate NoSpacedSquare(s: string)
  {
    forall i: nat :: i < |s| ==> !SpacedSquareAt(s, i)
  }

  /** Helper for `MergeClosesGaps`: a first character that starts no
      spaced square in the text starts none in the merged text. */
  lemma CopiedHeadNoGap(t: string)
    requires |t| > 0 && !SpacedSquareAt(t, 0)
    ensures !SpacedSquareAt([t[0]] + MergeSpacedSquares(t[1..]), 0)
  {
    var rest := t[1..];
    var tail := MergeSpacedSquares(rest);
    var s := [t[0]] + tail;
    assert s[0 + 1..] == tail;
    assert t[0 + 1..] == rest;
    MergeKeepsLeadingRun(rest);
    MergeKeepsChars(rest);
    var k := SpaceRun(rest);
    if k > 0 && 1 + k < |s| {
      assert s[1 + k] == tail[k];
      assert tail[k] == rest[k];
      assert rest[k] == t[1 + k];
    }
  }

  /** A spaced square of the text becomes a plain one: the merge leaves no
      file letter followed by whitespace and then a rank digit anywhere in
      its output. */
  lemma {:induction false} MergeClosesGaps(t: string)
    ensures NoSpacedSquare(MergeSpacedSquares(t))
    decreases |t|
  {
    var s := MergeSpacedSquares(t);
    if |t| == 0 {
    } else if SpacedSquareAt(t, 0) {
      var k := SpaceRun(t[1..]);
      SpaceRunSpec(t[1..]);
      var rest := t[2 + k..];
      var head := [t[0], t[1 + k]];
      MergeClosesGaps(rest);
      assert s == head + MergeSpacedSquares(rest);
      forall i | 0 <= i < |s|
        ensures !SpacedSquareAt(s, i)
      {
        if i == 0 {
          assert s[1..][0] == t[1 + k];
        } else if i >= 2 {
          SpacedSquareShift(head, MergeSpacedSquares(rest), i - 2);
        }
      }
    } else {
      var rest := t[1..];
      var tail := MergeSpacedSquares(rest);
      MergeClosesGaps(rest);
      assert s == [t[0]] + tail;
      forall i | 0 <= i < |s|
        ensures !SpacedSquareAt(s, i)
      {
        if i == 0 {
          CopiedHeadNoGap(t);
        } else {
          var j: nat := i - 1;
          assert j < |tail|;
          assert !SpacedSquareAt(tail, j);
          SpacedSquareShift([t[0]], tail, j);
        }
      }
    }
  }

  /** A prefix at none of whose indices a spaced square starts is copied as
      it is, and the merge goes on with the rest: where the pattern does not
      match, whitespace after a file letter stays. */
  lemma {:induction false} MergeCopiesPlainPrefix(a: string, b: string)
    requires forall i: nat :: i < |a| ==> !SpacedSquareAt(a + b, i)
    ensures MergeSpacedSquares(a + b) == a + MergeSpacedSquares(b)
    decreases |a|
  {
    if |a| > 0 {
      var t := a + b;
      assert t[1..] == a[1..] + b;
      assert !SpacedSquareAt(t, 0);
      forall i: nat | i < |a[1..]|
        ensures !SpacedSquareAt(a[1..] + b, i)
      {
        SpacedSquareShift([a[0]], a[1..] + b, i);
        assert [a[0]] + (a[1..] + b) == t;
        assert !SpacedSquareAt(t, i + 1);
      }
      MergeCopiesPlainPrefix(a[1..], b);
      assert MergeSpacedSquares(t) == [a[0]] + MergeSpacedSquares(a[1..] + b);
      assert a == [a[0]] + a[1..];
    } else {
      assert a + b == b;
    }
  }

  /** The merge leaves a text unchanged exactly when no spaced square starts
      anywhere in it: whitespace after a file letter that no rank digit
      follows is kept, and every spaced square is joined. */
  lemma MergeFixesExactlyPlainText(t: string)
    ensures MergeSpacedSquares(t) == t <==> NoSpacedSquare(t)
  {
    if NoSpacedSquare(t) {
      var e: string := [];
      assert t + e == t;
      forall i: nat | i < |t|
        ensures !SpacedSquareAt(t + e, i)
      {
        assert !SpacedSquareAt(t, i);
      }
      MergeCopiesPlainPrefix(t, e);
    }
    MergeClosesGaps(t);
  }

  /** A whitespace run followed by a non-space character is exactly as long
      as the run. */
  lemma {:induction false} SpaceRunOfSpaces(w: string, rest: string)
    requires forall m :: 0 <= m < |w| ==> IsSpace(w[m])
    requires |rest| > 0 && !IsSpace(rest[0])
    ensures SpaceRun(w + rest) == |w|
    decreases |w|
  {
    if |w| == 0 {
      assert w + rest == rest;
    } else {
      assert (w + rest)[1..] == w[1..] + rest;
      SpaceRunOfSpaces(w[1..], rest);
    }
  }

  /** At a match the file letter and rank digit are written without the
      whitespace between them, and scanning resumes right after the match
      with the rest merged in the same way. */
  lemma {:induction false} MergeJoinsSquare(f: char, w: string, d: char, b: string)
    requires IsFile(f) && IsRank(d)
    requires |w| > 0 && forall m :: 0 <= m < |w| ==> IsSpace(w[m])
    ensures MergeSpacedSquares([f] + w + [d] + b) == [f, d] + MergeSpacedSquares(b)
  {
    var t := [f] + w + [d] + b;
    assert t[1..] == w + ([d] + b);
    assert t[0 + 1..] == t[1..];
    SpaceRunOfSpaces(w, [d] + b);
    var k := |w|;
    assert t[1 + k] == d;
    assert SpacedSquareAt(t, 0);
    assert t[2 + k..] == b;
  }

  /** normalize_command: lower-case, merge spaced squares, then apply the
      substitution table in order. */
  function Normalize(text: string): string
  {
    ApplyReplacements(MergeSpacedSquares(Lower(text)))
  }

  /** The normalised text holds no upper-case letter. */
  lemma NormalizeIsLowercase(text: string)
    ensures NoUpper(Normalize(text))
  {
    MergeKeepsChars(Lower(text));
    ApplyReplacementsNoUpper(MergeSpacedSquares(Lower(text)));
  }

  /** The first substitution consumes every "takes" whole: none is left for
      the later "take" entry to turn into "xs". The same holds for
      "captures" before "capture". */
  lemma CaptureVerbsConsumedWhole(t: string)
    ensures !Contains(ReplaceAll(t, "takes", "x"), "takes")
    ensures !Contains(ReplaceAll(t, "captures", "x"), "captures")
  {
    ReplaceLeavesNoKey(t, "takes", "x");
    ReplaceLeavesNoKey(t, "captures", "x");
  }

  // ---------------------------------------------------------------------
  // extract_promotion
  // ---------------------------------------------------------------------

  /** The pattern `=([qnrb])` matches at index `i`. */
  predicate PromoSuffixAt(t: string, i: int)
  {
    0 <= i && i + 1 < |t| && t[i] == '=' && t[i + 1] in "qnrb"
  }

  /** `re.search(r"=([qnrb])", t)`, upper-cased: the piece letter of the
      leftmost shorthand. */
  function PromoShorthand(t: string): Option<char>
  {
    if |t| < 2 then None
    else if t[0] == '=' && t[1] in "qnrb" then Some(UpperChar(t[1]))
    else PromoShorthand(t[1..])
  }

  /** The shorthand letter is that of the leftmost `=q`, `=n`, `=r` or `=b`,
      and there is none exactly when no such pair occurs. */
  lemma {:induction false} PromoShorthandSpec(t: string)
    ensures var r := PromoShorthand(t);
            && (r.None? <==> forall i :: !PromoSuffixAt(t, i))
            && (r.Some? ==> exists i :: PromoSuffixAt(t, i) && r.value == UpperChar(t[i + 1])
                                        && forall j :: 0 <= j < i ==> !PromoSuffixAt(t, j))
    decreases |t|
  {
    if |t| >= 2 && t[0] == '=' && t[1] in "qnrb" {
      assert PromoSuffixAt(t, 0);
    } else if |t| >= 2 {
      var u := t[1..];
      PromoShorthandSpec(u);
      assert !PromoSuffixAt(t, 0);
      forall i | 1 <= i
        ensures PromoSuffixAt(t, i) <==> PromoSuffixAt(u, i - 1)
      {
      }
      if PromoShorthand(u).Some? {
        var i :| PromoSuffixAt(u, i) && PromoShorthand(u).value == UpperChar(u[i + 1])
                 && forall j :: 0 <= j < i ==> !PromoSuffixAt(u, j);
        assert PromoSuffixAt(t, i + 1);
      } else {
        forall i
          ensures !PromoSuffixAt(t, i)
        {
          if 1 <= i {
            assert !PromoSuffixAt(u, i - 1);
          }
        }
      }
    }
  }

  /** A full piece word occurs in the text. */
  predicate MentionsPromotionWord(t: string)
  {
    Contains(t, "queen") || Contains(t, "rook") || Contains(t, "bishop") || Contains(t, "knight")
  }

  /** extract_promotion: full piece words first, in the order queen, rook,
      bishop, knight; only when none occurs, the leftmost `=q`, `=n`, `=r`
      or `=b` shorthand, upper-cased. */
  function ExtractPromotion(t: string): Option<char>
  {
    if Contains(t, "queen") then Some('Q')
    else if Contains(t, "rook") then Some('R')
    else if Contains(t, "bishop") then Some('B')
    else if Contains(t, "knight") then Some('N')
    else PromoShorthand(t)
  }

  /** The promotion is always one of Q, R, B, N. Any full piece word wins
      over the shorthand, in the priority queen > rook > bishop > knight;
      without a word the leftmost shorthand decides, and there is no
      promotion exactly when there is neither. */
  lemma ExtractPromotionSpec(t: string)
    ensures var r := ExtractPromotion(t);
            && (r.Some? ==> r.value in "QRBN")
            && (Contains(t, "queen") ==> r == Some('Q'))
            && (!Contains(t, "queen") && Contains(t, "rook") ==> r == Some('R'))
            && (!Contains(t, "queen") && !Contains(t, "rook") && Contains(t, "bishop") ==> r == Some('B'))
            && ((!Contains(t, "queen") && !Contains(t, "rook") && !Contains(t, "bishop")
                 && Contains(t, "knight")) ==> r == Some('N'))
            && (!MentionsPromotionWord(t) ==> (r.None? <==> forall i :: !PromoSuffixAt(t, i)))
            && (!MentionsPromotionWord(t) && r.Some? ==>
                  exists i :: PromoSuffixAt(t, i) && r.value == UpperChar(t[i + 1])
                              && forall j :: 0 <= j < i ==> !PromoSuffixAt(t, j))
  {
    PromoShorthandSpec(t);
  }

  // ---------------------------------------------------------------------
  // extract_square / extract_square_disambiguation
  // ---------------------------------------------------------------------

  /** extract_square: `re.search(r"[a-h][1-8]", t)`, the leftmost square
      name in the text, if any. */
  function ExtractSquare(t: string): Option<string>
  {
    if |t| < 2 then None
    else if IsFile(t[0]) && IsRank(t[1]) then Some(t[..2])
    else ExtractSquare(t[1..])
  }

  /** extract_square gives the leftmost two-character file/rank substring,
      and None exactly when the text holds none. */
  lemma {:induction false} ExtractSquareSpec(t: string)
    ensures var r := ExtractSquare(t);
            && (r.None? <==> forall i :: !SquareAt(t, i))
            && (r.Some? ==> IsSquare(r.value))
            && (r.Some? ==> exists i :: SquareAt(t, i) && r.value == t[i..i + 2]
                                        && forall j :: 0 <= j < i ==> !SquareAt(t, j))
    decreases |t|
  {
    if |t| >= 2 && IsFile(t[0]) && IsRank(t[1]) {
      assert SquareAt(t, 0);
    } else if |t| >= 2 {
      var u := t[1..];
      ExtractSquareSpec(u);
      assert !SquareAt(t, 0);
      forall i | 1 <= i
        ensures SquareAt(t, i) <==> SquareAt(u, i - 1)
      {
      }
      if ExtractSquare(u).Some? {
        var i :| SquareAt(u, i) && ExtractSquare(u).value == u[i..i + 2]
                 && forall j :: 0 <= j < i ==> !SquareAt(u, j);
        assert SquareAt(t, i + 1) && u[i..i + 2] == t[i + 1..i + 3];
      } else {
        forall i
          ensures !SquareAt(t, i)
        {
          if 1 <= i {
            assert !SquareAt(u, i - 1);
          }
        }
      }
    }
  }

  /** A square at `i` with none before it is the one extract_square finds. */
  lemma ExtractSquareAt(t: string, i: nat)
    requires SquareAt(t, i)
    requires forall j :: 0 <= j < i ==> !SquareAt(t, j)
    ensures ExtractSquare(t) == Some(t[i..i + 2])
  {
    ExtractSquareSpec(t);
    var k :| SquareAt(t, k) && ExtractSquare(t).value == t[k..k + 2]
             && forall j :: 0 <= j < k ==> !SquareAt(t, j);
    assert k == i;
  }

  /** The spelled-out ranks, in the iteration order of the `number_words`
      mapping of extract_square_disambiguation. */
  const RankWords: seq<string> := ["one", "two", "three", "four", "five", "six", "seven", "eight"]

  function RankDigit(n: nat): (c: char)
    requires n < 8
    ensures IsRank(c)
  {
    ('1' as int + n) as char
  }

  /** The pattern `([a-h])\s+<word>\b` matches at index `i`: a file letter,
      at least one whitespace character, the word, then the end of the text
      or a character that cannot continue a word. */
  predicate WordSquareAt(t: string, word: string, i: int)
  {
    0 <= i < |t| && WordSquareStarts(t[i..], word)
  }

  /** The pattern `([a-h])\s+<word>\b` matches at the start of `t`. */
  predicate WordSquareStarts(t: string, word: string)
  {
    && 0 < |t|
    && IsFile(t[0])
    && var k := SpaceRun(t[1..]);
       var j := 1 + k;
       && k > 0
       && j + |word| <= |t|
       && StartsWith(t[j..], word)
       && (j + |word| == |t| || !IsWordChar(t[j + |word|]))
  }

  /** The file letter of the leftmost `([a-h])\s+<word>\b` match. */
  function FirstWordSquare(t: string, word: string): Option<char>
  {
    if |t| == 0 then None
    else if WordSquareStarts(t, word) then Some(t[0])
    else FirstWordSquare(t[1..], word)
  }

  lemma {:induction false} FirstWordSquareSpec(t: string, word: string)
    ensures var r := FirstWordSquare(t, word);
            && (r.None? <==> forall i :: !WordSquareAt(t, word, i))
            && (r.Some? ==> exists i :: WordSquareAt(t, word, i) && r.value == t[i]
                                        && forall j :: 0 <= j < i ==> !WordSquareAt(t, word, j))
    decreases |t|
  {
    if |t| > 0 && WordSquareStarts(t, word) {
      assert t[0..] == t;
      assert WordSquareAt(t, word, 0);
    } else if |t| > 0 {
      var u := t[1..];
      FirstWordSquareSpec(u, word);
      assert t[0..] == t;
      assert !WordSquareAt(t, word, 0);
      forall i | 1 <= i
        ensures WordSquareAt(t, word, i) <==> WordSquareAt(u, word, i - 1)
      {
        if i < |t| {
          assert t[i..] == u[i - 1..];
        }
      }
      if FirstWordSquare(u, word).Some? {
        var i :| WordSquareAt(u, word, i) && FirstWordSquare(u, word).value == u[i]
                 && forall j :: 0 <= j < i ==> !WordSquareAt(u, word, j);
        assert WordSquareAt(t, word, i + 1);
      } else {
        forall i
          ensures !WordSquareAt(t, word, i)
        {
          if 1 <= i {
            assert !WordSquareAt(u, word, i - 1);
          }
        }
      }
    }
  }

  /** Tries the rank words from index `n` on, in table order; the first word
      that matches anywhere decides, with its leftmost match. */
  function SpelledSquare(t: string, n: nat): Option<string>
    requires n <= 8
    decreases 8 - n
  {
    if n == 8 then None
    else match FirstWordSquare(t, RankWords[n])
      case Some(f) => Some([f, RankDigit(n)])
      case None => SpelledSquare(t, n + 1)
  }

  /** No rank word with index in `lo..hi` matches anywhere in the text. */
  ghost predicate NoRankWordIn(t: string, lo: nat, hi: nat)
    requires hi <= 8
  {
    forall m, i :: lo <= m < hi ==> !WordSquareAt(t, RankWords[m], i)
  }

  /** A spelled square is a valid square; the first rank word (in table
      order, not text order) that matches decides, with its leftmost match;
      None when none matches. */
  lemma {:induction false} SpelledSquareSpec(t: string, n: nat)
    requires n <= 8
    ensures var r := SpelledSquare(t, n);
            && (r.Some? ==> IsSquare(r.value))
            && (r.None? <==> NoRankWordIn(t, n, 8))
            && (r.Some? ==>
                  exists m, i :: n <= m < 8 && WordSquareAt(t, RankWords[m], i)
                                 && r.value == [t[i], RankDigit(m)]
                                 && NoRankWordIn(t, n, m))
    decreases 8 - n
  {
    if n < 8 {
      FirstWordSquareSpec(t, RankWords[n]);
      SpelledSquareSpec(t, n + 1);
      match FirstWordSquare(t, RankWords[n])
      case Some(f) =>
        var i :| WordSquareAt(t, RankWords[n], i) && f == t[i];
        assert NoRankWordIn(t, n, n);
      case None =>
        assert forall i :: !WordSquareAt(t, RankWords[n], i);
        var r := SpelledSquare(t, n + 1);
        if r.Some? {
          var m, i :| n + 1 <= m < 8 && WordSquareAt(t, RankWords[m], i)
                      && r.value == [t[i], RankDigit(m)] && NoRankWordIn(t, n + 1, m);
          assert NoRankWordIn(t, n, m);
        } else {
          assert NoRankWordIn(t, n, 8);
        }
    }
  }

  /** extract_square_disambiguation: on the lower-cased, stripped text, a
      square written with a digit wins; otherwise the rank words one..eight
      are tried in that order. */
  function ExtractSquareDisambiguation(text: string): Option<string>
  {
    var t := Lower(Strip(text));
    match ExtractSquare(t)
    case Some(sq) => Some(sq)
    case None => SpelledSquare(t, 0)
  }

  /** Any result is a valid square; a digit square takes priority; None
      exactly when neither a digit square nor a spelled one is present. */
  lemma ExtractSquareDisambiguationSpec(text: string)
    ensures var t := Lower(Strip(text));
            var r := ExtractSquareDisambiguation(text);
            && (r.Some? ==> IsSquare(r.value))
            && (ExtractSquare(t).Some? ==> r == ExtractSquare(t))
            && (r.None? <==> (forall i :: !SquareAt(t, i)) && NoRankWordIn(t, 0, 8))
            && ((forall i :: !SquareAt(t, i)) && r.Some? ==>
                  exists m, i :: 0 <= m < 8 && WordSquareAt(t, RankWords[m], i)
                                 && r.value == [t[i], RankDigit(m)]
                                 && NoRankWordIn(t, 0, m))
  {
    var t := Lower(Strip(text));
    ExtractSquareSpec(t);
    SpelledSquareSpec(t, 0);
  }

  // ---------------------------------------------------------------------
  // parse_move
  // ---------------------------------------------------------------------

  /** The fields of a SAN-like move string `[piece][x]square[=P]`. */
  datatype SanMove = SanMove(piece: Option<char>, capture: bool, dest: string, promotion: Option<char>)

  predicate WellFormed(m: SanMove)
  {
    && (m.piece.Some? ==> m.piece.value in "BNRQK")
    && IsSquare(m.dest)
    && (m.promotion.Some? ==> m.promotion.value in "QRBN")
  }

  /** The string parse_move assembles from the fields. */
  function Render(m: SanMove): string
  {
    (if m.piece.Some? then [m.piece.value] else [])
    + (if m.capture then "x" else "")
    + m.dest
    + (if m.promotion.Some? then ['=', m.promotion.value] else [])
  }

  /** Reads a SAN-like move string back into its fields; None when the
      string does not have the shape `[BNRQK]?x?[a-h][1-8](=[QRBN])?`. */
  function DecodeSan(s: string): Option<SanMove>
  {
    var hasPiece := |s| > 0 && s[0] in "BNRQK";
    var a := if hasPiece then 1 else 0;
    var capture := a < |s| && s[a] == 'x';
    var b := if capture then a + 1 else a;
    if b + 2 <= |s| && IsSquare(s[b..b + 2]) then
      var piece := if hasPiece then Some(s[0]) else None;
      var rest := s[b + 2..];
      if |rest| == 0 then Some(SanMove(piece, capture, s[b..b + 2], None))
      else if |rest| == 2 && rest[0] == '=' && rest[1] in "QRBN" then
        Some(SanMove(piece, capture, s[b..b + 2], Some(rest[1])))
      else None
    else None
  }

  /** Every well-formed move string reads back as the fields it was built
      from, so the rendering is unambiguous. */
  lemma DecodeRender(m: SanMove)
    requires WellFormed(m)
    ensures DecodeSan(Render(m)) == Some(m)
  {
    var pre := (if m.piece.Some? then [m.piece.value] else []) + (if m.capture then "x" else "");
    var post := if m.promotion.Some? then ['=', m.promotion.value] else [];
    assert Render(m) == pre + m.dest + post;
    DecodeLayout(pre + m.dest + post, m, |pre|);
  }

  /** Helper for `DecodeRender`: the fields sit at the offsets the decoder
      computes. */
  lemma DecodeLayout(s: string, m: SanMove, b: nat)
    requires WellFormed(m)
    requires b == (if m.piece.Some? then 1 else 0) + (if m.capture then 1 else 0)
    requires b + 2 <= |s| && s[b..b + 2] == m.dest
    requires s[b + 2..] == if m.promotion.Some? then ['=', m.promotion.value] else []
    requires m.piece.Some? ==> s[0] == m.piece.value
    requires m.capture ==> s[b - 1] == 'x'
    ensures DecodeSan(s) == Some(m)
  {
    assert 'x' !in "BNRQK";
    assert m.dest[0] !in "BNRQK";
    assert m.dest[0] != 'x';
    assert m.piece.None? && !m.capture ==> s[0] == m.dest[0];
    assert m.piece.Some? && !m.capture ==> s[1] == m.dest[0];
  }

  /** The move candidate read off normalised text: the leftmost square is the
      destination, a leading b/n/r/q/k is the piece, any 'x' marks a capture
      (so a pawn capture keeps no origin file), and the promotion comes from
      extract_promotion. None when there is no square. */
  function Extract(n: string): Option<SanMove>
  {
    match ExtractSquare(n)
    case None => None
    case Some(sq) =>
      var piece := if |n| > 0 && n[0] in "bnrqk" then Some(UpperChar(n[0])) else None;
      Some(SanMove(piece, 'x' in n, sq, ExtractPromotion(n)))
  }

  /** The stripped, lower-cased text parse_move tests against the UCI pattern. */
  function Raw(text: string): string
  {
    Lower(Strip(text))
  }

  /** `re.fullmatch(r"([a-h][1-8])([a-h][1-8])([qnrb])?", raw)`. */
  predicate UciShaped(raw: string)
  {
    && (|raw| == 4 || |raw| == 5)
    && IsSquare(raw[..2])
    && IsSquare(raw[2..4])
    && (|raw| == 5 ==> raw[4] in "qnrb")
  }

  /** parse_move: the UCI fast path on the stripped, lower-cased text, else
      the SAN-like string assembled from the normalised text. */
  function ParseMove(text: string): Option<string>
  {
    var raw := Raw(text);
    if UciShaped(raw) then
      Some(raw[..4] + (if |raw| == 5 then ['=', UpperChar(raw[4])] else []))
    else
      match Extract(Normalize(text))
      case None => None
      case Some(m) => Some(Render(m))
  }

  /** UCI round trip: a text whose stripped, lower-cased form is UCI-shaped
      comes back with both squares copied unchanged and an optional
      promotion letter rendered as `=` and its upper case; such a string is
      never mistaken for the SAN-like shape. */
  lemma ParseMoveUci(text: string)
    requires UciShaped(Raw(text))
    ensures var raw := Raw(text);
            var r := ParseMove(text);
            && r.Some?
            && r.value[..2] == raw[..2] && r.value[2..4] == raw[2..4]
            && (|raw| == 4 ==> |r.value| == 4)
            && (|raw| == 5 ==> |r.value| == 6 && r.value[4] == '=' && r.value[5] in "QNRB"
                                && LowerChar(r.value[5]) == raw[4])
            && DecodeSan(r.value).None?
  {
    var raw := Raw(text);
    var s := ParseMove(text).value;
    assert s[2..4] == raw[2..4];
    if |raw| == 5 {
      assert s[4..] == ['=', UpperChar(raw[4])];
    }
  }

  /** No square, no move: off the UCI path, parse_move gives None exactly
      when the normalised text holds no square name. */
  lemma ParseMoveNoSquare(text: string)
    requires !UciShaped(Raw(text))
    ensures ParseMove(text).None? <==> forall i :: !SquareAt(Normalize(text), i)
  {
    ExtractSquareSpec(Normalize(text));
  }

  /** Every candidate has a square destination, an upper-case piece letter
      and a promotion among Q, R, B, N. */
  lemma ExtractWellFormed(n: string)
    requires Extract(n).Some?
    ensures WellFormed(Extract(n).value)
  {
    ExtractSquareSpec(n);
    ExtractPromotionSpec(n);
  }

  /** The candidate read off normalised text `n` renders to a string that
      reads back as `piece? x? square (=P)?`, where the piece is the
      upper-cased first character of `n` when that is b, n, r, q or k, the
      'x' is there exactly when `n` holds an 'x', the square is the leftmost
      one and the promotion is extract_promotion's. */
  lemma ExtractShape(n: string)
    requires Extract(n).Some?
    ensures var d := DecodeSan(Render(Extract(n).value));
            && d.Some?
            && WellFormed(d.value)
            && (d.value.piece.Some? <==> |n| > 0 && n[0] in "bnrqk")
            && (d.value.piece.Some? ==> d.value.piece.value == UpperChar(n[0]))
            && (d.value.capture <==> 'x' in n)
            && ExtractSquare(n) == Some(d.value.dest)
            && d.value.promotion == ExtractPromotion(n)
  {
    var m := Extract(n).value;
    ExtractWellFormed(n);
    DecodeRender(m);
    assert ExtractSquare(n) == Some(m.dest);
  }

  /** Output shape of parse_move off the UCI path: the result reads back as
      `piece? x? square (=P)?` with the fields `ExtractShape` describes for
      the normalised text. */
  lemma ParseMoveShape(text: string)
    requires !UciShaped(Raw(text))
    requires ParseMove(text).Some?
    ensures var n := Normalize(text);
            var d := DecodeSan(ParseMove(text).value);
            && d.Some?
            && WellFormed(d.value)
            && (d.value.piece.Some? <==> |n| > 0 && n[0] in "bnrqk")
            && (d.value.piece.Some? ==> d.value.piece.value == UpperChar(n[0]))
            && (d.value.capture <==> 'x' in n)
            && ExtractSquare(n) == Some(d.value.dest)
            && d.value.promotion == ExtractPromotion(n)
  {
    var n := Normalize(text);
    assert ParseMove(text).value == Render(Extract(n).value);
    ExtractShape(n);
  }

  /** Every move string parse_move produces has at least two characters. */
  lemma ParseMoveNonEmpty(text: string)
    ensures ParseMove(text).Some? ==> |ParseMove(text).value| >= 2
  {
    if !UciShaped(Raw(text)) {
      ExtractSquareSpec(Normalize(text));
    }
  }
}
