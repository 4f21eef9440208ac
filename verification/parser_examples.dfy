/** The input/output pairs pinned down by tests/test_move_parser.py, and the
    quirks of parse_move and normalize_command on concrete utterances. Each
    example takes its utterance as a parameter fixed by its precondition and
    is assembled from small steps, one group of replacements at a time. */
module ParserExamples {
  import opened Common
  import opened Text
  import opened MoveParser

  /** Text without "q", "r", "i", "k" or "=" names no promotion piece. */
  lemma NoPromotion(n: string)
    requires 'q' !in n && 'r' !in n && 'i' !in n && 'k' !in n && '=' !in n
    ensures ExtractPromotion(n).None?
  {
    MissingCharNotContained(n, "queen", 'q');
    MissingCharNotContained(n, "rook", 'r');
    MissingCharNotContained(n, "bishop", 'i');
    MissingCharNotContained(n, "knight", 'k');
    PromoShorthandSpec(n);
  }

  /** Off the UCI path, parse_move renders the candidate of the normalised
      text. */
  lemma SanPath(text: string, n: string, m: SanMove)
    requires !UciShaped(Raw(text))
    requires Normalize(text) == n && Extract(n) == Some(m)
    ensures ParseMove(text) == Some(Render(m))
  {
  }

  /** A text missing the letters t, c, m, g, b, k and r holds none of the
      table's keys other than "queen ", so those entries leave it alone. */
  lemma {:induction false} KeysAbsent(u: string)
    requires 't' !in u && 'c' !in u && 'm' !in u && 'g' !in u
    requires 'b' !in u && 'k' !in u && 'r' !in u
    ensures ReplaceAll(u, "takes", "x") == u
    ensures ReplaceAll(u, "captures", "x") == u
    ensures ReplaceAll(u, "take", "x") == u
    ensures ReplaceAll(u, "capture", "x") == u
    ensures ReplaceAll(u, "pawn to ", "") == u
    ensures ReplaceAll(u, "move ", "") == u
    ensures ReplaceAll(u, "go to ", "") == u
    ensures ReplaceAll(u, "bishop ", "b") == u
    ensures ReplaceAll(u, "knight ", "n") == u
    ensures ReplaceAll(u, "rook ", "r") == u
    ensures ReplaceAll(u, "king ", "k") == u
  {
    ReplaceMissing(u, "takes", "x", 't');
    ReplaceMissing(u, "captures", "x", 'c');
    ReplaceMissing(u, "take", "x", 't');
    ReplaceMissing(u, "capture", "x", 'c');
    ReplaceMissing(u, "pawn to ", "", 't');
    ReplaceMissing(u, "move ", "", 'm');
    ReplaceMissing(u, "go to ", "", 'g');
    ReplaceMissing(u, "bishop ", "b", 'b');
    ReplaceMissing(u, "knight ", "n", 'k');
    ReplaceMissing(u, "rook ", "r", 'r');
    ReplaceMissing(u, "king ", "k", 'k');
  }

  /** A text missing "k", "r" and "q" holds none of the last piece keys,
      so those entries leave it alone. */
  lemma LaterPiecesAbsent(u: string)
    requires 'k' !in u && 'r' !in u && 'q' !in u
    ensures ReplaceAll(u, "knight ", "n") == u
    ensures ReplaceAll(u, "rook ", "r") == u
    ensures ReplaceAll(u, "queen ", "q") == u
    ensures ReplaceAll(u, "king ", "k") == u
  {
    ReplaceMissing(u, "knight ", "n", 'k');
    ReplaceMissing(u, "rook ", "r", 'r');
    ReplaceMissing(u, "queen ", "q", 'q');
    ReplaceMissing(u, "king ", "k", 'k');
  }

  // ---------------------------------------------------------------------
  // "knight to e5" -> "Ne5"
  // ---------------------------------------------------------------------

  lemma KnightCaptureWords(t: string)
    requires t == "knight to e5"
    ensures ReplaceAll(t, "takes", "x") == t
    ensures ReplaceAll(t, "captures", "x") == t
    ensures ReplaceAll(t, "take", "x") == t
    ensures ReplaceAll(t, "capture", "x") == t
  {
    ReplaceMissing(t, "takes", "x", 'a');
    ReplaceMissing(t, "captures", "x", 'a');
    ReplaceMissing(t, "take", "x", 'a');
    ReplaceMissing(t, "capture", "x", 'a');
  }

  lemma KnightFillers(t: string)
    requires t == "knight to e5"
    ensures ReplaceAll(t, "pawn to ", "") == t
    ensures ReplaceAll(t, "move ", "") == t
    ensures ReplaceAll(t, "go to ", "") == t
  {
    ReplaceMissing(t, "pawn to ", "", 'a');
    ReplaceMissing(t, "move ", "", 'm');
    MisalignedNotContained(t, "go to ", 1);
    ReplaceAllFacts(t, "go to ", "");
  }

  lemma KnightPieceWord(t: string)
    requires t == "knight to e5"
    ensures ReplaceAll(t, "bishop ", "b") == t
    ensures ReplaceAll(t, "knight ", "n") == "nto e5"
  {
    ReplaceMissing(t, "bishop ", "b", 'b');
    KnightWordReplaced(t, "", "knight ", "to e5");
  }

  lemma KnightWordReplaced(t: string, a: string, p: string, b: string)
    requires t == "knight to e5" && a == "" && p == "knight " && b == "to e5"
    ensures ReplaceAll(t, p, "n") == "nto e5"
  {
    MissingCharNotContained(a + p[..|p| - 1], p, ' ');
    ReplaceFirst(a, p, "n", b);
    ReplaceMissing(b, p, "n", 'k');
    assert a + p + b == t;
  }

  lemma KnightTailLetters(u: string)
    requires u == "nto e5"
    ensures 'k' !in u && 'r' !in u && 'q' !in u
  {
  }

  lemma KnightNormalized(t: string)
    requires t == "knight to e5"
    ensures Normalize(t) == "nto e5"
  {
    assert Lower(t) == t;
    MergeUnchanged(t);
    KnightCaptureWords(t);
    KnightFillers(t);
    KnightPieceWord(t);
    KnightTailLetters("nto e5");
    LaterPiecesAbsent("nto e5");
  }

  lemma KnightExtract(n: string)
    requires n == "nto e5"
    ensures Extract(n) == Some(SanMove(Some('N'), false, "e5", None))
  {
    ExtractSquareAt(n, 4);
    assert n[4..6] == "e5";
    NoPromotion(n);
  }

  lemma KnightNotUci(t: string)
    requires t == "knight to e5"
    ensures !UciShaped(Raw(t))
  {
    assert StripStart(t) == t;
    assert StripEnd(t) == t;
    assert Lower(t) == t;
  }

  /** "knight to e5" is the knight move "Ne5". */
  lemma KnightToE5(t: string)
    requires t == "knight to e5"
    ensures ParseMove(t) == Some("Ne5")
  {
    var m := SanMove(Some('N'), false, "e5", None);
    KnightNotUci(t);
    KnightNormalized(t);
    KnightExtract("nto e5");
    SanPath(t, "nto e5", m);
    assert Render(m) == "Ne5";
  }

  // ---------------------------------------------------------------------
  // "knight to e 5" -> "Ne5": a square spoken in two parts is joined
  // ---------------------------------------------------------------------

  lemma SpacedE5Merged(a: string, b: string)
    requires a == "knight to " && b == "e 5"
    ensures MergeSpacedSquares(a + b) == "knight to e5"
  {
    MergeCopiesPlainPrefix(a, b);
    assert SpacedSquareAt(b, 0);
    assert b[3..] == [];
  }

  lemma KnightE5Replaced(u: string)
    requires u == "knight to e5"
    ensures ApplyReplacements(u) == "nto e5"
  {
    KnightNormalized(u);
    assert Lower(u) == u;
    MergeUnchanged(u);
  }

  lemma SpacedKnightMerged(t: string)
    requires t == "knight to e 5"
    ensures MergeSpacedSquares(Lower(t)) == "knight to e5"
  {
    assert Lower(t) == t;
    SpacedE5Merged("knight to ", "e 5");
    assert "knight to " + "e 5" == t;
  }

  lemma SpacedKnightNormalized(t: string)
    requires t == "knight to e 5"
    ensures Normalize(t) == "nto e5"
  {
    SpacedKnightMerged(t);
    KnightE5Replaced("knight to e5");
  }

  lemma SpacedKnightNotUci(t: string)
    requires t == "knight to e 5"
    ensures !UciShaped(Raw(t))
  {
    assert StripStart(t) == t;
    assert StripEnd(t) == t;
    assert Lower(t) == t;
  }

  /** "knight to e 5", with the square spoken in two parts, is the same
      knight move "Ne5". */
  lemma KnightToSpacedE5(t: string)
    requires t == "knight to e 5"
    ensures ParseMove(t) == Some("Ne5")
  {
    var m := SanMove(Some('N'), false, "e5", None);
    SpacedKnightNotUci(t);
    SpacedKnightNormalized(t);
    KnightExtract("nto e5");
    SanPath(t, "nto e5", m);
    assert Render(m) == "Ne5";
  }

  // ---------------------------------------------------------------------
  // "move bishop to c4" -> "Bc4": whitespace after a file letter that no
  // rank digit follows is kept
  // ---------------------------------------------------------------------

  /** The "e " of "move " starts no spaced square: a "b" follows it. */
  lemma MovePrefixPlain(a: string, b: string)
    requires a == "move " && b == "bishop to c4"
    ensures forall i: nat :: i < |a| ==> !SpacedSquareAt(a + b, i)
  {
    var t := a + b;
    forall i: nat | i < |a|
      ensures !SpacedSquareAt(t, i)
    {
      if i == 3 {
        assert t[4..][0] == ' ' && t[4..][1] == 'b';
        assert SpaceRun(t[4..][1..]) == 0;
      }
    }
  }

  lemma BishopTailUnmerged(b: string)
    requires b == "bishop to c4"
    ensures MergeSpacedSquares(b) == b
  {
    MergeUnchanged(b);
  }

  lemma BishopMoveLower(t: string)
    requires t == "move bishop to c4"
    ensures Lower(t) == t
  {
  }

  lemma BishopMoveMerged(t: string)
    requires t == "move bishop to c4"
    ensures MergeSpacedSquares(Lower(t)) == t
  {
    var a := "move ";
    var b := "bishop to c4";
    BishopMoveLower(t);
    assert a + b == t;
    MovePrefixPlain(a, b);
    MergeCopiesPlainPrefix(a, b);
    BishopTailUnmerged(b);
  }

  /** A text without "k", "u" or "a" holds none of the capture verbs and no
      "pawn to ", so those five entries leave it alone. */
  lemma {:induction false} CaptureWordsAbsent(u: string)
    requires 'k' !in u && 'u' !in u && 'a' !in u
    ensures ReplaceAll(u, "takes", "x") == u
    ensures ReplaceAll(u, "captures", "x") == u
    ensures ReplaceAll(u, "take", "x") == u
    ensures ReplaceAll(u, "capture", "x") == u
    ensures ReplaceAll(u, "pawn to ", "") == u
  {
    ReplaceMissing(u, "takes", "x", 'k');
    ReplaceMissing(u, "captures", "x", 'u');
    ReplaceMissing(u, "take", "x", 'k');
    ReplaceMissing(u, "capture", "x", 'u');
    ReplaceMissing(u, "pawn to ", "", 'a');
  }

  lemma BishopMoveLetters(t: string)
    requires t == "move bishop to c4"
    ensures 'k' !in t && 'u' !in t && 'a' !in t
  {
  }

  lemma BishopMoveVerbs(t: string)
    requires t == "move bishop to c4"
    ensures ReplaceAll(t, "takes", "x") == t
    ensures ReplaceAll(t, "captures", "x") == t
    ensures ReplaceAll(t, "take", "x") == t
    ensures ReplaceAll(t, "capture", "x") == t
    ensures ReplaceAll(t, "pawn to ", "") == t
  {
    BishopMoveLetters(t);
    CaptureWordsAbsent(t);
  }

  /** "move " is dropped, leaving "bishop to c4". */
  lemma MoveWordDropped(t: string, a: string, p: string, b: string)
    requires t == "move bishop to c4" && a == "" && p == "move " && b == "bishop to c4"
    ensures ReplaceAll(t, p, "") == b
  {
    MissingCharNotContained(a + p[..|p| - 1], p, ' ');
    ReplaceFirst(a, p, "", b);
    ReplaceMissing(b, p, "", 'm');
    assert a + p + b == t;
  }

  /** "bishop " becomes "b", leaving "bto c4". */
  lemma BishopWordReplaced(u: string, a: string, p: string, b: string)
    requires u == "bishop to c4" && a == "" && p == "bishop " && b == "to c4"
    ensures ReplaceAll(ReplaceAll(u, "go to ", ""), p, "b") == "bto c4"
  {
    ReplaceMissing(u, "go to ", "", 'g');
    MissingCharNotContained(a + p[..|p| - 1], p, ' ');
    ReplaceFirst(a, p, "b", b);
    ReplaceMissing(b, p, "b", 'b');
    assert a + p + b == u;
  }

  lemma BishopTailLetters(u: string)
    requires u == "bto c4"
    ensures 'k' !in u && 'r' !in u && 'q' !in u
  {
  }

  lemma BishopMoveNormalized(t: string)
    requires t == "move bishop to c4"
    ensures Normalize(t) == "bto c4"
  {
    BishopMoveMerged(t);
    BishopMoveVerbs(t);
    MoveWordDropped(t, "", "move ", "bishop to c4");
    BishopWordReplaced("bishop to c4", "", "bishop ", "to c4");
    BishopTailLetters("bto c4");
    LaterPiecesAbsent("bto c4");
  }

  lemma BishopMoveExtract(n: string)
    requires n == "bto c4"
    ensures Extract(n) == Some(SanMove(Some('B'), false, "c4", None))
  {
    ExtractSquareAt(n, 4);
    assert n[4..6] == "c4";
    NoPromotion(n);
    assert UpperChar('b') == 'B';
  }

  lemma BishopMoveNotUci(t: string)
    requires t == "move bishop to c4"
    ensures !UciShaped(Raw(t))
  {
    assert StripStart(t) == t;
    assert StripEnd(t) == t;
    assert Lower(t) == t;
  }

  /** "move bishop to c4" is the bishop move "Bc4": the space after the
      "e" of "move" survives the merge, so "move " is dropped and the
      leading "b" names the bishop. */
  lemma MoveBishopToC4(t: string)
    requires t == "move bishop to c4"
    ensures ParseMove(t) == Some("Bc4")
  {
    var m := SanMove(Some('B'), false, "c4", None);
    BishopMoveNotUci(t);
    BishopMoveNormalized(t);
    BishopMoveExtract("bto c4");
    SanPath(t, "bto c4", m);
    assert Render(m) == "Bc4";
  }

  // ---------------------------------------------------------------------
  // "pawn e 8 queen please" -> "e8": the promotion word is eaten by the
  // "queen " entry when a space follows it
  // ---------------------------------------------------------------------

  /** The "a" of "pawn" starts no spaced square: a "w" follows it. */
  lemma PawnPrefixPlain(a: string, rest: string)
    requires a == "pawn " && rest == "e 8 queen please"
    ensures forall i: nat :: i < |a| ==> !SpacedSquareAt(a + rest, i)
  {
    var t := a + rest;
    forall i: nat | i < |a|
      ensures !SpacedSquareAt(t, i)
    {
      if i == 1 {
        assert t[2..][0] == 'w';
      }
    }
  }

  /** None of the file letters in " queen please" is followed by whitespace
      and a rank digit. */
  lemma PleaseUnmerged(b: string)
    requires b == " queen please"
    ensures MergeSpacedSquares(b) == b
  {
    MergeUnchanged(b);
  }

  /** From the file letter on, the spaced "e 8" is joined and the rest is kept. */
  lemma QueenTailMerged(e: string, b: string)
    requires e == "e 8" && b == " queen please"
    ensures MergeSpacedSquares(e + b) == "e8" + b
  {
    assert e + b == ['e'] + " " + ['8'] + b;
    MergeJoinsSquare('e', " ", '8', b);
    PleaseUnmerged(b);
  }

  lemma QueenPleaseLower(t: string)
    requires t == "pawn e 8 queen please"
    ensures Lower(t) == t
  {
  }

  /** The text is "pawn " followed by the spaced square and the rest, and the
      merged text is "pawn " followed by the merged rest. */
  lemma QueenPleaseSplit(t: string, a: string, r: string, u: string)
    requires t == "pawn e 8 queen please" && a == "pawn " && r == "e 8 queen please"
    requires u == "pawn e8 queen please"
    ensures t == a + r && r == "e 8" + " queen please"
    ensures u == a + ("e8" + " queen please")
  {
  }

  /** The spaced "e 8" is joined; the text around it is kept as it is. */
  lemma QueenPleaseMerged(t: string)
    requires t == "pawn e 8 queen please"
    ensures MergeSpacedSquares(Lower(t)) == "pawn e8 queen please"
  {
    QueenPleaseLower(t);
    QueenPleaseSplit(t, "pawn ", "e 8 queen please", "pawn e8 queen please");
    PawnPrefixPlain("pawn ", "e 8 queen please");
    MergeCopiesPlainPrefix("pawn ", "e 8 queen please");
    QueenTailMerged("e 8", " queen please");
  }

  lemma QueenPleaseLetters(u: string)
    requires u == "pawn e8 queen please"
    ensures 't' !in u && 'c' !in u && 'm' !in u && 'g' !in u
    ensures 'b' !in u && 'k' !in u && 'r' !in u
  {
  }

  /** No "q" occurs before the last five characters of "pawn e8 queen", so
      "queen " does not occur in it. */
  lemma QueenPleaseHeadPlain(x: string)
    requires x == "pawn e8 queen"
    ensures !Contains(x, "queen ")
  {
    MisalignedNotContained(x, "queen ", 0);
  }

  lemma QueenPleaseSplitWord(u: string, a: string, p: string, b: string)
    requires u == "pawn e8 queen please" && a == "pawn e8 " && p == "queen " && b == "please"
    ensures a + p + b == u && a + p[..|p| - 1] == "pawn e8 queen"
    ensures a + "q" + b == "pawn e8 qplease"
  {
  }

  /** "queen " with its trailing space occurs, so it becomes "q". */
  lemma QueenWordEaten(u: string, a: string, p: string, b: string)
    requires u == "pawn e8 queen please" && a == "pawn e8 " && p == "queen " && b == "please"
    ensures ReplaceAll(u, p, "q") == "pawn e8 qplease"
  {
    QueenPleaseSplitWord(u, a, p, b);
    QueenPleaseHeadPlain(a + p[..|p| - 1]);
    ReplaceFirst(a, p, "q", b);
    ReplaceMissing(b, p, "q", 'q');
  }

  lemma QueenPleaseNormalized(t: string)
    requires t == "pawn e 8 queen please"
    ensures Normalize(t) == "pawn e8 qplease"
  {
    var u := "pawn e8 queen please";
    QueenPleaseMerged(t);
    QueenPleaseLetters(u);
    KeysAbsent(u);
    QueenWordEaten(u, "pawn e8 ", "queen ", "please");
    ReplaceMissing("pawn e8 qplease", "king ", "k", 'k');
  }

  /** Without "queen", "rook", "bishop", "knight" or "=" the text names no
      promotion, although it holds a "q". */
  lemma QPleaseNoPromotion(n: string)
    requires n == "pawn e8 qplease"
    ensures ExtractPromotion(n).None?
  {
    MissingCharNotContained(n, "queen", 'u');
    MissingCharNotContained(n, "rook", 'r');
    MissingCharNotContained(n, "bishop", 'b');
    MissingCharNotContained(n, "knight", 'k');
    PromoShorthandSpec(n);
    assert '=' !in n;
  }

  lemma QPleaseExtract(n: string)
    requires n == "pawn e8 qplease"
    ensures Extract(n) == Some(SanMove(None, false, "e8", None))
  {
    ExtractSquareAt(n, 5);
    assert n[5..7] == "e8";
    assert 'x' !in n;
    QPleaseNoPromotion(n);
  }

  lemma QueenPleaseNotUci(t: string)
    requires t == "pawn e 8 queen please"
    ensures !UciShaped(Raw(t))
  {
    assert StripStart(t) == t;
    assert StripEnd(t) == t;
    assert Lower(t) == t;
  }

  /** "pawn e 8 queen please" is the plain pawn move "e8", not "e8=Q": the
      square is joined, but "queen" followed by a space is turned into "q"
      by the piece-word table before the promotion search runs. */
  /** The text takes the SAN-like path and reaches the pawn move to e8. */
  lemma QueenPleaseSanPath(t: string, n: string, m: SanMove)
    requires t == "pawn e 8 queen please" && n == "pawn e8 qplease"
    requires m == SanMove(None, false, "e8", None)
    ensures ParseMove(t) == Some(Render(m))
  {
    QueenPleaseNotUci(t);
    QueenPleaseNormalized(t);
    QPleaseExtract(n);
    SanPath(t, n, m);
  }

  /** "pawn e 8 queen please" is the plain pawn move "e8", not "e8=Q": the
      square is joined, but "queen" followed by a space is turned into "q"
      by the piece-word table before the promotion search runs. */
  lemma PawnE8QueenPlease(t: string)
    requires t == "pawn e 8 queen please"
    ensures ParseMove(t) == Some("e8")
  {
    var m := SanMove(None, false, "e8", None);
    QueenPleaseSanPath(t, "pawn e8 qplease", m);
    assert Render(m) == "e8";
  }

  // ---------------------------------------------------------------------
  // "pawn takes e4" -> "xe4": the pawn's origin file is not kept
  // ---------------------------------------------------------------------

  lemma TakesOnlyOnce()
    ensures "pawn " + "takes"[..4] == "pawn take"
    ensures !Contains("pawn take", "takes")
  {
    MisalignedNotContained("pawn take", "takes", 0);
  }

  lemma TakesReplacedInPlace()
    ensures ReplaceAll("pawn " + "takes" + " e4", "takes", "x")
            == "pawn " + "x" + ReplaceAll(" e4", "takes", "x")
  {
    TakesOnlyOnce();
    ReplaceFirst("pawn ", "takes", "x", " e4");
  }

  lemma PawnTakesVerb(t: string)
    requires t == "pawn takes e4"
    ensures ReplaceAll(t, "takes", "x") == "pawn x e4"
  {
    TakesReplacedInPlace();
    ReplaceMissing(" e4", "takes", "x", 't');
    assert "pawn " + "takes" + " e4" == t;
    assert "pawn " + "x" + " e4" == "pawn x e4";
  }

  /** "pawn x e4" lacks every letter `KeysAbsent` asks about, and "q". */
  lemma PawnTakesLetters(u: string)
    requires u == "pawn x e4"
    ensures 't' !in u && 'c' !in u && 'm' !in u && 'g' !in u
    ensures 'b' !in u && 'k' !in u && 'r' !in u && 'q' !in u
  {
  }

  lemma PawnTakesNormalized(t: string)
    requires t == "pawn takes e4"
    ensures Normalize(t) == "pawn x e4"
  {
    assert Lower(t) == t;
    MergeUnchanged(t);
    PawnTakesVerb(t);
    var u := "pawn x e4";
    PawnTakesLetters(u);
    KeysAbsent(u);
    ReplaceMissing(u, "queen ", "q", 'q');
  }

  lemma PawnTakesExtract(n: string)
    requires n == "pawn x e4"
    ensures Extract(n) == Some(SanMove(None, true, "e4", None))
  {
    ExtractSquareAt(n, 7);
    assert n[7..9] == "e4";
    assert n[5] == 'x';
    NoPromotion(n);
  }

  lemma PawnTakesNotUci(t: string)
    requires t == "pawn takes e4"
    ensures !UciShaped(Raw(t))
  {
    assert StripStart(t) == t;
    assert StripEnd(t) == t;
    assert Lower(t) == t;
  }

  /** "pawn takes e4" is the capture "xe4", with no origin file. */
  lemma PawnTakesE4(t: string)
    requires t == "pawn takes e4"
    ensures ParseMove(t) == Some("xe4")
  {
    var m := SanMove(None, true, "e4", None);
    PawnTakesNotUci(t);
    PawnTakesNormalized(t);
    var n := Normalize(t);
    PawnTakesExtract(n);
    SanPath(t, n, m);
    assert Render(m) == "xe4";
  }

  // ---------------------------------------------------------------------
  // "pawn e8 queen" -> "e8=Q"
  // ---------------------------------------------------------------------

  /** "queen" ends the utterance, so the key "queen " with its trailing
      space does not occur. */
  lemma PawnQueenWordKept(t: string)
    requires t == "pawn e8 queen"
    ensures ReplaceAll(t, "queen ", "q") == t
  {
    MisalignedNotContained(t, "queen ", 0);
    ReplaceAllFacts(t, "queen ", "q");
  }

  /** "pawn e8 queen" lacks every letter `KeysAbsent` asks about. */
  lemma PawnQueenLetters(t: string)
    requires t == "pawn e8 queen"
    ensures 't' !in t && 'c' !in t && 'm' !in t && 'g' !in t
    ensures 'b' !in t && 'k' !in t && 'r' !in t
  {
  }

  lemma PawnQueenNormalized(t: string)
    requires t == "pawn e8 queen"
    ensures Normalize(t) == t
  {
    assert Lower(t) == t;
    MergeUnchanged(t);
    PawnQueenLetters(t);
    KeysAbsent(t);
    PawnQueenWordKept(t);
  }

  lemma PawnQueenExtract(n: string)
    requires n == "pawn e8 queen"
    ensures Extract(n) == Some(SanMove(None, false, "e8", Some('Q')))
  {
    ExtractSquareAt(n, 5);
    assert n[5..7] == "e8";
    assert n[8..13] == "queen";
    OccursContained(n, "queen", 8);
  }

  lemma PawnQueenNotUci(t: string)
    requires t == "pawn e8 queen"
    ensures !UciShaped(Raw(t))
  {
    assert StripStart(t) == t;
    assert StripEnd(t) == t;
    assert Lower(t) == t;
  }

  /** "pawn e8 queen" is the promotion "e8=Q": the full word "queen" names
      the promotion piece without any "=". */
  lemma PawnE8Queen(t: string)
    requires t == "pawn e8 queen"
    ensures ParseMove(t) == Some("e8=Q")
  {
    var m := SanMove(None, false, "e8", Some('Q'));
    PawnQueenNotUci(t);
    PawnQueenNormalized(t);
    PawnQueenExtract(t);
    SanPath(t, t, m);
    assert Render(m) == "e8=Q";
  }

  // ---------------------------------------------------------------------
  // UCI fast path
  // ---------------------------------------------------------------------

  /** "e2e4" is returned as it is. */
  lemma UciE2E4(t: string)
    requires t == "e2e4"
    ensures ParseMove(t) == Some("e2e4")
  {
    UciE2E4Raw(t);
    var raw := Raw(t);
    assert |raw| == 4;
    assert ParseMove(t) == Some(raw[..4] + []);
    assert raw[..4] + [] == t;
  }

  lemma UciE2E4Raw(t: string)
    requires t == "e2e4"
    ensures Raw(t) == t && UciShaped(t)
  {
    assert StripStart(t) == t;
    assert StripEnd(t) == t;
    assert Lower(t) == t;
  }

  lemma UciE7E8QRaw(t: string)
    requires t == "e7e8q"
    ensures Raw(t) == t && UciShaped(t)
  {
    assert StripStart(t) == t;
    assert StripEnd(t) == t;
    assert Lower(t) == t;
  }

  /** "e7e8q" gets its promotion letter written as "=Q". */
  lemma UciE7E8Q(t: string)
    requires t == "e7e8q"
    ensures ParseMove(t) == Some("e7e8=Q")
  {
    UciE7E8QRaw(t);
    var raw := Raw(t);
    assert |raw| == 5;
    assert UpperChar(raw[4]) == 'Q';
    assert ParseMove(t) == Some(raw[..4] + ['=', UpperChar(raw[4])]);
    assert raw[..4] + ['=', 'Q'] == "e7e8=Q";
  }

  // ---------------------------------------------------------------------
  // Quirks
  // ---------------------------------------------------------------------

  lemma PawnB4Unchanged(t: string)
    requires t == "b4"
    ensures ApplyReplacements(t) == t
  {
    ReplaceMissing(t, "takes", "x", 't');
    ReplaceMissing(t, "captures", "x", 'c');
    ReplaceMissing(t, "take", "x", 't');
    ReplaceMissing(t, "capture", "x", 'c');
    ReplaceMissing(t, "pawn to ", "", 'p');
    ReplaceMissing(t, "move ", "", 'm');
    ReplaceMissing(t, "go to ", "", 'g');
    ReplaceMissing(t, "bishop ", "b", 'i');
    ReplaceMissing(t, "knight ", "n", 'k');
    ReplaceMissing(t, "rook ", "r", 'r');
    ReplaceMissing(t, "queen ", "q", 'q');
    ReplaceMissing(t, "king ", "k", 'k');
  }

  lemma PawnB4Normalized(t: string)
    requires t == "b4"
    ensures !UciShaped(Raw(t)) && Normalize(t) == t
  {
    assert StripStart(t) == t;
    assert StripEnd(t) == t;
    assert Lower(t) == t;
    MergeUnchanged(t);
    PawnB4Unchanged(t);
  }

  lemma PawnB4Extract(t: string)
    requires t == "b4"
    ensures Extract(t) == Some(SanMove(Some('B'), false, t, None))
  {
    ExtractSquareAt(t, 0);
    assert t[0..2] == t;
    NoPromotion(t);
    assert UpperChar('b') == 'B';
  }

  /** The pawn move "b4" is read as the bishop move "Bb4": a leading "b" is
      taken for the bishop even when it is the square's file. */
  lemma PawnB4ReadAsBishop(t: string)
    requires t == "b4"
    ensures ParseMove(t) == Some("Bb4")
  {
    var m := SanMove(Some('B'), false, t, None);
    PawnB4Normalized(t);
    PawnB4Extract(t);
    SanPath(t, t, m);
    assert Render(m) == "Bb4";
  }

  /** Table order matters: applied first, "takes" becomes "x"; had "take"
      come first, "takes" would become "xs". */
  lemma TakesBeforeTake(t: string)
    requires t == "takes"
    ensures ReplaceAll(t, "takes", "x") == "x"
    ensures ReplaceAll(ReplaceAll(t, "take", "x"), "takes", "x") == "xs"
  {
    ReplaceFirst("", "takes", "x", "");
    assert "" + "takes" + "" == t;
    ReplaceFirst("", "take", "x", "s");
    ReplaceMissing("s", "take", "x", 't');
    assert "" + "take" + "s" == t;
    ReplaceMissing("xs", "takes", "x", 't');
  }
}
