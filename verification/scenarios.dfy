/** Walkthroughs on a toy engine: in the starting position (0) White's
    knights on d3 and g4 can both reach e5, so "Ne5" is ambiguous; either
    knight move leads to the finished game 1, won by White. */
module Scenarios {
  import opened Common
  import opened Text
  import opened Board
  import opened MoveParser
  import opened MoveValidator
  import opened GameInterface
  import opened Dialog
  import ParserExamples

  const StartMoves: seq<LegalMove> := [
    LegalMove("Nde5", "d3e5", "d3", "e5", Knight),
    LegalMove("Nge5", "g4e5", "g4", "e5", Knight),
    LegalMove("e4", "e2e4", "e2", "e4", Pawn)
  ]

  function ToySan(p: nat, s: string): SanParse
  {
    if p != 0 then InvalidSan
    else if s == "Ne5" then AmbiguousSan
    else if s == "Nde5" then ParsedSan("d3e5")
    else if s == "Nge5" then ParsedSan("g4e5")
    else if s == "e4" then ParsedSan("e2e4")
    else InvalidSan
  }

  function ToyCount(p: nat, piece: Piece, color: Color): nat
  {
    match piece
    case Knight => if color == White then 2 else 0
    case Pawn => 8
    case _ => 1
  }

  const Toy: Engine<nat> := Engine(
    p => if p == 0 then StartMoves else [],
    ToySan,
    s => |s| == 4 && IsFile(s[0]) && IsRank(s[1]) && IsFile(s[2]) && IsRank(s[3]),
    (p, u) => p == 0 && u in ["d3e5", "g4e5", "e2e4"],
    (p, u) => p + 1,
    p => p > 0,
    p => "1-0",
    ToyCount)

  const Start: Session<nat> := Session(false, None, 0)

  lemma KnightDestination(m: string)
    requires m == "Ne5"
    ensures Destination(m) == "e5" && RequestedPiece(m) == Some(Knight)
  {
    ReplaceMissing(m, "x", "", 'x');
  }

  lemma KnightMatches(moves: seq<LegalMove>, d: string)
    requires moves == StartMoves && d == "e5"
    ensures Matching(moves, Knight, d) == [Choice("Nde5", "d3"), Choice("Nge5", "g4")]
  {
    assert Matching(moves[2..], Knight, d) == [];
    assert Matching(moves[1..], Knight, d) == [Choice("Nge5", "g4")];
  }

  /** Both knights are offered for "Ne5", in the order the moves are
      listed, and the prompt names their squares. */
  lemma KnightOptions(m: string)
    requires m == "Ne5"
    ensures Options(Toy, 0, m) == [Choice("Nde5", "d3"), Choice("Nge5", "g4")]
    ensures Prompt(Toy, 0, m) == "Which knight: d3 or g4?"
  {
    KnightDestination(m);
    KnightMatches(Toy.legalMoves(0), Destination(m));
    KnightPrompt(m, Options(Toy, 0, m));
  }

  lemma KnightPrompt(m: string, options: seq<Choice>)
    requires m == "Ne5" && options == [Choice("Nde5", "d3"), Choice("Nge5", "g4")]
    ensures "Which " + PieceName(m[0]) + ": " + SquareList(Origins(options)) + "?" == "Which knight: d3 or g4?"
  {
    assert Origins(options) == ["d3", "g4"];
  }

  /** Saying "knight to e5" is answered with the question and changes
      nothing: the position stays and no clarification is pending. */
  lemma SpeechAsksWhichKnight(t: string)
    requires t == "knight to e5"
    ensures HandleSpeech(Toy, Start, t, "move") == Completed(PyTrue, Start, ["Which knight: d3 or g4?"])
  {
    ParserExamples.KnightToE5(t);
    var m := "Ne5";
    KnightOptions(m);
    SpeechPlaysParsedMove(Toy, Start, t, "move");
    assert IsAmbiguous(Toy, 0, m);
  }

  /** The answer "from g4" to that question raises AttributeError, since
      handle_speech left the pending move at None. */
  lemma AnswerRaises(t: string, answer: string)
    requires t == "knight to e5" && answer == "from g4"
    ensures HandleClarification(Toy, Listen(Toy, Start, [(t, "move")]), answer) == Raised(AttributeError)
  {
    assert SquareAt(answer, 5);
    ClarificationNeverArmed(Toy, Start, [(t, "move")], answer);
  }

  lemma AnswerNamesG4(answer: string)
    requires answer == "from g4"
    ensures ExtractSquare(answer) == Some("g4")
  {
    ExtractSquareAt(answer, 5);
    assert answer[5..7] == "g4";
  }

  /** The g4 knight's move is the only one from g4. */
  lemma G4ResolvesToNge5(m: string, sq: string)
    requires m == "Ne5" && sq == "g4"
    ensures ResolveAmbiguous(Toy, 0, m, sq) == Some("Nge5")
  {
    KnightOptions(m);
    assert Lower(sq) == sq;
    var options := Options(Toy, 0, m);
    assert options[0].from != sq;
    assert options[1..] == [Choice("Nge5", "g4")];
    assert FirstWithOrigin(options[1..], sq) == Some("Nge5");
  }

  /** Nge5 validates and is played, ending the game. */
  lemma Nge5Plays(m: string)
    requires m == "Nge5"
    ensures PlayMove(Toy, 0, m) == Played(true, "move_executed", 1)
  {
    assert !Toy.parsesAsUci(m);
    assert Toy.parseSan(0, m) == ParsedSan("g4e5");
    assert Toy.isLegalUci(0, "g4e5");
  }

  lemma KnightPlayedFromG4(m: string, sq: string)
    requires m == "Ne5" && sq == "g4"
    ensures HandleAmbiguousMove(Toy, 0, m, sq) == Played(true, "move_executed", 1)
  {
    var san := "Nge5";
    G4ResolvesToNge5(m, sq);
    Nge5Plays(san);
  }

  /** A clarification whose square resolves the pending move reports the
      move and, when the game is over, the result. */
  lemma PlayedClarification<P>(e: Engine<P>, s: Session<P>, text: string, m: string, sq: string, next: P)
    requires s.pending == Some(m) && |m| > 0 && ExtractSquare(text) == Some(sq)
    requires HandleAmbiguousMove(e, s.pos, m, sq) == Played(true, "move_executed", next)
    requires e.isGameOver(next)
    ensures HandleClarification(e, s, text)
            == Completed(PyFalse, Session(false, None, next), ["Moved " + m + " from " + sq, "Game over. " + GetResult(e, next)])
  {
  }

  /** Had "Ne5" been recorded as pending, "from g4" would play Nge5, clear
      the clarification and end the game, returning False. */
  lemma AnswerPlaysKnight(s: Session<nat>, answer: string)
    requires s == Session(true, Some("Ne5"), 0) && answer == "from g4"
    ensures HandleClarification(Toy, s, answer)
            == Completed(PyFalse, Session(false, None, 1), ["Moved Ne5 from g4", "Game over. White wins"])
  {
    var m, sq := s.pending.value, "g4";
    AnswerNamesG4(answer);
    KnightPlayedFromG4(m, sq);
    WhiteWins(1);
    PlayedClarification(Toy, s, answer, m, sq, 1);
    var moved, over := "Moved " + m + " from " + sq, "Game over. " + GetResult(Toy, 1);
    MovedReport(m, sq);
    GameOverReport(GetResult(Toy, 1));
    assert [moved, over] == ["Moved Ne5 from g4", "Game over. White wins"];
  }

  lemma WhiteWins(p: nat)
    requires p == 1
    ensures GetResult(Toy, p) == "White wins"
  {
  }

  lemma GameOverReport(r: string)
    requires r == "White wins"
    ensures "Game over. " + r == "Game over. White wins"
  {
  }

  lemma MovedReport(m: string, sq: string)
    requires m == "Ne5" && sq == "g4"
    ensures "Moved " + m + " from " + sq == "Moved Ne5 from g4"
  {
  }

  /** An upper-case "G4" is not heard as a square: the question is asked
      again and nothing changes. */
  lemma UpperCaseSquareIgnored(answer: string)
    requires answer == "G4"
    ensures HandleClarification(Toy, Session(true, Some("Ne5"), 0), answer)
            == Completed(PyTrue, Session(true, Some("Ne5"), 0), [AskSquareAgain])
  {
    ClarificationWithoutSquare(Toy, Session(true, Some("Ne5"), 0), answer);
  }

  lemma CastleLeftLower(t: string)
    requires t == "castle left"
    ensures Lower(t) == t
  {
  }

  lemma CastleLeftNoSidePhrase(t: string)
    requires t == "castle left"
    ensures !MentionsAny(t, QueensideWords) && !MentionsAny(t, KingsideWords)
  {
    MissingCharNotContained(t, "queenside", 'q');
    MissingCharNotContained(t, "long", 'o');
    MissingCharNotContained(t, "o-o-o", 'o');
    MissingCharNotContained(t, "0-0-0", '0');
    MissingCharNotContained(t, "kingside", 'k');
    MissingCharNotContained(t, "short", 'o');
    MissingCharNotContained(t, "o-o", 'o');
    MissingCharNotContained(t, "0-0", '0');
  }

  lemma CastleLeftSaysLeft(t: string)
    requires t == "castle left"
    ensures Contains(t, "left")
  {
    assert OccursAt(t, "left", 7);
    OccursContained(t, "left", 7);
  }

  /** "castle left" from Black's side is kingside castling. */
  lemma BlackCastlesLeft(t: string)
    requires t == "castle left"
    ensures ParseCastlingIntent(Toy, 0, Black, t) == Castle("O-O")
  {
    CastleLeftLower(t);
    CastleLeftNoSidePhrase(t);
    CastleLeftSaysLeft(t);
    DirectionalWords(Toy, 0, t);
  }

  /** White is two knights up in the toy position. */
  lemma ToyBalance(p: nat)
    requires p == 0
    ensures MaterialBalance(Toy, p) == 6
  {
    MaterialBalanceSpec(Toy, p, Toy.pieceCount);
    ToyClosed((piece, color) => Toy.pieceCount(p, piece, color));
  }

  lemma ToyClosed(count: (Piece, Color) -> nat)
    requires forall piece, color :: count(piece, color) == ToyCount(0, piece, color)
    ensures Closed(count) == 6
  {
    assert count(Knight, White) == 2 && count(Knight, Black) == 0;
    assert count(Pawn, White) == count(Pawn, Black);
    assert count(Bishop, White) == count(Bishop, Black);
    assert count(Rook, White) == count(Rook, Black);
    assert count(Queen, White) == count(Queen, Black);
  }
}
