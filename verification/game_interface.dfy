/** The GameState operations of chess_rules/game_interface.py that interpret
    moves: castling intent, playing a move, playing a resolved ambiguous
    move, the clarification prompt, material balance and the result text.
    The clarifier is MoveValidator over the same engine and position; the
    player's colour is a parameter. */
module GameInterface {
  import opened Common
  import opened Text
  import opened Board
  import opened MoveValidator

  // ---------------------------------------------------------------------
  // parse_castling_intent
  // ---------------------------------------------------------------------

  /** `any(phrase in t for phrase in words)`. */
  predicate MentionsAny(t: string, words: seq<string>)
  {
    exists k :: 0 <= k < |words| && Contains(t, words[k])
  }

  const QueensideWords: seq<string> := ["queenside", "long", "o-o-o", "0-0-0"]

  const KingsideWords: seq<string> := ["kingside", "short", "o-o", "0-0"]

  /** What parse_castling_intent returns: a castling SAN, the request to
      choose between the listed sides, or None. */
  datatype CastlingIntent = Castle(san: string) | AskSide(sides: seq<string>) | NoCastle

  /** parse_castling_intent on the lower-cased text: explicit queenside
      words, then kingside words, then "left" before "right" read from the
      player's side, then a generic "castle"/"castling" decided by which
      castling moves are legal. */
  function ParseCastlingIntent<P>(e: Engine<P>, pos: P, color: Color, text: string): CastlingIntent
  {
    var t := Lower(text);
    if MentionsAny(t, QueensideWords) then Castle("O-O-O")
    else if MentionsAny(t, KingsideWords) then Castle("O-O")
    else if Contains(t, "left") then (if color == White then Castle("O-O-O") else Castle("O-O"))
    else if Contains(t, "right") then (if color == White then Castle("O-O") else Castle("O-O-O"))
    else if Contains(t, "castle") || Contains(t, "castling") then
      var kingside := IsLegal(e, pos, "O-O");
      var queenside := IsLegal(e, pos, "O-O-O");
      if kingside && queenside then AskSide(["O-O", "O-O-O"])
      else if kingside then Castle("O-O")
      else if queenside then Castle("O-O-O")
      else NoCastle
    else NoCastle
  }

  /** The side a directional word names, seen from the player's colour. */
  function Mirror(c: CastlingIntent): CastlingIntent
  {
    match c
    case Castle(san) => Castle(if san == "O-O" then "O-O-O" else if san == "O-O-O" then "O-O" else san)
    case _ => c
  }

  /** "o-o-o" contains "o-o" and "0-0-0" contains "0-0": a queenside
      phrase always carries a kingside one, so only checking queenside
      first lets it win. */
  lemma QueensidePhraseHoldsKingsidePhrase(t: string)
    requires Contains(t, "o-o-o") || Contains(t, "0-0-0")
    ensures MentionsAny(t, KingsideWords)
  {
    ContainsMeansOccurs(t, "o-o-o");
    ContainsMeansOccurs(t, "0-0-0");
    if Contains(t, "o-o-o") {
      var i :| OccursAt(t, "o-o-o", i);
      assert t[i..i + 3] == t[i..i + 5][..3];
      assert OccursAt(t, "o-o", i);
      OccursContained(t, "o-o", i);
      assert KingsideWords[2] == "o-o";
    } else {
      var i :| OccursAt(t, "0-0-0", i);
      assert t[i..i + 3] == t[i..i + 5][..3];
      assert OccursAt(t, "0-0", i);
      OccursContained(t, "0-0", i);
      assert KingsideWords[3] == "0-0";
    }
  }

  /** Any queenside phrase gives "O-O-O", whatever the colour, the position
      and the other words, although that text also holds a kingside
      phrase. */
  lemma QueensideFirst<P>(e: Engine<P>, pos: P, color: Color, text: string)
    requires MentionsAny(Lower(text), QueensideWords)
    ensures ParseCastlingIntent(e, pos, color, text) == Castle("O-O-O")
  {
  }

  /** Without a queenside phrase, any kingside phrase gives "O-O". */
  lemma KingsideNext<P>(e: Engine<P>, pos: P, color: Color, text: string)
    requires !MentionsAny(Lower(text), QueensideWords) && MentionsAny(Lower(text), KingsideWords)
    ensures ParseCastlingIntent(e, pos, color, text) == Castle("O-O")
  {
  }

  /** Without explicit phrases, "left" means queenside for White and "right"
      kingside, checked in that order; Black's reading is the mirror
      image. */
  lemma DirectionalWords<P>(e: Engine<P>, pos: P, text: string)
    requires !MentionsAny(Lower(text), QueensideWords) && !MentionsAny(Lower(text), KingsideWords)
    requires Contains(Lower(text), "left") || Contains(Lower(text), "right")
    ensures ParseCastlingIntent(e, pos, White, text)
            == (if Contains(Lower(text), "left") then Castle("O-O-O") else Castle("O-O"))
    ensures ParseCastlingIntent(e, pos, Black, text) == Mirror(ParseCastlingIntent(e, pos, White, text))
  {
  }

  /** With only "castle"/"castling", both legal sides mean asking, one
      legal side is chosen, and none gives None; with no castling word at
      all the answer is None. */
  lemma GenericCastle<P>(e: Engine<P>, pos: P, color: Color, text: string)
    requires !MentionsAny(Lower(text), QueensideWords) && !MentionsAny(Lower(text), KingsideWords)
    requires !Contains(Lower(text), "left") && !Contains(Lower(text), "right")
    ensures var r := ParseCastlingIntent(e, pos, color, text);
            var generic := Contains(Lower(text), "castle") || Contains(Lower(text), "castling");
            var kingside := IsLegal(e, pos, "O-O");
            var queenside := IsLegal(e, pos, "O-O-O");
            && (r == AskSide(["O-O", "O-O-O"]) <==> generic && kingside && queenside)
            && (r == Castle("O-O") <==> generic && kingside && !queenside)
            && (r == Castle("O-O-O") <==> generic && !kingside && queenside)
            && (r == NoCastle <==> !generic || (!kingside && !queenside))
  {
  }

  // ---------------------------------------------------------------------
  // play_move, handle_ambiguous_move, get_disambiguation_prompt
  // ---------------------------------------------------------------------

  /** The outcome of play_move and handle_ambiguous_move: the success flag,
      the result code and the position afterwards. */
  datatype Played<P> = Played(ok: bool, code: string, pos: P)

  /** play_move: validate, then execute. */
  function PlayMove<P>(e: Engine<P>, pos: P, move: string): Played<P>
  {
    var (valid, error) := ValidateMove(e, pos, move);
    if !valid then Played(false, if error.Some? then error.value else "", pos)
    else
      var (done, next) := ExecuteMove(e, pos, move);
      if done then Played(true, "move_executed", next) else Played(false, "execution_failed", next)
  }

  /** A move that fails validation is never executed and its error is
      passed on; a validated move is always executed, pushing a legal move,
      so "execution_failed" never occurs. */
  lemma PlayMoveOutcome<P>(e: Engine<P>, pos: P, move: string)
    ensures var r := PlayMove(e, pos, move);
            var (valid, error) := ValidateMove(e, pos, move);
            && (!valid ==> r == Played(false, error.value, pos))
            && (valid ==> r.ok && r.code == "move_executed")
            && (valid ==> exists u :: e.isLegalUci(pos, u) && r.pos == e.push(pos, u))
            && r.code != "execution_failed"
            && (r.ok <==> valid)
  {
    ValidateMoveOrder(e, pos, move);
    if ValidateMove(e, pos, move).0 {
      ValidatedMoveExecutes(e, pos, move);
    }
  }

  /** handle_ambiguous_move: `if resolved_move:` treats an empty SAN like
      a missing one. */
  function HandleAmbiguousMove<P>(e: Engine<P>, pos: P, move: string, fromSquare: string): Played<P>
    requires |move| > 0
  {
    match ResolveAmbiguous(e, pos, move, fromSquare)
    case Some(san) =>
      if |san| > 0 then PlayMove(e, pos, san) else Played(false, "invalid_square", pos)
    case None => Played(false, "invalid_square", pos)
  }

  /** An origin square no option starts on gives "invalid_square" and
      leaves the position alone. Otherwise the FIRST option starting on the
      lower-cased square decides: its SAN is played, so the verdict and
      error code of play_move ("move_executed", "ambiguous", "illegal") are
      passed on unchanged; only an empty SAN is reported as
      "invalid_square". */
  lemma HandleAmbiguousOutcome<P>(e: Engine<P>, pos: P, move: string, fromSquare: string)
    requires |move| > 0
    ensures var options := Options(e, pos, move);
            var sq := Lower(fromSquare);
            var r := HandleAmbiguousMove(e, pos, move, fromSquare);
            && ((forall i :: 0 <= i < |options| ==> options[i].from != sq) ==>
                  r == Played(false, "invalid_square", pos))
            && (forall i :: 0 <= i < |options| && options[i].from == sq
                            && (forall j :: 0 <= j < i ==> options[j].from != sq) ==>
                  r == if |options[i].san| > 0 then PlayMove(e, pos, options[i].san)
                       else Played(false, "invalid_square", pos))
            && (r.ok ==> exists i :: 0 <= i < |options| && options[i].from == sq
                                     && r == PlayMove(e, pos, options[i].san))
            && (!r.ok ==> r.pos == pos)
            && (r.ok <==> r.code == "move_executed")
            && (!r.ok ==> r.code in {"invalid_square", "ambiguous", "illegal"})
  {
    var options := Options(e, pos, move);
    var sq := Lower(fromSquare);
    ResolveSpec(e, pos, move, fromSquare);
    var r := ResolveAmbiguous(e, pos, move, fromSquare);
    if r.Some? {
      var i :| 0 <= i < |options| && options[i] == Choice(r.value, sq)
               && forall j :: 0 <= j < i ==> options[j].from != sq;
      FirstIsUnique(options, sq, i);
      if |r.value| > 0 {
        PlayMoveOutcome(e, pos, r.value);
        ValidateMoveOrder(e, pos, r.value);
        assert options[i].san == r.value;
      }
    }
  }

  /** Two indices that are both the first one starting on `sq` coincide. */
  lemma FirstIsUnique(options: seq<Choice>, sq: string, i: int)
    requires 0 <= i < |options| && options[i].from == sq
    requires forall j :: 0 <= j < i ==> options[j].from != sq
    ensures forall k ::
              (0 <= k < |options| && options[k].from == sq && forall j :: 0 <= j < k ==> options[j].from != sq)
              ==> k == i
  {
  }

  /** get_disambiguation_prompt delegates to the clarifier. */
  function DisambiguationPrompt<P>(e: Engine<P>, pos: P, move: string): string
    requires |move| > 0
  {
    Prompt(e, pos, move)
  }

  // ---------------------------------------------------------------------
  // material_balance, get_result
  // ---------------------------------------------------------------------

  /** The piece values of material_balance, in its iteration order; kings
      have no entry. */
  const PieceValues: seq<(Piece, int)> := [(Pawn, 1), (Knight, 3), (Bishop, 3), (Rook, 5), (Queen, 9)]

  /** The loop of material_balance over `values`, from a score of 0. */
  function Score(count: (Piece, Color) -> nat, values: seq<(Piece, int)>): int
  {
    if |values| == 0 then 0
    else
      var (piece, value) := values[0];
      count(piece, White) * value - count(piece, Black) * value + Score(count, values[1..])
  }

  function MaterialBalance<P>(e: Engine<P>, pos: P): int
  {
    Score((piece, color) => e.pieceCount(pos, piece, color), PieceValues)
  }

  /** The closed form: value times the difference in counts, summed over
      pawn 1, knight 3, bishop 3, rook 5, queen 9. */
  function Closed(count: (Piece, Color) -> nat): int
  {
    1 * (count(Pawn, White) - count(Pawn, Black))
    + 3 * (count(Knight, White) - count(Knight, Black))
    + 3 * (count(Bishop, White) - count(Bishop, Black))
    + 5 * (count(Rook, White) - count(Rook, Black))
    + 9 * (count(Queen, White) - count(Queen, Black))
  }

  /** The counts with the colours exchanged. */
  function Swapped(count: (Piece, Color) -> nat): (Piece, Color) -> nat
  {
    (piece, color) => count(piece, if color == White then Black else White)
  }

  lemma {:induction false} ScoreSwapped(count: (Piece, Color) -> nat, values: seq<(Piece, int)>)
    ensures Score(Swapped(count), values) == -Score(count, values)
    decreases |values|
  {
    if |values| > 0 {
      ScoreSwapped(count, values[1..]);
    }
  }

  /** The balance is the closed form; exchanging the colours negates it;
      kings do not count. */
  lemma MaterialBalanceSpec<P>(e: Engine<P>, pos: P, other: (P, Piece, Color) -> nat)
    requires forall piece, color :: piece != King ==> other(pos, piece, color) == e.pieceCount(pos, piece, color)
    ensures var count := (piece, color) => e.pieceCount(pos, piece, color);
            && MaterialBalance(e, pos) == Closed(count)
            && Score(Swapped(count), PieceValues) == -MaterialBalance(e, pos)
            && MaterialBalance(e.(pieceCount := other), pos) == MaterialBalance(e, pos)
  {
    var count := (piece, color) => e.pieceCount(pos, piece, color);
    ScoreSwapped(count, PieceValues);
    var V := PieceValues;
    assert V[1..][1..][1..][1..][1..] == [];
  }

  /** get_result. */
  function GetResult<P>(e: Engine<P>, pos: P): string
  {
    if !e.isGameOver(pos) then "Game in progress"
    else if e.result(pos) == "1-0" then "White wins"
    else if e.result(pos) == "0-1" then "Black wins"
    else "Draw"
  }

  /** Each of the four messages is given in exactly one situation: the game
      still running, a "1-0" result, a "0-1" result, or any other result of
      a finished game. */
  lemma GetResultCases<P>(e: Engine<P>, pos: P)
    ensures var r := GetResult(e, pos);
            && (r == "Game in progress" <==> !e.isGameOver(pos))
            && (r == "White wins" <==> e.isGameOver(pos) && e.result(pos) == "1-0")
            && (r == "Black wins" <==> e.isGameOver(pos) && e.result(pos) == "0-1")
            && (r == "Draw" <==> e.isGameOver(pos) && e.result(pos) != "1-0" && e.result(pos) != "0-1")
  {
  }
}
