/** MoveClarifier of chess_rules/move_validator.py over an abstract engine:
    the ambiguity test, the order-preserving filter of candidate moves, the
    "Which rook: a1 or h1?" prompt, the resolution of a spoken origin square,
    the legality test, validation and execution. */
module MoveValidator {
  import opened Common
  import opened Text
  import opened Board
  import MoveParser

  /** One entry of get_disambiguation_options: the SAN of a candidate move
      and the name of its origin square. */
  datatype Choice = Choice(san: string, from: string)

  // ---------------------------------------------------------------------
  // is_ambiguous
  // ---------------------------------------------------------------------

  /** is_ambiguous: true only when parse_san reports an ambiguous move; a
      parsed, invalid or illegal move is not ambiguous. */
  predicate IsAmbiguous<P>(e: Engine<P>, pos: P, move: string)
  {
    e.parseSan(pos, move).AmbiguousSan?
  }

  // ---------------------------------------------------------------------
  // get_disambiguation_options
  // ---------------------------------------------------------------------

  /** The table of piece letters, `piece_map.get`. */
  function PieceOfLetter(c: char): Option<Piece>
  {
    match c
    case 'K' => Some(King)
    case 'Q' => Some(Queen)
    case 'R' => Some(Rook)
    case 'B' => Some(Bishop)
    case 'N' => Some(Knight)
    case 'P' => Some(Pawn)
    case _ => None
  }

  /** The piece kind a move string asks for: an upper-case first character
      is looked up in the table, anything else means a pawn. */
  function RequestedPiece(move: string): Option<Piece>
    requires |move| > 0
  {
    if IsUpper(move[0]) then PieceOfLetter(move[0]) else Some(Pawn)
  }

  /** The destination a move string names: its last two characters once
      every 'x' is removed (the whole remainder when shorter). */
  function Destination(move: string): (d: string)
    ensures |d| <= 2
  {
    var s := ReplaceAll(move, "x", "");
    if |s| <= 2 then s else s[|s| - 2..]
  }

  predicate Matches(m: LegalMove, piece: Piece, dest: string)
  {
    m.piece == piece && m.to == dest
  }

  function ChoiceOf(m: LegalMove): Choice
  {
    Choice(m.san, m.from)
  }

  /** The legal moves of the given piece kind and destination, in the
      engine's order, each as its SAN and origin square. */
  function Matching(moves: seq<LegalMove>, piece: Piece, dest: string): seq<Choice>
  {
    if |moves| == 0 then []
    else (if Matches(moves[0], piece, dest) then [ChoiceOf(moves[0])] else [])
         + Matching(moves[1..], piece, dest)
  }

  /** get_disambiguation_options. */
  function Options<P>(e: Engine<P>, pos: P, move: string): seq<Choice>
    requires |move| > 0
  {
    match RequestedPiece(move)
    case None => []
    case Some(piece) => Matching(e.legalMoves(pos), piece, Destination(move))
  }

  /** The filter distributes over concatenation, so it keeps the engine's
      order. */
  lemma {:induction false} MatchingAppend(a: seq<LegalMove>, b: seq<LegalMove>, piece: Piece, dest: string)
    ensures Matching(a + b, piece, dest) == Matching(a, piece, dest) + Matching(b, piece, dest)
    decreases |a|
  {
    if |a| == 0 {
      assert a + b == b;
    } else {
      var h := if Matches(a[0], piece, dest) then [ChoiceOf(a[0])] else [];
      assert (a + b)[0] == a[0];
      assert (a + b)[1..] == a[1..] + b;
      MatchingAppend(a[1..], b, piece, dest);
      assert Matching(a + b, piece, dest) == h + Matching(a[1..] + b, piece, dest);
      assert Matching(a, piece, dest) == h + Matching(a[1..], piece, dest);
    }
  }

  /** A choice is listed exactly when some legal move of the requested kind
      and destination has that SAN and origin; there are no more choices
      than legal moves. */
  lemma {:induction false} MatchingMembers(moves: seq<LegalMove>, piece: Piece, dest: string)
    ensures |Matching(moves, piece, dest)| <= |moves|
    ensures forall c :: c in Matching(moves, piece, dest) <==>
              exists i :: 0 <= i < |moves| && Matches(moves[i], piece, dest) && c == ChoiceOf(moves[i])
    decreases |moves|
  {
    if |moves| > 0 {
      var tail := moves[1..];
      MatchingMembers(tail, piece, dest);
      forall c
        ensures c in Matching(moves, piece, dest) <==>
                exists i :: 0 <= i < |moves| && Matches(moves[i], piece, dest) && c == ChoiceOf(moves[i])
      {
        if c in Matching(tail, piece, dest) {
          var i :| 0 <= i < |tail| && Matches(tail[i], piece, dest) && c == ChoiceOf(tail[i]);
          assert moves[i + 1] == tail[i];
        }
        if exists i :: 1 <= i < |moves| && Matches(moves[i], piece, dest) && c == ChoiceOf(moves[i]) {
          var i :| 1 <= i < |moves| && Matches(moves[i], piece, dest) && c == ChoiceOf(moves[i]);
          assert tail[i - 1] == moves[i];
        }
      }
    }
  }

  /** The options are the legal moves of the piece kind the string asks for
      whose destination is the one it names, each kept once per legal move,
      in the engine's order. */
  lemma OptionsAreFilter<P>(e: Engine<P>, pos: P, move: string, c: Choice)
    requires |move| > 0
    ensures c in Options(e, pos, move) <==>
              && RequestedPiece(move).Some?
              && exists i :: 0 <= i < |e.legalMoves(pos)|
                             && Matches(e.legalMoves(pos)[i], RequestedPiece(move).value, Destination(move))
                             && c == ChoiceOf(e.legalMoves(pos)[i])
  {
    if RequestedPiece(move).Some? {
      MatchingMembers(e.legalMoves(pos), RequestedPiece(move).value, Destination(move));
    }
  }

  /** An upper-case first letter outside K, Q, R, B, N, P (the 'O' of a
      castling string) yields no options at all. */
  lemma UnknownLetterNoOptions<P>(e: Engine<P>, pos: P, move: string)
    requires |move| > 0 && IsUpper(move[0]) && move[0] !in "KQRBNP"
    ensures Options(e, pos, move) == []
  {
  }

  /** With no legal move of the kind and destination, there is no option. */
  lemma {:induction false} NothingMatches(moves: seq<LegalMove>, piece: Piece, dest: string)
    requires forall i :: 0 <= i < |moves| ==> !Matches(moves[i], piece, dest)
    ensures Matching(moves, piece, dest) == []
    decreases |moves|
  {
    if |moves| > 0 {
      NothingMatches(moves[1..], piece, dest);
    }
  }

  /** A move string with a promotion suffix, such as parse_move's "xd8=Q",
      names "=Q" as its destination. */
  lemma PromotionDestination(m: MoveParser.SanMove)
    requires MoveParser.WellFormed(m) && m.promotion.Some?
    ensures Destination(MoveParser.Render(m)) == ['=', m.promotion.value]
  {
    var head := (if m.piece.Some? then [m.piece.value] else []) + (if m.capture then "x" else "");
    var tail := m.dest + ['=', m.promotion.value];
    var s := MoveParser.Render(m);
    assert s == head + tail;
    ReplaceCharAppend(head, tail, "x", "");
    PromotionTailKept(m, tail);
    var stripped := ReplaceAll(s, "x", "");
    assert stripped == ReplaceAll(head, "x", "") + tail;
    assert stripped[|stripped| - 2..] == ['=', m.promotion.value];
  }

  /** Helper for `PromotionDestination`: square and promotion suffix hold
      no 'x'. */
  lemma PromotionTailKept(m: MoveParser.SanMove, tail: string)
    requires MoveParser.WellFormed(m) && m.promotion.Some?
    requires tail == m.dest + ['=', m.promotion.value]
    ensures ReplaceAll(tail, "x", "") == tail
  {
    assert tail == [m.dest[0], m.dest[1], '=', m.promotion.value];
    assert 'x' !in tail;
    ReplaceMissing(tail, "x", "", 'x');
  }

  /** Such a string gets no options, since no legal move goes to "=Q", even
      when parse_san finds the move ambiguous. */
  lemma PromotionHasNoOptions<P>(e: Engine<P>, pos: P, m: MoveParser.SanMove)
    requires MoveParser.WellFormed(m) && m.promotion.Some?
    requires forall i :: 0 <= i < |e.legalMoves(pos)| ==> MoveParser.IsSquare(e.legalMoves(pos)[i].to)
    ensures Options(e, pos, MoveParser.Render(m)) == []
  {
    var s := MoveParser.Render(m);
    PromotionDestination(m);
    var moves := e.legalMoves(pos);
    if RequestedPiece(s).Some? {
      var piece := RequestedPiece(s).value;
      forall i | 0 <= i < |moves|
        ensures !Matches(moves[i], piece, Destination(s))
      {
        assert MoveParser.IsSquare(moves[i].to);
      }
      NothingMatches(moves, piece, Destination(s));
    }
  }

  // ---------------------------------------------------------------------
  // get_clarification_prompt
  // ---------------------------------------------------------------------

  /** `piece_names.get(move_str[0], 'pawn')`. */
  function PieceName(c: char): string
  {
    match c
    case 'K' => "king"
    case 'Q' => "queen"
    case 'R' => "rook"
    case 'B' => "bishop"
    case 'N' => "knight"
    case _ => "pawn"
  }

  /** The origin squares of the options, in order. */
  function Origins(options: seq<Choice>): (r: seq<string>)
    ensures |r| == |options|
    ensures forall i :: 0 <= i < |options| ==> r[i] == options[i].from
  {
    seq(|options|, i requires 0 <= i < |options| => options[i].from)
  }

  /** `", ".join(items)`. */
  function Join(items: seq<string>): string
  {
    if |items| == 0 then ""
    else if |items| == 1 then items[0]
    else items[0] + ", " + Join(items[1..])
  }

  /** The square list of the prompt: "A or B" for two squares, otherwise the
      leading squares joined by ", " followed by ", or " and the last one
      (so a single square reads ", or e2"). */
  function SquareList(squares: seq<string>): string
    requires |squares| > 0
  {
    if |squares| == 2 then squares[0] + " or " + squares[1]
    else Join(squares[..|squares| - 1]) + ", or " + squares[|squares| - 1]
  }

  /** get_clarification_prompt. */
  function Prompt<P>(e: Engine<P>, pos: P, move: string): string
    requires |move| > 0
  {
    var options := Options(e, pos, move);
    if |options| == 0 then "Could not find any legal moves matching '" + move + "'"
    else "Which " + PieceName(move[0]) + ": " + SquareList(Origins(options)) + "?"
  }

  /** The square names written in a text, read left to right. */
  function SquaresIn(t: string): seq<string>
  {
    if |t| < 2 then []
    else if MoveParser.IsFile(t[0]) && MoveParser.IsRank(t[1]) then [t[..2]] + SquaresIn(t[2..])
    else SquaresIn(t[1..])
  }

  /** Reading squares distributes over a seam that splits no square. */
  lemma {:induction false} SquaresInAppend(a: string, b: string)
    requires |a| == 0 || |b| == 0 || !MoveParser.IsFile(a[|a| - 1]) || !MoveParser.IsRank(b[0])
    ensures SquaresIn(a + b) == SquaresIn(a) + SquaresIn(b)
    decreases |a|
  {
    var t := a + b;
    if |a| == 0 {
      assert t == b;
    } else if |a| == 1 {
      if |b| == 0 {
        assert t == a;
      } else {
        assert t[1..] == b;
      }
    } else if MoveParser.IsFile(a[0]) && MoveParser.IsRank(a[1]) {
      assert t[2..] == a[2..] + b;
      assert t[..2] == a[..2];
      SquaresInAppend(a[2..], b);
    } else {
      assert t[1..] == a[1..] + b;
      SquaresInAppend(a[1..], b);
    }
  }

  /** A text without a rank digit names no square. */
  lemma {:induction false} NoDigitNoSquares(t: string)
    requires forall k :: 0 <= k < |t| ==> !MoveParser.IsRank(t[k])
    ensures SquaresIn(t) == []
    decreases |t|
  {
    if |t| >= 2 {
      NoDigitNoSquares(t[1..]);
    }
  }

  lemma SquareReadsBack(sq: string)
    requires MoveParser.IsSquare(sq)
    ensures SquaresIn(sq) == [sq]
  {
    assert sq[2..] == [];
    assert sq[..2] == sq;
  }

  /** The joined list names exactly the listed squares, in order. */
  lemma {:induction false} JoinReadsBack(squares: seq<string>)
    requires forall k :: 0 <= k < |squares| ==> MoveParser.IsSquare(squares[k])
    ensures SquaresIn(Join(squares)) == squares
    ensures |squares| > 0 ==> |Join(squares)| > 0 && MoveParser.IsRank(Join(squares)[|Join(squares)| - 1])
    decreases |squares|
  {
    if |squares| == 1 {
      SquareReadsBack(squares[0]);
    } else if |squares| > 1 {
      var rest := Join(squares[1..]);
      JoinReadsBack(squares[1..]);
      SquareReadsBack(squares[0]);
      NoDigitNoSquares(", ");
      SquaresInAppend(squares[0], ", ");
      SquaresInAppend(squares[0] + ", ", rest);
      assert squares == [squares[0]] + squares[1..];
      assert Join(squares) == squares[0] + ", " + rest;
    }
  }

  /** The square list names exactly the given squares, in order, however
      many there are. */
  lemma SquareListReadsBack(squares: seq<string>)
    requires |squares| > 0
    requires forall k :: 0 <= k < |squares| ==> MoveParser.IsSquare(squares[k])
    ensures SquaresIn(SquareList(squares)) == squares
    ensures MoveParser.IsRank(SquareList(squares)[|SquareList(squares)| - 1])
  {
    var n := |squares|;
    var last := squares[n - 1];
    SquareReadsBack(last);
    if n == 2 {
      SquareReadsBack(squares[0]);
      NoDigitNoSquares(" or ");
      SquaresInAppend(squares[0], " or ");
      SquaresInAppend(squares[0] + " or ", squares[1]);
      assert squares == [squares[0], squares[1]];
    } else {
      var front := Join(squares[..n - 1]);
      JoinReadsBack(squares[..n - 1]);
      NoDigitNoSquares(", or ");
      SquaresInAppend(front, ", or ");
      SquaresInAppend(front + ", or ", last);
      assert squares == squares[..n - 1] + [last];
    }
  }

  lemma PieceNameHasNoDigit(c: char)
    ensures forall k :: 0 <= k < |PieceName(c)| ==> !MoveParser.IsRank(PieceName(c)[k])
  {
  }

  /** Helper for `PromptNamesOrigins`: the words around the square list
      hold no square. */
  lemma {:induction false} FramedListReadsBack(name: string, squares: seq<string>)
    requires |squares| > 0
    requires forall k :: 0 <= k < |squares| ==> MoveParser.IsSquare(squares[k])
    requires forall k :: 0 <= k < |name| ==> !MoveParser.IsRank(name[k])
    ensures SquaresIn("Which " + name + ": " + SquareList(squares) + "?") == squares
  {
    var list := SquareList(squares);
    SquareListReadsBack(squares);
    NoDigitNoSquares("Which ");
    NoDigitNoSquares(name);
    NoDigitNoSquares(": ");
    NoDigitNoSquares("?");
    SquaresInAppend("Which ", name);
    SquaresInAppend("Which " + name, ": ");
    SquaresInAppend("Which " + name + ": ", list);
    SquaresInAppend("Which " + name + ": " + list, "?");
  }

  /** Helper for `PromptNamesOrigins`: every option starts on a square when
      every legal move does. */
  lemma OriginsAreSquares<P>(e: Engine<P>, pos: P, move: string)
    requires |move| > 0
    requires forall i :: 0 <= i < |e.legalMoves(pos)| ==> MoveParser.IsSquare(e.legalMoves(pos)[i].from)
    ensures var squares := Origins(Options(e, pos, move));
            forall k :: 0 <= k < |squares| ==> MoveParser.IsSquare(squares[k])
  {
    var options := Options(e, pos, move);
    var squares := Origins(options);
    forall k | 0 <= k < |squares|
      ensures MoveParser.IsSquare(squares[k])
    {
      var piece := RequestedPiece(move).value;
      MatchingMembers(e.legalMoves(pos), piece, Destination(move));
      assert options[k] in options;
    }
  }

  /** Helper for `PromptNamesOrigins`: the wording around the squares. */
  lemma FramedListWording(head: string, squares: seq<string>, prompt: string)
    requires |squares| > 0 && prompt == head + SquareList(squares) + "?"
    ensures |head| < |prompt| && prompt[..|head|] == head && prompt[|prompt| - 1] == '?'
    ensures |squares| == 2 ==> prompt == head + squares[0] + " or " + squares[1] + "?"
    ensures |squares| >= 3 ==> prompt == head + Join(squares[..|squares| - 1]) + ", or " + squares[|squares| - 1] + "?"
  {
    var list := SquareList(squares);
    assert prompt == head + (list + "?");
  }

  /** When some option exists, the prompt is a question "Which <piece>: …?"
      naming the piece of the move string's first letter, and the squares it
      names are exactly the options' origin squares, in the engine's order:
      two are separated by " or ", and from three on the last is set off by
      ", or " after the others joined by ", ". With no option it reports the
      move string back. */
  lemma PromptNamesOrigins<P>(e: Engine<P>, pos: P, move: string)
    requires |move| > 0
    requires forall i :: 0 <= i < |e.legalMoves(pos)| ==> MoveParser.IsSquare(e.legalMoves(pos)[i].from)
    ensures var options := Options(e, pos, move);
            var prompt := Prompt(e, pos, move);
            var head := "Which " + PieceName(move[0]) + ": ";
            && (|options| == 0 ==> prompt == "Could not find any legal moves matching '" + move + "'")
            && (|options| > 0 ==> SquaresIn(prompt) == Origins(options))
            && (|options| > 0 ==> |head| < |prompt| && prompt[..|head|] == head && prompt[|prompt| - 1] == '?')
            && (|options| == 2 ==> prompt == head + options[0].from + " or " + options[1].from + "?")
            && (|options| >= 3 ==>
                  prompt == head + Join(Origins(options[..|options| - 1])) + ", or " + options[|options| - 1].from + "?")
  {
    var options := Options(e, pos, move);
    if |options| > 0 {
      var squares := Origins(options);
      OriginsAreSquares(e, pos, move);
      PieceNameHasNoDigit(move[0]);
      FramedListReadsBack(PieceName(move[0]), squares);
      FramedListWording("Which " + PieceName(move[0]) + ": ", squares, Prompt(e, pos, move));
      OriginsPrefix(options);
    }
  }

  lemma OriginsPrefix(options: seq<Choice>)
    requires |options| > 0
    ensures Origins(options)[..|options| - 1] == Origins(options[..|options| - 1])
    ensures Origins(options)[|options| - 1] == options[|options| - 1].from
  {
  }

  /** With a single option the joined list is empty, so the prompt reads
      "Which <piece>: , or <square>?". */
  lemma SingleOptionPrompt<P>(e: Engine<P>, pos: P, move: string)
    requires |move| > 0 && |Options(e, pos, move)| == 1
    ensures Prompt(e, pos, move)
            == "Which " + PieceName(move[0]) + ": , or " + Options(e, pos, move)[0].from + "?"
  {
    var squares := Origins(Options(e, pos, move));
    assert squares[..0] == [];
  }

  // ---------------------------------------------------------------------
  // resolve_ambiguous_move
  // ---------------------------------------------------------------------

  /** The SAN of the first option whose origin is `sq`. */
  function FirstWithOrigin(options: seq<Choice>, sq: string): Option<string>
  {
    if |options| == 0 then None
    else if options[0].from == sq then Some(options[0].san)
    else FirstWithOrigin(options[1..], sq)
  }

  /** None exactly when no option starts on `sq`; otherwise the SAN of the
      first option that does, which is then itself an option. */
  lemma {:induction false} FirstWithOriginSpec(options: seq<Choice>, sq: string)
    ensures var r := FirstWithOrigin(options, sq);
            && (r.None? <==> forall i :: 0 <= i < |options| ==> options[i].from != sq)
            && (r.Some? ==> Choice(r.value, sq) in options)
            && (r.Some? ==> exists i :: 0 <= i < |options| && options[i] == Choice(r.value, sq)
                                        && forall j :: 0 <= j < i ==> options[j].from != sq)
    decreases |options|
  {
    if |options| > 0 && options[0].from != sq {
      var tail := options[1..];
      FirstWithOriginSpec(tail, sq);
      forall i | 1 <= i < |options|
        ensures options[i] == tail[i - 1]
      {
      }
      if FirstWithOrigin(tail, sq).Some? {
        var v := FirstWithOrigin(tail, sq).value;
        var i :| 0 <= i < |tail| && tail[i] == Choice(v, sq)
                 && forall j :: 0 <= j < i ==> tail[j].from != sq;
        assert options[i + 1] == Choice(v, sq);
      }
    } else if |options| > 0 {
      assert options[0] == Choice(options[0].san, sq);
    }
  }

  /** resolve_ambiguous_move: the origin square is compared in lower case. */
  function ResolveAmbiguous<P>(e: Engine<P>, pos: P, move: string, fromSquare: string): Option<string>
    requires |move| > 0
  {
    FirstWithOrigin(Options(e, pos, move), Lower(fromSquare))
  }

  /** A resolved SAN is the first option starting on the lower-cased
      square, and there is none exactly when no option starts there. */
  lemma ResolveSpec<P>(e: Engine<P>, pos: P, move: string, fromSquare: string)
    requires |move| > 0
    ensures var options := Options(e, pos, move);
            var sq := Lower(fromSquare);
            var r := ResolveAmbiguous(e, pos, move, fromSquare);
            && (r.None? <==> forall i :: 0 <= i < |options| ==> options[i].from != sq)
            && (r.Some? ==> Choice(r.value, sq) in options)
            && (r.Some? ==> exists i :: 0 <= i < |options| && options[i] == Choice(r.value, sq)
                                        && forall j :: 0 <= j < i ==> options[j].from != sq)
  {
    FirstWithOriginSpec(Options(e, pos, move), Lower(fromSquare));
  }

  // ---------------------------------------------------------------------
  // is_legal, validate_move, execute_move
  // ---------------------------------------------------------------------

  /** is_legal: a string `Move.from_uci` accepts is judged by the engine's
      legality test alone; otherwise the SAN reading must succeed and give a
      legal move, any error meaning False. */
  predicate IsLegal<P>(e: Engine<P>, pos: P, move: string)
  {
    if e.parsesAsUci(move) then e.isLegalUci(pos, move)
    else match e.parseSan(pos, move)
      case ParsedSan(u) => e.isLegalUci(pos, u)
      case _ => false
  }

  /** A UCI string is legal exactly when the engine calls that move legal,
      whatever parse_san would make of it and whichever moves are listed. */
  lemma UciLegalByMembershipOnly<P>(e: Engine<P>, pos: P, move: string, other: (P, string) -> SanParse,
                                    listed: P -> seq<LegalMove>)
    requires e.parsesAsUci(move)
    ensures IsLegal(e, pos, move) <==> e.isLegalUci(pos, move)
    ensures IsLegal(e.(parseSan := other), pos, move) == IsLegal(e, pos, move)
    ensures IsLegal(e.(legalMoves := listed), pos, move) == IsLegal(e, pos, move)
  {
  }

  /** Any other string is legal exactly when parse_san reads it as a move
      the engine calls legal; an ambiguous, invalid or illegal reading is
      not legal. */
  lemma SanLegality<P>(e: Engine<P>, pos: P, move: string)
    requires !e.parsesAsUci(move)
    ensures IsLegal(e, pos, move) <==>
              && e.parseSan(pos, move).ParsedSan?
              && e.isLegalUci(pos, e.parseSan(pos, move).uci)
    ensures IsAmbiguous(e, pos, move) ==> !IsLegal(e, pos, move)
  {
  }

  /** validate_move: ambiguity is checked before legality. */
  function ValidateMove<P>(e: Engine<P>, pos: P, move: string): (bool, Option<string>)
  {
    if IsAmbiguous(e, pos, move) then (false, Some("ambiguous"))
    else if !IsLegal(e, pos, move) then (false, Some("illegal"))
    else (true, None)
  }

  /** The verdict is "ambiguous" exactly when parse_san reports ambiguity,
      even though an ambiguous SAN is never legal; "illegal" exactly when it
      does not and the move is not legal; success, with no error, exactly
      when the move is unambiguous and legal. */
  lemma ValidateMoveOrder<P>(e: Engine<P>, pos: P, move: string)
    ensures var (ok, error) := ValidateMove(e, pos, move);
            && (ok <==> !IsAmbiguous(e, pos, move) && IsLegal(e, pos, move))
            && (ok <==> error.None?)
            && (error == Some("ambiguous") <==> IsAmbiguous(e, pos, move))
            && (error == Some("illegal") <==> !IsAmbiguous(e, pos, move) && !IsLegal(e, pos, move))
  {
  }

  /** execute_move: a UCI string naming a legal move is pushed; otherwise,
      even for a UCI string naming no legal move, the SAN reading is pushed
      when there is one; False and the same position otherwise. */
  function ExecuteMove<P>(e: Engine<P>, pos: P, move: string): (bool, P)
  {
    if e.parsesAsUci(move) && e.isLegalUci(pos, move) then (true, e.push(pos, move))
    else match e.parseSan(pos, move)
      case ParsedSan(u) => (true, e.push(pos, u))
      case _ => (false, pos)
  }

  /** At most one move is applied: on False the position is the same, on
      True it is the given one with a single move pushed, either the UCI
      string itself (then a legal move) or parse_san's reading. */
  lemma ExecuteMoveEffect<P>(e: Engine<P>, pos: P, move: string)
    ensures var (ok, next) := ExecuteMove(e, pos, move);
            && (!ok ==> next == pos)
            && (ok <==> (e.parsesAsUci(move) && e.isLegalUci(pos, move)) || e.parseSan(pos, move).ParsedSan?)
            && (ok ==> (e.parsesAsUci(move) && e.isLegalUci(pos, move) && next == e.push(pos, move))
                       || (e.parseSan(pos, move).ParsedSan? && next == e.push(pos, e.parseSan(pos, move).uci)))
  {
  }

  /** Unlike is_legal, execute_move lets a UCI string that names no legal
      move fall through to parse_san: when that reads a move, it is pushed
      although is_legal says False. */
  lemma IllegalUciFallsThrough<P>(e: Engine<P>, pos: P, move: string)
    requires e.parsesAsUci(move) && !e.isLegalUci(pos, move)
    ensures !IsLegal(e, pos, move)
    ensures ExecuteMove(e, pos, move) ==
              match e.parseSan(pos, move)
              case ParsedSan(u) => (true, e.push(pos, u))
              case _ => (false, pos)
  {
  }

  /** A move that passes validation is executed, and what is pushed is a
      move the engine calls legal. */
  lemma ValidatedMoveExecutes<P>(e: Engine<P>, pos: P, move: string)
    requires ValidateMove(e, pos, move).0
    ensures ExecuteMove(e, pos, move).0
    ensures exists u :: e.isLegalUci(pos, u) && ExecuteMove(e, pos, move).1 == e.push(pos, u)
  {
    var u := if e.parsesAsUci(move) then move else e.parseSan(pos, move).uci;
    assert e.isLegalUci(pos, u) && ExecuteMove(e, pos, move).1 == e.push(pos, u);
  }
}
