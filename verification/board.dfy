/** The chess engine the move-interpretation code drives (python-chess),
    reduced to what that code observes of it. A position is an abstract
    value; the engine supplies, for a position, its legal moves in generation
    order, the outcome of reading a SAN string, and the effect of pushing a
    move. A move is identified by its UCI text. */
module Board {

  datatype Piece = Pawn | Knight | Bishop | Rook | Queen | King

  datatype Color = White | Black

  /** One legal move as the code sees it: its SAN in the current position,
      its UCI text, the names of its origin and destination squares, and the
      kind of the piece standing on the origin square. */
  datatype LegalMove = LegalMove(san: string, uci: string, from: string, to: string, piece: Piece)

  /** The outcome of `board.parse_san`: a move (given by its UCI text, which
      need not be legal: a null move is returned for "--"), or the
      AmbiguousMoveError, or one of InvalidMoveError / IllegalMoveError. */
  datatype SanParse = ParsedSan(uci: string) | AmbiguousSan | InvalidSan

  /** The engine operations, over positions of type `P`:
      - `legalMoves`: `board.legal_moves`, in generation order;
      - `parseSan`: `board.parse_san`;
      - `parsesAsUci`: whether `chess.Move.from_uci` accepts the text;
      - `isLegalUci`: whether the move with the given UCI text is `in
        board.legal_moves`. python-chess decides this with `board.is_legal`,
        which also accepts encodings the list does not spell, such as the
        king-onto-rook form "e1h1" of castling, so it is an operation of its
        own rather than a comparison with the listed UCI texts;
      - `push`: `board.push` of the move with the given UCI text;
      - `isGameOver` and `result`: `board.is_game_over()` and `board.result()`;
      - `pieceCount`: `len(board.pieces(kind, colour))`. */
  datatype Engine<!P> = Engine(
    legalMoves: P -> seq<LegalMove>,
    parseSan: (P, string) -> SanParse,
    parsesAsUci: string -> bool,
    isLegalUci: (P, string) -> bool,
    push: (P, string) -> P,
    isGameOver: P -> bool,
    result: P -> string,
    pieceCount: (P, Piece, Color) -> nat)
}
