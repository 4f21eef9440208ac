# HandsFreeChess move interpretation, in Dafny

HandsFreeChess is a voice interface to chess. This project models the layer
that turns a transcribed utterance into a move and carries out the
clarification turn. The model has five parts:

- **Parser** (`move_parser.dfy`, module `MoveParser`; concrete cases in
  `parser_examples.dfy`): `normalize_command`, `extract_promotion`,
  `extract_square`, `extract_square_disambiguation` and `parse_move` from
  `voice_input/move_parser.py`. Each fixed regular expression is a
  hand-written scanner. `str.lower`, `str.strip`, `in` and `str.replace` are
  in `text.dfy` (module `Text`).
- **Clarifier** (`move_validator.dfy`, module `MoveValidator`): the
  `MoveClarifier` class of `chess_rules/move_validator.py`.
  - It covers `is_ambiguous`, `get_disambiguation_options`,
    `get_clarification_prompt`, `resolve_ambiguous_move`, `is_legal`,
    `validate_move` and `execute_move`.
  - It runs over an abstract board (`board.dfy`, module `Board`). `Engine<P>`
    is a record of functions over a position type `P`: the legal moves as
    `(san, uci, from, to, piece)` records in engine order, the SAN reading of
    a string (`ParsedSan(uci) | AmbiguousSan | InvalidSan`), whether
    `Move.from_uci` accepts a string, `push`, game over, result, and piece
    counts.
- **Game wrapper** (`game_interface.dfy`, module `GameInterface`): from
  `chess_rules/game_interface.py`, `parse_castling_intent`, `play_move`,
  `handle_ambiguous_move`, `get_disambiguation_prompt`, `material_balance`
  and `get_result`.
- **Dialog** (`dialog.dfy`, module `Dialog`): from `main.py`,
  `handle_clarification` and `handle_speech`.
  - Each is a pure transition over a session: the
    `waiting_for_clarification` and `pending_move` globals plus the position.
  - It returns the Python return value and the list of utterances spoken.
  - The intent classifier's label is an input.
- **Scenarios** (`scenarios.dfy`): a toy engine in which two knights can
  reach e5. It walks through the prompt, the clarification and castling.

`Option` is in `common.dfy`.

Some behaviour of the code is easy to misread; the model follows the code
as written:

- After an ambiguous move, `handle_speech` speaks the prompt but never sets
  `pending_move` or `waiting_for_clarification`. A later square answer
  therefore makes `handle_clarification` raise AttributeError.
  `Dialog.ClarificationNeverArmed` proves the pending move stays None however
  long the conversation runs.
- Clarifications are read with `extract_square` on the text as heard. Spelled
  ranks and upper-case squares are not recognised.
- A castling request with both sides legal returns the pair of sides. No
  castle-side clarification state consumes it.
- Normalisation does not collapse whitespace. It only joins a file letter to
  a rank digit across whitespace.
- The piece letter is the first character of the normalised text whenever
  that is b, n, r, q or k. So the pawn move "b4" becomes "Bb4".
- The prompt lists every option's origin square in engine order, without
  removing duplicates. A single option reads "Which X: , or e2?".

Two defects in `game_interface.py` make the real object unusable:

- `self.player_color` is never assigned.
- `mv(self.board)` calls the module `move_validator` instead of
  `MoveClarifier`.

The model therefore takes the colour as a parameter and builds the clarifier
over the same engine and position.

The definitions that model the source functions:

- `MoveParser`: `Normalize` (normalize_command), `MergeSpacedSquares` (its
  `re.sub` step), `ExtractPromotion`, `ExtractSquare`,
  `ExtractSquareDisambiguation` and `ParseMove`.
- `MoveValidator`: `IsAmbiguous`, `Options` (get_disambiguation_options),
  `Prompt` (get_clarification_prompt), `ResolveAmbiguous`, `IsLegal`,
  `ValidateMove` and `ExecuteMove`.
- `GameInterface`: `ParseCastlingIntent`, `PlayMove`, `HandleAmbiguousMove`,
  `DisambiguationPrompt`, `MaterialBalance` and `GetResult`.
- `Dialog`: `HandleClarification` and `HandleSpeech`; `Listen` runs a
  sequence of speech turns.

## Model

| member | source | states |
|---|---|---|
| Text.ContainsMeansOccurs | voice_input/move_parser.py:41-44 | Python's `p in t` holds exactly when `p` occurs at some index of `t` |
| Text.StartsWithPrefix | voice_input/move_parser.py:108 | `t.startswith(p)` holds exactly when `p` is no longer than `t` and is its prefix |
| Text.ReplaceAllFacts | voice_input/move_parser.py:30-31 | `t.replace(p, r)`: returns `t` when `p` does not occur; never lengthens `t` for an `r` no longer than `p`; changes `t` exactly when `p` occurs, for a shorter `r`; introduces only characters of `t` or `r` |
| Text.ReplaceLeavesNoKey | voice_input/move_parser.py:30-31 | after replacing `p` by a non-empty `r` that shares no character with `p`, no occurrence of `p` remains, including across a seam |
| Text.ReplaceFirst | voice_input/move_parser.py:30-31 | when the first occurrence of `p` is right after `a`, the result is `a`, then `r`, then the replaced rest |
| Text.StripSpec | voice_input/move_parser.py:62 | `strip()` keeps a slice of the input that neither starts nor ends with whitespace and drops only whitespace on either side of it |
| MoveParser.MergeOnlyDropsSpaces | voice_input/move_parser.py:13 | joining "file whitespace rank" deletes whitespace and nothing else: the non-space characters survive unchanged and in order |
| MoveParser.MergeKeepsChars | voice_input/move_parser.py:13 | the join never lengthens the text and introduces no character |
| MoveParser.MergeUnchanged | voice_input/move_parser.py:13 | text in which no file letter is followed by whitespace is left unchanged |
| MoveParser.MergeClosesGaps | voice_input/move_parser.py:12-13 | after the merge no file letter is followed by whitespace and then a rank digit anywhere: every spaced square such as "e 5" or "d   4" has been joined into a plain square |
| MoveParser.MergeCopiesPlainPrefix | voice_input/move_parser.py:13 | a prefix at none of whose indices the pattern matches is copied unchanged, whitespace after a file letter included, and the merge continues after it |
| MoveParser.MergeFixesExactlyPlainText | voice_input/move_parser.py:12-13 | the merge leaves a text unchanged exactly when no file letter, whitespace run and rank digit occur in it in that order |
| MoveParser.MergeJoinsSquare | voice_input/move_parser.py:12-13 | at a file letter followed by whitespace and a rank digit the two are written together without the whitespace, and the rest of the text is merged in the same way |
| MoveParser.ApplyReplacementsNoUpper | voice_input/move_parser.py:15-31 | applying the substitution table in its order introduces no upper-case letter |
| MoveParser.NormalizeIsLowercase | voice_input/move_parser.py:9-33 | the output of normalize_command holds no upper-case letter |
| MoveParser.CaptureVerbsConsumedWhole | voice_input/move_parser.py:15-31 | after the "takes" (or "captures") entry, no "takes" (or "captures") is left for the later "take" (or "capture") entry |
| MoveParser.PromoShorthandSpec | voice_input/move_parser.py:47-49 | the `=[qnrb]` search is None exactly when no such suffix occurs; otherwise it is the upper-cased letter of the leftmost one |
| MoveParser.ExtractPromotionSpec | voice_input/move_parser.py:39-51 | the result is in Q, R, B, N. The piece words win in the order queen, rook, bishop, knight. Without them the result is the shorthand's, and None exactly when there is no shorthand |
| MoveParser.ExtractSquareSpec | voice_input/move_parser.py:57-59 | None exactly when no `[a-h][1-8]` pair occurs; otherwise the leftmost pair, which is a square |
| MoveParser.ExtractSquareAt | voice_input/move_parser.py:57-59 | a square at index `i` with none before it is the one returned |
| MoveParser.FirstWordSquareSpec | voice_input/move_parser.py:72-77 | searching `([a-h])\s+word\b` finds the leftmost match and its file letter, or None exactly when there is no match |
| MoveParser.SpelledSquareSpec | voice_input/move_parser.py:67-79 | rank words are tried from one to eight. The first word with a match wins, giving its file and digit. None means no rank word matches |
| MoveParser.ExtractSquareDisambiguationSpec | voice_input/move_parser.py:61-79 | a digit square in the stripped, lower-cased text takes priority. Otherwise the first rank word, from one to eight, written after a file letter gives the square. Any result is a square, and None means neither form occurs |
| MoveParser.DecodeRender | voice_input/move_parser.py:119-121 | the string `piece? x? square (=P)?` assembled from well-formed fields reads back as exactly those fields |
| MoveParser.ExtractWellFormed | voice_input/move_parser.py:103-121 | the assembled candidate has a square destination, a piece in B, N, R, Q, K and a promotion in Q, R, B, N |
| MoveParser.ExtractShape | voice_input/move_parser.py:103-123 | from normalised text the result reads back as follows. The piece is present exactly when the text starts with b, n, r, q or k, and is that letter in upper case. The 'x' is present exactly when the text holds one. The destination is the leftmost square. The promotion is extract_promotion's |
| MoveParser.ParseMoveUci | voice_input/move_parser.py:86-97 | UCI round trip: both squares are copied unchanged; the promotion letter becomes `=` plus its upper case; the result is never SAN-shaped |
| MoveParser.ParseMoveNoSquare | voice_input/move_parser.py:99-105 | off the UCI path, parse_move gives None exactly when the normalised text holds no square |
| MoveParser.ParseMoveShape | voice_input/move_parser.py:99-123 | off the UCI path, the result has the `piece? x? square (=P)?` shape with the fields `ExtractShape` lists |
| MoveParser.ParseMoveNonEmpty | voice_input/move_parser.py:85-123 | every produced move string has at least two characters |
| ParserExamples.KnightToE5 | tests/test_move_parser.py:4-5 | "knight to e5" parses to "Ne5" |
| ParserExamples.KnightToSpacedE5 | voice_input/move_parser.py:12-13 | "knight to e 5", with the square spoken in two parts, also parses to "Ne5" |
| ParserExamples.MoveBishopToC4 | voice_input/move_parser.py:9-33 | "move bishop to c4" parses to "Bc4": the space after the "e" of "move" is kept by the merge, so "move " is dropped and the leading "b" names the bishop |
| ParserExamples.PawnTakesE4 | tests/test_move_parser.py:8-9 | "pawn takes e4" parses to "xe4": the pawn's origin file is lost |
| ParserExamples.PawnE8Queen | tests/test_move_parser.py:12-13 | "pawn e8 queen" parses to "e8=Q" |
| ParserExamples.PawnE8QueenPlease | voice_input/move_parser.py:9-33 | "pawn e 8 queen please" parses to the plain pawn move "e8": the square is joined, but "queen" followed by a space becomes "q" before promotion is looked for, so the promotion word is lost |
| ParserExamples.UciE2E4 | tests/test_move_parser.py:17-18 | "e2e4" parses to "e2e4" |
| ParserExamples.UciE7E8Q | tests/test_move_parser.py:21-22 | "e7e8q" parses to "e7e8=Q" |
| ParserExamples.PawnB4ReadAsBishop | voice_input/move_parser.py:108-109 | the pawn move "b4" parses to the bishop move "Bb4" |
| ParserExamples.TakesBeforeTake | voice_input/move_parser.py:15-31 | in table order "takes" becomes "x"; with "take" applied first it would become "xs" |
| MoveValidator.MatchingAppend | chess_rules/move_validator.py:38-49 | the option filter distributes over concatenation, so it keeps the engine's order |
| MoveValidator.MatchingMembers | chess_rules/move_validator.py:38-49 | a choice is listed exactly when a legal move of the requested kind and destination has that SAN and origin; there are no more choices than legal moves |
| MoveValidator.OptionsAreFilter | chess_rules/move_validator.py:20-51 | the options are the legal moves whose piece is the one the string's first character asks for (pawn unless upper case) and whose destination is the last two characters left after removing 'x' |
| MoveValidator.UnknownLetterNoOptions | chess_rules/move_validator.py:29-35 | an upper-case first letter outside K, Q, R, B, N, P (the 'O' of castling) yields no options |
| MoveValidator.NothingMatches | chess_rules/move_validator.py:38-49 | with no legal move of the kind and destination there is no option |
| MoveValidator.PromotionDestination | chess_rules/move_validator.py:26 | for a move string with a promotion suffix, such as "xd8=Q", the destination read is "=Q" |
| MoveValidator.PromotionHasNoOptions | chess_rules/move_validator.py:20-49 | such a string therefore gets no options whenever every legal move's destination is a square |
| MoveValidator.JoinReadsBack | chess_rules/move_validator.py:69 | the squares joined by ", " read back as exactly the same squares, in order |
| MoveValidator.SquareListReadsBack | chess_rules/move_validator.py:65-70 | the "A or B" and ", or last" lists read back as exactly the given squares, in order |
| MoveValidator.PromptNamesOrigins | chess_rules/move_validator.py:53-70 | with no option the prompt is "Could not find any legal moves matching '<move>'". Otherwise it starts "Which <piece>: ", naming the piece of the first letter (pawn by default), and ends with "?". The squares it names are exactly the options' origins, in order. Two are separated by " or "; with three or more, the others are joined by ", " and the last follows ", or " |
| MoveValidator.SingleOptionPrompt | chess_rules/move_validator.py:68-70 | a single option gives "Which <piece>: , or <square>?" |
| MoveValidator.FirstWithOriginSpec | chess_rules/move_validator.py:76-80 | None exactly when no option starts on the square; otherwise the SAN of the first option that does |
| MoveValidator.ResolveSpec | chess_rules/move_validator.py:72-80 | the origin is compared lower-cased. A result is an option's SAN, namely the first option with that origin. None exactly when no option has it |
| MoveValidator.UciLegalByMembershipOnly | chess_rules/move_validator.py:82-89 | a UCI-parsable string is legal exactly when the engine counts that move as in `legal_moves`. The SAN reading and the listed moves play no part |
| MoveValidator.SanLegality | chess_rules/move_validator.py:91-96 | any other string is legal exactly when its SAN reading succeeds and the engine counts the move read as legal; an ambiguous string is never legal |
| MoveValidator.ValidateMoveOrder | chess_rules/move_validator.py:98-106 | "ambiguous" exactly when the SAN reading is ambiguous; "illegal" exactly when it is not ambiguous and not legal; success with no error exactly otherwise |
| MoveValidator.ExecuteMoveEffect | chess_rules/move_validator.py:108-125 | at most one move is pushed. On False the position is unchanged. On True it is either the legal UCI string or the SAN reading that is pushed |
| MoveValidator.IllegalUciFallsThrough | chess_rules/move_validator.py:108-125 | a UCI string naming no legal move is not legal, yet execution falls through to the SAN reading |
| MoveValidator.ValidatedMoveExecutes | chess_rules/move_validator.py:98-125 | a move that passes validation is executed, and what is pushed is a move the engine counts as legal |
| GameInterface.QueensidePhraseHoldsKingsidePhrase | chess_rules/game_interface.py:22-26 | every text with "o-o-o" or "0-0-0" also holds a kingside phrase, so the check order decides |
| GameInterface.QueensideFirst | chess_rules/game_interface.py:22-23 | any queenside phrase gives "O-O-O", regardless of colour, legality and other words |
| GameInterface.KingsideNext | chess_rules/game_interface.py:25-26 | without a queenside phrase, any kingside phrase gives "O-O" |
| GameInterface.DirectionalWords | chess_rules/game_interface.py:29-43 | "left" is checked before "right". For White, left means O-O-O and right means O-O. Black's reading is the mirror image |
| GameInterface.GenericCastle | chess_rules/game_interface.py:46-61 | with "castle" or "castling": asks when both sides are legal, picks the one legal side, else None; None with no castling word |
| GameInterface.PlayMoveOutcome | chess_rules/game_interface.py:63-76 | a move that fails validation is not executed, and its error is passed on. A valid move is executed as a legal move with "move_executed". "execution_failed" never occurs |
| GameInterface.HandleAmbiguousOutcome | chess_rules/game_interface.py:78-85 | an origin no option has gives "invalid_square" and an unchanged position. Otherwise the first option starting on the lower-cased origin is played, so play_move's verdict and its "ambiguous" or "illegal" code are passed through; only an empty SAN gives "invalid_square". Success plays an option from that origin, and failure never moves |
| GameInterface.ScoreSwapped | chess_rules/game_interface.py:102-104 | exchanging the colours' counts negates the score |
| GameInterface.MaterialBalanceSpec | chess_rules/game_interface.py:91-106 | the balance is the sum of value times (white count minus black count) with P=1, N=3, B=3, R=5, Q=9. Swapping colours negates it. King counts do not matter |
| GameInterface.GetResultCases | chess_rules/game_interface.py:114-124 | each of "Game in progress", "White wins", "Black wins" and "Draw" is returned in exactly one of the four situations |
| Dialog.ClarificationWithoutSquare | main.py:49-70 | text without a lower-case square re-prompts, returns True and changes nothing |
| Dialog.ClarificationRaises | main.py:49-52 | with a square heard, a None pending move raises AttributeError and an empty one IndexError |
| Dialog.ClarificationRejected | main.py:51-67 | whenever handle_ambiguous_move fails, whether with "invalid_square", "ambiguous" or "illegal", the answer is "That square doesn't match any legal move", the return value is True, and waiting, pending and position are unchanged |
| Dialog.ClarificationNoSuchOrigin | main.py:51-67 | in particular a square no option of the pending move starts on is rejected that way |
| Dialog.ClarificationOutcome | main.py:44-72 | a completed clarification either changes nothing and returns True, or plays the pending move from a matching origin. With a square heard and a non-empty pending move, the second case happens exactly when handle_ambiguous_move succeeds, and the play of that option succeeds. It clears waiting and pending and says "Moved ... from ...". It returns False exactly when the game is then over, and `...` otherwise |
| Dialog.SpeechKeepsDialogState | main.py:75-103 | handle_speech always returns True and never changes waiting or pending; the position changes only when a parsed move is played and reported |
| Dialog.SpeechIgnored | main.py:79-84 | other intents are ignored silently; an unparsable move is answered and ignored |
| Dialog.SpeechPlaysParsedMove | main.py:86-98 | a parsed move that validates is played and reported. An ambiguous one leaves the position and speaks the clarification prompt. Any other is "Invalid move" |
| Dialog.ClarificationNeverArmed | main.py:91-96 | after any run of handle_speech calls from the initial globals, pending stays None, so a clarification that hears a square raises AttributeError |
| Scenarios.KnightOptions | chess_rules/move_validator.py:53-70 | with knights on d3 and g4 reaching e5, "Ne5" offers Nde5 then Nge5 and asks "Which knight: d3 or g4?" |
| Scenarios.SpeechAsksWhichKnight | main.py:91-94 | saying "knight to e5" there speaks that question and changes nothing |
| Scenarios.AnswerRaises | main.py:44-52 | answering "from g4" afterwards raises AttributeError |
| Scenarios.AnswerPlaysKnight | main.py:54-63 | with "Ne5" pending, "from g4" plays Nge5, clears the dialog, reports "Moved Ne5 from g4" and "Game over. White wins", and returns False |
| Scenarios.UpperCaseSquareIgnored | main.py:49 | "G4" is not heard as a square: re-prompt, nothing changes |
| Scenarios.BlackCastlesLeft | chess_rules/game_interface.py:29-35 | "castle left" from Black's side is "O-O" |
| Scenarios.ToyBalance | chess_rules/game_interface.py:91-106 | two extra white knights give a balance of 6 |

## Left out

- Character handling: `str.lower`, `str.upper`, `str.isupper` (the guard
  `RequestedPiece` applies before looking a letter up in `piece_map`) and the
  `\b` word boundary are modelled on ASCII letters, digits and underscore.
  Unicode case mapping and Unicode word characters are not modelled. `\s` and `strip` use Python's
  whitespace set.
- python-chess: legal-move generation, SAN and UCI parsing, the legality test
  behind `move in board.legal_moves`, `push`, game-over detection and piece
  counting are abstract functions of the engine record. The model proves only
  what follows from their results. In particular it does not relate the
  legality test to the listed moves: python-chess also accepts encodings the
  list does not spell, such as castling written as the king moving onto its
  rook.
- `GameState.__init__`, `update_from_fen`, `get_fen` and `is_game_over`
  (plain delegation) are not modelled, nor the `ChessDotCom` and `LiChess`
  adapters. They are construction, FEN and HTTP plumbing.
- The `game` and `tts` globals of `main.py` are set to None and never
  assigned, so the real handlers fail on their first use of either. The model
  assumes both are wired: the engine and position stand for `game`, and the
  list of spoken strings stands for `tts`.
- In `main.py`, `setup_ffmpeg`, `setup_microphone` and `main` are left out:
  they are environment and console I/O. Speech output is a returned list of
  strings; the intent classifier's label is an input.
- `voice_input/speech_to_text.py`, `speech_to_text_parser.py`,
  `voice_input/intent_classifier.py`, `voice_output/text_to_speech.py` and
  `state_reader.py` are not part of this model. They handle audio, embeddings
  with floating-point thresholds, text-to-speech, and a near-copy of the game
  wrapper with screen automation.
- Exceptions other than those `handle_clarification` raises on a missing or
  empty pending move are not modelled. This includes the crash `move_str[0]`
  would give on an empty string elsewhere: those members require a non-empty
  move, which parse_move always provides.
