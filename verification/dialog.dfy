/** The two speech handlers of main.py as one pure transition each: the
    module-level `waiting_for_clarification` / `pending_move` globals and
    the game's position form a session; what would be spoken is returned
    as a list of utterances; the intent classifier's verdict is a
    parameter. */
module Dialog {
  import opened Common
  import opened Text
  import opened Board
  import opened MoveParser
  import opened MoveValidator
  import opened GameInterface

  datatype Session<P> = Session(waiting: bool, pending: Option<string>, pos: P)

  /** The Python value a handler returns: True, False or the `...` of
      handle_clarification's last line. */
  datatype Ret = PyTrue | PyFalse | PyEllipsis

  /** The exceptions handle_clarification can raise from inside the
      clarifier: `None.replace` and `""[0]`. */
  datatype PyError = AttributeError | IndexError

  datatype Turn<P> = Completed(ret: Ret, session: Session<P>, spoken: seq<string>) | Raised(error: PyError)

  const AskSquareAgain := "I didn't understand. Please say the square, like 'a1' or 'h8'."
  const NoSuchOrigin := "That square doesn't match any legal move. Please try again."
  const NotUnderstood := "Could not understand move. Please try again."
  const InvalidMove := "Invalid move"

  /** handle_clarification: the origin square is read from the text as
      heard, not lower-cased, and the pending move is handed to the game
      unchecked. */
  function HandleClarification<P>(e: Engine<P>, s: Session<P>, text: string): Turn<P>
  {
    match ExtractSquare(text)
    case None => Completed(PyTrue, s, [AskSquareAgain])
    case Some(sq) =>
      match s.pending
      case None => Raised(AttributeError)
      case Some(m) =>
        if |m| == 0 then Raised(IndexError)
        else
          var r := HandleAmbiguousMove(e, s.pos, m, sq);
          if r.ok then
            var said := "Moved " + m + " from " + sq;
            var cleared := Session(false, None, r.pos);
            if e.isGameOver(r.pos) then Completed(PyFalse, cleared, [said, "Game over. " + GetResult(e, r.pos)])
            else Completed(PyEllipsis, cleared, [said])
          else Completed(PyTrue, s.(pos := r.pos), [NoSuchOrigin])
  }

  /** handle_speech: only the "move" and "uci_move" intents do anything;
      `not parsed_move` rejects the empty string as well as None. */
  function HandleSpeech<P>(e: Engine<P>, s: Session<P>, text: string, intent: string): Turn<P>
  {
    if intent == "move" || intent == "uci_move" then
      match ParseMove(text)
      case None => Completed(PyTrue, s, [NotUnderstood])
      case Some(m) =>
        if |m| == 0 then Completed(PyTrue, s, [NotUnderstood])
        else
          var r := PlayMove(e, s.pos, m);
          var next := s.(pos := r.pos);
          if r.ok then Completed(PyTrue, next, ["Moved " + m])
          else if r.code == "ambiguous" then Completed(PyTrue, next, [DisambiguationPrompt(e, s.pos, m)])
          else Completed(PyTrue, next, [InvalidMove])
    else Completed(PyTrue, s, [])
  }

  // ---------------------------------------------------------------------
  // handle_clarification
  // ---------------------------------------------------------------------

  /** Text without a lower-case square ("E2" included) changes nothing and
      asks again. */
  lemma ClarificationWithoutSquare<P>(e: Engine<P>, s: Session<P>, text: string)
    requires forall i :: !SquareAt(text, i)
    ensures HandleClarification(e, s, text) == Completed(PyTrue, s, [AskSquareAgain])
  {
    ExtractSquareSpec(text);
  }

  /** With a square heard, a missing pending move raises AttributeError and
      an empty one IndexError, before anything is spoken or changed. */
  lemma ClarificationRaises<P>(e: Engine<P>, s: Session<P>, text: string)
    requires exists i :: SquareAt(text, i)
    ensures HandleClarification(e, s, text).Raised? <==> s.pending.None? || s.pending == Some("")
    ensures s.pending.None? ==> HandleClarification(e, s, text) == Raised(AttributeError)
    ensures s.pending == Some("") ==> HandleClarification(e, s, text) == Raised(IndexError)
  {
    ExtractSquareSpec(text);
  }

  /** A heard square whose play does not succeed leaves the session,
      waiting flag, pending move and position alike, unchanged and answers
      that the square matches no legal move. That covers a square no option
      of the pending move starts on ("invalid_square") as well as a resolved
      move that play_move rejects as "ambiguous" or "illegal". */
  lemma ClarificationRejected<P>(e: Engine<P>, s: Session<P>, text: string, m: string)
    requires s.pending == Some(m) && |m| > 0
    requires ExtractSquare(text).Some?
    requires !HandleAmbiguousMove(e, s.pos, m, ExtractSquare(text).value).ok
    ensures HandleClarification(e, s, text) == Completed(PyTrue, s, [NoSuchOrigin])
    ensures HandleAmbiguousMove(e, s.pos, m, ExtractSquare(text).value).code in {"invalid_square", "ambiguous", "illegal"}
  {
    HandleAmbiguousOutcome(e, s.pos, m, ExtractSquare(text).value);
  }

  /** In particular a square no option of the pending move starts on is
      rejected. */
  lemma ClarificationNoSuchOrigin<P>(e: Engine<P>, s: Session<P>, text: string, m: string)
    requires s.pending == Some(m) && |m| > 0
    requires ExtractSquare(text).Some?
    requires forall i :: 0 <= i < |Options(e, s.pos, m)| ==>
                           Options(e, s.pos, m)[i].from != Lower(ExtractSquare(text).value)
    ensures HandleClarification(e, s, text) == Completed(PyTrue, s, [NoSuchOrigin])
  {
    HandleAmbiguousOutcome(e, s.pos, m, ExtractSquare(text).value);
    ClarificationRejected(e, s, text, m);
  }

  /** Whatever is heard, a clarification that completes either plays the
      pending move successfully from a square one of its options starts
      on, exactly when handle_ambiguous_move reports success, clearing
      the waiting flag and the pending move and returning False exactly
      when the game is then over, or changes nothing at all. */
  lemma ClarificationOutcome<P>(e: Engine<P>, s: Session<P>, text: string)
    ensures match HandleClarification(e, s, text)
            case Raised(_) => true
            case Completed(ret, next, spoken) =>
              && |spoken| > 0
              && (ret == PyTrue <==> next == s)
              && (s.pending.Some? && |s.pending.value| > 0 && ExtractSquare(text).Some? ==>
                    (ret != PyTrue <==> HandleAmbiguousMove(e, s.pos, s.pending.value, ExtractSquare(text).value).ok))
              && (ret != PyTrue ==>
                    && !next.waiting && next.pending.None?
                    && s.pending.Some? && ExtractSquare(text).Some?
                    && (var options := Options(e, s.pos, s.pending.value);
                        exists i :: 0 <= i < |options| && options[i].from == Lower(ExtractSquare(text).value)
                                    && PlayMove(e, s.pos, options[i].san).ok
                                    && next.pos == PlayMove(e, s.pos, options[i].san).pos)
                    && spoken[0] == "Moved " + s.pending.value + " from " + ExtractSquare(text).value
                    && (ret == PyFalse <==> e.isGameOver(next.pos)))
  {
    var t := HandleClarification(e, s, text);
    if ExtractSquare(text).Some? && s.pending.Some? && |s.pending.value| > 0 {
      var m := s.pending.value;
      var sq := ExtractSquare(text).value;
      HandleAmbiguousOutcome(e, s.pos, m, sq);
      if HandleAmbiguousMove(e, s.pos, m, sq).ok {
        assert t.Completed? && t.session.pending.None? && t.session.pending != s.pending;
      }
    }
  }

  // ---------------------------------------------------------------------
  // handle_speech
  // ---------------------------------------------------------------------

  /** handle_speech always returns True and never touches the waiting flag
      or the pending move: an ambiguous move is answered with the prompt
      but never recorded for handle_clarification. Only a played move
      changes the position. */
  lemma SpeechKeepsDialogState<P>(e: Engine<P>, s: Session<P>, text: string, intent: string)
    ensures var t := HandleSpeech(e, s, text, intent);
            && t.Completed? && t.ret == PyTrue
            && t.session.waiting == s.waiting && t.session.pending == s.pending
            && (t.session.pos != s.pos ==>
                  && (intent == "move" || intent == "uci_move")
                  && ParseMove(text).Some?
                  && t.spoken == ["Moved " + ParseMove(text).value])
  {
    var t := HandleSpeech(e, s, text, intent);
    if (intent == "move" || intent == "uci_move") && ParseMove(text).Some? && |ParseMove(text).value| > 0 {
      PlayMoveOutcome(e, s.pos, ParseMove(text).value);
    }
  }

  /** An utterance of another intent is ignored silently; one that does
      not parse is answered and ignored. */
  lemma SpeechIgnored<P>(e: Engine<P>, s: Session<P>, text: string, intent: string)
    requires (intent != "move" && intent != "uci_move") || ParseMove(text).None?
    ensures HandleSpeech(e, s, text, intent) ==
              Completed(PyTrue, s, if intent != "move" && intent != "uci_move" then [] else [NotUnderstood])
  {
  }

  /** A parsed move is played when it validates, answered with the
      clarification prompt when parse_san calls it ambiguous, and rejected
      as invalid otherwise; only the first case moves. */
  lemma SpeechPlaysParsedMove<P>(e: Engine<P>, s: Session<P>, text: string, intent: string)
    requires intent == "move" || intent == "uci_move"
    requires ParseMove(text).Some?
    ensures var m := ParseMove(text).value;
            var t := HandleSpeech(e, s, text, intent);
            var (valid, _) := ValidateMove(e, s.pos, m);
            && |m| > 0
            && (valid ==> t == Completed(PyTrue, s.(pos := PlayMove(e, s.pos, m).pos), ["Moved " + m]))
            && (!valid && IsAmbiguous(e, s.pos, m) ==> t == Completed(PyTrue, s, [Prompt(e, s.pos, m)]))
            && (!valid && !IsAmbiguous(e, s.pos, m) ==> t == Completed(PyTrue, s, [InvalidMove]))
  {
    var m := ParseMove(text).value;
    ParseMoveNonEmpty(text);
    PlayMoveOutcome(e, s.pos, m);
    ValidateMoveOrder(e, s.pos, m);
  }

  /** A run of utterances through handle_speech, each with its intent. */
  function Listen<P>(e: Engine<P>, s: Session<P>, heard: seq<(string, string)>): Session<P>
    decreases |heard|
  {
    if |heard| == 0 then s
    else
      var t := HandleSpeech(e, s, heard[0].0, heard[0].1);
      Listen(e, if t.Completed? then t.session else s, heard[1..])
  }

  /** However long the conversation, the listening loop never arms the
      clarification: from the initial globals the pending move stays None,
      so any later handle_clarification that hears a square raises
      AttributeError. */
  lemma {:induction false} ClarificationNeverArmed<P>(e: Engine<P>, s: Session<P>, heard: seq<(string, string)>, text: string)
    requires !s.waiting && s.pending.None?
    requires exists i :: SquareAt(text, i)
    ensures var after := Listen(e, s, heard);
            && !after.waiting && after.pending.None?
            && HandleClarification(e, after, text) == Raised(AttributeError)
    decreases |heard|
  {
    if |heard| == 0 {
      ClarificationRaises(e, s, text);
    } else {
      SpeechKeepsDialogState(e, s, heard[0].0, heard[0].1);
      var t := HandleSpeech(e, s, heard[0].0, heard[0].1);
      ClarificationNeverArmed(e, t.session, heard[1..], text);
    }
  }
}
