/**
  Two ways the script leaves the next control of a finished round on the
  page. The last answer of a round displays the next control, and nothing
  on the way to the scoreboard hides it again. After the restart control,
  only rendering a question hides it; a reload that renders nothing (an
  empty list, or a failed fetch) leaves it clickable, and clicking it moves
  the position past the end of the list. The same leftover control can
  also be clicked while any restart's fetch is still pending, since the
  restart shows the game surface before the load resolves; that
  interleaving is outside this model. `LoadAsWritten` and
  `ShowQuestionAsWritten` keep the script's behaviour; `LoadQuestions`,
  which the session uses, runs the per-question reset in both cases.
 */
module Findings {
  import opened Quiz
  import opened Session

  /** A one-question round played to the end: the scoreboard the findings start from. */
  lemma ScoreboardIsReached()
    ensures var p := Play(Loaded([Question("image", "q.png", ["a", "b"], 0)], []), [Choose(0), Next]);
      p.screen == Scoreboard && p.nextShown && p.score == 1 && p.finalText == "You scored 1 out of 1!"
  {
  }

  /**
    As written, a restart from any scoreboard into an empty list keeps the
    next control up; clicking it moves the position to 1 in a list of 0
    and shows "You scored 0 out of 0!".
   */
  lemma EmptyReloadOverrunsAsWritten(p: Page, picks: seq<nat>)
    requires Invariant(p) && p.screen == Scoreboard
    ensures var r := LoadAsWritten(p.(screen := Game), Loaded([], picks));
      && Enabled(r, Next) && r.questions == [] && r.media == Notice(NoQuestions)
      && !Invariant(r)
      && NextQuestion(r).current == 1 && |NextQuestion(r).questions| == 0
      && NextQuestion(r).screen == Scoreboard
      && NextQuestion(r).finalText == "You scored 0 out of 0!"
  {
  }

  /**
    As written, a restart from any scoreboard whose fetch fails keeps the
    old list, position and score and the next control; clicking it moves
    the position one past the end of the list.
   */
  lemma FailedReloadOverrunsAsWritten(p: Page)
    requires Invariant(p) && p.screen == Scoreboard
    ensures var r := LoadAsWritten(p.(screen := Game), Failed);
      && Enabled(r, Next) && r.media == Notice(LoadFailure)
      && NextQuestion(r).current == |p.questions| + 1
      && NextQuestion(r).screen == Scoreboard
  {
  }

  /**
    With the reset in place, no reload leaves the next control up, and the
    position stays within the list on every page a player can reach.
   */
  lemma ReloadHidesNext(p: Page, outcome: LoadOutcome, es: seq<Event>)
    requires Invariant(p) && Enabled(p, Restart(outcome))
    ensures !Enabled(Step(p, Restart(outcome)), Next)
    ensures Play(outcome, es).current <= |Play(outcome, es).questions|
  {
  }
}
