/**
  The quiz as the player drives it. The page only offers some events: an
  option button can be clicked while it is enabled, the next control while
  it is displayed, the restart control while the scoreboard is up; a click
  on anything else does nothing. `Run` plays a sequence of such events.
 */
module Session {
  import opened Quiz

  datatype Event =
    | Choose(button: nat)          // click on the option button at this position
    | Next                         // click on the next control
    | Restart(outcome: LoadOutcome) // click on restart, and how the reload ends

  /**
    Whether the page offers `e` at all: a disabled button fires no click,
    a hidden next control cannot be clicked, and the controls of the
    hidden surface cannot be reached. On every page the script reaches,
    this gating keeps the phases of a question apart: an option is only
    offered while the question is unanswered and inside the list, and the
    next and restart controls only once no option can be picked.
   */
  function Enabled(p: Page, e: Event): (b: bool)
    ensures b && e.Restart? ==> p.screen == Scoreboard
    ensures b && !e.Restart? ==> p.screen == Game
    ensures b && e.Choose? ==> e.button < |p.buttons| && !p.buttons[e.button].disabled
    ensures b && e.Next? ==> p.nextShown
    ensures InvariantAsWritten(p) && b && e.Choose? ==> !p.nextShown && p.current < |p.questions|
    ensures InvariantAsWritten(p) && b && !e.Choose? ==> !Answerable(p)
  {
    match e
    case Choose(j) => p.screen == Game && j < |p.buttons| && !p.buttons[j].disabled
    case Next => p.screen == Game && p.nextShown
    case Restart(_) => p.screen == Scoreboard
  }

  /** The current question has been answered and the game waits for the next control. */
  predicate Answered(p: Page) {
    p.screen == Game && p.nextShown
  }

  /** Some option button can still be clicked. */
  predicate Answerable(p: Page) {
    exists j :: 0 <= j < |p.buttons| && !p.buttons[j].disabled
  }

  /** What holds of every page the player can reach when every reload runs the per-question reset. */
  predicate Invariant(p: Page) {
    && p.current <= |p.questions|
    && p.score <= p.current + (if Answered(p) then 1 else 0)
    && (Answered(p) ==> p.current < |p.questions|)
    && (p.screen == Scoreboard ==> p.current == |p.questions| && p.nextShown)
    && (Answerable(p) ==> !p.nextShown && p.current < |p.questions|)
  }

  /** One event, with the reset-on-reload `RestartGame`; an event the page does not offer leaves it unchanged. */
  function Step(p: Page, e: Event): (r: Page)
    requires Invariant(p)
    ensures Invariant(r)
    ensures r.score <= p.score + 1
  {
    if !Enabled(p, e) then p
    else
      match e
      case Choose(j) =>
        assert Answerable(p);
        CheckAnswer(p, p.buttons[j].index)
      case Next => NextQuestion(p)
      case Restart(o) => RestartGame(p, o)
  }

  /** The page after the events `es`, in order. */
  function Run(p: Page, es: seq<Event>): (r: Page)
    requires Invariant(p)
    ensures Invariant(r)
    decreases |es|
  {
    if |es| == 0 then p else Run(Step(p, es[0]), es[1..])
  }

  /** Every run starts from a page the invariant covers. */
  lemma StartInvariant(outcome: LoadOutcome)
    ensures Invariant(Start(outcome))
  {
  }

  /** The page after the first load and then the events `es`. */
  function Play(outcome: LoadOutcome, es: seq<Event>): (r: Page)
    ensures Invariant(r)
  {
    StartInvariant(outcome);
    Run(Start(outcome), es)
  }

  /**
    The score never runs ahead of the questions: it is at most the number
    of questions passed, plus one while the current one is answered, so
    at most the number of questions, and on the scoreboard the position is
    the total. Stated for reloads that run the reset; `ScoreBoundAsWritten`
    states the bound for the script's own reloads.
   */
  lemma ScoreBound(outcome: LoadOutcome, es: seq<Event>)
    ensures var p := Play(outcome, es);
      && p.score <= p.current + (if Answered(p) then 1 else 0)
      && p.score <= |p.questions|
      && (p.screen == Scoreboard ==> p.current == |p.questions|)
  {
  }

  /** An answer disables every option: the player cannot answer twice, and only the next control is left. */
  lemma OneAnswerPerQuestion(p: Page, j: nat)
    requires Invariant(p) && Enabled(p, Choose(j))
    ensures var r := Step(p, Choose(j));
      && (forall j' :: !Enabled(r, Choose(j')))
      && Enabled(r, Next)
  {
  }

  /** The next control is only there after an answer: while an option can still be picked, `Next` does nothing. */
  lemma NoNextBeforeAnswer(p: Page)
    requires Invariant(p) && Answerable(p)
    ensures !Enabled(p, Next)
    ensures Step(p, Next) == p
  {
  }

  /** With an empty question list the page shows its notice and no option, and no event changes anything. */
  lemma {:induction false} EmptyQuizIsDeadEnd(picks: seq<nat>, es: seq<Event>)
    ensures Play(Loaded([], picks), es) == Start(Loaded([], picks))
    ensures Start(Loaded([], picks)).media == Notice(NoQuestions)
    ensures Start(Loaded([], picks)).buttons == []
  {
    StartInvariant(Loaded([], picks));
    StaysPut(Start(Loaded([], picks)), es);
  }

  /** A failed first load shows its notice and no option, and no event changes anything. */
  lemma {:induction false} FailedStartIsDeadEnd(es: seq<Event>)
    ensures Play(Failed, es) == Start(Failed)
    ensures Start(Failed).media == Notice(LoadFailure)
    ensures Start(Failed).buttons == []
  {
    StartInvariant(Failed);
    StaysPut(Start(Failed), es);
  }

  /** A game page with no option and no next control ignores every event. */
  lemma {:induction false} StaysPut(p: Page, es: seq<Event>)
    requires Invariant(p)
    requires p.screen == Game && p.buttons == [] && !p.nextShown
    ensures Run(p, es) == p
    decreases |es|
  {
    if |es| > 0 {
      assert !Enabled(p, es[0]);
      StaysPut(p, es[1..]);
    }
  }

  // The script's own reloads: a restart runs `LoadAsWritten`, which may
  // leave the next control of the finished round on the page.

  /** What holds of every page the script lets a player reach. */
  predicate InvariantAsWritten(p: Page) {
    && p.score <= |p.questions|
    && p.score <= p.current + (if Answered(p) then 1 else 0)
    && (p.screen == Scoreboard ==> p.nextShown)
    && (Answerable(p) ==> !p.nextShown && p.current < |p.questions|)
  }

  /** One event as the script handles it; an event the page does not offer leaves it unchanged. */
  function StepAsWritten(p: Page, e: Event): (r: Page)
    requires InvariantAsWritten(p)
    ensures InvariantAsWritten(r)
    ensures r.score <= p.score + 1
  {
    if !Enabled(p, e) then p
    else
      match e
      case Choose(j) =>
        assert Answerable(p);
        CheckAnswer(p, p.buttons[j].index)
      case Next => NextQuestion(p)
      case Restart(o) => LoadAsWritten(p.(screen := Game), o)
  }

  /** The page after the events `es`, as the script handles them. */
  function RunAsWritten(p: Page, es: seq<Event>): (r: Page)
    requires InvariantAsWritten(p)
    ensures InvariantAsWritten(r)
    decreases |es|
  {
    if |es| == 0 then p else RunAsWritten(StepAsWritten(p, es[0]), es[1..])
  }

  /** The first load is the same in both versions: there is no earlier round to leave controls behind. */
  lemma StartAsWritten(outcome: LoadOutcome)
    ensures Start(outcome) == LoadAsWritten(Initial, outcome)
    ensures InvariantAsWritten(Start(outcome))
  {
  }

  /** The page after the first load and then the events `es`, as the script handles them. */
  function PlayAsWritten(outcome: LoadOutcome, es: seq<Event>): (r: Page)
    ensures InvariantAsWritten(r)
  {
    StartAsWritten(outcome);
    RunAsWritten(Start(outcome), es)
  }

  /**
    The score bound holds for the script as written: along any game,
    including reloads that leave the next control up, the score is at
    most the number of questions passed, plus one while the current one
    is answered, and at most the number of questions.
   */
  lemma ScoreBoundAsWritten(outcome: LoadOutcome, es: seq<Event>)
    ensures var p := PlayAsWritten(outcome, es);
      && p.score <= p.current + (if Answered(p) then 1 else 0)
      && p.score <= |p.questions|
  {
  }

  /** As written: an answer disables every option, and only the next control is left. */
  lemma OneAnswerPerQuestionAsWritten(p: Page, j: nat)
    requires InvariantAsWritten(p) && Enabled(p, Choose(j))
    ensures var r := StepAsWritten(p, Choose(j));
      && (forall j' :: !Enabled(r, Choose(j')))
      && Enabled(r, Next)
  {
  }

  /** As written: while an option can still be picked, `Next` is not offered and does nothing. */
  lemma NoNextBeforeAnswerAsWritten(p: Page)
    requires InvariantAsWritten(p) && Answerable(p)
    ensures !Enabled(p, Next)
    ensures StepAsWritten(p, Next) == p
  {
  }

  /** As written: a game page with no option and no next control ignores every event. */
  lemma {:induction false} StaysPutAsWritten(p: Page, es: seq<Event>)
    requires InvariantAsWritten(p)
    requires p.screen == Game && p.buttons == [] && !p.nextShown
    ensures RunAsWritten(p, es) == p
    decreases |es|
  {
    if |es| > 0 {
      assert !Enabled(p, es[0]);
      StaysPutAsWritten(p, es[1..]);
    }
  }

  /** As written: an empty first load shows its notice and no option, and no event changes anything. */
  lemma {:induction false} EmptyQuizIsDeadEndAsWritten(picks: seq<nat>, es: seq<Event>)
    ensures PlayAsWritten(Loaded([], picks), es) == Start(Loaded([], picks))
    ensures Start(Loaded([], picks)).media == Notice(NoQuestions)
    ensures Start(Loaded([], picks)).buttons == []
  {
    StartAsWritten(Loaded([], picks));
    StaysPutAsWritten(Start(Loaded([], picks)), es);
  }

  /** As written: a failed first load shows its notice and no option, and no event changes anything. */
  lemma {:induction false} FailedStartIsDeadEndAsWritten(es: seq<Event>)
    ensures PlayAsWritten(Failed, es) == Start(Failed)
    ensures Start(Failed).media == Notice(LoadFailure)
    ensures Start(Failed).buttons == []
  {
    StartAsWritten(Failed);
    StaysPutAsWritten(Start(Failed), es);
  }
}
