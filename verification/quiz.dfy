/**
  The quiz page of Prompt-athon: the three globals the script keeps
  (`questions`, `currentQuestion`, `score`) together with the part of the
  document its handlers write (the media container, the option buttons and
  their `disabled`/`correct`/`wrong` marks, the feedback line, the next
  control, which of the game and scoreboard surfaces is visible, the final
  score line and the progress bar). Each handler of the script is a pure
  function from the page before to the page after.
 */
module Quiz {
  import Decimal
  import Shuffling

  /** One record of questions.json: media `kind` (`type` in the file), media `file`, the options, the correct option's index. */
  datatype Question = Question(kind: string, file: string, options: seq<string>, answer: int)

  /** An option button: its text, the option index its click handler passes on, and its state. */
  datatype Button = Button(text: string, index: nat, disabled: bool, correct: bool, wrong: bool)

  /** What the media container shows. */
  datatype MediaView = Blank | Picture(src: string) | Clip(src: string) | Notice(text: string)

  /** The progress bar: its width before the first render, `shown` out of `total` questions, or full. */
  datatype Progress = Unset | Partial(shown: nat, total: nat) | Complete

  /** Which of the two surfaces is visible; the other is hidden. */
  datatype Screen = Game | Scoreboard

  datatype Page = Page(
    questions: seq<Question>,
    current: nat,
    score: nat,
    media: MediaView,
    buttons: seq<Button>,
    feedback: string,
    nextShown: bool,
    screen: Screen,
    finalText: string,
    progress: Progress)

  /** How fetching questions.json ends: the parsed array and the random choices that shuffle it, or an error. */
  datatype LoadOutcome = Loaded(data: seq<Question>, picks: seq<nat>) | Failed

  const NoQuestions: string := "No questions found."
  const LoadFailure: string := "Failed to load questions.json"
  const CorrectText: string := "\U{1F389} Correct!"
  const WrongText: string := "\U{274C} Wrong!"

  /** The page when the script starts, before the first load completes. */
  const Initial: Page := Page([], 0, 0, Blank, [], "", false, Game, "", Unset)

  /** The quiz run itself (questions, position, score) is the same on both pages. */
  predicate SameRun(p: Page, r: Page) {
    r.questions == p.questions && r.current == p.current && r.score == p.score
  }

  /** `bs` is what rendering `options` puts in the options container: one enabled, unmarked button per option, in order, bound to its own index. */
  predicate FreshButtons(bs: seq<Button>, options: seq<string>) {
    && |bs| == |options|
    && forall k :: 0 <= k < |bs| ==>
         bs[k].text == options[k] && bs[k].index == k
         && !bs[k].disabled && !bs[k].correct && !bs[k].wrong
  }

  /** The per-question reset: empty media and options, no feedback, next control hidden. */
  function ResetControls(p: Page): (r: Page) {
    p.(media := Blank, buttons := [], feedback := "", nextShown := false)
  }

  function MediaFor(q: Question): (m: MediaView) {
    if q.kind == "video" then Clip(q.file) else Picture(q.file)
  }

  function OptionButtons(options: seq<string>): (bs: seq<Button>)
    ensures FreshButtons(bs, options)
  {
    seq(|options|, k requires 0 <= k < |options| => Button(options[k], k, false, false, false))
  }

  /**
    Render the current question. With no questions there is nothing to
    render and the page says so. The per-question reset runs before that
    check (see `ShowQuestionAsWritten` for the order the script uses).
    The script only calls this with `current` inside a non-empty list.
   */
  function ShowQuestion(p: Page): (r: Page)
    requires |p.questions| == 0 || p.current < |p.questions|
    ensures SameRun(p, r) && r.screen == p.screen && r.finalText == p.finalText
    ensures r.feedback == "" && !r.nextShown
    ensures |p.questions| == 0 ==>
      r.media == Notice(NoQuestions) && r.buttons == [] && r.progress == p.progress
    ensures |p.questions| > 0 ==>
      && FreshButtons(r.buttons, p.questions[p.current].options)
      && r.progress.Partial? && r.progress.total == |p.questions|
      && 1 <= r.progress.shown <= r.progress.total
      && r.progress.shown == p.current + 1
  {
    var p := ResetControls(p);
    if |p.questions| == 0 then p.(media := Notice(NoQuestions))
    else
      var q := p.questions[p.current];
      p.(media := MediaFor(q), buttons := OptionButtons(q.options),
         progress := Partial(p.current + 1, |p.questions|))
  }

  /**
    Render the current question in the script's order: the empty-list
    check comes first, so on an empty list the option buttons, feedback
    and next control of the previous round stay as they were.
   */
  function ShowQuestionAsWritten(p: Page): (r: Page)
    requires |p.questions| == 0 || p.current < |p.questions|
    ensures |p.questions| == 0 ==>
      && r.media == Notice(NoQuestions) && SameRun(p, r)
      && r.buttons == p.buttons && r.feedback == p.feedback && r.nextShown == p.nextShown
    ensures |p.questions| > 0 ==> r == ShowQuestion(p)
  {
    if |p.questions| == 0 then p.(media := Notice(NoQuestions))
    else ShowQuestion(p)
  }

  /**
    The player picked option `selected` of the current question: every
    option button is disabled, the correct one and a wrong pick are marked,
    the feedback line and the score follow, and the next control appears.
   */
  function CheckAnswer(p: Page, selected: int): (r: Page)
    requires p.current < |p.questions|
    ensures r.questions == p.questions && r.current == p.current
    ensures selected == p.questions[p.current].answer ==> r.score == p.score + 1
    ensures selected != p.questions[p.current].answer ==> r.score == p.score
    ensures r.feedback in {CorrectText, WrongText}
    ensures r.feedback == CorrectText <==> selected == p.questions[p.current].answer
    ensures r.nextShown && r.screen == p.screen && r.media == p.media && r.progress == p.progress
    ensures |r.buttons| == |p.buttons|
    ensures forall k :: 0 <= k < |r.buttons| ==>
      && r.buttons[k].disabled
      && r.buttons[k].text == p.buttons[k].text && r.buttons[k].index == p.buttons[k].index
      && (r.buttons[k].correct <==> p.buttons[k].correct || k == p.questions[p.current].answer)
      && (r.buttons[k].wrong <==>
            p.buttons[k].wrong || (k == selected && selected != p.questions[p.current].answer))
  {
    var answer := p.questions[p.current].answer;
    var marked := seq(|p.buttons|, k requires 0 <= k < |p.buttons| =>
      p.buttons[k].(disabled := true,
                    correct := p.buttons[k].correct || k == answer,
                    wrong := p.buttons[k].wrong || (k == selected && k != answer)));
    p.(buttons := marked,
       feedback := if selected == answer then CorrectText else WrongText,
       score := if selected == answer then p.score + 1 else p.score,
       nextShown := true)
  }

  /**
    Answering a freshly rendered question: all its buttons are disabled,
    exactly the button at the answer index is marked correct (none when the
    index is outside the options), and exactly the picked button is marked
    wrong when it is not the answer.
   */
  lemma MarksAfterAnswer(p: Page, selected: int)
    requires p.current < |p.questions|
    ensures var q := p.questions[p.current];
      var r := CheckAnswer(ShowQuestion(p), selected);
      && |r.buttons| == |q.options|
      && (forall k :: 0 <= k < |r.buttons| ==> r.buttons[k].disabled)
      && (forall k :: 0 <= k < |r.buttons| ==> (r.buttons[k].correct <==> k == q.answer))
      && (forall k :: 0 <= k < |r.buttons| ==> (r.buttons[k].wrong <==> k == selected != q.answer))
      && ((exists k :: 0 <= k < |r.buttons| && r.buttons[k].correct) <==> 0 <= q.answer < |q.options|)
  {
    var q := p.questions[p.current];
    var r := CheckAnswer(ShowQuestion(p), selected);
    if 0 <= q.answer < |q.options| {
      assert r.buttons[q.answer].correct;
    }
  }

  /** The scoreboard line: "You scored <score> out of <total>!". */
  function FinalMessage(score: nat, total: nat): (r: string)
    ensures |r| == 20 + |Decimal.Digits(score)| + |Decimal.Digits(total)|
    ensures r[..11] == "You scored " && r[|r| - 1] == '!'
  {
    "You scored " + Decimal.Digits(score) + " out of " + Decimal.Digits(total) + "!"
  }

  /** Digits followed by a non-digit: where the number ends is fixed, so the number and the rest are too. */
  lemma DigitsThenText(a: nat, s: string, b: nat, t: string)
    requires Decimal.Digits(a) + s == Decimal.Digits(b) + t
    requires 0 < |s| && !Decimal.IsDigit(s[0])
    requires 0 < |t| && !Decimal.IsDigit(t[0])
    ensures a == b && s == t
  {
    var x, y := Decimal.Digits(a), Decimal.Digits(b);
    assert x == (x + s)[..|x|] == (y + t)[..|y|] == y;
    assert s == (x + s)[|x|..] == (y + t)[|y|..] == t;
    Decimal.DigitsInjective(a, b);
  }

  /** What follows "You scored " in the scoreboard line. */
  lemma MessageAfterHead(score: nat, total: nat)
    ensures FinalMessage(score, total)[11..]
         == Decimal.Digits(score) + (" out of " + (Decimal.Digits(total) + "!"))
  {
    var m := FinalMessage(score, total);
    assert m == "You scored " + (Decimal.Digits(score) + (" out of " + (Decimal.Digits(total) + "!")));
  }

  /** The scoreboard line gives back both the score and the number of questions. */
  lemma {:induction false} FinalMessageInjective(score: nat, total: nat, score': nat, total': nat)
    requires FinalMessage(score, total) == FinalMessage(score', total')
    ensures score == score' && total == total'
  {
    var mid := " out of ";
    var rest, rest' := Decimal.Digits(total) + "!", Decimal.Digits(total') + "!";
    MessageAfterHead(score, total);
    MessageAfterHead(score', total');
    DigitsThenText(score, mid + rest, score', mid + rest');
    assert rest == (mid + rest)[|mid|..] == (mid + rest')[|mid|..] == rest';
    DigitsThenText(total, "!", total', "!");
  }

  /** Hide the game, show the scoreboard with the final line, fill the progress bar. */
  function ShowScoreboard(p: Page): (r: Page)
    ensures SameRun(p, r)
    ensures r.screen == Scoreboard && r.progress == Complete
    ensures r.finalText == FinalMessage(p.score, |p.questions|)
    ensures r.buttons == p.buttons && r.nextShown == p.nextShown
  {
    p.(screen := Scoreboard, finalText := FinalMessage(p.score, |p.questions|), progress := Complete)
  }

  /** Move one question on: render it if there is one, otherwise finish. */
  function NextQuestion(p: Page): (r: Page)
    ensures r.questions == p.questions && r.score == p.score
    ensures r.current == p.current + 1
    ensures r.current < |p.questions| ==>
      && r.screen == p.screen && !r.nextShown && r.feedback == ""
      && FreshButtons(r.buttons, p.questions[r.current].options)
    ensures r.current >= |p.questions| ==>
      && r.screen == Scoreboard && r.progress == Complete
      && r.finalText == FinalMessage(p.score, |p.questions|)
  {
    var p := p.(current := p.current + 1);
    if p.current < |p.questions| then ShowQuestion(p) else ShowScoreboard(p)
  }

  /**
    The load completed. On success the shuffled list replaces the old one,
    position and score restart at zero and the first question is rendered.
    On failure the media container says so and the run is left as it was;
    the per-question reset runs here too (see `LoadAsWritten`).
   */
  function LoadQuestions(p: Page, outcome: LoadOutcome): (r: Page)
    ensures r.screen == p.screen && !r.nextShown && r.feedback == ""
    ensures outcome.Loaded? ==>
      && multiset(r.questions) == multiset(outcome.data)
      && r.current == 0 && r.score == 0
      && (|outcome.data| == 0 ==> r.media == Notice(NoQuestions) && r.buttons == [])
      && (|outcome.data| > 0 ==> FreshButtons(r.buttons, r.questions[0].options))
    ensures outcome.Failed? ==>
      SameRun(p, r) && r.media == Notice(LoadFailure) && r.buttons == []
  {
    match outcome
    case Failed => ResetControls(p).(media := Notice(LoadFailure))
    case Loaded(data, picks) =>
      ShowQuestion(p.(questions := Shuffling.Shuffle(data, picks), current := 0, score := 0))
  }

  /**
    The load completed, in the script's terms: the failure branch only
    writes its message, and an empty list goes through the script's
    `showQuestion`; either way the controls of the previous round remain.
   */
  function LoadAsWritten(p: Page, outcome: LoadOutcome): (r: Page)
    ensures outcome.Failed? ==>
      && SameRun(p, r) && r.media == Notice(LoadFailure)
      && r.buttons == p.buttons && r.nextShown == p.nextShown && r.screen == p.screen
    ensures outcome.Loaded? ==> r.current == 0 && r.score == 0 && r.screen == p.screen
    ensures outcome.Loaded? && |outcome.data| == 0 ==>
      r.questions == [] && r.buttons == p.buttons && r.nextShown == p.nextShown
    ensures outcome.Loaded? ==> multiset(r.questions) == multiset(outcome.data)
    ensures outcome.Loaded? && |outcome.data| > 0 ==>
      && !r.nextShown && r.feedback == ""
      && FreshButtons(r.buttons, r.questions[0].options)
      && r == LoadQuestions(p, outcome)
  {
    match outcome
    case Failed => p.(media := Notice(LoadFailure))
    case Loaded(data, picks) =>
      ShowQuestionAsWritten(p.(questions := Shuffling.Shuffle(data, picks), current := 0, score := 0))
  }

  /** The restart control: bring the game surface back and load again. */
  function RestartGame(p: Page, outcome: LoadOutcome): (r: Page)
    ensures r.screen == Game && !r.nextShown
    ensures outcome.Loaded? ==>
      r.current == 0 && r.score == 0 && multiset(r.questions) == multiset(outcome.data)
    ensures outcome.Failed? ==> SameRun(p, r) && r.buttons == []
  {
    LoadQuestions(p.(screen := Game), outcome)
  }

  /** The page after the load the script starts with. */
  function Start(outcome: LoadOutcome): (r: Page)
    ensures r.screen == Game && !r.nextShown && r.score == 0 && r.current == 0
    ensures outcome.Loaded? ==> multiset(r.questions) == multiset(outcome.data)
    ensures outcome.Failed? ==> r.questions == [] && r.buttons == []
  {
    LoadQuestions(Initial, outcome)
  }
}
