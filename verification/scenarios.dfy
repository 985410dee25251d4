/**
  A whole game played through the session, from the first load to the
  scoreboard.
 */
module Scenarios {
  import Shuffling
  import opened Quiz
  import opened Session

  const Options: seq<string> := ["a", "b", "c"]

  /** Three questions whose correct options are 1, 0 and 2. */
  const Three: seq<Question> := [
    Question("image", "one.png", Options, 1),
    Question("video", "two.mp4", Options, 0),
    Question("image", "three.png", Options, 2)
  ]

  /** Question `c` of `Three` is on screen, unanswered, with score `s`. */
  predicate Asking(p: Page, c: nat, s: nat) {
    && Invariant(p) && p.questions == Three && p.current == c && p.score == s
    && p.screen == Game && !p.nextShown && FreshButtons(p.buttons, Options)
  }

  lemma Begin()
    ensures Asking(Start(Loaded(Three, [0, 0, 0])), 0, 0)
  {
    Shuffling.FirstPicksKeepOrder(Three, [0, 0, 0]);
    StartInvariant(Loaded(Three, [0, 0, 0]));
  }

  /** Answer question `c` with option `j` and move on to the next question. */
  lemma Round(p: Page, c: nat, s: nat, j: nat, rest: seq<Event>)
    requires Asking(p, c, s) && j < |Options| && c + 1 < |Three|
    ensures var r := Step(Step(p, Choose(j)), Next);
      && Asking(r, c + 1, if j == Three[c].answer then s + 1 else s)
      && Run(p, [Choose(j), Next] + rest) == Run(r, rest)
  {
  }

  /** Answer the last question with option `j` and reach the scoreboard. */
  lemma LastRound(p: Page, s: nat, j: nat)
    requires Asking(p, 2, s) && j < |Options|
    ensures var r := Step(Step(p, Choose(j)), Next);
      && r.screen == Scoreboard && r.current == 3 && r.progress == Complete
      && r.score == (if j == Three[2].answer then s + 1 else s)
      && r.finalText == FinalMessage(r.score, 3)
      && Run(p, [Choose(j), Next]) == r
  {
    assert Enabled(p, Choose(j));
    var p1 := Step(p, Choose(j));
    assert Enabled(p1, Next);
    assert [Choose(j), Next][1..] == [Next];
    assert Run(p, [Choose(j), Next]) == Run(p1, [Next]) == Run(Step(p1, Next), []);
  }

  lemma TwoOutOfThreeText()
    ensures FinalMessage(2, 3) == "You scored 2 out of 3!"
  {
  }

  /**
    Answers 1, 0 and 0 to those three questions, kept in file order by the
    shuffle: two points out of three, and the scoreboard says so.
   */
  lemma TwoOutOfThree()
    ensures var p := Play(Loaded(Three, [0, 0, 0]),
                          [Choose(1), Next, Choose(0), Next, Choose(0), Next]);
      && p.screen == Scoreboard && p.score == 2 && p.current == 3
      && p.finalText == "You scored 2 out of 3!" && p.progress == Complete
  {
    var p0 := Start(Loaded(Three, [0, 0, 0]));
    Begin();
    var p2 := Step(Step(p0, Choose(1)), Next);
    Round(p0, 0, 0, 1, [Choose(0), Next, Choose(0), Next]);
    var p4 := Step(Step(p2, Choose(0)), Next);
    Round(p2, 1, 1, 0, [Choose(0), Next]);
    LastRound(p4, 2, 0);
    TwoOutOfThreeText();
  }
}
