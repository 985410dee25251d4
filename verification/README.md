# Prompt-athon quiz session, modelled in Dafny

Prompt-athon is a browser quiz: `script.js` fetches `questions.json`
(each record has a media `type` and `file`, a list of `options` and the
`answer` index), shuffles it, shows one question at a time with one button
per option, counts correct answers in `score`, and ends on a scoreboard
reading "You scored X out of N!". A restart control loads and shuffles again.

The model keeps the script's three globals (`questions`, `currentQuestion`,
`score`) and the part of the page its handlers write in one immutable
`Quiz.Page` record. Each handler is a pure function on pages:
`LoadQuestions`, `ShowQuestion`, `CheckAnswer`, `NextQuestion`,
`ShowScoreboard`, `RestartGame`. The page only offers some events: an
enabled option button, the next control while it is displayed, and the
restart control on the scoreboard. `Session.StepAsWritten` applies one
event as the script does and ignores events the page does not offer;
`Session.RunAsWritten` plays a sequence of events, and
`Session.InvariantAsWritten`, which carries the score bound, holds on every
page the script lets a player reach when a restart and its reload are one
event. `Session.Step`, `Session.Run` and
`Session.Invariant` are the same with the corrected reload described under
"## Findings": there the invariant also keeps the position within the list.

Files:
- `decimal.dfy`: how a template literal writes a natural number, with its reader.
- `shuffle.dfy`: the load-time shuffle, with the random comparator's choices as an input.
- `quiz.dfy`: the page and the script's handlers.
- `session.dfy`: events, the gating, traces and the score bound.
- `findings.dfy`: the next control left up by a reload that renders nothing.
- `scenarios.dfy`: a whole three-question game.

Assumptions about the page, which `index.html` defines and which is not part of this model:
- the page starts with an empty media area, no option buttons and the next control hidden;
- the scoreboard surface starts hidden and the game surface visible;
- the option buttons and the next control sit inside the game surface, so they cannot be clicked while the scoreboard is up;
- the restart control sits inside the scoreboard surface, so it can only be clicked while the scoreboard is up.

## Model

| member | source | states |
|---|---|---|
| Decimal.Digits | Prompt-athon/script.js:120 | a number is written as one or more decimal digits with no leading zero, and as one digit exactly when it is below ten |
| Decimal.ValueOfDigits | Prompt-athon/script.js:120 | reading back the digits written for a number gives that number |
| Decimal.DigitsInjective | Prompt-athon/script.js:120 | two different numbers are never written the same way |
| Shuffling.Shuffle | Prompt-athon/script.js:24 | whatever the random comparator decides, the shuffled list holds the same questions, each as many times as before |
| Shuffling.EveryOrderReachable | Prompt-athon/script.js:24 | every reordering of the loaded questions is produced by some run of the random comparator |
| Quiz.ShowQuestion | Prompt-athon/script.js:36-86 | on a non-empty list: feedback cleared, next control hidden, one enabled unmarked button per option in option order bound to its own index, progress at position+1 of the total (between 1 and the total); on an empty list: the "No questions found." notice and no buttons; questions, position and score untouched |
| Quiz.ShowQuestionAsWritten | Prompt-athon/script.js:36-48 | on an empty list the notice is shown and the previous buttons, feedback and next control stay as they were; otherwise the same as ShowQuestion |
| Quiz.CheckAnswer | Prompt-athon/script.js:89-104 | the score goes up by exactly one when the pick is the answer and is unchanged otherwise; the feedback is "🎉 Correct!" exactly when the pick is the answer and "❌ Wrong!" otherwise; every button is disabled; a button gains the correct mark exactly at the answer index and the wrong mark exactly at a wrong pick; the next control appears |
| Quiz.MarksAfterAnswer | Prompt-athon/script.js:76-82 | after answering a freshly rendered question, only the answer's button is marked correct and some button is marked correct exactly when the answer index is inside the options; only the picked button is marked wrong, and only when it is not the answer |
| Quiz.FinalMessageInjective | Prompt-athon/script.js:120 | the scoreboard line determines both the score and the number of questions |
| Quiz.FinalMessage | Prompt-athon/script.js:120 | the scoreboard line starts with "You scored ", ends with "!", and is twenty characters longer than the two numbers it writes |
| Quiz.ShowScoreboard | Prompt-athon/script.js:117-122 | the scoreboard is shown with the line for the current score and question count and a full progress bar; the run and the option buttons are left alone |
| Quiz.NextQuestion | Prompt-athon/script.js:107-114 | the position goes up by exactly one and the score is kept; below the end the next question is rendered with fresh buttons and a hidden next control, otherwise the scoreboard shows "You scored score out of total!" and a full bar |
| Quiz.LoadQuestions | Prompt-athon/script.js:20-33 | a successful load leaves position and score at zero, holds a reordering of the loaded data and renders its first question (or the empty notice); a failed load shows the failure notice and keeps the run; either way the next control is hidden |
| Quiz.LoadAsWritten | Prompt-athon/script.js:20-33 | a successful load holds a reordering of the loaded data with position and score at zero; when that data is non-empty the first question is rendered with fresh buttons, cleared feedback and the next control hidden, exactly as LoadQuestions does; a failed load or an empty list leaves the previous buttons and next control as they were |
| Quiz.RestartGame | Prompt-athon/script.js:125-129 | with the corrected reload, restarting shows the game surface with the next control hidden; on a successful load position and score are zero and the list is a reordering of the new data |
| Quiz.Start | Prompt-athon/script.js:144-145 | the first load leaves the game surface up, position and score at zero, and the next control hidden |
| Session.Enabled | Prompt-athon/script.js:93-103 | on every page the script reaches, an option click is only offered while the current question is unanswered (next control hidden) and inside the list, and the next and restart controls are only offered once no option button can be clicked; each control is offered only on its own visible surface, an option only while its button is not disabled |
| Session.StepAsWritten | Prompt-athon/script.js:80 | one click handled as the script handles it, restart included, keeps the score bound of the as-written invariant and raises the score by at most one |
| Session.RunAsWritten | Prompt-athon/script.js:141-142 | every sequence of clicks handled as the script handles them keeps the as-written invariant |
| Session.StartAsWritten | Prompt-athon/script.js:20-28 | the first load is the same with or without the reset-on-reload correction, and satisfies the as-written invariant |
| Session.ScoreBoundAsWritten | Prompt-athon/script.js:100 | for the script as written, along any game the score is at most the questions passed plus one while the current one is answered, and at most the number of questions |
| Session.FailedStartIsDeadEnd | Prompt-athon/script.js:29-32 | with the corrected reload, a failed first load shows the "Failed to load questions.json" notice with no option buttons, and no later event changes the page |
| Session.Step | Prompt-athon/script.js:80 | with the corrected reload, one click on an offered control keeps the reachable-page invariant and raises the score by at most one |
| Session.Run | Prompt-athon/script.js:141-142 | with the corrected reload, every sequence of clicks keeps the reachable-page invariant |
| Session.StartInvariant | Prompt-athon/script.js:20-28 | the page after the first load satisfies the reachable-page invariant |
| Session.ScoreBound | Prompt-athon/script.js:100 | with the corrected reload, along any game, the score is at most the questions passed plus one while the current one is answered, so at most the number of questions; on the scoreboard the position equals the number of questions |
| Session.OneAnswerPerQuestion | Prompt-athon/script.js:94 | with the corrected reload, after an answer no option button can be clicked, and the next control can |
| Session.NoNextBeforeAnswer | Prompt-athon/script.js:48 | with the corrected reload, while an option can still be picked, the next control is not offered and clicking it does nothing |
| Session.EmptyQuizIsDeadEnd | Prompt-athon/script.js:37-40 | with the corrected reload, an empty question list shows the "No questions found." notice with no option buttons, and no later event changes the page |
| Session.OneAnswerPerQuestionAsWritten | Prompt-athon/script.js:94 | for the script as written, after an answer no option button can be clicked, and the next control can |
| Session.NoNextBeforeAnswerAsWritten | Prompt-athon/script.js:48 | for the script as written, while an option can still be picked, the next control is not offered and clicking it does nothing |
| Session.EmptyQuizIsDeadEndAsWritten | Prompt-athon/script.js:37-40 | for the script as written, an empty first load shows the "No questions found." notice with no option buttons, and no later event changes the page |
| Session.FailedStartIsDeadEndAsWritten | Prompt-athon/script.js:29-32 | for the script as written, a failed first load shows the "Failed to load questions.json" notice with no option buttons, and no later event changes the page |
| Findings.ScoreboardIsReached | Prompt-athon/script.js:103 | a one-question game ends on the scoreboard with the next control still displayed and "You scored 1 out of 1!" |
| Findings.EmptyReloadOverrunsAsWritten | Prompt-athon/script.js:37-40 | in the script's order, restarting from a scoreboard into an empty list leaves the next control clickable, and clicking it puts the position at 1 in a list of 0 and shows "You scored 0 out of 0!" |
| Findings.FailedReloadOverrunsAsWritten | Prompt-athon/script.js:29-32 | in the script's order, restarting from a scoreboard into a failed fetch leaves the next control clickable, and clicking it puts the position one past the end |
| Findings.ReloadHidesNext | Prompt-athon/script.js:45-48 | with the reset applied on every load, no reload leaves the next control up, and the position never passes the end of the list |
| Scenarios.TwoOutOfThree | Prompt-athon/script.js:89-122 | three questions with answers 1, 0, 2, answered 1, 0, 0, end on the scoreboard with score 2, position 3 and "You scored 2 out of 3!" |

## Left out

- The fetch of `questions.json` and its JSON parsing are an input (`LoadOutcome`): the parsed array, or a failure. Records are taken as well formed, with `answer` an integer.
- `Math.random` is an input too: the comparator's answers become the `picks` of a selection shuffle. Only "the result is a reordering", and "every reordering can happen", are claimed; nothing about how likely each order is.
- Restarting and its reload are one atomic event. Clicks made while the fetch is pending, and overlapping loads from repeated restarts, are not modelled: both depend on the browser's event loop.
- Media rendering is reduced to which asset the media area shows. This covers the video and image elements, autoplay and `play()`, and the "Video not found" / "Image not found" error handlers, none of which touch questions, position or score.
- The score label (`updateScoreDisplay`) is not kept in the page. It is a pure view of `score` and is refreshed right after every change to it.
- The progress bar width is kept as the pair (position + 1, number of questions) rather than a percentage, because the script computes it in floating point.
- The DOM itself is not modelled: `getElementById` wiring, CSS classes, `hidden` toggling, `console.error`. Only the abstract button flags and surfaces remain.
- Quiz.ShowQuestion and Quiz.LoadQuestions run the per-question reset before the empty-list check and in the failure branch, which the script does not (see Findings). `ShowQuestionAsWritten` and `LoadAsWritten` keep the script's order.
- Quiz.RestartGame: runs the corrected `LoadQuestions`, so its hidden next control after a failed or empty reload is the corrected behaviour; the script's restart is `LoadAsWritten` after showing the game surface, as in `Session.StepAsWritten`.
- Session.Step: handles restart with the corrected `RestartGame`; `Session.StepAsWritten` is the script's version.
- Session.Run: plays events through `Session.Step`, so it covers the corrected reload only; `Session.RunAsWritten` covers the script's.
- Session.ScoreBound: is stated for the corrected reload, and its scoreboard-position part does not hold for the script (see Findings); `Session.ScoreBoundAsWritten` states the score bound for the script.

## Findings

| source | as written | input that shows it | evidently intended | confidence | as-written member | corrected member |
|---|---|---|---|---|---|---|
| Prompt-athon/script.js:37-40 | the empty-list check returns before the reset at lines 45-48, so the next control displayed by the last answer of a finished game stays up | finish a one-question game, restart, and have the reload return `[]`; the next control is still there, and clicking it moves `currentQuestion` to 1 and shows "You scored 0 out of 0!"; the same leftover control can also be clicked during any restart's pending fetch (lines 126-128), which this model does not cover | the empty state offers no controls and the position never passes the end of the list | medium, not executed | Findings.EmptyReloadOverrunsAsWritten | Findings.ReloadHidesNext |
| Prompt-athon/script.js:29-32 | the failure branch only writes its message, so after a restart the old list, position, score and the displayed next control remain | finish a game of N questions, restart, and have the fetch fail; clicking the next control moves `currentQuestion` to N + 1 and shows the old scoreboard again | a failed load is a dead end with no controls | low, not executed | Findings.FailedReloadOverrunsAsWritten | Findings.ReloadHidesNext |
