# Quiz scoring and active-section highlighting, verified

This project models the two pieces of discrete decision logic in the page
script `js/js.js` of a static single-page site:

- **The quiz** (`Quiz`, in `quiz.dfy`). The submit handler of `#quizForm`
  reads the checked answer of each of the ten radio groups `q1`..`q10` and
  compares it with a fixed key (q1 `a`, q4 `c`, all others `b`). The score is
  the number of matches. The percentage is `score / 10 * 100`. A four-band if/else
  chain (80, 60, 40) picks the message and the Bootstrap badge class. A
  ten-item list marks each question with a check or a cross by the same test.
  Everything is written into the results container, replacing what it held.
  The form is a `map<nat, string>` from question number to the value of the
  checked input. A question with no checked input is absent from the map.
  The container is the class `ResultsPanel`, whose field holds the structure
  of what was rendered.
- **Navigation highlighting** (`Navigation`, in `navigation.dfy`). The scroll
  handler scans the `section` elements in document order. It keeps in
  `current` the id of the last one with `pageYOffset >= offsetTop - 200`, or
  `''` if there is none. Then, on every `.nav-link`, it removes `active` and
  adds it back only when the link's `href` equals `'#' + current`. The links
  are an `array` of records updated in place. The scan is a loop proved
  against a recursive "last reached section" function.

`options.dfy` holds the `Option` type. It stands for JavaScript's `null`
where the script reads something that may be missing: a checked input, an
`id` or `href` attribute.

Points where the model makes the source's behaviour explicit:

- The percentage is kept as the integer `score * 10`. With IEEE-754 doubles,
  `(s / 10) * 100` is exactly `10 * s` for every `s` from 0 to 10. So the
  bands are exactly the score bands 8–10, 6–7, 4–5 and 0–3 (`Quiz.ScoreBands`).
- `getAttribute('id')` on a section without an id gives `null`. The template
  `` `#${current}` `` then renders it as `"#null"` (`Navigation.HashRef`).
- When no section is reached, `current` stays `''`. A link whose href is
  exactly `"#"` is then the one marked active
  (`Navigation.NothingReachedMarksBareHash`).
- The code activates the link of the last section reached in document
  order. When the offsets are in document order, this is also the reached
  section with the greatest top: sorted offsets are a sufficient condition,
  proved in `Navigation.SortedReachedIsPrefix`. The model follows the code.
- After the handler, the active links are exactly the links whose href equals
  `'#' + current`. So exactly one link is active iff exactly one href equals
  `'#' + current` (`Navigation.ActiveLinksAreMatchingLinks`). Distinct hrefs
  are a sufficient condition for at most one active link, and for exactly one
  when some href matches (`Navigation.AtMostOneActive`).
- Scrolling further down never moves the highlight to an earlier section. This
  holds for any order of offsets, because the set of reached sections only
  grows (`Navigation.LastReachedMonotone`).

## Model

| member | source | states |
|---|---|---|
| Quiz.IsCorrect | js/js.js:129 | definition of the match test shared by scoring and feedback: an input is checked and its value equals the key's letter; its properties are proved in Quiz.CountCorrectIsCardinality, Quiz.AnsweringOneQuestion and Quiz.BuildFeedback |
| Quiz.CountCorrect | js/js.js:127-132 | the number of correct answers among questions 1..n never exceeds n |
| Quiz.CountCorrectIsCardinality | js/js.js:127-132 | the score counted in question order is the size of the set of questions whose checked value equals the key |
| Quiz.ComputeScore | js/js.js:123-132 | the scoring loop returns the number of questions in 1..10 whose checked value equals the key, so the score is between 0 and 10 |
| Quiz.AnsweringOneQuestion | js/js.js:128-130 | answering a previously unanswered question raises the score by exactly one if the answer is the key's letter and leaves it unchanged otherwise, so an unanswered question never counts |
| Quiz.FullScoreIffAllCorrect | js/js.js:127-132 | the score is n exactly when every question 1..n matches the key |
| Quiz.ZeroScoreIffNoneCorrect | js/js.js:128-131 | the score is 0 exactly when no question 1..n matches the key |
| Quiz.CountDependsOnlyOnCorrectness | js/js.js:129 | two forms that agree on which questions match the key get the same score |
| Quiz.Percentage | js/js.js:134 | the integer percentage equals (score / 10) * 100 in exact arithmetic and is at most 100 |
| Quiz.TierOf | js/js.js:138-150 | definition of the if/else tier chain; its properties are proved in Quiz.TierBands, Quiz.TierMonotone and Quiz.ScoreBands |
| Quiz.TierBands | js/js.js:138-150 | the four tiers are chosen by the disjoint bands >= 80, [60, 80), [40, 60) and < 40, which cover every percentage |
| Quiz.TierMonotone | js/js.js:138-150 | a higher percentage never yields a lower tier |
| Quiz.ScoreBands | js/js.js:134-150 | on scores 0..10 the tier is Excellent iff score >= 8, Bien joué iff 6-7, Pas mal iff 4-5, Continuez à apprendre iff score < 4 |
| Quiz.FeedbackUpTo | js/js.js:168-174 | definition of the feedback items for questions 1..n, in question order, each flagged by the scoring test; its properties are proved in Quiz.ChecksEqualScore and Quiz.BuildFeedback |
| Quiz.ChecksEqualScore | js/js.js:168-174 | the number of check icons in the feedback list equals the score |
| Quiz.BuildFeedback | js/js.js:164-176 | the feedback loop yields 10 items in question order; item k is about question k+1 and shows the check icon iff the scoring test holds for it; the check icons number the score |
| Quiz.Grade | js/js.js:123-176 | a submission's results: score = number of matching questions (at most 10), percentage = 10 * score, the tier of that percentage, and 10 feedback items, item k flagged by the scoring test for question k+1, whose check icons number the score |
| Quiz.GradeDependsOnlyOnCorrectness | js/js.js:123-132 | results are computed from the current answers alone: forms that agree on which questions are correct are graded identically |
| Quiz.KeyAnswersScoreTen | js/js.js:94-105 | answering exactly as the key gives 10/10, 100%, the Excellent tier with class bg-success, and a check icon on every item |
| Quiz.EmptyFormScoresZero | js/js.js:147-149 | submitting with nothing checked gives 0/10, 0%, the Continuez à apprendre tier with class bg-danger, and a cross on every item |
| Quiz.SixCorrectIsWellDone | js/js.js:141-143 | exactly six correct answers give 60%, exactly on the edge of the Bien joué band |
| Quiz.ResultsPanel.Submit | js/js.js:120-178 | after a submit the container shows exactly the grade of the current form, whatever it showed before (replaced, not appended) |
| Navigation.Reached | js/js.js:193 | definition of the scan's test scrollY >= offsetTop - 200; its properties are proved in Navigation.LastReached and Navigation.LastReachedMonotone |
| Navigation.LastReached | js/js.js:189-196 | the selected index is reached by the scroll position and no later section is; none is selected iff no section is reached |
| Navigation.CurrentOf | js/js.js:189-196 | definition of the final value of current: '' when no section is reached, otherwise the id (null as None) of the last reached section; its properties are proved in Navigation.ScanCurrent and Navigation.NothingReachedMarksBareHash |
| Navigation.ScanCurrent | js/js.js:189-196 | after the scan, current is the id of the last section in document order with scrollY >= offsetTop - 200, or '' when none qualifies |
| Navigation.LastReachedMonotone | js/js.js:193-195 | scrolling further down never moves the selection to an earlier section and never clears it |
| Navigation.SortedReachedIsPrefix | js/js.js:193-195 | with offsets in document order, the reached sections form a prefix and the selected one has the greatest top among them |
| Navigation.HashRef | js/js.js:200 | definition of the template '#' + current, where a null id renders as "#null"; its properties are proved in Navigation.Toggle and Navigation.NothingReachedMarksBareHash |
| Navigation.Toggle | js/js.js:199-202 | a link keeps its href and its other classes, and carries active iff its href equals '#' + current |
| Navigation.UpdateLinks | js/js.js:198-203 | after the pass the array holds the toggled links, in the same order; a link is active iff its href equals '#' + current, whatever its prior state |
| Navigation.OnScroll | js/js.js:185-204 | the handler leaves the links equal to their old values toggled against the current section computed from the sections and the scroll position |
| Navigation.ActiveLinksAreMatchingLinks | js/js.js:198-203 | after the pass the active links are exactly those whose href equals '#' + current, so exactly one link is active iff exactly one href matches |
| Navigation.AtMostOneActive | js/js.js:198-203 | with distinct hrefs (a sufficient condition) at most one link ends active, and exactly one does whenever some href equals '#' + current |
| Navigation.NothingReachedMarksBareHash | js/js.js:189-200 | before any section is reached current is '' and a link ends active iff its href is exactly "#" |

## Left out

- The particle background (js/js.js:1-74): random initial state, floating-point motion, square roots and canvas drawing, rescheduled without end by `requestAnimationFrame`.
- The resize handler (js/js.js:7-10): it only copies the window size into the canvas.
- The smooth-scroll anchor handler (js/js.js:76-89): DOM queries, `scrollIntoView` and closing the mobile menu. It holds no logic beyond an existence check.
- The IntersectionObserver reveal (js/js.js:205-224): viewport intersection is computed by the browser.
- The HTML text of the results (js/js.js:152-176): markup, inline styles, `toFixed(0)` formatting and the explanation strings. Only their structure is modelled: score, percentage, tier (message and badge class), and the per-question correct flags.
- Showing and scrolling to the results container (js/js.js:179-181): UI side effects with no state the model reads.
- `sectionHeight` (js/js.js:192): it is computed but never used.
- Navigation.Toggle: a class list is modelled as a set, so the position of `active` among the link's class tokens is not captured.
- Quiz.ResultsPanel.Submit: the form is read once and both loops use that value; the DOM is not re-read between the two loops as the script does. Nothing in the handler changes the form in between.
