# lets_quiz grading and progression core, in Dafny

This project models the core of lets_quiz, a Django quiz application. The model covers:

- how one submission to a choice question is graded;
- how a user's running total score is recomputed;
- how the play view serves the next unanswered question of a quiz and grades the answer posted back;
- how restart_quiz deletes a quiz's attempts;
- how the authoring views turn the option texts of a question form into Choice rows with the next order;
- the formset check that a question has the right number of correct choices;
- the two browser scripts: the drag-and-drop matching board and the countdown timer.

Modules follow the source files:

| module | file | models |
|---|---|---|
| `Wrappers` | — | `Option` and `Result` |
| `Grading` | `grading.dfy` | how `QuizProfile.evaluate_attempt` marks a submission |
| `Models` | `models.dfy` | `Question`, `Choice`, `AttemptedQuestion`, and the `QuizProfile` class with its attempts and total score |
| `Views` | `views.dfy` | `play` GET and POST, `restart_quiz`, `add_single_question` and `add_multiple_question` |
| `Forms` | `forms.dfy` | `ChoiceInlineFormset.clean` |
| `Matching` | `matching.dfy` | the Fisher–Yates shuffle and the drag handlers of `quiz_matching.js` |
| `Timer` | `timer.dfy` | `formatTime`, `tick` and the start-up check of `quiz_timer.js` |

Modelling conventions:

- **Marks.** Marks are natural numbers counting hundredths of a mark: 4.00 marks is `400`. Partial credit is `maximum_marks × correct_selected / total_correct`, rounded to the nearest hundredth with halves rounded up (`Grading.RoundedShare`).
- **Snapshots.** Each attempt holds a copy of its `Question` value (choices, maximum, mode) taken when it is created, where the source reads the live row through the foreign key. No operation of this model edits a question; question edits happen only in the admin, which is not part of this model.
- **State.** The database rows a view changes are fields of classes:
  - `QuizProfile.attempts` and `QuizProfile.totalScore`;
  - `QuizStore.quizzes` and the next primary keys it hands out;
  - `Session.currentQuizId`;
  - the fields of `Matching.Board`, which are the hidden `mapping_` inputs and where each right item sits;
  - the fields of `Timer.Countdown`.
- **Attempt identity.** An attempt is identified by its position in `QuizProfile.attempts`.
- **Quiz records.** `Quiz` and `QuizQuestion` are not defined in `quiz/models.py`. The model uses only what the views read from them: `quiz.quiz_questions` as a sequence, `.question`, `.order` and `.immediate_feedback`.
- **Question order.** `play` takes the `.first()` unattempted row of `quiz.quiz_questions.all()`. That queryset follows the `Meta.ordering` of `QuizQuestion` (not part of this model); without one, `.first()` sorts by primary key. The model takes the stored sequence in its order. A row that `add_single_question` or `add_multiple_question` appends has the largest pk so far and, by `NextOrder`, the largest `order` (`Views.NextOrder`, `Views.AppendKeepsOrdered`). So appending it at the end is right under either sort key. Rows that the admin's `QuizQuestionInline` creates or edits can carry any `order`; the admin is not part of this model, and the store invariant does not require the sequence to be sorted.
- **Quiz ids.** A quiz id is an `int`. The `restart/` URL captures it as a non-empty digit string, which Python's `not` never treats as absent; the model writes that argument as `Some(n)`. The session's `current_quiz_id` is absent when it is `None` or `0` (`Views.Falsy`).
- **Chance.** `random.choice` and `Math.random` are free choices (`:|`). Every choice allowed by the source is covered.
- **Inputs.**
  - `parseInt` of the timer attribute is an `Option<int>` parameter, with `None` for NaN.
  - An event's `dataTransfer` text is `Option<string>`.
  - The cleaned data of a valid authoring form is a datatype. `None` stands for a GET or an invalid form.

Behaviour of the code that the model keeps and that the proofs make visible:

- **Restart sets the total to 0.** `restart_quiz` deletes only the attempts of the restarted quiz, but it stores a total of 0. It does not recompute the total. `Views.KeptMarksRemain` shows that the attempts kept (those of other quizzes) still carry marks. The stored 0 can therefore be below the sum over the remaining attempts, until the next grading recomputes it.
- **A quiz with no correct choice.** In multiple-choice mode a question with no correct choice gives full marks to an empty submission and 0 to any pick (`Grading.NoCorrectChoices`). Partial credit ignoring wrong picks, and growing with correct ones, holds only when the question has a correct choice.
- **A blank correct option.** `add_single_question` creates one Choice per non-empty option text. When the option marked correct has no text, the question gets no correct choice at all. `ChoiceInlineFormset.clean` would then reject it (`Forms.CreatedQuestionsPassClean`).
- **`create_attempt` returns nothing.** `views.py:216` passes its result to the template, so `attempted_question` there is always `None` (`Views.PlayPage` carries only the question).
- **A duplicate attempt is an error.** Two attempts for the same question make the POST's `.get()` raise `MultipleObjectsReturned`, which the view does not catch (`Views.Response.ServerError`). Django's session middleware does not save the session of a 500 response, so the `current_quiz_id` written at the start of the view is lost in that case.
- **Resubmission.** Each submission overwrites the attempt's graded fields. The total is recomputed from scratch, so a second submission replaces the first and is not added to it (`Models.ResubmissionCountsOnce`).

## Model

| member | source | states |
|---|---|---|
| Grading.RoundedShare | lets_quiz/quiz/models.py:97-99 | the share `maximum_marks × part / whole` rounded to the nearest hundredth (within half a unit, halves up), and never above the maximum when `part <= whole` |
| Grading.Evaluate | lets_quiz/quiz/models.py:76-99 | marks never exceed the maximum; a correct answer earns exactly the maximum. Single mode is correct iff exactly one choice is chosen and it is a correct one, and is otherwise 0 marks. Multiple mode is correct iff the chosen set equals the correct set; otherwise the marks are within half a hundredth of `maximum × |chosen ∩ correct| / |correct|`, and 0 when no choice is correct |
| Grading.SingleModeCondition | lets_quiz/quiz/models.py:79 | "one chosen id and it is correct" is the same as "the chosen set is a singleton of a correct id" |
| Grading.ExactMatchCondition | lets_quiz/quiz/models.py:93 | "all correct picked and no incorrect picked" is the same as chosen == correct |
| Grading.RoundedShareWhole | lets_quiz/quiz/models.py:97-99 | the rounded share of the whole is exactly the maximum |
| Grading.RoundedShareMonotone | lets_quiz/quiz/models.py:97-99 | the rounded share never decreases as the part grows |
| Grading.PartialCreditIgnoresExtras | lets_quiz/quiz/models.py:87-99 | when the question has a correct choice, multiple-choice marks depend only on the correct choices picked; wrong picks never cost marks |
| Grading.PartialCreditMonotone | lets_quiz/quiz/models.py:87-99 | when the question has a correct choice, picking more of the correct choices never earns fewer marks |
| Grading.NoCorrectChoices | lets_quiz/quiz/models.py:97 | with no correct choices, an empty submission is correct with full marks and any other earns 0 |
| Grading.TwoCorrectChoicesExample | lets_quiz/quiz/models.py:87-99 | correct {1,2} worth 4.00: both picked earns 4.00; one picked earns 2.00, with or without a wrong extra; none picked earns 0 |
| Models.CorrectIds | lets_quiz/quiz/models.py:66 | an id is a correct id iff some choice of the question is flagged correct and carries it; all are choice ids |
| Models.ChoiceIds | lets_quiz/quiz/views.py:193 | the pks of `question.choices`, against which the posted pks are filtered (OwnChoices) |
| Models.Graded | lets_quiz/quiz/models.py:53-101 | a graded attempt keeps its question, records the selection, stays within the maximum, and has full marks when correct |
| Models.NewAttempt | lets_quiz/quiz/models.py:49-51 | the attempt `create_attempt` saves: the question, no selected choices, `is_correct` False and 0 marks, the field defaults of models.py:114-119 |
| Models.AttemptedIds | lets_quiz/quiz/views.py:211 | `attempts.values_list('question_id')` as a set: the answered question ids that play GET excludes |
| Models.SumMarks | lets_quiz/quiz/models.py:107-109 | the aggregate `Sum('marks_obtained') or 0`: every attempt's marks are at most it; its values are given by SumMarksAppend and SumMarksUpdate |
| Models.SumMarksAppend | lets_quiz/quiz/models.py:106-111 | adding an attempt adds its marks to the aggregate sum |
| Models.SumMarksUpdate | lets_quiz/quiz/models.py:104-111 | overwriting one attempt changes the sum by exactly the difference of its marks |
| Models.SumMarksBounds | lets_quiz/quiz/models.py:106-111 | the recomputed total never exceeds the sum of the attempted questions' maxima |
| Models.ResubmissionCountsOnce | lets_quiz/quiz/models.py:53-111 | grading the same attempt twice counts only the last grading, and equals grading it once with the second selection |
| Models.QuizProfile.constructor | lets_quiz/quiz/models.py:35-37 | a new profile has no attempts and total 0 |
| Models.QuizProfile.GetNewQuestion | lets_quiz/quiz/models.py:42-47 | None iff every bank question is attempted; otherwise a bank question not yet attempted |
| Models.QuizProfile.CreateAttempt | lets_quiz/quiz/models.py:49-51 | appends one ungraded attempt; the total and the sum are unchanged, and the question joins the attempted ids |
| Models.QuizProfile.EvaluateAttempt | lets_quiz/quiz/models.py:53-104 | the one attempt is replaced by its graded form, and the stored total becomes the new sum: the old one with that attempt's marks replaced |
| Models.QuizProfile.UpdateScore | lets_quiz/quiz/models.py:106-111 | the stored total equals the sum of marks over all attempts |
| Views.QuizQuestionIds | lets_quiz/quiz/views.py:271 | `quiz.quiz_questions.values_list('question_id')` as a set, used by restart and FreshStartServesFirst |
| Views.NextUnanswered | lets_quiz/quiz/views.py:210-212 | the first quiz question whose question is not attempted, with every earlier one attempted; None iff all are attempted |
| Views.NoQuestionServedTwice | lets_quiz/quiz/views.py:209-216 | once the served question is attempted, the next one served is later in the quiz and a different question |
| Views.FreshStartServesFirst | lets_quiz/quiz/views.py:210-212 | with none of the quiz's questions attempted (as after a restart), the first quiz question is served |
| Views.PlayGet | lets_quiz/quiz/views.py:209-226 | unknown quiz is 404 with nothing changed. Otherwise the session remembers the quiz; the next unanswered question is served with a new ungraded attempt, or an empty page when none is left. The total never changes |
| Views.FirstMatch | lets_quiz/quiz/views.py:175 | the first matching attempt position at or after a start, and no match before it |
| Views.LookupAttempt | lets_quiz/quiz/views.py:174-177 | Missing iff no attempt has the question (or no pk was posted); Unique is the only matching attempt; Several means two distinct matching attempts exist |
| Views.PostedChoicePks | lets_quiz/quiz/views.py:184-187 | multiple mode takes the checkbox list; single mode takes at most one pk, and exactly the posted `choice_pk` when there is one |
| Views.OwnChoices | lets_quiz/quiz/views.py:192-193 | the selected ids are exactly the posted pks that belong to the question's own choices |
| Views.SingleModeSubmitsAtMostOne | lets_quiz/quiz/views.py:184-193 | a single-choice submission passes at most one choice to evaluate_attempt |
| Views.PlayPost | lets_quiz/quiz/views.py:165-207 | unknown quiz is 404 with nothing changed; a duplicated attempt is a server error that changes neither the profile nor the saved session. Otherwise the session remembers the quiz; an unknown attempt is 404. Otherwise only the looked-up attempt is regraded with its question's own posted choices, the total is recomputed, and the redirect depends on immediate feedback |
| Views.AttemptsOutside | lets_quiz/quiz/views.py:271-272 | an attempt survives iff it was there and its question is not in the quiz, as often as it was there (same multiset restricted to other questions); the delete promises no order, and neither does the contract |
| Views.AttemptsOutsideWithinBounds | lets_quiz/quiz/views.py:271-272 | deleting attempts keeps every remaining mark within its maximum |
| Views.KeptMarksRemain | lets_quiz/quiz/views.py:271-276 | an attempt of another quiz still counts in the sum after a restart, so the stored 0 can be below it |
| Views.Falsy | lets_quiz/quiz/views.py:260-262 | the session's quiz id counts as absent when it is None or 0, as Python's `not` sees an int |
| Views.RestartQuiz | lets_quiz/quiz/views.py:255-281 | uses the URL's quiz id when there is one (a digit string, never falsy, so `/0/restart/` looks up quiz 0), else the session's. With no URL id and a falsy session id it redirects home; an unknown quiz is 404. Otherwise exactly the quiz's attempts are deleted, the total is set to 0, and it redirects to play |
| Views.Filled | lets_quiz/quiz/views.py:76 | the `if opt_text:` test: an option text counts iff it is non-empty |
| Views.FilledNumbersExact | lets_quiz/quiz/views.py:75-76 | the numbers kept are exactly those (from 1) of the non-empty option texts, increasing |
| Views.PlannedChoices | lets_quiz/quiz/views.py:75-81 | never more choices than option texts; PlannedChoicesFollowOptions gives each one |
| Views.PlannedChoicesFollowOptions | lets_quiz/quiz/views.py:75-81 | one Choice per non-empty option, in order: the k-th carries the k-th non-empty text and id first+k, and is correct iff its number is marked correct |
| Views.PlannedChoiceIds | lets_quiz/quiz/views.py:75-81 | the k-th created choice takes pk first + k, so the choices take the consecutive pks from the first handed out, each once, all within [first, first + count) |
| Views.SingleQuestionCorrectCount | lets_quiz/quiz/views.py:72-81 | a single question gets one correct choice when the selected option has text, and none otherwise |
| Views.MultipleQuestionHasCorrect | lets_quiz/quiz/views.py:117-125 | a multiple question has a correct choice iff some option marked correct has text |
| Views.CreateChoices | lets_quiz/quiz/views.py:75-81 | the creation loop produces exactly the planned choices |
| Views.MaxOrder | lets_quiz/quiz/views.py:82 | the maximum is one of the orders and bounds them all |
| Views.NextOrder | lets_quiz/quiz/views.py:82-88 | the new order is above every existing one: 1 for an empty quiz, otherwise the maximum plus one |
| Views.AppendKeepsOrdered | lets_quiz/quiz/views.py:82-88 | appending at NextOrder keeps a quiz's questions in strictly increasing order |
| Views.NewQuestion | lets_quiz/quiz/views.py:60-81 | the saved question with the choices the loop creates; its choices are given by PlannedChoicesFollowOptions |
| Views.AppendKeepsKeysBelow | lets_quiz/quiz/views.py:62-88 | appending a question whose pk is the next one and whose choices are below the next choice pk keeps every stored pk below the advanced counters |
| Views.AddQuestion | lets_quiz/quiz/views.py:60-88 | only the target quiz changes: it gains the new question (planned choices) at NextOrder. The question id and the choice ids differ from every stored question's and choice's id, as autoincrement pks do. The store invariant keeps every stored id below its counter, and the counters advance by what was created |
| Views.AddSingleQuestion | lets_quiz/quiz/views.py:54-94 | unknown quiz is 404, and no valid form re-renders; both leave the store unchanged. A valid form adds a single-choice question with option `correct_option` correct and redirects to the settings |
| Views.AddMultipleQuestion | lets_quiz/quiz/views.py:99-139 | the same, for a multiple-choice question correct at every listed option |
| Views.CorrectOptionSet | lets_quiz/quiz/views.py:117 | the option numbers of `correct_list` as a set; `index in correct_list` is membership in it |
| Forms.Counted | lets_quiz/quiz/forms.py:105-108 | a form is looked at iff it is valid and not marked DELETE |
| Forms.CountedCorrect | lets_quiz/quiz/forms.py:103-110 | the count of looked-at forms marked correct; Clean's loop computes it, and CountedCorrectConcat and SkippedRowIgnored give its behaviour |
| Forms.CountedCorrectConcat | lets_quiz/quiz/forms.py:105-110 | the count of correct rows splits over concatenation |
| Forms.SkippedRowIgnored | lets_quiz/quiz/forms.py:106-108 | an invalid or deleted row never affects the count, wherever it stands |
| Forms.Clean | lets_quiz/quiz/forms.py:95-121 | `None` stands for a formset without an `instance` attribute, the early return at forms.py:99-100, which never happens for an inline formset: a question being added is an unsaved `Question` and is validated. Nothing is raised for `None`. A single-choice question raises iff the counted correct rows are not exactly one; a multiple-choice question raises iff there are none |
| Forms.RowsOfCount | lets_quiz/quiz/forms.py:105-110 | the rows of saved choices count exactly the choices flagged correct |
| Forms.CreatedQuestionsPassClean | lets_quiz/quiz/forms.py:113-121 | a created single question passes clean iff its marked option had text; a multiple one passes iff some marked option had text |
| Matching.MappingAfterLeftDrop | lets_quiz/static/js/quiz_matching.js:78-103 | the inputs after a left drop; LeftDropMapping gives its meaning |
| Matching.LocationAfterLeftDrop | lets_quiz/static/js/quiz_matching.js:67-98 | where the items sit after a left drop; LeftDropLocation gives its meaning |
| Matching.MappingAfterPoolDrop | lets_quiz/static/js/quiz_matching.js:126-136 | the inputs after a pool drop; PoolDropMapping gives its meaning |
| Matching.ClearOthers | lets_quiz/static/js/quiz_matching.js:78-95 | emptying inputs never adds or removes an input |
| Matching.Evicted | lets_quiz/static/js/quiz_matching.js:69-74 | after eviction no item sits in the slot and the same items exist |
| Matching.EvictOccupant | lets_quiz/static/js/quiz_matching.js:69-74 | evicting a slot's occupant moves exactly that one item to the pool |
| Matching.EvictNobody | lets_quiz/static/js/quiz_matching.js:69-74 | evicting an empty slot changes nothing |
| Matching.LeftDropMapping | lets_quiz/static/js/quiz_matching.js:76-103 | after a left drop the slot's input holds the item and no other input does; other inputs are untouched; no right id is assigned twice |
| Matching.LeftDropLocation | lets_quiz/static/js/quiz_matching.js:67-99 | after a left drop the item is in the slot; the old occupant is in the pool; everything else stays; each slot holds at most one item |
| Matching.PoolDropMapping | lets_quiz/static/js/quiz_matching.js:130-136 | after a pool drop no input holds the item and no right id is assigned twice |
| Matching.PoolDropLocation | lets_quiz/static/js/quiz_matching.js:126-128 | moving an item to the pool keeps slots holding at most one item |
| Matching.ClearedAlongKeys | lets_quiz/static/js/quiz_matching.js:131-136 | a clearing pass keeps the set of inputs |
| Matching.ClearedAlongAt | lets_quiz/static/js/quiz_matching.js:79-81 | an input is emptied iff the pass visited it, it held the item, and it is not kept |
| Matching.ClearedAlongAll | lets_quiz/static/js/quiz_matching.js:78-95 | a pass over all inputs empties exactly the inputs holding the item, other than the kept one |
| Matching.ClearOtherInputs | lets_quiz/static/js/quiz_matching.js:78-95 | the left drop's loop empties exactly the other inputs holding the item, and at most moves that item to the pool |
| Matching.ClearInputs | lets_quiz/static/js/quiz_matching.js:131-136 | the pool drop's loop empties exactly the inputs holding the item |
| Matching.PlaceOnLeft | lets_quiz/static/js/quiz_matching.js:67-103 | the left drop's effect once the item is known: the inputs and locations after a left drop |
| Matching.Board.constructor | lets_quiz/static/js/quiz_matching.js:13-29 | the rendered board: every input empty, every item in the pool, nothing dragged |
| Matching.Board.DragStart | lets_quiz/static/js/quiz_matching.js:32-40 | the dragged element and id become the item's |
| Matching.Board.DropOnLeft | lets_quiz/static/js/quiz_matching.js:52-104 | the id falls back to the transfer text, and the element to the item with that id. Without an element or id nothing changes; otherwise inputs and locations become those after a left drop. The board invariant is kept |
| Matching.Board.DropOnPool | lets_quiz/static/js/quiz_matching.js:112-137 | without an id or a matching element nothing changes; otherwise the item returns to the pool and every input holding it is emptied. The board invariant is kept |
| Matching.Shuffle | lets_quiz/static/js/quiz_matching.js:17-23 | the items are permuted (same multiset); lists of at most one item are untouched |
| Timer.Decimal | lets_quiz/static/js/quiz_timer.js:16 | String(n) is a non-empty string of decimal digits |
| Timer.DecimalRoundTrip | lets_quiz/static/js/quiz_timer.js:16 | the decimal text reads back as n |
| Timer.FormatTime | lets_quiz/static/js/quiz_timer.js:13-17 | the text is digits, a colon, and two more digits (at least four characters); FormatTimeRoundTrip gives its value |
| Timer.FormatTimeRoundTrip | lets_quiz/static/js/quiz_timer.js:13-17 | the text is minutes, a colon and exactly two digits equal to seconds mod 60, and reads back as the seconds |
| Timer.StepTime | lets_quiz/static/js/quiz_timer.js:25-32 | the time left after one tick: a used-up time stays as it is, a positive one loses one second |
| Timer.TimeLeftCountsDown | lets_quiz/static/js/quiz_timer.js:19-33 | from n > 0 seconds, the time left after k ticks is n - k for k <= n and 0 from then on; with Countdown.Tick, tick n + 1 is the first to start from 0 and shows TimeUp |
| Timer.Countdown.constructor | lets_quiz/static/js/quiz_timer.js:5-36 | NaN or a non-positive time shows "no time limit" and never starts; a positive time shows it formatted, decrements it and starts the interval |
| Timer.Countdown.Tick | lets_quiz/static/js/quiz_timer.js:19-33 | NaN shows the measurement error. A used-up time shows the expiry and redirects. Otherwise it shows the time formatted and takes one second off |

## Left out

- Grading.RoundedShare: rounds to the nearest hundredth with halves up, exactly. The source uses Python's `round` on a binary float, which rounds some halves down. The two agree except on such ties.
- Negative `maximum_marks`: the marks fields are natural numbers. The source's `DecimalField` would accept a negative maximum.
- Screen output: the debug `print`s, `messages`, template rendering, DOM classes (`bg-success`), the display order of the pool's children and `innerHTML` text are observable output only. The timer display is a `Display` datatype.
- Timing: `setInterval` timing is not modelled; successive `Tick` calls stand for it.
- Matching.Board.DropOnLeft: an item is one id. Duplicate `data-right-id` attributes, and a slot holding several elements through other DOM edits, are outside the board invariant.
- URL quiz ids as text: the digit string the `restart/` and `play/` URLs capture is modelled by its integer value (`Some(n)`). Leading zeros and the string-to-int conversion of the lookup are not modelled.
- Decimal widths: `total_score` has `max_digits=10` (models.py:37), and `maximum_marks` and `marks_obtained` have `max_digits=6` (models.py:16, 119). The model's marks and total are unbounded, so a save that overflows these widths is not modelled.
- JavaScript numbers: the timer's time left is an unbounded integer. The model has neither the doubles' loss of `timeLeft -= 1` above 2^53 (quiz_timer.js:32) nor `String(n)`'s exponent notation from 1e21.
- Non-integer pks: a posted choice pk or question pk that is not an integer (Django's `ValueError`) is not modelled; pks arrive as integers or are absent.
- The rest of the application is not part of this model: `submission_result`, authentication, the leaderboard, `quiz_settings_view`, the admin, the URL configuration, the context processor and the `clear_admin_log` command. `submission_result` reads `question.quiz`, a field `Question` does not have.
- Framework checks: `super().clean()` of the formset and the field validation of the authoring forms are Django's. A valid form is given as data. Option texts that the form leaves empty (`option3`, `option4`) are empty strings.
- Text and matching questions: `evaluate_attempt` grades only choice questions, so no grading of text or matching answers is modelled. The matching script only fills hidden inputs that nothing in the core grades.
- Concurrency: two simultaneous requests are not modelled; each view runs to completion.
