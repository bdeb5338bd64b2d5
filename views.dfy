/**
 * The progression, restart and authoring bookkeeping of lets_quiz/quiz/views.py:
 * play (GET serves the next question, POST grades a submission), restart_quiz,
 * and the choice and order creation of add_single_question / add_multiple_question.
 *
 * The Quiz and QuizQuestion records are reconstructed from how the views use them
 * (quiz.quiz_questions, quiz_question.question, .order, quiz.immediate_feedback).
 */
module Views {
  import opened Wrappers
  import opened Grading
  import opened Models

  datatype QuizQuestion = QuizQuestion(question: Question, order: int)

  datatype Quiz = Quiz(id: int, quizQuestions: seq<QuizQuestion>, immediateFeedback: bool)

  /** What a view answers. */
  datatype Response =
    | PlayPage(question: Option<Question>)    // play.html; its attempted_question is None
    | RedirectPlay(quizId: int)
    | RedirectSubmissionResult(attempt: nat)  // the attempt, by its position in the profile
    | RedirectHome                            // with an error message
    | RedirectSettings(quizId: int)
    | RenderForm                              // the authoring form shown (again)
    | Http404
    | ServerError                             // an uncaught MultipleObjectsReturned

  /** The request session: only current_quiz_id is used by the core. */
  class Session {
    var currentQuizId: Option<int>

    constructor ()
      ensures currentQuizId == None
    {
      currentQuizId := None;
    }
  }

  /** Every stored question id is below nq and every stored choice id below nc. */
  ghost predicate KeysBelow(quizzes: map<int, Quiz>, nq: int, nc: int)
  {
    && (forall k, qq :: k in quizzes && qq in quizzes[k].quizQuestions ==> qq.question.id < nq)
    && (forall k, qq, c :: k in quizzes && qq in quizzes[k].quizQuestions && c in qq.question.choices ==> c.id < nc)
  }

  /** Appending a question keyed nq, with choices below nc', keeps the keys below nq + 1 and nc'. */
  lemma AppendKeepsKeysBelow(quizzes: map<int, Quiz>, quizId: int, added: QuizQuestion, nq: int, nc: int, nc': int)
    requires KeysBelow(quizzes, nq, nc) && quizId in quizzes
    requires added.question.id == nq && nc <= nc'
    requires forall c :: c in added.question.choices ==> c.id < nc'
    ensures KeysBelow(quizzes[quizId := quizzes[quizId].(quizQuestions := quizzes[quizId].quizQuestions + [added])], nq + 1, nc')
  {
    var after := quizzes[quizId := quizzes[quizId].(quizQuestions := quizzes[quizId].quizQuestions + [added])];
    forall k, qq | k in after && qq in after[k].quizQuestions
      ensures qq.question.id < nq + 1 && forall c :: c in qq.question.choices ==> c.id < nc'
    {
      if qq != added {
        assert qq in quizzes[k].quizQuestions;
      }
    }
  }

  /**
   * The stored quizzes by id, and the next primary keys the database hands out
   * to new Question and Choice rows.
   */
  class QuizStore {
    var quizzes: map<int, Quiz>
    var nextQuestionId: int
    var nextChoiceId: int

    /**
     * Every quiz is stored under its own id, and every stored question's and
     * choice's id is below the next pk of its table, as autoincrement keys keep them.
     */
    ghost predicate Valid()
      reads this
    {
      && (forall k :: k in quizzes ==> quizzes[k].id == k)
      && KeysBelow(quizzes, nextQuestionId, nextChoiceId)
    }

    constructor ()
      ensures Valid()
      ensures quizzes == map[] && nextQuestionId == 1 && nextChoiceId == 1
    {
      quizzes := map[];
      nextQuestionId := 1;
      nextChoiceId := 1;
    }
  }

  // ---------------------------------------------------------------------------
  // play, GET: the next question

  /**
   * The position of the first quiz question whose question has not been attempted,
   * or None when every one has.
   */
  function NextUnanswered(quizQuestions: seq<QuizQuestion>, answered: set<int>): (r: Option<nat>)
    ensures r.Some? ==> (&& r.value < |quizQuestions|
                         && quizQuestions[r.value].question.id !in answered
                         && forall j :: 0 <= j < r.value ==> quizQuestions[j].question.id in answered)
    ensures r.None? ==> forall j :: 0 <= j < |quizQuestions| ==> quizQuestions[j].question.id in answered
  {
    if quizQuestions == [] then None
    else if quizQuestions[0].question.id !in answered then Some(0)
    else match NextUnanswered(quizQuestions[1..], answered)
      case None => None
      case Some(k) => Some(k + 1)
  }

  /** The ids of a quiz's questions. */
  function QuizQuestionIds(quiz: Quiz): set<int>
  {
    set qq | qq in quiz.quizQuestions :: qq.question.id
  }

  /**
   * Once a served question is attempted, the next one served lies strictly later
   * in the quiz and is a different question.
   */
  lemma NoQuestionServedTwice(quizQuestions: seq<QuizQuestion>, answered: set<int>, k: nat)
    requires NextUnanswered(quizQuestions, answered) == Some(k)
    ensures var next := NextUnanswered(quizQuestions, answered + {quizQuestions[k].question.id});
            next.Some? ==> k < next.value && quizQuestions[next.value].question.id != quizQuestions[k].question.id
  {
  }

  /**
   * When none of the quiz's questions is attempted (as after restart_quiz), play
   * serves the quiz's first question.
   */
  lemma FreshStartServesFirst(quiz: Quiz, attempts: seq<AttemptedQuestion>)
    requires quiz.quizQuestions != []
    requires forall a :: a in attempts ==> a.question.id !in QuizQuestionIds(quiz)
    ensures NextUnanswered(quiz.quizQuestions, AttemptedIds(attempts)) == Some(0)
  {
    assert quiz.quizQuestions[0] in quiz.quizQuestions;
  }

  method PlayGet(store: QuizStore, session: Session, profile: QuizProfile, quizId: int) returns (resp: Response)
    requires store.Valid() && profile.Valid()
    modifies session, profile
    ensures profile.Valid()
    ensures profile.totalScore == old(profile.totalScore)
    ensures quizId !in store.quizzes ==> resp == Http404 && unchanged(session, profile)
    ensures quizId in store.quizzes ==>
      var qqs := store.quizzes[quizId].quizQuestions;
      && session.currentQuizId == Some(quizId)
      && match NextUnanswered(qqs, old(AttemptedIds(profile.attempts)))
         case None =>
           resp == PlayPage(None) && profile.attempts == old(profile.attempts)
         case Some(k) =>
           && resp == PlayPage(Some(qqs[k].question))
           && profile.attempts == old(profile.attempts) + [NewAttempt(qqs[k].question)]
           && qqs[k].question.id !in old(AttemptedIds(profile.attempts))
           && AttemptedIds(profile.attempts) == old(AttemptedIds(profile.attempts)) + {qqs[k].question.id}
  {
    if quizId !in store.quizzes {
      return Http404;
    }
    var quiz := store.quizzes[quizId];
    session.currentQuizId := Some(quiz.id);
    var answered := AttemptedIds(profile.attempts);
    var next := NextUnanswered(quiz.quizQuestions, answered);
    if next.Some? {
      var question := quiz.quizQuestions[next.value].question;
      profile.CreateAttempt(question);
      resp := PlayPage(Some(question));
    } else {
      resp := PlayPage(None);
    }
  }

  // ---------------------------------------------------------------------------
  // play, POST: grading a submission

  /** The first position at or after from of an attempt for question qid. */
  function FirstMatch(attempts: seq<AttemptedQuestion>, qid: int, from: nat): (r: Option<nat>)
    decreases |attempts| - from
    ensures r.Some? ==> from <= r.value < |attempts| && attempts[r.value].question.id == qid
    ensures forall i :: from <= i < |attempts| && (r.None? || i < r.value) ==> attempts[i].question.id != qid
  {
    if from >= |attempts| then None
    else if attempts[from].question.id == qid then Some(from)
    else FirstMatch(attempts, qid, from + 1)
  }

  /** What quiz_profile.attempts.get(question__pk=...) finds. */
  datatype Lookup = Missing | Unique(index: nat) | Several

  function LookupAttempt(attempts: seq<AttemptedQuestion>, questionPk: Option<int>): (r: Lookup)
    ensures r.Missing? <==> questionPk.None? || forall i :: 0 <= i < |attempts| ==> attempts[i].question.id != questionPk.value
    ensures r.Unique? ==> && questionPk.Some? && r.index < |attempts|
                          && attempts[r.index].question.id == questionPk.value
                          && forall j :: 0 <= j < |attempts| && attempts[j].question.id == questionPk.value ==> j == r.index
    ensures r.Several? ==> questionPk.Some? && exists i, j ::
              (0 <= i < j < |attempts| && attempts[i].question.id == questionPk.value && attempts[j].question.id == questionPk.value)
  {
    if questionPk.None? then Missing
    else
      match FirstMatch(attempts, questionPk.value, 0)
      case None => Missing
      case Some(first) =>
        match FirstMatch(attempts, questionPk.value, first + 1)
        case None => Unique(first)
        case Some(second) => Several
  }

  /** The choice pks a POST submits: the checkbox list, or the one radio value. */
  function PostedChoicePks(q: Question, postedChoices: seq<int>, postedChoice: Option<int>): (r: seq<int>)
    ensures q.isMultipleChoice ==> r == postedChoices
    ensures !q.isMultipleChoice ==> |r| <= 1 && forall p :: p in r <==> postedChoice == Some(p)
  {
    if q.isMultipleChoice then postedChoices
    else if postedChoice.Some? then [postedChoice.value] else []
  }

  /** question.choices.filter(pk__in=pks), as ids. */
  function OwnChoices(q: Question, pks: seq<int>): (ids: set<int>)
    ensures forall id :: id in ids <==> id in ChoiceIds(q) && id in pks
  {
    set c | c in q.choices && c.id in pks :: c.id
  }

  /** A single-choice submission passes at most one choice id to evaluate_attempt. */
  lemma SingleModeSubmitsAtMostOne(q: Question, postedChoices: seq<int>, postedChoice: Option<int>)
    requires !q.isMultipleChoice
    ensures |OwnChoices(q, PostedChoicePks(q, postedChoices, postedChoice))| <= 1
  {
    var ids := OwnChoices(q, PostedChoicePks(q, postedChoices, postedChoice));
    if postedChoice.Some? {
      assert ids <= {postedChoice.value};
      SubsetCard(ids, {postedChoice.value});
    } else {
      assert ids == {};
    }
  }

  method PlayPost(store: QuizStore, session: Session, profile: QuizProfile, quizId: int,
                  questionPk: Option<int>, postedChoices: seq<int>, postedChoice: Option<int>)
    returns (resp: Response)
    requires store.Valid() && profile.Valid()
    modifies session, profile
    ensures profile.Valid()
    ensures quizId !in store.quizzes ==> resp == Http404 && unchanged(session, profile)
    ensures quizId in store.quizzes && LookupAttempt(old(profile.attempts), questionPk).Several? ==>
      resp == ServerError && unchanged(session, profile)
    ensures quizId in store.quizzes && !LookupAttempt(old(profile.attempts), questionPk).Several? ==>
      && session.currentQuizId == Some(quizId)
      && match LookupAttempt(old(profile.attempts), questionPk)
         case Missing => resp == Http404 && unchanged(profile)
         case Several => false
         case Unique(i) =>
           var q := old(profile.attempts)[i].question;
           var chosen := OwnChoices(q, PostedChoicePks(q, postedChoices, postedChoice));
           && profile.attempts == old(profile.attempts)[i := Graded(old(profile.attempts)[i], chosen)]
           && profile.ScoreConsistent()
           && resp == (if store.quizzes[quizId].immediateFeedback then RedirectSubmissionResult(i) else RedirectPlay(quizId))
  {
    if quizId !in store.quizzes {
      return Http404;
    }
    var quiz := store.quizzes[quizId];
    var lookup := LookupAttempt(profile.attempts, questionPk);
    if lookup.Several? {
      // The uncaught MultipleObjectsReturned ends in a 500 response, and the
      // session middleware does not save a session on a 500: the write of
      // current_quiz_id made before the lookup is lost.
      return ServerError;
    }
    session.currentQuizId := Some(quiz.id);
    if lookup.Missing? {
      return Http404;
    }
    var i := lookup.index;
    var question := profile.attempts[i].question;
    var pks := PostedChoicePks(question, postedChoices, postedChoice);
    var selected := OwnChoices(question, pks);
    profile.EvaluateAttempt(i, selected);
    if quiz.immediateFeedback {
      resp := RedirectSubmissionResult(i);
    } else {
      resp := RedirectPlay(quiz.id);
    }
  }

  // ---------------------------------------------------------------------------
  // restart_quiz

  /** The attempts whose question is not among ids, in their order. */
  function AttemptsOutside(attempts: seq<AttemptedQuestion>, ids: set<int>): (r: seq<AttemptedQuestion>)
    ensures forall a :: a in r <==> a in attempts && a.question.id !in ids
    ensures forall a :: multiset(r)[a] == if a.question.id in ids then 0 else multiset(attempts)[a]
    ensures |r| <= |attempts|
  {
    if attempts == [] then []
    else
      assert attempts == [attempts[0]] + attempts[1..];
      if attempts[0].question.id in ids then AttemptsOutside(attempts[1..], ids)
      else [attempts[0]] + AttemptsOutside(attempts[1..], ids)
  }

  lemma {:induction false} AttemptsOutsideWithinBounds(attempts: seq<AttemptedQuestion>, ids: set<int>)
    requires MarksWithinBounds(attempts)
    ensures MarksWithinBounds(AttemptsOutside(attempts, ids))
  {
    if attempts != [] {
      assert MarksWithinBounds(attempts[1..]) by {
        forall i | 0 <= i < |attempts[1..]|
          ensures attempts[1..][i].marksObtained <= attempts[1..][i].question.maximumMarks
        {
          assert attempts[1..][i] == attempts[i + 1];
        }
      }
      AttemptsOutsideWithinBounds(attempts[1..], ids);
    }
  }

  /**
   * Every kept attempt's marks still count in the sum over what remains after a
   * restart; so when a kept attempt (of another quiz) has marks, the total of 0
   * that restart_quiz stores is below that sum.
   */
  lemma {:induction false} KeptMarksRemain(attempts: seq<AttemptedQuestion>, ids: set<int>, i: nat)
    requires i < |attempts| && attempts[i].question.id !in ids
    ensures attempts[i].marksObtained <= SumMarks(AttemptsOutside(attempts, ids))
  {
    if i > 0 {
      KeptMarksRemain(attempts[1..], ids, i - 1);
    }
  }

  /**
   * The session's `current_quiz_id` the way Python's `not quiz_id` sees it:
   * None and 0 are both absent. The URL's quiz id is a non-empty digit string,
   * which `not` never finds absent, so only the session value goes through this.
   */
  predicate Falsy(quizId: Option<int>)
  {
    quizId.None? || quizId.value == 0
  }

  /**
   * restart_quiz: the URL's quiz id when there is one, otherwise the session's.
   * Without either it redirects home; an unknown quiz is 404; otherwise exactly
   * the quiz's attempts go and the total is stored as 0.
   */
  method RestartQuiz(store: QuizStore, session: Session, profile: QuizProfile, quizIdArg: Option<int>)
    returns (resp: Response)
    requires store.Valid() && profile.Valid()
    modifies profile
    ensures profile.Valid()
    ensures quizIdArg.None? && Falsy(session.currentQuizId) ==> resp == RedirectHome && unchanged(profile)
    ensures !(quizIdArg.None? && Falsy(session.currentQuizId)) ==>
      var quizId := if quizIdArg.Some? then quizIdArg.value else session.currentQuizId.value;
      && (quizId !in store.quizzes ==> resp == Http404 && unchanged(profile))
      && (quizId in store.quizzes ==>
            && resp == RedirectPlay(quizId)
            && profile.attempts == AttemptsOutside(old(profile.attempts), QuizQuestionIds(store.quizzes[quizId]))
            && profile.totalScore == 0)
  {
    var quizId := quizIdArg;
    if quizId.None? {
      if Falsy(session.currentQuizId) {
        return RedirectHome;
      }
      quizId := session.currentQuizId;
    }
    if quizId.value !in store.quizzes {
      return Http404;
    }
    var quiz := store.quizzes[quizId.value];
    var questionIds := QuizQuestionIds(quiz);
    AttemptsOutsideWithinBounds(profile.attempts, questionIds);
    profile.attempts := AttemptsOutside(profile.attempts, questionIds);
    profile.totalScore := 0;
    resp := RedirectPlay(quiz.id);
  }

  // ---------------------------------------------------------------------------
  // add_single_question / add_multiple_question

  /** Python truthiness of an option text: it is not empty. */
  predicate Filled(text: string)
  {
    |text| > 0
  }

  /**
   * The choices the authoring loop creates from the option texts: one per
   * non-empty text, the text numbered n (from 1) correct when n is in correct,
   * with ids handed out from firstId on.
   */
  function PlannedChoices(options: seq<string>, correct: set<int>, firstId: int): (r: seq<Choice>)
    ensures |r| <= |options|
  {
    if options == [] then []
    else
      var earlier := PlannedChoices(options[..|options| - 1], correct, firstId);
      var text := options[|options| - 1];
      if Filled(text) then earlier + [Choice(firstId + |earlier|, |options| in correct, text)]
      else earlier
  }

  /** The numbers (from 1) of the non-empty option texts. */
  function FilledNumbers(options: seq<string>): seq<int>
  {
    if options == [] then []
    else
      var earlier := FilledNumbers(options[..|options| - 1]);
      if Filled(options[|options| - 1]) then earlier + [|options|] else earlier
  }

  /** The filled numbers are exactly those of the non-empty texts, in increasing order. */
  lemma {:induction false} FilledNumbersExact(options: seq<string>)
    ensures forall k :: 0 <= k < |FilledNumbers(options)| ==>
              1 <= FilledNumbers(options)[k] <= |options| && Filled(options[FilledNumbers(options)[k] - 1])
    ensures forall j :: 0 <= j < |options| && Filled(options[j]) ==> j + 1 in FilledNumbers(options)
    ensures forall k, l :: 0 <= k < l < |FilledNumbers(options)| ==> FilledNumbers(options)[k] < FilledNumbers(options)[l]
  {
    if options != [] {
      var init := options[..|options| - 1];
      FilledNumbersExact(init);
      forall k | 0 <= k < |FilledNumbers(init)|
        ensures options[FilledNumbers(init)[k] - 1] == init[FilledNumbers(init)[k] - 1]
      {
      }
      forall j | 0 <= j < |init| ensures options[j] == init[j] {
      }
    }
  }

  /**
   * One choice per non-empty option, in option order: the k-th choice carries the
   * k-th non-empty text, is correct iff that text's number is in correct, and
   * gets id firstId + k.
   */
  lemma {:induction false} PlannedChoicesFollowOptions(options: seq<string>, correct: set<int>, firstId: int)
    ensures |PlannedChoices(options, correct, firstId)| == |FilledNumbers(options)|
    ensures forall k :: 0 <= k < |PlannedChoices(options, correct, firstId)| ==>
              && 1 <= FilledNumbers(options)[k] <= |options|
              && PlannedChoices(options, correct, firstId)[k]
                 == Choice(firstId + k, FilledNumbers(options)[k] in correct, options[FilledNumbers(options)[k] - 1])
  {
    if options != [] {
      var init := options[..|options| - 1];
      PlannedChoicesFollowOptions(init, correct, firstId);
      FilledNumbersExact(init);
      forall k | 0 <= k < |FilledNumbers(init)|
        ensures options[FilledNumbers(init)[k] - 1] == init[FilledNumbers(init)[k] - 1]
      {
      }
    }
  }

  /** The planned choices take the consecutive ids from firstId on, the k-th choice firstId + k. */
  lemma PlannedChoiceIds(options: seq<string>, correct: set<int>, firstId: int)
    ensures var r := PlannedChoices(options, correct, firstId);
            forall k :: 0 <= k < |r| ==> r[k].id == firstId + k
    ensures var r := PlannedChoices(options, correct, firstId);
            forall d :: d in r ==> firstId <= d.id < firstId + |r|
  {
    PlannedChoicesFollowOptions(options, correct, firstId);
  }

  /** The number of choices flagged correct. */
  function CountCorrect(choices: seq<Choice>): nat
  {
    if choices == [] then 0
    else CountCorrect(choices[..|choices| - 1]) + (if choices[|choices| - 1].isCorrect then 1 else 0)
  }

  lemma CountCorrectAppend(choices: seq<Choice>, c: Choice)
    ensures CountCorrect(choices + [c]) == CountCorrect(choices) + (if c.isCorrect then 1 else 0)
  {
    assert (choices + [c])[..|choices|] == choices;
  }

  /**
   * A single question gets one correct choice when the selected option has a text,
   * and none otherwise.
   */
  lemma {:induction false} SingleQuestionCorrectCount(options: seq<string>, correctOption: int, firstId: int)
    ensures CountCorrect(PlannedChoices(options, {correctOption}, firstId))
         == if 1 <= correctOption <= |options| && Filled(options[correctOption - 1]) then 1 else 0
  {
    if options != [] {
      var init := options[..|options| - 1];
      SingleQuestionCorrectCount(init, correctOption, firstId);
      var earlier := PlannedChoices(init, {correctOption}, firstId);
      var text := options[|options| - 1];
      if Filled(text) {
        CountCorrectAppend(earlier, Choice(firstId + |earlier|, |options| in {correctOption}, text));
      }
      if 1 <= correctOption < |options| {
        assert init[correctOption - 1] == options[correctOption - 1];
      }
    }
  }

  /**
   * A multiple question gets a correct choice exactly when some selected option
   * number names a non-empty text.
   */
  lemma {:induction false} MultipleQuestionHasCorrect(options: seq<string>, correct: set<int>, firstId: int)
    ensures CountCorrect(PlannedChoices(options, correct, firstId)) >= 1
        <==> exists n :: n in correct && 1 <= n <= |options| && Filled(options[n - 1])
  {
    if options != [] {
      var init := options[..|options| - 1];
      MultipleQuestionHasCorrect(init, correct, firstId);
      var earlier := PlannedChoices(init, correct, firstId);
      var text := options[|options| - 1];
      if Filled(text) {
        CountCorrectAppend(earlier, Choice(firstId + |earlier|, |options| in correct, text));
      }
      SelectedFilledSnoc(options, correct);
    }
  }

  /** A selected non-empty option is one among the earlier options, or the last one. */
  lemma SelectedFilledSnoc(options: seq<string>, correct: set<int>)
    requires options != []
    ensures (exists n :: n in correct && 1 <= n <= |options| && Filled(options[n - 1]))
        <==> (exists n :: n in correct && 1 <= n <= |options| - 1 && Filled(options[..|options| - 1][n - 1]))
             || (|options| in correct && Filled(options[|options| - 1]))
  {
    var init := options[..|options| - 1];
    if exists n :: n in correct && 1 <= n <= |init| && Filled(init[n - 1]) {
      var n :| n in correct && 1 <= n <= |init| && Filled(init[n - 1]);
      assert options[n - 1] == init[n - 1];
    }
    if exists n :: n in correct && 1 <= n < |options| && Filled(options[n - 1]) {
      var n :| n in correct && 1 <= n < |options| && Filled(options[n - 1]);
      assert options[n - 1] == init[n - 1];
    }
  }

  /** The loop `for index, opt_text in enumerate(options, start=1)` creating Choice rows. */
  method CreateChoices(options: seq<string>, correct: set<int>, firstId: int) returns (choices: seq<Choice>)
    ensures choices == PlannedChoices(options, correct, firstId)
  {
    choices := [];
    var nextId := firstId;
    for k := 0 to |options|
      invariant nextId == firstId + |choices|
      invariant choices == PlannedChoices(options[..k], correct, firstId)
    {
      assert options[..k + 1][..k] == options[..k];
      var index := k + 1;
      if Filled(options[k]) {
        choices := choices + [Choice(nextId, index in correct, options[k])];
        nextId := nextId + 1;
      }
    }
    assert options[..|options|] == options;
  }

  /** The largest order; the orders must not be empty. */
  function MaxOrder(orders: seq<int>): (m: int)
    requires orders != []
    ensures m in orders && forall o :: o in orders ==> o <= m
  {
    if |orders| == 1 then orders[0]
    else
      var rest := MaxOrder(orders[1..]);
      assert forall o :: o in orders ==> o == orders[0] || o in orders[1..];
      if orders[0] >= rest then orders[0] else rest
  }

  /** `(Max('order') or 0) + 1`: above every existing order. */
  function NextOrder(orders: seq<int>): (r: int)
    ensures forall o :: o in orders ==> o < r
    ensures orders == [] ==> r == 1
    ensures orders != [] ==> r - 1 in orders
  {
    var maxOrder := if orders == [] then 0 else MaxOrder(orders);
    maxOrder + 1
  }

  function Orders(quizQuestions: seq<QuizQuestion>): (r: seq<int>)
    ensures |r| == |quizQuestions| && forall i :: 0 <= i < |r| ==> r[i] == quizQuestions[i].order
  {
    seq(|quizQuestions|, i requires 0 <= i < |quizQuestions| => quizQuestions[i].order)
  }

  /** A quiz whose question list is kept in strictly increasing order. */
  predicate OrderedByOrder(quizQuestions: seq<QuizQuestion>)
  {
    forall i, j :: 0 <= i < j < |quizQuestions| ==> quizQuestions[i].order < quizQuestions[j].order
  }

  /** Appending with NextOrder keeps a quiz's questions in strictly increasing order. */
  lemma AppendKeepsOrdered(quizQuestions: seq<QuizQuestion>, q: Question)
    requires OrderedByOrder(quizQuestions)
    ensures OrderedByOrder(quizQuestions + [QuizQuestion(q, NextOrder(Orders(quizQuestions)))])
  {
    var orders := Orders(quizQuestions);
    forall i | 0 <= i < |quizQuestions| ensures quizQuestions[i].order < NextOrder(orders) {
      assert orders[i] in orders;
    }
  }

  /** The Question a creation form describes, with its planned choices. */
  function NewQuestion(id: int, html: string, maximumMarks: nat, isMultipleChoice: bool,
                       options: seq<string>, correct: set<int>, firstChoiceId: int): Question
  {
    Question(id, html, maximumMarks, isMultipleChoice, PlannedChoices(options, correct, firstChoiceId))
  }

  /** The cleaned data of a valid SingleChoiceQuestionForm. */
  datatype SingleChoiceForm = SingleChoiceForm(html: string, maximumMarks: nat, options: seq<string>, correctOption: int)

  /** The cleaned data of a valid MultipleChoiceQuestionForm. */
  datatype MultipleChoiceForm = MultipleChoiceForm(html: string, maximumMarks: nat, options: seq<string>, correctOptions: seq<int>)

  /** Saves a new question with its choices and appends it to the quiz at NextOrder. */
  method AddQuestion(store: QuizStore, quizId: int, html: string, maximumMarks: nat, isMultipleChoice: bool,
                     options: seq<string>, correct: set<int>)
    requires store.Valid() && quizId in store.quizzes
    modifies store
    ensures store.Valid()
    ensures forall k, qq :: k in old(store.quizzes) && qq in old(store.quizzes)[k].quizQuestions ==>
              qq.question.id != old(store.nextQuestionId)
    ensures forall k, qq, c, d :: && k in old(store.quizzes) && qq in old(store.quizzes)[k].quizQuestions
                                 && c in qq.question.choices && d in PlannedChoices(options, correct, old(store.nextChoiceId))
                                 ==> c.id != d.id
    ensures var quiz := old(store.quizzes[quizId]);
            var q := NewQuestion(old(store.nextQuestionId), html, maximumMarks, isMultipleChoice,
                                 options, correct, old(store.nextChoiceId));
            && store.quizzes == old(store.quizzes)[quizId := quiz.(quizQuestions :=
                 quiz.quizQuestions + [QuizQuestion(q, NextOrder(Orders(quiz.quizQuestions)))])]
            && store.nextQuestionId == old(store.nextQuestionId) + 1
            && store.nextChoiceId == old(store.nextChoiceId) + |q.choices|
  {
    var questionId := store.nextQuestionId;
    store.nextQuestionId := store.nextQuestionId + 1;
    var choices := CreateChoices(options, correct, store.nextChoiceId);
    PlannedChoiceIds(options, correct, store.nextChoiceId);
    var question := Question(questionId, html, maximumMarks, isMultipleChoice, choices);
    var quiz := store.quizzes[quizId];
    var order := NextOrder(Orders(quiz.quizQuestions));
    AppendKeepsKeysBelow(store.quizzes, quizId, QuizQuestion(question, order), questionId,
                         store.nextChoiceId, store.nextChoiceId + |choices|);
    store.nextChoiceId := store.nextChoiceId + |choices|;
    store.quizzes := store.quizzes[quizId := quiz.(quizQuestions := quiz.quizQuestions + [QuizQuestion(question, order)])];
  }

  /** add_single_question; form is None for a GET or an invalid form. */
  method AddSingleQuestion(store: QuizStore, quizId: int, form: Option<SingleChoiceForm>) returns (resp: Response)
    requires store.Valid()
    modifies store
    ensures store.Valid()
    ensures quizId !in old(store.quizzes) ==> resp == Http404 && unchanged(store)
    ensures quizId in old(store.quizzes) && form.None? ==> resp == RenderForm && unchanged(store)
    ensures quizId in old(store.quizzes) && form.Some? ==>
            var f := form.value;
            var quiz := old(store.quizzes[quizId]);
            var q := NewQuestion(old(store.nextQuestionId), f.html, f.maximumMarks, false,
                                 f.options, {f.correctOption}, old(store.nextChoiceId));
            && resp == RedirectSettings(quizId)
            && store.quizzes == old(store.quizzes)[quizId := quiz.(quizQuestions :=
                 quiz.quizQuestions + [QuizQuestion(q, NextOrder(Orders(quiz.quizQuestions)))])]
            && store.nextQuestionId == old(store.nextQuestionId) + 1
            && store.nextChoiceId == old(store.nextChoiceId) + |q.choices|
  {
    if quizId !in store.quizzes {
      return Http404;
    }
    if form.None? {
      return RenderForm;
    }
    var f := form.value;
    AddQuestion(store, quizId, f.html, f.maximumMarks, false, f.options, {f.correctOption});
    resp := RedirectSettings(quizId);
  }

  /** The set of option numbers a multiple form marks correct. */
  function CorrectOptionSet(correctOptions: seq<int>): set<int>
  {
    set i | i in correctOptions
  }

  /** add_multiple_question; form is None for a GET or an invalid form. */
  method AddMultipleQuestion(store: QuizStore, quizId: int, form: Option<MultipleChoiceForm>) returns (resp: Response)
    requires store.Valid()
    modifies store
    ensures store.Valid()
    ensures quizId !in old(store.quizzes) ==> resp == Http404 && unchanged(store)
    ensures quizId in old(store.quizzes) && form.None? ==> resp == RenderForm && unchanged(store)
    ensures quizId in old(store.quizzes) && form.Some? ==>
            var f := form.value;
            var quiz := old(store.quizzes[quizId]);
            var q := NewQuestion(old(store.nextQuestionId), f.html, f.maximumMarks, true,
                                 f.options, CorrectOptionSet(f.correctOptions), old(store.nextChoiceId));
            && resp == RedirectSettings(quizId)
            && store.quizzes == old(store.quizzes)[quizId := quiz.(quizQuestions :=
                 quiz.quizQuestions + [QuizQuestion(q, NextOrder(Orders(quiz.quizQuestions)))])]
            && store.nextQuestionId == old(store.nextQuestionId) + 1
            && store.nextChoiceId == old(store.nextChoiceId) + |q.choices|
  {
    if quizId !in store.quizzes {
      return Http404;
    }
    if form.None? {
      return RenderForm;
    }
    var f := form.value;
    AddQuestion(store, quizId, f.html, f.maximumMarks, true, f.options, CorrectOptionSet(f.correctOptions));
    resp := RedirectSettings(quizId);
  }
}
