/**
 * The records of lets_quiz/quiz/models.py (Question, Choice, AttemptedQuestion) and
 * the QuizProfile that owns a user's attempts and running total score.
 * Marks count hundredths of a mark (see module Grading).
 */
module Models {
  import opened Wrappers
  import opened Grading

  datatype Choice = Choice(id: int, isCorrect: bool, html: string)

  datatype Question = Question(
    id: int,
    html: string,
    maximumMarks: nat,
    isMultipleChoice: bool,
    choices: seq<Choice>)

  /**
   * One user's encounter with one question. It is created ungraded
   * (no selection, not correct, 0 marks) and overwritten on each submission.
   */
  datatype AttemptedQuestion = AttemptedQuestion(
    question: Question,
    selectedChoices: set<int>,
    isCorrect: bool,
    marksObtained: nat)

  /** The ids of a question's choices. */
  function ChoiceIds(q: Question): set<int>
  {
    set c | c in q.choices :: c.id
  }

  /** The ids of a question's choices flagged correct. */
  function CorrectIds(q: Question): (ids: set<int>)
    ensures ids <= ChoiceIds(q)
    ensures forall c :: c in q.choices && c.isCorrect ==> c.id in ids
    ensures forall id :: id in ids ==> exists c :: c in q.choices && c.isCorrect && c.id == id
  {
    set c | c in q.choices && c.isCorrect :: c.id
  }

  /** The ungraded attempt that create_attempt saves. */
  function NewAttempt(q: Question): AttemptedQuestion
  {
    AttemptedQuestion(q, {}, false, 0)
  }

  /** An attempt with the graded fields of one submission of chosenIds. */
  function Graded(a: AttemptedQuestion, chosenIds: set<int>): (g: AttemptedQuestion)
    ensures g.question == a.question && g.selectedChoices == chosenIds
    ensures g.marksObtained <= a.question.maximumMarks
    ensures g.isCorrect ==> g.marksObtained == a.question.maximumMarks
  {
    var grade := Evaluate(a.question.isMultipleChoice, CorrectIds(a.question), chosenIds, a.question.maximumMarks);
    a.(selectedChoices := chosenIds, isCorrect := grade.isCorrect, marksObtained := grade.marks)
  }

  /** Sum of marks_obtained over attempts; 0 when there are none. */
  function SumMarks(attempts: seq<AttemptedQuestion>): (r: nat)
    ensures forall i :: 0 <= i < |attempts| ==> attempts[i].marksObtained <= r
  {
    if attempts == [] then 0
    else
      assert forall i :: 1 <= i < |attempts| ==> attempts[i] == attempts[1..][i - 1];
      attempts[0].marksObtained + SumMarks(attempts[1..])
  }

  /** Sum of maximum marks of the attempted questions. */
  function SumMaximum(attempts: seq<AttemptedQuestion>): nat
  {
    if attempts == [] then 0 else attempts[0].question.maximumMarks + SumMaximum(attempts[1..])
  }

  /** The ids of the questions the attempts are for. */
  function AttemptedIds(attempts: seq<AttemptedQuestion>): set<int>
  {
    set a | a in attempts :: a.question.id
  }

  /** Every attempt's marks lie within its question's maximum. */
  ghost predicate MarksWithinBounds(attempts: seq<AttemptedQuestion>)
  {
    forall i :: 0 <= i < |attempts| ==> attempts[i].marksObtained <= attempts[i].question.maximumMarks
  }

  lemma {:induction false} SumMarksAppend(attempts: seq<AttemptedQuestion>, a: AttemptedQuestion)
    ensures SumMarks(attempts + [a]) == SumMarks(attempts) + a.marksObtained
  {
    if attempts != [] {
      assert (attempts + [a])[1..] == attempts[1..] + [a];
      SumMarksAppend(attempts[1..], a);
    }
  }

  /** Overwriting one attempt replaces its marks in the sum and nothing else. */
  lemma {:induction false} SumMarksUpdate(attempts: seq<AttemptedQuestion>, i: nat, a: AttemptedQuestion)
    requires i < |attempts|
    ensures SumMarks(attempts[i := a]) == SumMarks(attempts) - attempts[i].marksObtained + a.marksObtained
  {
    if i > 0 {
      assert attempts[i := a][1..] == attempts[1..][i - 1 := a];
      SumMarksUpdate(attempts[1..], i - 1, a);
    } else {
      assert attempts[i := a][1..] == attempts[1..];
    }
  }

  /** The total lies between 0 and the sum of the attempted questions' maxima. */
  lemma {:induction false} SumMarksBounds(attempts: seq<AttemptedQuestion>)
    requires MarksWithinBounds(attempts)
    ensures SumMarks(attempts) <= SumMaximum(attempts)
  {
    if attempts != [] {
      assert MarksWithinBounds(attempts[1..]) by {
        forall i | 0 <= i < |attempts[1..]|
          ensures attempts[1..][i].marksObtained <= attempts[1..][i].question.maximumMarks
        {
          assert attempts[1..][i] == attempts[i + 1];
        }
      }
      SumMarksBounds(attempts[1..]);
    }
  }

  /**
   * Submitting twice for the same attempt counts only the last submission:
   * the total is the old total with the attempt's marks replaced.
   */
  lemma ResubmissionCountsOnce(attempts: seq<AttemptedQuestion>, i: nat, first: set<int>, second: set<int>)
    requires i < |attempts|
    ensures var once := attempts[i := Graded(attempts[i], first)];
            var twice := once[i := Graded(once[i], second)];
            SumMarks(twice) == SumMarks(attempts) - attempts[i].marksObtained + twice[i].marksObtained
            && twice == attempts[i := Graded(attempts[i], second)]
  {
    var once := attempts[i := Graded(attempts[i], first)];
    SumMarksUpdate(attempts, i, Graded(attempts[i], first));
    SumMarksUpdate(once, i, Graded(once[i], second));
  }

  /** A user's profile: the attempts it owns and the stored total score. */
  class QuizProfile {
    var attempts: seq<AttemptedQuestion>
    var totalScore: int

    /** Marks of every attempt within bounds (kept by every grading step). */
    ghost predicate Valid()
      reads this
    {
      MarksWithinBounds(attempts)
    }

    /** The stored total equals the sum over the attempts. */
    ghost predicate ScoreConsistent()
      reads this
    {
      totalScore == SumMarks(attempts)
    }

    constructor ()
      ensures Valid() && ScoreConsistent()
      ensures attempts == [] && totalScore == 0
    {
      attempts := [];
      totalScore := 0;
    }

    /**
     * get_new_question: some question of the bank not attempted yet, chosen at
     * random in the source (any of them here), or none when all are attempted.
     */
    method GetNewQuestion(questions: seq<Question>) returns (r: Option<Question>)
      ensures r.None? <==> forall q :: q in questions ==> q.id in AttemptedIds(attempts)
      ensures r.Some? ==> r.value in questions && r.value.id !in AttemptedIds(attempts)
    {
      var used := AttemptedIds(attempts);
      var remaining := set q | q in questions && q.id !in used;
      if remaining == {} {
        assert forall q :: q in questions ==> q.id in used by {
          forall q | q in questions ensures q.id in used {
            assert q !in remaining;
          }
        }
        return None;
      }
      var q :| q in remaining;
      return Some(q);
    }

    /** create_attempt: appends one ungraded attempt; it returns nothing. */
    method CreateAttempt(q: Question)
      requires Valid()
      modifies this
      ensures Valid()
      ensures attempts == old(attempts) + [NewAttempt(q)]
      ensures totalScore == old(totalScore)
      ensures SumMarks(attempts) == old(SumMarks(attempts))
      ensures AttemptedIds(attempts) == old(AttemptedIds(attempts)) + {q.id}
    {
      SumMarksAppend(attempts, NewAttempt(q));
      attempts := attempts + [NewAttempt(q)];
    }

    /**
     * evaluate_attempt: grades attempt i against chosenIds, overwrites its graded
     * fields and selection, then recomputes the total.
     */
    method EvaluateAttempt(i: nat, chosenIds: set<int>)
      requires Valid()
      requires i < |attempts|
      modifies this
      ensures Valid() && ScoreConsistent()
      ensures attempts == old(attempts)[i := Graded(old(attempts)[i], chosenIds)]
      ensures totalScore == old(SumMarks(attempts)) - old(attempts)[i].marksObtained + attempts[i].marksObtained
    {
      var attempted := attempts[i];
      var question := attempted.question;
      var correctIds := CorrectIds(question);
      var grade := Evaluate(question.isMultipleChoice, correctIds, chosenIds, question.maximumMarks);
      var graded := attempted.(selectedChoices := chosenIds, isCorrect := grade.isCorrect, marksObtained := grade.marks);
      SumMarksUpdate(attempts, i, graded);
      attempts := attempts[i := graded];
      UpdateScore();
    }

    /** update_score: total_score := sum of marks_obtained over all attempts. */
    method UpdateScore()
      modifies this
      ensures ScoreConsistent()
      ensures attempts == old(attempts)
    {
      totalScore := SumMarks(attempts);
    }
  }
}
