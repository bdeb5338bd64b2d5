/**
 * ChoiceInlineFormset.clean (lets_quiz/quiz/forms.py): the authoring-time check
 * that a single-choice question has exactly one correct choice and a
 * multiple-choice question at least one.
 */
module Forms {
  import opened Wrappers
  import opened Models
  import Views

  /** One form of the inline formset: whether it validated, its DELETE flag and its is_correct. */
  datatype ChoiceRow = ChoiceRow(isValid: bool, deleted: bool, isCorrect: bool)

  /** The two ValidationErrors clean raises. */
  datatype FormsetError = NeedExactlyOneCorrect | NeedAtLeastOneCorrect

  /** A row the loop looks at: valid and not deleted. */
  predicate Counted(row: ChoiceRow)
  {
    row.isValid && !row.deleted
  }

  /** The number of counted rows marked correct. */
  function CountedCorrect(rows: seq<ChoiceRow>): nat
  {
    if rows == [] then 0
    else CountedCorrect(rows[..|rows| - 1]) + (if Counted(rows[|rows| - 1]) && rows[|rows| - 1].isCorrect then 1 else 0)
  }

  lemma {:induction false} CountedCorrectConcat(a: seq<ChoiceRow>, b: seq<ChoiceRow>)
    ensures CountedCorrect(a + b) == CountedCorrect(a) + CountedCorrect(b)
  {
    if b != [] {
      assert (a + b)[..|a + b| - 1] == a + b[..|b| - 1];
      CountedCorrectConcat(a, b[..|b| - 1]);
    } else {
      assert a + b == a;
    }
  }

  /** A row that is invalid or deleted does not count, wherever it stands. */
  lemma SkippedRowIgnored(before: seq<ChoiceRow>, row: ChoiceRow, after: seq<ChoiceRow>)
    requires !Counted(row)
    ensures CountedCorrect(before + [row] + after) == CountedCorrect(before + after)
  {
    CountedCorrectConcat(before + [row], after);
    CountedCorrectConcat(before, [row]);
    CountedCorrectConcat(before, after);
    assert [row][..0] == [];
  }

  /**
   * clean: None when it raises nothing. instance is None for a formset without an
   * `instance` attribute, the early return of the hasattr check. An inline
   * formset always has one (an unsaved Question when adding), so a new question
   * is Some(q) and is validated like any other.
   */
  method Clean(rows: seq<ChoiceRow>, instance: Option<Question>) returns (r: Option<FormsetError>)
    ensures instance.None? ==> r.None?
    ensures instance.Some? && !instance.value.isMultipleChoice ==>
              r == if CountedCorrect(rows) == 1 then None else Some(NeedExactlyOneCorrect)
    ensures instance.Some? && instance.value.isMultipleChoice ==>
              r == if CountedCorrect(rows) >= 1 then None else Some(NeedAtLeastOneCorrect)
  {
    if instance.None? {
      return None;
    }
    var question := instance.value;
    var correctChoicesCount := 0;
    for k := 0 to |rows|
      invariant correctChoicesCount == CountedCorrect(rows[..k])
    {
      assert rows[..k + 1][..k] == rows[..k];
      var row := rows[k];
      if !row.isValid || row.deleted {
        continue;
      }
      if row.isCorrect {
        correctChoicesCount := correctChoicesCount + 1;
      }
    }
    assert rows[..|rows|] == rows;
    if !question.isMultipleChoice {
      if correctChoicesCount != 1 {
        return Some(NeedExactlyOneCorrect);
      }
    } else {
      if correctChoicesCount < 1 {
        return Some(NeedAtLeastOneCorrect);
      }
    }
    return None;
  }

  /** The formset rows of a question's saved choices, as an edit form shows them. */
  function RowsOf(choices: seq<Choice>): (rows: seq<ChoiceRow>)
    ensures |rows| == |choices|
  {
    seq(|choices|, i requires 0 <= i < |choices| => ChoiceRow(true, false, choices[i].isCorrect))
  }

  lemma {:induction false} RowsOfCount(choices: seq<Choice>)
    ensures CountedCorrect(RowsOf(choices)) == Views.CountCorrect(choices)
  {
    if choices != [] {
      var init := choices[..|choices| - 1];
      assert RowsOf(choices)[..|choices| - 1] == RowsOf(init);
      RowsOfCount(init);
    }
  }

  /**
   * A single-choice question created by add_single_question passes this check
   * exactly when the option marked correct has a text; a multiple-choice one
   * exactly when some option marked correct has a text.
   */
  lemma CreatedQuestionsPassClean(options: seq<string>, correctOption: int, correct: set<int>, firstId: int)
    ensures CountedCorrect(RowsOf(Views.PlannedChoices(options, {correctOption}, firstId))) == 1
        <==> 1 <= correctOption <= |options| && Views.Filled(options[correctOption - 1])
    ensures CountedCorrect(RowsOf(Views.PlannedChoices(options, correct, firstId))) >= 1
        <==> exists n :: n in correct && 1 <= n <= |options| && Views.Filled(options[n - 1])
  {
    RowsOfCount(Views.PlannedChoices(options, {correctOption}, firstId));
    Views.SingleQuestionCorrectCount(options, correctOption, firstId);
    RowsOfCount(Views.PlannedChoices(options, correct, firstId));
    Views.MultipleQuestionHasCorrect(options, correct, firstId);
  }
}
