/**
 * The grading arithmetic of QuizProfile.evaluate_attempt (lets_quiz/quiz/models.py),
 * extracted as a pure function of the question's mode, its correct choice ids, the
 * chosen choice ids and the question's maximum marks.
 *
 * Marks are integers counting hundredths of a mark: the source stores them in
 * DecimalFields with two decimal places, so 4.00 marks is 400 here.
 */
module Grading {

  /** The two graded fields of an AttemptedQuestion. */
  datatype Grade = Grade(isCorrect: bool, marks: nat)

  /**
   * maxMarks * part / whole rounded to the nearest integer (hundredth of a mark),
   * halves rounded up.
   */
  function RoundedShare(maxMarks: nat, part: nat, whole: nat): (r: nat)
    requires 0 < whole
    ensures -(whole as int) < 2 * (r * whole - maxMarks * part) <= whole
    ensures part <= whole ==> r <= maxMarks
  {
    RoundedShareFacts(maxMarks, part, whole);
    (2 * maxMarks * part + whole) / (2 * whole)
  }

  lemma RoundedShareFacts(maxMarks: nat, part: nat, whole: nat)
    requires 0 < whole
    ensures var q := (2 * maxMarks * part + whole) / (2 * whole);
      && -(whole as int) < 2 * (q * whole - maxMarks * part) <= whole
      && (part <= whole ==> q <= maxMarks)
  {
    var n := 2 * maxMarks * part + whole;
    var q := n / (2 * whole);
    assert n == 2 * whole * q + n % (2 * whole);
    assert 2 * (q * whole - maxMarks * part) == whole - n % (2 * whole);
    MulMono(maxMarks, part, whole);
    MulMono(whole, maxMarks + 1, q);
    if part <= whole && q > maxMarks {
      assert false;
    }
  }

  /** Between multiples of a non-negative w, a larger factor is at least w larger. */
  lemma MulStep(w: int, x: int, y: int)
    ensures 0 <= w && x < y ==> x * w + w <= y * w
  {
    MulMono(w, x + 1, y);
  }

  /** Multiplying by a non-negative factor keeps an order. */
  lemma MulMono(k: int, a: int, b: int)
    ensures 0 <= k && a <= b ==> k * a <= k * b && a * k <= b * k
  {
    if 0 <= k && a <= b {
      var d := b - a;
      assert k * b == k * a + k * d;
    }
  }

  /**
   * Single mode: full marks for exactly one correct choice, else 0. Multiple mode:
   * full marks for exactly the correct set, else the correct share of the
   * maximum rounded to the nearest hundredth (0 when no choice is correct).
   */
  function Evaluate(isMultipleChoice: bool, correctIds: set<int>, chosenIds: set<int>, maximumMarks: nat): (g: Grade)
    ensures g.marks <= maximumMarks
    ensures g.isCorrect ==> g.marks == maximumMarks
    ensures !isMultipleChoice ==> (g.isCorrect <==> exists c :: c in correctIds && chosenIds == {c})
    ensures !isMultipleChoice && !g.isCorrect ==> g.marks == 0
    ensures isMultipleChoice ==> (g.isCorrect <==> chosenIds == correctIds)
    ensures isMultipleChoice && !g.isCorrect && correctIds != {} ==>
      -(|correctIds| as int) < 2 * (g.marks * |correctIds| - maximumMarks * |chosenIds * correctIds|) <= |correctIds|
    ensures isMultipleChoice && !g.isCorrect && correctIds == {} ==> g.marks == 0
  {
    if !isMultipleChoice then
      // |chosen| == 1 with its one element correct is the same as a one-element subset
      SingleModeCondition(correctIds, chosenIds);
      if |chosenIds| == 1 && chosenIds <= correctIds then Grade(true, maximumMarks)
      else Grade(false, 0)
    else
      var correctSelected := |chosenIds * correctIds|;
      var incorrectSelected := |chosenIds - correctIds|;
      var totalCorrect := |correctIds|;
      ExactMatchCondition(correctIds, chosenIds);
      if correctSelected == totalCorrect && incorrectSelected == 0 then
        Grade(true, maximumMarks)
      else
        assert correctSelected <= totalCorrect by { SubsetCard(chosenIds * correctIds, correctIds); }
        Grade(false, if totalCorrect > 0 then RoundedShare(maximumMarks, correctSelected, totalCorrect) else 0)
  }

  lemma SubsetCard<T>(a: set<T>, b: set<T>)
    requires a <= b
    ensures |a| <= |b|
    ensures |a| == |b| ==> a == b
  {
    assert b == a + (b - a);
    assert |b| == |a| + |b - a|;
    if |a| == |b| {
      assert |b - a| == 0;
      assert b - a == {};
    }
  }

  lemma ElementOf<T>(s: set<T>) returns (x: T)
    requires s != {}
    ensures x in s
  {
    x :| x in s;
  }

  lemma SingleModeCondition(correctIds: set<int>, chosenIds: set<int>)
    ensures (|chosenIds| == 1 && chosenIds <= correctIds) <==> exists c :: c in correctIds && chosenIds == {c}
  {
    if |chosenIds| == 1 {
      var x := ElementOf(chosenIds);
      SubsetCard({x}, chosenIds);
      assert chosenIds == {x};
    }
  }

  lemma ExactMatchCondition(correctIds: set<int>, chosenIds: set<int>)
    ensures (|chosenIds * correctIds| == |correctIds| && |chosenIds - correctIds| == 0) <==> chosenIds == correctIds
  {
    if |chosenIds * correctIds| == |correctIds| && |chosenIds - correctIds| == 0 {
      SubsetCard(chosenIds * correctIds, correctIds);
      assert chosenIds - correctIds == {};
      assert chosenIds == (chosenIds * correctIds) + (chosenIds - correctIds);
    }
    if chosenIds == correctIds {
      assert chosenIds * correctIds == correctIds;
      assert chosenIds - correctIds == {};
    }
  }

  /** A share of the whole is the whole maximum. */
  lemma RoundedShareWhole(maxMarks: nat, whole: nat)
    requires 0 < whole
    ensures RoundedShare(maxMarks, whole, whole) == maxMarks
  {
    var r := RoundedShare(maxMarks, whole, whole);
    MulMono(whole, r + 1, maxMarks);
    if r < maxMarks {
      assert false;
    }
  }

  /** Rounding the share keeps its order: more correct picks never earn less. */
  lemma RoundedShareMonotone(maxMarks: nat, part1: nat, part2: nat, whole: nat)
    requires 0 < whole && part1 <= part2
    ensures RoundedShare(maxMarks, part1, whole) <= RoundedShare(maxMarks, part2, whole)
  {
    var r1 := RoundedShare(maxMarks, part1, whole);
    var r2 := RoundedShare(maxMarks, part2, whole);
    MulMono(maxMarks, part1, part2);
    MulStep(whole, r2, r1);
    if r1 > r2 {
      assert false;
    }
  }

  /**
   * In multiple-choice mode the marks depend only on the correct choices picked:
   * wrong extra picks can cost the correctness flag but never any marks, as long as
   * the question has a correct choice (see NoCorrectChoices for the other case).
   */
  lemma PartialCreditIgnoresExtras(correctIds: set<int>, chosenIds: set<int>, maximumMarks: nat)
    requires correctIds != {}
    ensures Evaluate(true, correctIds, chosenIds, maximumMarks).marks
         == Evaluate(true, correctIds, chosenIds * correctIds, maximumMarks).marks
  {
    var picked := chosenIds * correctIds;
    assert picked * correctIds == picked;
    assert picked - correctIds == {};
    if chosenIds != correctIds && picked == correctIds {
      RoundedShareWhole(maximumMarks, |correctIds|);
    }
  }

  /** Multiple-choice marks grow with the set of correct choices picked. */
  lemma PartialCreditMonotone(correctIds: set<int>, chosen1: set<int>, chosen2: set<int>, maximumMarks: nat)
    requires correctIds != {}
    requires chosen1 * correctIds <= chosen2 * correctIds
    ensures Evaluate(true, correctIds, chosen1, maximumMarks).marks
         <= Evaluate(true, correctIds, chosen2, maximumMarks).marks
  {
    PartialCreditIgnoresExtras(correctIds, chosen1, maximumMarks);
    PartialCreditIgnoresExtras(correctIds, chosen2, maximumMarks);
    var picked1, picked2 := chosen1 * correctIds, chosen2 * correctIds;
    assert picked1 * correctIds == picked1 && picked1 - correctIds == {};
    assert picked2 * correctIds == picked2 && picked2 - correctIds == {};
    if picked2 != correctIds {
      SubsetCard(picked1, picked2);
      SubsetCard(picked2, correctIds);
      assert picked1 != correctIds;
      RoundedShareMonotone(maximumMarks, |picked1|, |picked2|, |correctIds|);
    }
  }

  /**
   * With no correct choices at all the ratio is 0: only an empty submission
   * matches the (empty) correct set, and any pick at all loses every mark.
   */
  lemma NoCorrectChoices(chosenIds: set<int>, maximumMarks: nat)
    ensures Evaluate(true, {}, chosenIds, maximumMarks)
         == if chosenIds == {} then Grade(true, maximumMarks) else Grade(false, 0)
  {
  }

  /** Correct choices {1, 2} worth 4.00 marks, graded against four submissions. */
  lemma TwoCorrectChoicesExample()
    ensures Evaluate(true, {1, 2}, {1, 2}, 400) == Grade(true, 400)
    ensures Evaluate(true, {1, 2}, {1}, 400) == Grade(false, 200)
    ensures Evaluate(true, {1, 2}, {1, 3}, 400) == Grade(false, 200)
    ensures Evaluate(true, {1, 2}, {}, 400) == Grade(false, 0)
  {
    assert {1} * {1, 2} == {1} && {1} - {1, 2} == {};
    assert {1, 3} * {1, 2} == {1} && {1, 3} - {1, 2} == {3};
  }
}
