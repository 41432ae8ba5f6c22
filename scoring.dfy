/**
 * The scoring pass of `take_quiz` (core/views.py): one point per question whose
 * submitted option id names an option whose `is_correct` flag is set, then the
 * percentage `score / total * 100`, defined as 0 for a quiz without questions.
 */
module Scoring {

  type QuestionId = nat
  type OptionId = nat

  /**
   * What the form field `question_<id>` carried when it was present: the empty
   * string (falsy, so skipped) or an option id already parsed from the string.
   */
  datatype Selection = Blank | Chosen(option: OptionId)

  /** The POST data: question id to its selection; a missing key is `POST.get` returning None. */
  type Submission = map<QuestionId, Selection>

  /** The global option table `take_quiz` queries with `Option.objects.get(id=...)`: id to `is_correct`. */
  type OptionTable = map<OptionId, bool>

  /** The points question `q` earns, following the branches of the loop body of `take_quiz`. */
  function Point(q: QuestionId, sub: Submission, options: OptionTable): (p: nat)
    ensures p <= 1
    ensures q !in sub || sub[q] == Blank ==> p == 0
  {
    if q !in sub then 0
    else match sub[q]
      case Blank => 0
      case Chosen(o) =>
        if o !in options then 0    // Option.DoesNotExist is caught and ignored
        else if options[o] then 1
        else 0
  }

  /**
   * Reference reading of "earns a point": a non-empty selection naming a known
   * option whose flag is set. Which question owns the option plays no part.
   */
  ghost predicate Earns(q: QuestionId, sub: Submission, options: OptionTable)
  {
    q in sub && sub[q].Chosen? && sub[q].option in options && options[sub[q].option]
  }

  /** The number of points over the questions `qs`, in the order they are visited. */
  function CorrectCount(qs: seq<QuestionId>, sub: Submission, options: OptionTable): (n: nat)
    ensures n <= |qs|
  {
    if qs == [] then 0
    else CorrectCount(qs[..|qs| - 1], sub, options) + Point(qs[|qs| - 1], sub, options)
  }

  /** `score / total * 100` when `total > 0`, otherwise 0 (exact arithmetic instead of floats). */
  function Percentage(score: nat, total: nat): (p: real)
    ensures total > 0 ==> p * (total as real) == (score as real) * 100.0
    ensures total == 0 ==> p == 0.0
  {
    if total > 0 then (score as real / total as real) * 100.0 else 0.0
  }

  /** The percentage a submission earns on a quiz whose questions are `qs`. */
  function QuizPercentage(qs: seq<QuestionId>, sub: Submission, options: OptionTable): (r: real)
    ensures qs == [] ==> r == 0.0
    ensures qs != [] ==> r * (|qs| as real) == (CorrectCount(qs, sub, options) as real) * 100.0
  {
    Percentage(CorrectCount(qs, sub, options), |qs|)
  }

  /** The scoring loop itself: returns `score` and `total_questions`. */
  method ScoreSubmission(qs: seq<QuestionId>, sub: Submission, options: OptionTable)
    returns (score: nat, total: nat)
    ensures score == CorrectCount(qs, sub, options)
    ensures total == |qs|
    ensures score <= total
  {
    score := 0;
    total := |qs|;
    for i := 0 to |qs|
      invariant score == CorrectCount(qs[..i], sub, options)
    {
      assert qs[..i + 1][..i] == qs[..i];
      var q := qs[i];
      if q in sub {
        var selected := sub[q];
        if selected.Chosen? {
          if selected.option in options {
            if options[selected.option] {
              score := score + 1;
            }
          }
        }
      }
    }
    assert qs[..|qs|] == qs;
  }

  // ---------------------------------------------------------------------------
  // Properties of one question's point

  /** A question earns a point exactly when `Earns` holds, and never more than one. */
  lemma PointIsEarns(q: QuestionId, sub: Submission, options: OptionTable)
    ensures Point(q, sub, options) <= 1
    ensures Point(q, sub, options) == 1 <==> Earns(q, sub, options)
  {
  }

  /** An absent, blank or unknown selection, or one naming an incorrect option, scores nothing. */
  lemma UnusableSelectionScoresNothing(q: QuestionId, sub: Submission, options: OptionTable)
    requires q !in sub || sub[q] == Blank || sub[q].option !in options || !options[sub[q].option]
    ensures Point(q, sub, options) == 0
  {
  }

  /**
   * The option is looked up by id only: a correct option of any question,
   * including one that `owner` assigns to another question, earns the point.
   */
  lemma ForeignCorrectOptionScores(q: QuestionId, sub: Submission, options: OptionTable,
                                   owner: map<OptionId, QuestionId>)
    requires q in sub && sub[q].Chosen?
    requires sub[q].option in owner && owner[sub[q].option] != q
    requires sub[q].option in options && options[sub[q].option]
    ensures Point(q, sub, options) == 1
  {
  }

  // ---------------------------------------------------------------------------
  // Properties of the count

  /** The count is the number of positions of `qs` whose question earns a point. */
  lemma {:induction false} CountIsEarningPositions(qs: seq<QuestionId>, sub: Submission, options: OptionTable)
    ensures CorrectCount(qs, sub, options) == |set i | 0 <= i < |qs| && Earns(qs[i], sub, options)|
  {
    if qs != [] {
      var n := |qs| - 1;
      var init := qs[..n];
      CountIsEarningPositions(init, sub, options);
      var before := set i | 0 <= i < |init| && Earns(init[i], sub, options);
      var after := set i | 0 <= i < |qs| && Earns(qs[i], sub, options);
      PointIsEarns(qs[n], sub, options);
      if Earns(qs[n], sub, options) {
        assert after == before + {n};
        assert n !in before;
      } else {
        assert after == before;
      }
    }
  }

  /** Counting splits over concatenation. */
  lemma {:induction false} CountAppend(a: seq<QuestionId>, b: seq<QuestionId>, sub: Submission, options: OptionTable)
    ensures CorrectCount(a + b, sub, options) == CorrectCount(a, sub, options) + CorrectCount(b, sub, options)
  {
    if b == [] {
      assert a + b == a;
    } else {
      var n := |b| - 1;
      CountAppend(a, b[..n], sub, options);
      assert (a + b)[..|a + b| - 1] == a + b[..n];
      assert (a + b)[|a + b| - 1] == b[n];
    }
  }

  /** The count of a single question is its point. */
  lemma CountSingle(q: QuestionId, sub: Submission, options: OptionTable)
    ensures CorrectCount([q], sub, options) == Point(q, sub, options)
  {
    assert [q][..0] == [];
  }

  /**
   * The order in which the quiz yields its questions (the database promises
   * none) does not change the count: any rearrangement scores the same.
   */
  lemma {:induction false} CountIgnoresOrder(a: seq<QuestionId>, b: seq<QuestionId>, sub: Submission,
                                           options: OptionTable)
    requires multiset(a) == multiset(b)
    ensures CorrectCount(a, sub, options) == CorrectCount(b, sub, options)
    decreases |a|
  {
    if a == [] {
      assert |b| == |multiset(b)| == 0;
    } else {
      var n := |a| - 1;
      var x := a[n];
      assert a == a[..n] + [x];
      assert x in multiset(b);
      var k :| 0 <= k < |b| && b[k] == x;
      var rest := b[..k] + b[k + 1..];
      assert b == b[..k] + [x] + b[k + 1..];
      assert multiset(a[..n]) == multiset(rest) by {
        assert multiset(a) == multiset(a[..n]) + multiset([x]);
        assert multiset(b) == multiset(b[..k] + [x]) + multiset(b[k + 1..]);
        assert multiset(b[..k] + [x]) == multiset(b[..k]) + multiset([x]);
        assert multiset(rest) == multiset(b[..k]) + multiset(b[k + 1..]);
        assert multiset(a[..n]) + multiset([x]) == multiset(rest) + multiset([x]);
        assert multiset(a[..n]) == multiset(a[..n]) + multiset([x]) - multiset([x]);
        assert multiset(rest) == multiset(rest) + multiset([x]) - multiset([x]);
      }
      CountIgnoresOrder(a[..n], rest, sub, options);
      CountAppend(a[..n], [x], sub, options);
      CountAppend(b[..k] + [x], b[k + 1..], sub, options);
      CountAppend(b[..k], [x], sub, options);
      CountAppend(b[..k], b[k + 1..], sub, options);
      CountSingle(x, sub, options);
    }
  }

  /** Two submissions that agree on the quiz's own questions. */
  ghost predicate AgreeOn(qs: seq<QuestionId>, sub1: Submission, sub2: Submission)
  {
    forall i :: 0 <= i < |qs| ==>
      (qs[i] in sub1 <==> qs[i] in sub2) && (qs[i] in sub1 ==> sub1[qs[i]] == sub2[qs[i]])
  }

  /** Only the entries for the quiz's questions are read. */
  lemma {:induction false} CountReadsOnlyQuizQuestions(qs: seq<QuestionId>, sub1: Submission, sub2: Submission,
                                                     options: OptionTable)
    requires AgreeOn(qs, sub1, sub2)
    ensures CorrectCount(qs, sub1, options) == CorrectCount(qs, sub2, options)
  {
    if qs != [] {
      var n := |qs| - 1;
      assert AgreeOn(qs[..n], sub1, sub2) by {
        forall i | 0 <= i < n ensures qs[..n][i] == qs[i] { }
      }
      CountReadsOnlyQuizQuestions(qs[..n], sub1, sub2, options);
      assert qs[n] in sub1 <==> qs[n] in sub2;
    }
  }

  /** Extra fields for ids that are not questions of the quiz leave the count unchanged. */
  lemma ExtraEntriesIgnored(qs: seq<QuestionId>, sub: Submission, extra: Submission, options: OptionTable)
    requires forall i :: 0 <= i < |qs| ==> qs[i] !in extra
    ensures CorrectCount(qs, sub + extra, options) == CorrectCount(qs, sub, options)
  {
    CountReadsOnlyQuizQuestions(qs, sub + extra, sub, options);
  }

  /** Every question earning its point gives the full count. */
  lemma {:induction false} AllEarnedCountsAll(qs: seq<QuestionId>, sub: Submission, options: OptionTable)
    requires forall i :: 0 <= i < |qs| ==> Earns(qs[i], sub, options)
    ensures CorrectCount(qs, sub, options) == |qs|
  {
    if qs != [] {
      var n := |qs| - 1;
      assert forall i :: 0 <= i < n ==> qs[..n][i] == qs[i];
      AllEarnedCountsAll(qs[..n], sub, options);
      PointIsEarns(qs[n], sub, options);
    }
  }

  /** No question earning its point gives a count of zero. */
  lemma {:induction false} NoneEarnedCountsZero(qs: seq<QuestionId>, sub: Submission, options: OptionTable)
    requires forall i :: 0 <= i < |qs| ==> !Earns(qs[i], sub, options)
    ensures CorrectCount(qs, sub, options) == 0
  {
    if qs != [] {
      var n := |qs| - 1;
      assert forall i :: 0 <= i < n ==> qs[..n][i] == qs[i];
      NoneEarnedCountsZero(qs[..n], sub, options);
      PointIsEarns(qs[n], sub, options);
    }
  }

  // ---------------------------------------------------------------------------
  // Properties of the percentage

  /** A score no larger than the total gives a percentage between 0 and 100. */
  lemma PercentageBounds(score: nat, total: nat)
    requires score <= total
    ensures 0.0 <= Percentage(score, total) <= 100.0
  {
    if total > 0 {
      var p := Percentage(score, total);
      assert p * (total as real) <= 100.0 * (total as real);
    }
  }

  /** A higher score on the same quiz never gives a lower percentage. */
  lemma PercentageMonotone(s1: nat, s2: nat, total: nat)
    requires s1 <= s2
    ensures Percentage(s1, total) <= Percentage(s2, total)
  {
    if total > 0 {
      var p1, p2 := Percentage(s1, total), Percentage(s2, total);
      assert p1 * (total as real) <= p2 * (total as real);
    }
  }

  /** Every submission of every quiz scores between 0 and 100. */
  lemma QuizPercentageBounds(qs: seq<QuestionId>, sub: Submission, options: OptionTable)
    ensures 0.0 <= QuizPercentage(qs, sub, options) <= 100.0
  {
    PercentageBounds(CorrectCount(qs, sub, options), |qs|);
  }

  /** All questions answered correctly gives exactly 100 (and an empty quiz 0). */
  lemma AllCorrectIsHundred(qs: seq<QuestionId>, sub: Submission, options: OptionTable)
    requires forall i :: 0 <= i < |qs| ==> Earns(qs[i], sub, options)
    ensures QuizPercentage(qs, sub, options) == if qs == [] then 0.0 else 100.0
  {
    AllEarnedCountsAll(qs, sub, options);
  }

  // ---------------------------------------------------------------------------
  // Worked scenarios

  /** Four questions, three answered correctly, the fourth skipped: 75. */
  lemma ThreeOfFourIsSeventyFive()
    ensures QuizPercentage([1, 2, 3, 4], map[1 := Chosen(11), 2 := Chosen(21), 3 := Chosen(31)],
                           map[10 := false, 11 := true, 21 := true, 31 := true, 41 := true]) == 75.0
  {
    var qs: seq<QuestionId> := [1, 2, 3, 4];
    var sub := map[1 := Chosen(11), 2 := Chosen(21), 3 := Chosen(31)];
    var options := map[10 := false, 11 := true, 21 := true, 31 := true, 41 := true];
    assert qs[..3] == [1, 2, 3] && qs[..3][..2] == [1, 2] && qs[..3][..2][..1] == [1];
    assert CorrectCount([1], sub, options) == 1;
    assert CorrectCount([1, 2], sub, options) == 2;
    assert CorrectCount([1, 2, 3], sub, options) == 3;
    assert CorrectCount(qs, sub, options) == 3;
  }

  /** Two questions, both naming option ids the table does not hold: 0. */
  lemma UnknownOptionsScoreZero()
    ensures QuizPercentage([1, 2], map[1 := Chosen(99), 2 := Chosen(98)], map[10 := true, 20 := true]) == 0.0
  {
  }

  /** Question 1 answered with question 2's correct option (21) still scores. */
  lemma CrossQuestionAnswerScores()
    ensures QuizPercentage([1, 2], map[1 := Chosen(21), 2 := Blank],
                           map[11 := true, 12 := false, 21 := true, 22 := false]) == 50.0
  {
  }
}
