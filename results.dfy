/**
 * The result table as `take_quiz` (core/views.py) uses it: at most one Result
 * per (student, quiz); an existing one is returned instead of re-scoring, and a
 * POST without one appends exactly one new Result.
 */
module Results {
  import opened Wrappers
  import opened Scoring

  type StudentId = nat
  type QuizId = nat
  type ResultId = nat

  /** A stored Result row; the completion timestamp is not modelled. */
  datatype ResultRecord = ResultRecord(id: ResultId, student: StudentId, quiz: QuizId, score: real)

  /** The quizzes `get_object_or_404` can find, each with its questions in the order `quiz.questions` yields them. */
  type Catalog = map<QuizId, seq<QuestionId>>

  /** What `take_quiz` answers with. */
  datatype Reply =
    | NotFound                            // the quiz id is unknown (404)
    | AlreadyCompleted(resultId: ResultId) // redirect to the stored result, with a warning
    | ShowQuestions(questions: seq<QuestionId>) // a GET renders the quiz
    | Recorded(resultId: ResultId)         // redirect to the result just created

  /** The first stored result of `student` for `quiz`, if any. */
  function FindResult(rs: seq<ResultRecord>, student: StudentId, quiz: QuizId): (r: Option<ResultRecord>)
    ensures r.Some? ==> r.value in rs && r.value.student == student && r.value.quiz == quiz
    ensures r.None? <==> forall i :: 0 <= i < |rs| ==> !(rs[i].student == student && rs[i].quiz == quiz)
  {
    if rs == [] then None
    else if rs[0].student == student && rs[0].quiz == quiz then Some(rs[0])
    else FindResult(rs[1..], student, quiz)
  }

  /** No two stored results share a (student, quiz) pair. */
  ghost predicate UniquePairs(rs: seq<ResultRecord>)
  {
    forall i, j :: 0 <= i < j < |rs| ==> rs[i].student != rs[j].student || rs[i].quiz != rs[j].quiz
  }

  /** Every stored id is below `next`, and no two stored results share an id. */
  ghost predicate IdsFresh(rs: seq<ResultRecord>, next: ResultId)
  {
    && (forall i :: 0 <= i < |rs| ==> rs[i].id < next)
    && (forall i, j :: 0 <= i < j < |rs| ==> rs[i].id != rs[j].id)
  }

  /** With unique pairs, the found result is the only one, as `Result.objects.get` demands. */
  lemma FoundIsTheOnlyMatch(rs: seq<ResultRecord>, student: StudentId, quiz: QuizId, k: nat)
    requires UniquePairs(rs)
    requires k < |rs| && rs[k].student == student && rs[k].quiz == quiz
    ensures FindResult(rs, student, quiz) == Some(rs[k])
  {
    var r := FindResult(rs, student, quiz);
    var j :| 0 <= j < |rs| && rs[j] == r.value;
    assert j == k;
  }

  /** Appending a result for a pair that had none makes it the one found for that pair. */
  lemma {:induction false} FindAfterAppend(rs: seq<ResultRecord>, rec: ResultRecord)
    requires FindResult(rs, rec.student, rec.quiz).None?
    ensures FindResult(rs + [rec], rec.student, rec.quiz) == Some(rec)
  {
    if rs != [] {
      assert (rs + [rec])[1..] == rs[1..] + [rec];
      FindAfterAppend(rs[1..], rec);
    }
  }

  /** Appending a record for a pair that had none keeps the invariants. */
  lemma AppendKeepsInvariants(rs: seq<ResultRecord>, next: ResultId, rec: ResultRecord)
    requires UniquePairs(rs) && IdsFresh(rs, next)
    requires FindResult(rs, rec.student, rec.quiz).None? && rec.id == next
    ensures UniquePairs(rs + [rec]) && IdsFresh(rs + [rec], next + 1)
  {
  }

  class ResultStore {
    /** The Result rows, in creation order. */
    var results: seq<ResultRecord>
    /** The id the database assigns to the next row it creates. */
    var nextId: ResultId

    ghost predicate Valid()
      reads this
    {
      UniquePairs(results) && IdsFresh(results, nextId)
    }

    /** An empty table; auto-increment ids start at 1. */
    constructor ()
      ensures Valid()
      ensures results == [] && nextId == 1
    {
      results := [];
      nextId := 1;
    }

    /** `take_quiz(request, quiz_id)` for the signed-in `student`. */
    method TakeQuiz(student: StudentId, quizId: QuizId, catalog: Catalog, isPost: bool,
                    sub: Submission, options: OptionTable) returns (reply: Reply)
      requires Valid()
      modifies this
      ensures Valid()
      ensures quizId !in catalog ==>
        reply == NotFound && results == old(results) && nextId == old(nextId)
      ensures quizId in catalog && FindResult(old(results), student, quizId).Some? ==>
        && reply == AlreadyCompleted(FindResult(old(results), student, quizId).value.id)
        && results == old(results) && nextId == old(nextId)
      ensures quizId in catalog && FindResult(old(results), student, quizId).None? && !isPost ==>
        reply == ShowQuestions(catalog[quizId]) && results == old(results) && nextId == old(nextId)
      ensures quizId in catalog && FindResult(old(results), student, quizId).None? && isPost ==>
        && reply == Recorded(old(nextId))
        && results == old(results) + [ResultRecord(old(nextId), student, quizId,
                                                   QuizPercentage(catalog[quizId], sub, options))]
        && nextId == old(nextId) + 1
        && FindResult(results, student, quizId) == Some(results[|results| - 1])
    {
      if quizId !in catalog {
        return NotFound;
      }
      var questions := catalog[quizId];
      var existing := FindResult(results, student, quizId);
      if existing.Some? {
        return AlreadyCompleted(existing.value.id);
      }
      if !isPost {
        return ShowQuestions(questions);
      }
      var score, total := ScoreSubmission(questions, sub, options);
      var percentage := Percentage(score, total);
      var rec := ResultRecord(nextId, student, quizId, percentage);
      AppendKeepsInvariants(results, nextId, rec);
      FindAfterAppend(results, rec);
      results := results + [rec];
      nextId := nextId + 1;
      reply := Recorded(rec.id);
    }
  }

  /**
   * Two submissions in a row by one student for one quiz create at most one
   * result, and the second is sent to the same result as the first.
   */
  method SubmitTwice(store: ResultStore, student: StudentId, quizId: QuizId, catalog: Catalog,
                     sub1: Submission, sub2: Submission, options: OptionTable)
    returns (first: Reply, second: Reply)
    requires store.Valid() && quizId in catalog
    modifies store
    ensures store.Valid()
    ensures first.Recorded? || first.AlreadyCompleted?
    ensures second == AlreadyCompleted(first.resultId)
    ensures |store.results| <= |old(store.results)| + 1
    ensures first.AlreadyCompleted? ==> store.results == old(store.results)
    ensures FindResult(old(store.results), student, quizId).Some? ==>
      && first == AlreadyCompleted(FindResult(old(store.results), student, quizId).value.id)
      && store.results == old(store.results) && store.nextId == old(store.nextId)
    ensures FindResult(old(store.results), student, quizId).None? ==> first == Recorded(old(store.nextId))
    ensures FindResult(old(store.results), student, quizId).None? ==>
      && store.results == old(store.results) + [ResultRecord(old(store.nextId), student, quizId,
                                                             QuizPercentage(catalog[quizId], sub1, options))]
      && store.nextId == old(store.nextId) + 1
  {
    first := store.TakeQuiz(student, quizId, catalog, true, sub1, options);
    second := store.TakeQuiz(student, quizId, catalog, true, sub2, options);
  }
}
