/**
 * `quiz_result` (core/views.py): the stored result is looked up by id for the
 * signed-in student, and its percentage is mapped to one of three tiers, each
 * with a fixed status, message and display colour.
 */
module Performance {
  import opened Wrappers
  import opened Scoring
  import opened Results

  datatype Status = Success | Warning | Danger

  /** The `performance` dictionary handed to the template. */
  datatype Performance = Performance(status: Status, message: string, colorHex: string)

  /** The fixed message and colour each status carries. */
  function TierOf(status: Status): (p: Performance)
    ensures p.status == status
    ensures status == Success ==> p.message == "Excellent Performance!" && p.colorHex == "#4CAF50"
    ensures status == Warning ==> p.message == "Good Attempt!" && p.colorHex == "#FFC107"
    ensures status == Danger ==> p.message == "Needs Improvement" && p.colorHex == "#F44336"
  {
    match status
    case Success => Performance(Success, "Excellent Performance!", "#4CAF50")
    case Warning => Performance(Warning, "Good Attempt!", "#FFC107")
    case Danger => Performance(Danger, "Needs Improvement", "#F44336")
  }

  /** The `if/elif/else` over the score: 70 and above, 50 and above, otherwise. */
  function Classify(score: real): (p: Performance)
    ensures p == TierOf(p.status)
  {
    if score >= 70.0 then
      Performance(Success, "Excellent Performance!", "#4CAF50")
    else if score >= 50.0 then
      Performance(Warning, "Good Attempt!", "#FFC107")
    else
      Performance(Danger, "Needs Improvement", "#F44336")
  }

  /** How good a status is: Danger below Warning below Success. */
  function Rank(status: Status): nat
  {
    match status
    case Danger => 0
    case Warning => 1
    case Success => 2
  }

  /** Each status has its own colour and message, so either one identifies the tier. */
  lemma TiersAreDistinct(s1: Status, s2: Status)
    requires s1 != s2
    ensures TierOf(s1).colorHex != TierOf(s2).colorHex
    ensures TierOf(s1).message != TierOf(s2).message
  {
  }

  /** Which tier a score falls in, both directions. */
  lemma ClassifyThresholds(score: real)
    ensures Classify(score).status == Success <==> score >= 70.0
    ensures Classify(score).status == Warning <==> 50.0 <= score < 70.0
    ensures Classify(score).status == Danger <==> score < 50.0
  {
  }

  /** A higher score never falls in a worse tier. */
  lemma ClassifyMonotone(s1: real, s2: real)
    requires s1 <= s2
    ensures Rank(Classify(s1).status) <= Rank(Classify(s2).status)
  {
  }

  /** The boundaries: 70 and 50 belong to the upper tier. */
  lemma ClassifyBoundaries()
    ensures Classify(70.0).status == Success && Classify(69.999).status == Warning
    ensures Classify(50.0).status == Warning && Classify(49.999).status == Danger
    ensures Classify(0.0).status == Danger && Classify(100.0).status == Success
  {
  }

  /** An all-correct non-empty quiz is Excellent; an empty quiz Needs Improvement. */
  lemma AllCorrectIsExcellent(qs: seq<QuestionId>, sub: Submission, options: OptionTable)
    requires forall i :: 0 <= i < |qs| ==> Earns(qs[i], sub, options)
    ensures Classify(QuizPercentage(qs, sub, options)).status == if qs == [] then Danger else Success
  {
    AllCorrectIsHundred(qs, sub, options);
  }

  /** The stored result with id `resultId`, if it belongs to `student`. */
  function FindOwnResult(rs: seq<ResultRecord>, resultId: ResultId, student: StudentId): (r: Option<ResultRecord>)
    ensures r.Some? ==> r.value in rs && r.value.id == resultId && r.value.student == student
    ensures r.None? <==> forall i :: 0 <= i < |rs| ==> !(rs[i].id == resultId && rs[i].student == student)
  {
    if rs == [] then None
    else if rs[0].id == resultId && rs[0].student == student then Some(rs[0])
    else FindOwnResult(rs[1..], resultId, student)
  }

  /** What the result page shows. */
  datatype ResultPage = ResultPage(quiz: QuizId, result: ResultRecord, performance: Performance)

  /** `quiz_result(request, result_id)`: None is the 404 for an unknown or foreign result. */
  function QuizResult(rs: seq<ResultRecord>, resultId: ResultId, student: StudentId): (r: Option<ResultPage>)
    ensures r.None? <==> forall i :: 0 <= i < |rs| ==> !(rs[i].id == resultId && rs[i].student == student)
    ensures r.Some? ==>
      && r.value.result in rs && r.value.result.id == resultId && r.value.result.student == student
      && r.value.quiz == r.value.result.quiz
      && r.value.performance == Classify(r.value.result.score)
  {
    match FindOwnResult(rs, resultId, student)
    case None => None
    case Some(rec) => Some(ResultPage(rec.quiz, rec, Classify(rec.score)))
  }

  /** The worked scenarios end in the expected tiers. */
  lemma ScenarioTiers()
    ensures Classify(75.0).status == Success
    ensures Classify(QuizPercentage([], map[], map[])).status == Danger
  {
  }
}
