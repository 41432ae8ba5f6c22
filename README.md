# PrepCBT quiz scoring, result recording and AI-text cleanup

PrepCBT is a Django application in which teachers author multiple-choice
quizzes and students take them. This project models the logic in it that is
more than framework wiring, in four pieces (the first two both sit in
`take_quiz`):

- **Scoring a submission** (`take_quiz` in `core/views.py`). For each question
  of the quiz the submitted field `question_<id>` is read. A missing or empty
  field scores nothing. Otherwise the option id is looked up in the global
  option table, by id only. A found option whose `is_correct` flag is set adds
  one point. An unknown id is ignored. The percentage is
  `score / total * 100`, or 0 for a quiz without questions. Module `Scoring`
  holds the point rule, its recursive specification `CorrectCount` and the
  loop `ScoreSubmission` proved against it.
- **Recording the result** (also `take_quiz`). Class `Results.ResultStore`
  holds the Result rows as a sequence plus the next auto-increment id. Its
  invariant is one Result per (student, quiz) pair, with distinct ids.
  `TakeQuiz` follows the view's order: an unknown quiz is a 404; then an
  existing Result for the pair is returned unchanged, GET or POST; then a GET
  shows the questions; and only a POST scores and appends exactly one row.
- **Classifying a result** (`quiz_result`). Module `Performance` maps a
  percentage to success / warning / danger at the thresholds 70 and 50, each
  with its fixed message and colour. It also models the result page's lookup
  of the Result by id for the signed-in student.
- **Cleaning the AI reply** (`generate_quiz_content` in `core/ai_utils.py`).
  Module `QuizContent` strips a leading "```json", then a leading "```", then
  a trailing "```", and then the outer whitespace. It also models the error
  pass-through from the text source and the decode-error message.

A selection naming another question's option scores if that option is
correct, because `core/views.py:166` looks the option up by id alone;
`ForeignCorrectOptionScores` and `CrossQuestionAnswerScores` state this. `core/models.py` defines
no `Option` model, while `core/views.py` uses `Option.is_correct`. The model
follows the views and treats options as a table from id to flag.

## Model

| member | source | states |
|---|---|---|
| Scoring.CorrectCount | core/views.py:157-171 | each question adds at most one point, so the score never exceeds the number of questions |
| Scoring.ScoreSubmission | core/views.py:157-171 | the scoring loop returns exactly the specified count and `total_questions` equal to the number of questions |
| Scoring.Point | core/views.py:161-168 | a question earns at most one point, and nothing when its field is absent or empty |
| Scoring.PointIsEarns | core/views.py:161-168 | a question scores one point exactly when its selection is non-empty, names a known option and that option is flagged correct; never more than one |
| Scoring.UnusableSelectionScoresNothing | core/views.py:161-171 | an absent or empty field, an unknown option id, or an incorrect option contributes nothing, and scoring does not fail |
| Scoring.ForeignCorrectOptionScores | core/views.py:166-168 | a correct option that belongs to a different question still earns the point |
| Scoring.CountIsEarningPositions | core/views.py:157-171 | the score equals the number of quiz positions whose question earns a point |
| Scoring.CountAppend | core/views.py:160-171 | the score over two runs of questions is the sum of their scores |
| Scoring.CountIgnoresOrder | core/views.py:160-171 | any rearrangement of the quiz's questions (same multiset) gives the same score |
| Scoring.CountReadsOnlyQuizQuestions | core/views.py:160-161 | two submissions that agree on the quiz's questions give the same score |
| Scoring.ExtraEntriesIgnored | core/views.py:160-161 | fields for ids that are not questions of the quiz are never read |
| Scoring.AllEarnedCountsAll | core/views.py:160-171 | every question answered correctly gives a score equal to the number of questions |
| Scoring.NoneEarnedCountsZero | core/views.py:160-171 | no question answered correctly gives a score of zero |
| Scoring.Percentage | core/views.py:173 | the percentage times the total equals the score times 100 for a non-empty quiz, and it is 0 for an empty quiz |
| Scoring.QuizPercentage | core/views.py:157-173 | the quiz's percentage is 0 for an empty quiz, and otherwise times the number of questions equals the count of points times 100 |
| Scoring.PercentageBounds | core/views.py:173 | a score no larger than the total gives a percentage in [0, 100] |
| Scoring.PercentageMonotone | core/views.py:173 | a higher score never gives a lower percentage |
| Scoring.QuizPercentageBounds | core/views.py:157-173 | every submission on every quiz scores between 0 and 100 |
| Scoring.AllCorrectIsHundred | core/views.py:157-173 | all questions correct gives exactly 100, and an empty quiz gives 0 |
| Scoring.ThreeOfFourIsSeventyFive | core/views.py:157-173 | three of four correct with one skipped scores 75 |
| Scoring.UnknownOptionsScoreZero | core/views.py:163-173 | selections naming ids absent from the option table score 0 |
| Scoring.CrossQuestionAnswerScores | core/views.py:166-173 | answering question 1 with question 2's correct option scores that point |
| Results.FindResult | core/views.py:150-153 | the lookup returns a stored Result of that student for that quiz, and finds none exactly when no such Result is stored |
| Results.FoundIsTheOnlyMatch | core/views.py:153 | with one Result per pair, the lookup returns the one matching Result |
| Results.FindAfterAppend | core/views.py:175-179 | after a Result is created for a pair that had none, the lookup finds it |
| Results.AppendKeepsInvariants | core/views.py:175-179 | creating a Result for a pair with none, under the next id, keeps pairs unique and ids distinct |
| Results.ResultStore.constructor | core/models.py:38-42 | the Result table starts empty, with the first auto-increment id 1 |
| Results.ResultStore.TakeQuiz | core/views.py:146-186 | unknown quiz gives 404 and nothing changes; an existing Result for the pair is returned and nothing changes; a GET shows the questions and nothing changes; otherwise exactly one Result (new id, student, quiz, percentage) is appended, the id counter advances, and the invariant holds |
| Results.SubmitTwice | core/views.py:150-181 | two submissions in a row create at most one Result and the second is redirected to the first one's Result; with a prior Result the first reply already redirects to that Result's id and the table and the id counter are unchanged; otherwise the first reply carries the new Result's id (the old counter value), the table gains exactly the Result scored from the first submission, never re-scored from the second, and the id counter advances by one |
| Performance.TierOf | core/views.py:196-200 | each status carries its status, message and colour: success "Excellent Performance!" #4CAF50, warning "Good Attempt!" #FFC107, danger "Needs Improvement" #F44336 |
| Performance.Classify | core/views.py:195-200 | the classification's message and colour are the fixed ones of its status |
| Performance.TiersAreDistinct | core/views.py:195-200 | different tiers have different colours and messages |
| Performance.ClassifyThresholds | core/views.py:195-200 | success exactly for scores of at least 70, warning exactly for [50, 70), danger exactly below 50 |
| Performance.ClassifyMonotone | core/views.py:195-200 | a higher score never falls in a worse tier |
| Performance.ClassifyBoundaries | core/views.py:195-200 | 70 and 50 belong to the upper tier; 69.999 is warning and 49.999 danger |
| Performance.AllCorrectIsExcellent | core/views.py:173-200 | an all-correct non-empty quiz is success, an empty quiz is danger |
| Performance.FindOwnResult | core/views.py:191 | the lookup returns a stored Result with that id belonging to that student, and none exactly when there is no such Result |
| Performance.QuizResult | core/views.py:190-205 | the page shows an own Result with that id, its quiz and its classification, and is a 404 exactly when no such Result exists |
| Performance.ScenarioTiers | core/views.py:173-200 | 75 is success and the empty quiz's score is danger |
| QuizContent.DropJsonFence | core/ai_utils.py:73-74 | text opening with "```json" is that prefix followed by the result; other text is returned unchanged |
| QuizContent.DropLeadingFence | core/ai_utils.py:75-76 | text opening with "```" is that prefix followed by the result; other text is returned unchanged |
| QuizContent.DropTrailingFence | core/ai_utils.py:77-78 | text ending with "```" is the result followed by that suffix; other text is returned unchanged |
| QuizContent.StripFences | core/ai_utils.py:73-78 | the three fence steps remove at most 13 characters and never add any |
| QuizContent.IsSpace | core/ai_utils.py:81 | only space and ASCII control characters count as whitespace, and space, tab, newline and carriage return all do |
| QuizContent.Strip | core/ai_utils.py:81 | the stripped text is no longer than its input and has no whitespace at either end |
| QuizContent.CleanJsonText | core/ai_utils.py:73-81 | the string handed to the decoder is no longer than the raw text and has no whitespace at either end |
| QuizContent.LeadingSpaces | core/ai_utils.py:81 | the leading run counted is all whitespace and is followed by a non-space character or the end |
| QuizContent.TrailingStart | core/ai_utils.py:81 | the trailing run is all whitespace and is preceded by a non-space character or the start |
| QuizContent.GenerateQuizContent | core/ai_utils.py:68-86 | an error from the text source is returned as it is; otherwise the decoder's data or its error message, prefixed and followed by the fence-stripped content, is returned |
| QuizContent.StripFencesIsSlice | core/ai_utils.py:73-78 | the fence-stripped text is a contiguous slice of the raw text that loses at most 10 characters at the front and at most 3 at the back |
| QuizContent.DropJsonFenceInverse | core/ai_utils.py:73-74 | text opening with "```json" loses exactly those seven characters |
| QuizContent.JsonThenBareFenceRemoved | core/ai_utils.py:73-76 | a "```" right after "```json" is removed too |
| QuizContent.OneBareFenceRemoved | core/ai_utils.py:75-76 | of two leading "```" only one is removed |
| QuizContent.OneJsonFenceRemoved | core/ai_utils.py:73-76 | of two leading "```json" only the first is removed, and the second then loses its "```" |
| QuizContent.OneTrailingFenceRemoved | core/ai_utils.py:77-78 | of two trailing "```" only one is removed |
| QuizContent.LoneFenceBecomesEmpty | core/ai_utils.py:73-81 | a lone "```" becomes the empty string |
| QuizContent.UnfencedUnchanged | core/ai_utils.py:73-78 | text with neither a leading nor a trailing fence is unchanged by the fence steps |
| QuizContent.OuterSpaceShieldsFences | core/ai_utils.py:73-81 | text with whitespace at both ends passes the fence steps unchanged and is only stripped |
| QuizContent.LeadingSpaceShieldsLeadingFences | core/ai_utils.py:73-76 | text opening with whitespace keeps any leading "```json" and "```" |
| QuizContent.TrailingSpaceShieldsTrailingFence | core/ai_utils.py:77-78 | text ending with whitespace keeps any trailing "```" |
| QuizContent.IndentedReplyLosesOnlyTrailingFence | core/ai_utils.py:73-78 | a reply indented by one space keeps its leading fences but still loses its trailing one |
| QuizContent.IndentedFenceSurvives | core/ai_utils.py:73-81 | an indented fenced reply reaches the decoder with its fences |
| QuizContent.UnwrapJsonFence | core/ai_utils.py:73-81 | a body not opening with "```", wrapped in "```json" and "```", reaches the decoder as the stripped body |
| QuizContent.StripIsMaximalSlice | core/ai_utils.py:81 | strip keeps a slice, removes only whitespace, and leaves no whitespace at either end |
| QuizContent.CleanedHasNoOuterSpace | core/ai_utils.py:81 | the decoder's input has no leading or trailing whitespace |
| QuizContent.StripIdempotent | core/ai_utils.py:81 | stripping twice equals stripping once |
| QuizContent.CleanTextUnchanged | core/ai_utils.py:73-81 | already clean text without fences reaches the decoder unchanged |
| QuizContent.SourceErrorPassesThrough | core/ai_utils.py:68-70 | an error from the text source is returned as it is, whatever the decoder would do |

## Left out

- HTTP plumbing: rendering, redirects, flash messages, the login and role decorators, forms, serializers, API viewsets, admin and URL routing. The request method is a `bool` and the signed-in user a student id.
- `teacher_dashboard`, registration and the quiz-authoring views: these are database aggregation and form handling.
- The Gemini call (`generate_text_gemini`, `get_ai_explanation`) and the prompt text: network I/O, modelled as a `TextReply` value. The prompt's inputs (subject, topic, count, difficulty) reach only the prompt.
- The `if error:` test's truthiness: every error message of the text source is non-empty, so a reply is either text or an error.
- `json.loads`: a library parser, modelled as the parameter `decode`.
- Logging: the `logger.error` calls, including the one on the decode-error path of `generate_quiz_content`, are output only.
- Python `str.strip()` on non-ASCII whitespace: `IsSpace` is the ASCII part of `str.isspace`.
- Float arithmetic on `Result.score`: the percentage is an exact `real`.
- The `completed_on` timestamp: a server wall-clock value.
- Result ids: the database's auto-increment is modelled as a counter starting at 1.
- The double-submission race between the existence check and `create`: concurrency. In the sequential model the invariant always holds.
- Other writers of the Result table, such as the admin site (core/admin.py registers `Result`): `TakeQuiz` is the only writer here, so `Valid()` (one Result per pair) holds. The crash through `MultipleObjectsReturned` at `Result.objects.get` when a pair has two Results is not modelled.
- Parsing the POST string into an option id: option ids are already parsed. Parse errors other than `Option.DoesNotExist` are not modelled.
