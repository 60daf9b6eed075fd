/**
 * The two tables the pipeline writes: quizzes and their questions. A quiz is
 * identified by its position in the quiz table; a question row names its quiz.
 * The values are stored as decoded from the AI reply.
 */
module QuizStore {
  import opened Wrappers
  import opened QuizPayload

  /** A `Quiz` row. */
  datatype QuizRow = QuizRow(title: Json, description: Json, videoUrl: string, owner: nat)

  /** A `QuizQuestion` row. */
  datatype QuestionRow = QuestionRow(quiz: nat, questionTitle: Json, questionOptions: Json, answer: Json)

  /** An item `_persist_quiz` can turn into a question row without a missing-key error. */
  predicate HasQuestionKeys(item: Json) {
    item.JObject? && "question_title" in item.fields && "question_options" in item.fields && "answer" in item.fields
  }

  /** A payload `_persist_quiz` can store without a missing-key error. */
  predicate Persistable(payload: Json) {
    && payload.JObject?
    && "title" in payload.fields
    && "description" in payload.fields
    && "questions" in payload.fields
    && payload.fields["questions"].JArray?
    && forall i :: 0 <= i < |payload.fields["questions"].items| ==> HasQuestionKeys(payload.fields["questions"].items[i])
  }

  /** Every payload the validator accepts can be stored. */
  lemma ValidQuizPersistable(payload: Json)
    requires ValidQuiz(payload)
    ensures Persistable(payload)
    ensures |payload.fields["questions"].items| == QuestionCount
  {
    var items := payload.fields["questions"].items;
    forall i | 0 <= i < |items| ensures HasQuestionKeys(items[i]) {
      assert WellFormedQuestion(items[i]);
    }
  }

  /** The question row built from one item of the payload. */
  function QuestionRowOf(quiz: nat, item: Json): QuestionRow
    requires HasQuestionKeys(item)
  {
    QuestionRow(quiz, item.fields["question_title"], item.fields["question_options"], item.fields["answer"])
  }

  /** The rows `bulk_create` inserts: one per item, in order, each pointing at `quiz`. */
  function QuestionRows(quiz: nat, items: seq<Json>): (rows: seq<QuestionRow>)
    requires forall i :: 0 <= i < |items| ==> HasQuestionKeys(items[i])
    ensures |rows| == |items|
    ensures forall i :: 0 <= i < |rows| ==>
      && rows[i].quiz == quiz
      && HasQuestionKeys(items[i])
      && rows[i].questionTitle == items[i].fields["question_title"]
      && rows[i].questionOptions == items[i].fields["question_options"]
      && rows[i].answer == items[i].fields["answer"]
  {
    seq(|items|, i requires 0 <= i < |items| => QuestionRowOf(quiz, items[i]))
  }

  /** The quiz and question tables. */
  class Database {
    var quizzes: seq<QuizRow>
    var questions: seq<QuestionRow>

    /** Every question row names a quiz that exists. */
    ghost predicate Valid()
      reads this
    {
      forall i :: 0 <= i < |questions| ==> questions[i].quiz < |quizzes|
    }

    constructor()
      ensures quizzes == [] && questions == [] && Valid()
    {
      quizzes := [];
      questions := [];
    }

    /**
     * `_persist_quiz`: one quiz row and one question row per item, all or nothing.
     * Whether the transaction commits is the parameter `commit`.
     */
    method Persist(payload: Json, videoUrl: string, owner: nat, commit: Outcome<string>) returns (r: Result<nat, string>)
      requires Valid() && Persistable(payload)
      modifies this
      ensures Valid()
      ensures commit.Fail? ==> r == Err(commit.error) && quizzes == old(quizzes) && questions == old(questions)
      ensures commit.Pass? ==>
        && r == Ok(|old(quizzes)|)
        && quizzes == old(quizzes) + [QuizRow(payload.fields["title"], payload.fields["description"], videoUrl, owner)]
        && questions == old(questions) + QuestionRows(|old(quizzes)|, payload.fields["questions"].items)
    {
      if commit.Fail? {
        r := Err(commit.error);
        return;
      }
      var id := |quizzes|;
      quizzes := quizzes + [QuizRow(payload.fields["title"], payload.fields["description"], videoUrl, owner)];
      questions := questions + QuestionRows(id, payload.fields["questions"].items);
      r := Ok(id);
    }
  }
}
