/**
 * The AI response handling of the quiz pipeline: cutting a JSON candidate out of
 * free text, decoding it, and the ordered, fail-fast schema check of the decoded
 * tree. The JSON decoder itself is a parameter (`decode`), returning either the
 * tree or the decoder's diagnostic.
 */
module QuizPayload {
  import opened Wrappers
  import opened Text

  /** A decoded JSON document, as Python's `json.loads` builds it. */
  datatype Json =
    | JNull
    | JBool(b: bool)
    | JNumber(n: real)
    | JString(s: string)
    | JArray(items: seq<Json>)
    | JObject(fields: map<string, Json>)

  /** `dict.get(key)`: the value under `key`, or `None`. */
  function Get(fields: map<string, Json>, key: string): Option<Json> {
    if key in fields then Some(fields[key]) else None
  }

  const QuestionCount: nat := 10
  const OptionCount: nat := 4

  const InvalidJsonPrefix: string := "Gemini returned invalid JSON: "
  const InvalidPayloadType: string := "Invalid quiz payload type."
  const MissingKeys: string := "Gemini payload missing required keys."
  const WrongQuestionCount: string := "Gemini payload must contain exactly 10 questions."
  const InvalidQuestion: string := "Invalid question payload."
  const EmptyQuestionTitle: string := "Each question must have a non-empty question_title."
  const WrongOptionCount: string := "Each question must have exactly 4 options."
  const BlankOption: string := "All options must be non-empty strings."
  const DuplicateOptions: string := "Options must be distinct."
  const AnswerNotAnOption: string := "Answer must be one of the options."

  /** Every message the validator can raise. */
  const ValidationMessages: set<string> := {
    InvalidPayloadType, MissingKeys, WrongQuestionCount, InvalidQuestion, EmptyQuestionTitle,
    WrongOptionCount, BlankOption, DuplicateOptions, AnswerNotAnOption
  }

  // ---------------------------------------------------------------------------
  // JSON candidate extraction
  // ---------------------------------------------------------------------------

  /** The regular expression `^[^{]*` replaced by nothing: drop everything before the first `{`. */
  function DropToBrace(s: string): (r: string)
    ensures |r| <= |s| && r == s[|s| - |r|..]
    ensures '{' !in s[..|s| - |r|]
    ensures r == [] || r[0] == '{'
  {
    if s == [] || s[0] == '{' then s else DropToBrace(s[1..])
  }

  /** `s.replace("`", "")`. */
  function RemoveBackticks(s: string): (r: string)
    ensures '`' !in r
    ensures forall c :: c != '`' ==> (c in r <==> c in s)
    ensures s != [] && s[0] != '`' ==> r != [] && r[0] == s[0]
  {
    if s == [] then []
    else if s[0] == '`' then RemoveBackticks(s[1..])
    else [s[0]] + RemoveBackticks(s[1..])
  }

  /** Removing backticks works piece by piece. */
  lemma {:induction false} RemoveBackticksAppend(a: string, b: string)
    ensures RemoveBackticks(a + b) == RemoveBackticks(a) + RemoveBackticks(b)
  {
    if a != [] {
      assert (a + b)[1..] == a[1..] + b;
      RemoveBackticksAppend(a[1..], b);
    } else {
      assert a + b == b;
    }
  }

  /** Text without backticks is left as it is. */
  lemma {:induction false} RemoveBackticksNone(s: string)
    requires '`' !in s
    ensures RemoveBackticks(s) == s
  {
    if s != [] {
      RemoveBackticksNone(s[1..]);
      assert [s[0]] + s[1..] == s;
    }
  }

  /** `extract_json`: the text from the first `{` on, without backticks, trimmed. */
  function ExtractJson(text: string): string {
    Strip(RemoveBackticks(DropToBrace(text)))
  }

  /**
   * The candidate holds no backtick, and it is empty exactly when the text has no
   * `{`; otherwise it begins with that `{`.
   */
  lemma ExtractJsonShape(text: string)
    ensures '`' !in ExtractJson(text)
    ensures ExtractJson(text) == [] <==> '{' !in text
    ensures ExtractJson(text) != [] ==> ExtractJson(text)[0] == '{'
  {
    var d := DropToBrace(text);
    var b := RemoveBackticks(d);
    StripChars(b, '`');
    if '{' in text {
      assert d != [];
      StripKeepsFirst(b);
    } else {
      assert d == [];
    }
  }

  /**
   * A reply made of a lead-in without `{`, the object text and a closing fence of
   * backticks and white space yields exactly the object text.
   */
  lemma ExtractJsonFenced(lead: string, body: string, fence: string)
    requires '{' !in lead
    requires body != [] && body[0] == '{' && '`' !in body && !IsSpace(body[|body| - 1])
    requires forall i :: 0 <= i < |fence| ==> fence[i] == '`' || IsSpace(fence[i])
    ensures ExtractJson(lead + body + fence) == body
  {
    var text := lead + body + fence;
    assert text[..|lead|] == lead;
    assert text[|lead|..] == body + fence;
    DropToBraceAt(text, |lead|);
    RemoveBackticksAppend(body, fence);
    RemoveBackticksNone(body);
    var sp := RemoveBackticks(fence);
    forall i | 0 <= i < |sp| ensures IsSpace(sp[i]) {
      assert sp[i] in sp;
    }
    assert (body + sp)[0] == body[0];
    assert TrimStart(body + sp) == body + sp;
    TrimEndSpaces(body, sp);
  }

  /** The cut falls exactly at the first `{`. */
  lemma DropToBraceAt(s: string, k: nat)
    requires k < |s| && s[k] == '{' && '{' !in s[..k]
    ensures DropToBrace(s) == s[k..]
  {
  }

  /** `parse_quiz_json`: decode the candidate; a decoder error is reported as invalid JSON. */
  function ParseQuizJson(text: string, decode: string -> Result<Json, string>): (r: Result<Json, string>)
    ensures r.Ok? <==> decode(ExtractJson(text)).Ok?
    ensures r.Ok? ==> r.value == decode(ExtractJson(text)).value
    ensures r.Err? ==> StartsWith(r.error, InvalidJsonPrefix)
    ensures r.Err? ==> r.error == InvalidJsonPrefix + decode(ExtractJson(text)).error
  {
    match decode(ExtractJson(text))
    case Ok(tree) => Ok(tree)
    case Err(diagnostic) =>
      var m := InvalidJsonPrefix + diagnostic;
      assert m[..|InvalidJsonPrefix|] == InvalidJsonPrefix;
      Err(m)
  }

  // ---------------------------------------------------------------------------
  // Payload validation
  // ---------------------------------------------------------------------------

  /** The set of the elements of a list, `set(xs)`. */
  function ElementSet(xs: seq<Json>): set<Json> {
    set x | x in xs
  }

  /** No value appears twice. */
  ghost predicate Distinct(xs: seq<Json>) {
    forall i, j :: 0 <= i < j < |xs| ==> xs[i] != xs[j]
  }

  /** A list is distinct exactly when its head is new and its tail is distinct. */
  lemma DistinctCons(xs: seq<Json>)
    requires xs != []
    ensures Distinct(xs) <==> xs[0] !in xs[1..] && Distinct(xs[1..])
  {
    var rest := xs[1..];
    if Distinct(xs) {
      forall i, j | 0 <= i < j < |rest| ensures rest[i] != rest[j] {
        assert rest[i] == xs[i + 1] && rest[j] == xs[j + 1];
      }
    }
    if xs[0] !in rest && Distinct(rest) {
      forall i, j | 0 <= i < j < |xs| ensures xs[i] != xs[j] {
        if i == 0 {
          assert xs[j] == rest[j - 1];
        } else {
          assert xs[i] == rest[i - 1] && xs[j] == rest[j - 1];
        }
      }
    }
  }

  /** A list has at most as many distinct values as elements. */
  lemma {:induction false} ElementSetBound(xs: seq<Json>)
    ensures |ElementSet(xs)| <= |xs|
  {
    if xs == [] {
      assert ElementSet(xs) == {};
    } else {
      ElementSetBound(xs[1..]);
      assert ElementSet(xs) == {xs[0]} + ElementSet(xs[1..]);
    }
  }

  /** The set of a list is as large as the list exactly when its values are distinct. */
  lemma {:induction false} ElementSetSize(xs: seq<Json>)
    ensures |ElementSet(xs)| == |xs| <==> Distinct(xs)
  {
    if xs == [] {
      assert ElementSet(xs) == {};
    } else {
      var rest := xs[1..];
      ElementSetSize(rest);
      ElementSetBound(rest);
      DistinctCons(xs);
      assert ElementSet(xs) == {xs[0]} + ElementSet(rest);
    }
  }

  /** Each option is a string that is not blank (`all(isinstance(o, str) and o.strip() ...)`). */
  predicate AllNonBlankStrings(opts: seq<Json>) {
    forall i :: 0 <= i < |opts| ==> opts[i].JString? && Strip(opts[i].s) != []
  }

  /** `_validate_question`: the first violated check decides the message. */
  function ValidateQuestion(q: Json): Outcome<string> {
    if !q.JObject? then Fail(InvalidQuestion)
    else ValidateQuestionFields(Get(q.fields, "question_title"), Get(q.fields, "question_options"), Get(q.fields, "answer"))
  }

  /** The checks on the looked-up `question_title`, `question_options` and `answer`. */
  function ValidateQuestionFields(title: Option<Json>, opts: Option<Json>, ans: Option<Json>): Outcome<string> {
    if !(title.Some? && title.value.JString? && Strip(title.value.s) != []) then Fail(EmptyQuestionTitle)
    else if !(opts.Some? && opts.value.JArray? && |opts.value.items| == OptionCount) then Fail(WrongOptionCount)
    else if !AllNonBlankStrings(opts.value.items) then Fail(BlankOption)
    else if |ElementSet(opts.value.items)| != OptionCount then Fail(DuplicateOptions)
    else if !(ans.Some? && ans.value.JString? && ans.value in opts.value.items) then Fail(AnswerNotAnOption)
    else Pass
  }

  /** The `for q in questions` loop: the first question that fails stops the check. */
  function ValidateQuestions(qs: seq<Json>): Outcome<string> {
    if qs == [] then Pass
    else
      match ValidateQuestion(qs[0])
      case Fail(m) => Fail(m)
      case Pass => ValidateQuestions(qs[1..])
  }

  /** `validate_quiz_payload`. */
  function ValidateQuizPayload(payload: Json): Outcome<string> {
    if !payload.JObject? then Fail(InvalidPayloadType)
    else if !("title" in payload.fields && "description" in payload.fields && "questions" in payload.fields) then
      Fail(MissingKeys)
    else
      var questions := payload.fields["questions"];
      if !(questions.JArray? && |questions.items| == QuestionCount) then Fail(WrongQuestionCount)
      else ValidateQuestions(questions.items)
  }

  /** A string value with at least one non-white-space character. */
  ghost predicate NonBlankString(v: Json) {
    v.JString? && NonBlank(v.s)
  }

  /** Exactly four non-blank strings, no two equal. */
  ghost predicate WellFormedOptions(opts: seq<Json>) {
    && |opts| == OptionCount
    && (forall i :: 0 <= i < OptionCount ==> NonBlankString(opts[i]))
    && (forall i, j :: 0 <= i < j < OptionCount ==> opts[i].s != opts[j].s)
  }

  /** A string equal, without trimming or case folding, to one of the option strings. */
  ghost predicate IsOneOf(answer: Json, opts: seq<Json>) {
    answer.JString? && exists i :: 0 <= i < |opts| && opts[i].JString? && opts[i].s == answer.s
  }

  /** A well-formed draft question, stated without reference to the validator. */
  ghost predicate WellFormedQuestion(q: Json) {
    && q.JObject?
    && "question_title" in q.fields
    && NonBlankString(q.fields["question_title"])
    && "question_options" in q.fields
    && q.fields["question_options"].JArray?
    && WellFormedOptions(q.fields["question_options"].items)
    && "answer" in q.fields
    && IsOneOf(q.fields["answer"], q.fields["question_options"].items)
  }

  /** A draft quiz the pipeline may persist; `title` and `description` may hold anything. */
  ghost predicate ValidQuiz(payload: Json) {
    && payload.JObject?
    && "title" in payload.fields
    && "description" in payload.fields
    && "questions" in payload.fields
    && payload.fields["questions"].JArray?
    && |payload.fields["questions"].items| == QuestionCount
    && forall i :: 0 <= i < QuestionCount ==> WellFormedQuestion(payload.fields["questions"].items[i])
  }

  /** `isinstance(v, str) and v.strip()` holds exactly of the non-blank strings. */
  lemma NonBlankStringCorrect(v: Json)
    ensures (v.JString? && Strip(v.s) != []) <==> NonBlankString(v)
  {
    if v.JString? {
      StripEmptyIffBlank(v.s);
    }
  }

  /** Among non-blank string options, distinct values are exactly distinct strings. */
  lemma DistinctStrings(opts: seq<Json>)
    requires AllNonBlankStrings(opts)
    ensures Distinct(opts) <==> forall i, j :: 0 <= i < j < |opts| ==> opts[i].s != opts[j].s
  {
    if !Distinct(opts) {
      var i, j :| 0 <= i < j < |opts| && opts[i] == opts[j];
      assert opts[i].s == opts[j].s;
    }
  }

  /** The `all(...)` check holds exactly when every option is a non-blank string. */
  lemma AllNonBlankStringsCorrect(opts: seq<Json>)
    ensures AllNonBlankStrings(opts) <==> forall i :: 0 <= i < |opts| ==> NonBlankString(opts[i])
  {
    forall i | 0 <= i < |opts| {
      NonBlankStringCorrect(opts[i]);
    }
  }

  /** The option checks (count, non-blank strings, set size 4) accept exactly the well-formed options. */
  lemma OptionChecksCorrect(opts: seq<Json>)
    requires |opts| == OptionCount
    ensures (AllNonBlankStrings(opts) && |ElementSet(opts)| == OptionCount) <==> WellFormedOptions(opts)
  {
    AllNonBlankStringsCorrect(opts);
    ElementSetSize(opts);
    if AllNonBlankStrings(opts) {
      DistinctStrings(opts);
    }
  }

  /** `ans in opts` on string options is string equality with one of them. */
  lemma AnswerCheckCorrect(answer: Json, opts: seq<Json>)
    requires AllNonBlankStrings(opts)
    ensures (answer.JString? && answer in opts) <==> IsOneOf(answer, opts)
  {
    if answer.JString? && answer in opts {
      var k :| 0 <= k < |opts| && opts[k] == answer;
      assert opts[k].s == answer.s;
    }
    if IsOneOf(answer, opts) {
      var k :| 0 <= k < |opts| && opts[k].JString? && opts[k].s == answer.s;
      assert opts[k] == answer;
    }
  }

  /** The field checks accept exactly well-formed title, options and answer. */
  lemma ValidateQuestionFieldsCorrect(title: Option<Json>, opts: Option<Json>, ans: Option<Json>)
    ensures ValidateQuestionFields(title, opts, ans) == Pass <==>
      title.Some? && NonBlankString(title.value)
      && opts.Some? && opts.value.JArray? && WellFormedOptions(opts.value.items)
      && ans.Some? && IsOneOf(ans.value, opts.value.items)
  {
    if title.Some? {
      NonBlankStringCorrect(title.value);
    }
    if opts.Some? && opts.value.JArray? && |opts.value.items| == OptionCount {
      OptionChecksCorrect(opts.value.items);
      if AllNonBlankStrings(opts.value.items) && ans.Some? {
        AnswerCheckCorrect(ans.value, opts.value.items);
      }
    }
  }

  /** The question check accepts exactly the well-formed questions. */
  lemma ValidateQuestionCorrect(q: Json)
    ensures ValidateQuestion(q) == Pass <==> WellFormedQuestion(q)
  {
    if q.JObject? {
      ValidateQuestionFieldsCorrect(Get(q.fields, "question_title"), Get(q.fields, "question_options"), Get(q.fields, "answer"));
    }
  }

  /** The verdict of each question on its own, in order. */
  function Verdicts(qs: seq<Json>): (r: seq<Outcome<string>>)
    ensures |r| == |qs|
  {
    seq(|qs|, i requires 0 <= i < |qs| => ValidateQuestion(qs[i]))
  }

  /** The first failure in a list of verdicts, or `Pass` when there is none. */
  function FirstFailure(vs: seq<Outcome<string>>): Outcome<string> {
    if vs == [] then Pass
    else if vs[0].Fail? then vs[0]
    else FirstFailure(vs[1..])
  }

  /** The first failure is a failing verdict preceded only by passing ones. */
  lemma {:induction false} FirstFailureIff(vs: seq<Outcome<string>>, m: string)
    ensures FirstFailure(vs) == Fail(m) <==>
      exists i :: 0 <= i < |vs| && vs[i] == Fail(m) && forall j :: 0 <= j < i ==> vs[j] == Pass
  {
    if vs != [] {
      FirstFailureIff(vs[1..], m);
      if vs[0] == Pass {
        if FirstFailure(vs) == Fail(m) {
          var i :| 0 <= i < |vs[1..]| && vs[1..][i] == Fail(m) && forall j :: 0 <= j < i ==> vs[1..][j] == Pass;
          assert vs[i + 1] == Fail(m);
          assert forall j :: 1 <= j < i + 1 ==> vs[j] == vs[1..][j - 1];
        }
        if exists i :: 0 <= i < |vs| && vs[i] == Fail(m) && forall j :: 0 <= j < i ==> vs[j] == Pass {
          var i :| 0 <= i < |vs| && vs[i] == Fail(m) && forall j :: 0 <= j < i ==> vs[j] == Pass;
          assert vs[1..][i - 1] == Fail(m);
          assert forall j :: 0 <= j < i - 1 ==> vs[1..][j] == vs[j + 1];
        }
      } else {
        assert FirstFailure(vs) == vs[0];
        if FirstFailure(vs) != Fail(m) {
          assert vs[0] != Fail(m);
        }
      }
    }
  }

  /** No verdict fails exactly when there is no first failure. */
  lemma {:induction false} FirstFailurePass(vs: seq<Outcome<string>>)
    ensures FirstFailure(vs) == Pass <==> forall i :: 0 <= i < |vs| ==> vs[i] == Pass
  {
    if vs != [] {
      FirstFailurePass(vs[1..]);
      assert forall i :: 1 <= i < |vs| ==> vs[i] == vs[1..][i - 1];
    }
  }

  /** The fail-fast loop reports the first failing verdict. */
  lemma ValidateQuestionsIsFirstFailure(qs: seq<Json>)
    ensures ValidateQuestions(qs) == FirstFailure(Verdicts(qs))
  {
    ValidateQuestionsMatches(qs, Verdicts(qs));
  }

  /** Any list holding each question's verdict in order has the loop's result as its first failure. */
  lemma {:induction false} ValidateQuestionsMatches(qs: seq<Json>, vs: seq<Outcome<string>>)
    requires |vs| == |qs|
    requires forall i :: 0 <= i < |qs| ==> vs[i] == ValidateQuestion(qs[i])
    ensures ValidateQuestions(qs) == FirstFailure(vs)
  {
    if qs != [] {
      assert forall i :: 0 <= i < |qs| - 1 ==> qs[1..][i] == qs[i + 1] && vs[1..][i] == vs[i + 1];
      ValidateQuestionsMatches(qs[1..], vs[1..]);
    }
  }

  /** Fail-fast: a failure reports the message of the first failing question. */
  lemma ValidateQuestionsFirstFailure(qs: seq<Json>, m: string)
    ensures ValidateQuestions(qs) == Fail(m) <==>
      exists i :: 0 <= i < |qs| && Verdicts(qs)[i] == Fail(m) && forall j :: 0 <= j < i ==> Verdicts(qs)[j] == Pass
  {
    ValidateQuestionsIsFirstFailure(qs);
    FirstFailureIff(Verdicts(qs), m);
  }

  /** The loop passes exactly when every question passes. */
  lemma ValidateQuestionsAll(qs: seq<Json>)
    ensures ValidateQuestions(qs) == Pass <==> forall i :: 0 <= i < |qs| ==> Verdicts(qs)[i] == Pass
  {
    ValidateQuestionsIsFirstFailure(qs);
    FirstFailurePass(Verdicts(qs));
  }

  /** A rejected question carries one of the validator's fixed messages. */
  lemma QuestionMessageKnown(q: Json, m: string)
    requires ValidateQuestion(q) == Fail(m)
    ensures m in ValidationMessages
  {
  }

  /** The payload check accepts exactly the valid drafts. */
  lemma ValidateQuizPayloadCorrect(payload: Json)
    ensures ValidateQuizPayload(payload) == Pass <==> ValidQuiz(payload)
  {
    if payload.JObject? && "questions" in payload.fields && payload.fields["questions"].JArray? {
      QuestionsWellFormed(payload.fields["questions"].items);
    }
  }

  /** The question loop passes exactly when every question is well formed. */
  lemma QuestionsWellFormed(qs: seq<Json>)
    ensures ValidateQuestions(qs) == Pass <==> forall i :: 0 <= i < |qs| ==> WellFormedQuestion(qs[i])
  {
    ValidateQuestionsAll(qs);
    if ValidateQuestions(qs) == Pass {
      forall i | 0 <= i < |qs| ensures WellFormedQuestion(qs[i]) {
        assert Verdicts(qs)[i] == ValidateQuestion(qs[i]) == Pass;
        ValidateQuestionCorrect(qs[i]);
      }
    } else {
      var i :| 0 <= i < |qs| && Verdicts(qs)[i] != Pass;
      ValidateQuestionCorrect(qs[i]);
    }
  }

  /** Every failure carries one of the validator's fixed messages. */
  lemma ValidationMessageKnown(payload: Json, m: string)
    requires ValidateQuizPayload(payload) == Fail(m)
    ensures m in ValidationMessages
  {
    if payload.JObject? && "title" in payload.fields && "description" in payload.fields
      && "questions" in payload.fields && payload.fields["questions"].JArray?
      && |payload.fields["questions"].items| == QuestionCount
    {
      var qs := payload.fields["questions"].items;
      ValidateQuestionsFirstFailure(qs, m);
      var i :| 0 <= i < |qs| && Verdicts(qs)[i] == Fail(m);
      QuestionMessageKnown(qs[i], m);
    }
  }

  /** The values of `title` and `description` are never inspected, only their presence. */
  lemma TitleAndDescriptionUnchecked(fields: map<string, Json>, title: Json, description: Json)
    requires "title" in fields && "description" in fields
    ensures ValidateQuizPayload(JObject(fields["title" := title]["description" := description]))
         == ValidateQuizPayload(JObject(fields))
  {
    var g := fields["title" := title]["description" := description];
    assert "questions" in g <==> "questions" in fields;
    if "questions" in fields {
      assert g["questions"] == fields["questions"];
    }
  }

  // The checks run in a fixed order and the first one that fails decides the
  // message. Each lemma below gives one message under "every earlier check
  // passes and this one fails", stated with the declarative predicates.

  /** The payload checks in order: the type, then the three keys, then the question count. */
  lemma PayloadMessagesInOrder(payload: Json)
    ensures !payload.JObject? ==> ValidateQuizPayload(payload) == Fail(InvalidPayloadType)
    ensures payload.JObject? && !("title" in payload.fields && "description" in payload.fields && "questions" in payload.fields)
      ==> ValidateQuizPayload(payload) == Fail(MissingKeys)
    ensures payload.JObject? && "title" in payload.fields && "description" in payload.fields && "questions" in payload.fields
      && !(payload.fields["questions"].JArray? && |payload.fields["questions"].items| == QuestionCount)
      ==> ValidateQuizPayload(payload) == Fail(WrongQuestionCount)
  {
  }

  /** Once the payload-level checks pass, the payload's verdict is the question loop's verdict. */
  lemma QuestionsMessageReported(payload: Json)
    requires payload.JObject? && "title" in payload.fields && "description" in payload.fields
    requires "questions" in payload.fields && payload.fields["questions"].JArray?
    requires |payload.fields["questions"].items| == QuestionCount
    ensures ValidateQuizPayload(payload) == ValidateQuestions(payload.fields["questions"].items)
  {
  }

  /**
   * A payload that passes its own checks fails with the message of its first
   * failing question, whose predecessors all pass.
   */
  lemma FirstBadQuestionReported(payload: Json, i: nat, m: string)
    requires payload.JObject? && "title" in payload.fields && "description" in payload.fields
    requires "questions" in payload.fields && payload.fields["questions"].JArray?
    requires |payload.fields["questions"].items| == QuestionCount
    requires i < QuestionCount && ValidateQuestion(payload.fields["questions"].items[i]) == Fail(m)
    requires forall j :: 0 <= j < i ==> ValidateQuestion(payload.fields["questions"].items[j]) == Pass
    ensures ValidateQuizPayload(payload) == Fail(m)
  {
    var qs := payload.fields["questions"].items;
    assert Verdicts(qs)[i] == Fail(m);
    assert forall j :: 0 <= j < i ==> Verdicts(qs)[j] == Pass;
    ValidateQuestionsFirstFailure(qs, m);
    QuestionsMessageReported(payload);
  }

  /** A question that is not an object is refused before any field is looked at. */
  lemma NonObjectQuestionReported(q: Json)
    requires !q.JObject?
    ensures ValidateQuestion(q) == Fail(InvalidQuestion)
    ensures ValidateQuestions([q]) == Fail(InvalidQuestion)
  {
  }

  /** A missing or blank title is reported first, whatever the options and the answer are. */
  lemma BlankTitleReported(title: Option<Json>, opts: Option<Json>, ans: Option<Json>)
    requires !(title.Some? && NonBlankString(title.value))
    ensures ValidateQuestionFields(title, opts, ans) == Fail(EmptyQuestionTitle)
  {
    if title.Some? {
      NonBlankStringCorrect(title.value);
    }
  }

  /** With a good title, anything but a list of exactly four options is a wrong count. */
  lemma OptionCountReported(title: Json, opts: Option<Json>, ans: Option<Json>)
    requires NonBlankString(title)
    requires !(opts.Some? && opts.value.JArray? && |opts.value.items| == OptionCount)
    ensures ValidateQuestionFields(Some(title), opts, ans) == Fail(WrongOptionCount)
  {
    var t := Some(title);
    NonBlankStringCorrect(title);
    assert t.Some? && t.value.JString? && Strip(t.value.s) != [];
  }

  /** With a good title and four options, an option that is not a non-blank string is reported. */
  lemma BlankOptionReported(title: Json, opts: seq<Json>, ans: Option<Json>, k: nat)
    requires NonBlankString(title)
    requires |opts| == OptionCount && k < OptionCount && !NonBlankString(opts[k])
    ensures ValidateQuestionFields(Some(title), Some(JArray(opts)), ans) == Fail(BlankOption)
  {
    var t, o := Some(title), Some(JArray(opts));
    NonBlankStringCorrect(title);
    assert t.Some? && t.value.JString? && Strip(t.value.s) != [];
    assert o.Some? && o.value.JArray? && |o.value.items| == OptionCount;
    AllNonBlankStringsCorrect(opts);
    assert !AllNonBlankStrings(o.value.items);
  }

  /** With a good title and well-formed options, an answer that is not one of them is reported. */
  lemma AnswerNotAnOptionReported(title: Json, opts: seq<Json>, ans: Option<Json>)
    requires NonBlankString(title) && WellFormedOptions(opts)
    requires !(ans.Some? && IsOneOf(ans.value, opts))
    ensures ValidateQuestionFields(Some(title), Some(JArray(opts)), ans) == Fail(AnswerNotAnOption)
  {
    var t, o := Some(title), Some(JArray(opts));
    NonBlankStringCorrect(title);
    assert t.Some? && t.value.JString? && Strip(t.value.s) != [];
    assert o.Some? && o.value.JArray? && |o.value.items| == OptionCount;
    OptionChecksCorrect(opts);
    assert AllNonBlankStrings(o.value.items) && |ElementSet(o.value.items)| == OptionCount;
    if ans.Some? {
      AnswerCheckCorrect(ans.value, opts);
    }
  }

  /**
   * Options that repeat a value are reported as duplicates once the title and the
   * option strings are fine, whatever the answer is.
   */
  lemma DuplicateOptionsReported(title: Json, opts: seq<Json>, ans: Option<Json>, i: nat, j: nat)
    requires NonBlankString(title)
    requires |opts| == OptionCount && forall k :: 0 <= k < OptionCount ==> NonBlankString(opts[k])
    requires i < j < OptionCount && opts[i] == opts[j]
    ensures ValidateQuestionFields(Some(title), Some(JArray(opts)), ans) == Fail(DuplicateOptions)
  {
    var t, o := Some(title), Some(JArray(opts));
    NonBlankStringCorrect(title);
    assert t.Some? && t.value.JString? && Strip(t.value.s) != [];
    assert o.Some? && o.value.JArray? && |o.value.items| == OptionCount;
    NonBlankStringsChecked(opts);
    ElementSetRepeat(opts, i, j);
  }

  /** Non-blank string options pass the per-option check. */
  lemma NonBlankStringsChecked(opts: seq<Json>)
    requires forall k :: 0 <= k < |opts| ==> NonBlankString(opts[k])
    ensures AllNonBlankStrings(opts)
  {
    forall k | 0 <= k < |opts| ensures opts[k].JString? && Strip(opts[k].s) != [] {
      NonBlankStringCorrect(opts[k]);
    }
  }

  /** A list with a repeated value has fewer distinct values than entries. */
  lemma ElementSetRepeat(xs: seq<Json>, i: nat, j: nat)
    requires i < j < |xs| && xs[i] == xs[j]
    ensures |ElementSet(xs)| < |xs|
  {
    ElementSetSize(xs);
    ElementSetBound(xs);
  }

  /** The duplicated options `a, a, c, d` are reported as duplicates, not as a bad answer. */
  lemma DuplicateOptionsExample(opts: seq<Json>)
    requires opts == [JString("a"), JString("a"), JString("c"), JString("d")]
    ensures ValidateQuestionFields(Some(JString("q")), Some(JArray(opts)), Some(JString("a"))) == Fail(DuplicateOptions)
  {
    forall k | 0 <= k < OptionCount ensures NonBlankString(opts[k]) {
      assert !IsSpace(opts[k].s[0]);
    }
    assert !IsSpace("q"[0]);
    DuplicateOptionsReported(JString("q"), opts, Some(JString("a")), 0, 1);
  }
}
