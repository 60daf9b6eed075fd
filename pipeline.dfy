/**
 * `create_quiz_from_url`: from a video URL to a stored quiz. The URL is checked
 * before any temporary file exists; then download, transcription, the AI call,
 * the reply check, decoding, validation and the store write run in order, and
 * the temporary files are removed however the run ends. The outside world (the
 * downloader, the speech model, the AI service, the JSON decoder, the database
 * commit and the random file name) is the `Environment` of one run.
 */
module Pipeline {
  import opened Wrappers
  import opened Text
  import opened YoutubeUrl
  import opened QuizPayload
  import opened TempFiles
  import opened WhisperCache
  import opened QuizStore

  /** The three ways a run can fail, after the Python exception classes. */
  datatype PipelineError =
    | InvalidYouTubeUrl(message: string)
    | QuizCreation(message: string)
    /** An exception the pipeline does not translate (AI client, database), passed on as raised. */
    | Unexpected(message: string)

  /** What the outside world does during one run. */
  datatype Environment = Environment(
    /** The name the operating system picks for the temporary base file. */
    tmpName: string,
    /** The download: completes (writing the `.mp3` file) or raises. */
    download: Outcome<string>,
    whisper: WhisperSettings,
    load: Loader,
    /** The `text` entry of the transcription result (`JNull` when absent), or the error raised. */
    transcribe: Result<Json, string>,
    /** The `GEMINI_API_KEY` setting. */
    apiKey: Option<string>,
    /** The `text` attribute of the AI reply (`JNull` when absent), or the client's error. */
    aiReply: Result<Json, string>,
    /** `json.loads`: the decoded tree or the decoder's diagnostic. */
    decode: string -> Result<Json, string>,
    /** Whether the store transaction commits, or the database error. */
    commit: Outcome<string>)

  const NotYoutube: string := "Not a YouTube URL."
  const DownloadPrefix: string := "Error downloading audio: "
  const TranscribePrefix: string := "Error transcribing audio: "
  const InvalidTranscript: string := "Whisper returned invalid transcript text."
  const EmptyTranscript: string := "Whisper returned an empty transcript."
  const MissingApiKey: string := "Missing GEMINI_API_KEY in settings."
  const EmptyAiResponse: string := "Gemini returned an empty or invalid response."

  /** The download step's error: the downloader's message under a fixed prefix. */
  function DownloadError(e: string): (m: string)
    ensures StartsWith(m, DownloadPrefix) && m[|DownloadPrefix|..] == e
  {
    var m := DownloadPrefix + e;
    assert m[..|DownloadPrefix|] == DownloadPrefix;
    m
  }

  /** Every transcription failure, its own included, is re-raised under a fixed prefix. */
  function TranscribeError(e: string): (m: string)
    ensures StartsWith(m, TranscribePrefix) && m[|TranscribePrefix|..] == e
  {
    var m := TranscribePrefix + e;
    assert m[..|TranscribePrefix|] == TranscribePrefix;
    m
  }

  /**
   * The outcome of `generate_transcript` once the model was fetched: the trimmed
   * text, or the wrapped error of the model, the transcription or the text checks.
   */
  function Transcript(model: Result<WhisperModel, string>, transcribe: Result<Json, string>): (r: Result<string, string>)
    ensures r.Ok? ==> r.value != [] && Strip(r.value) == r.value
    ensures r.Err? ==> StartsWith(r.error, TranscribePrefix)
    ensures r.Ok? <==> model.Ok? && transcribe.Ok? && transcribe.value.JString? && NonBlank(transcribe.value.s)
  {
    if model.Err? then Err(TranscribeError(model.error))
    else if transcribe.Err? then Err(TranscribeError(transcribe.error))
    else if !transcribe.value.JString? then Err(TranscribeError(InvalidTranscript))
    else
      var t := Strip(transcribe.value.s);
      StripEmptyIffBlank(transcribe.value.s);
      StripIdempotent(transcribe.value.s);
      if t == [] then Err(TranscribeError(EmptyTranscript)) else Ok(t)
  }

  /** A successful transcript is the transcription text with its surrounding white space removed. */
  lemma TranscriptValue(model: Result<WhisperModel, string>, transcribe: Result<Json, string>)
    requires Transcript(model, transcribe).Ok?
    ensures transcribe.Ok? && transcribe.value.JString?
    ensures Transcript(model, transcribe).value == Strip(transcribe.value.s)
  {
  }

  /** Which message each failing case of the transcription step carries, in the order of the checks. */
  lemma TranscriptErrors(model: Result<WhisperModel, string>, transcribe: Result<Json, string>)
    ensures model.Err? ==> Transcript(model, transcribe) == Err(TranscribeError(model.error))
    ensures model.Ok? && transcribe.Err? ==> Transcript(model, transcribe) == Err(TranscribeError(transcribe.error))
    ensures model.Ok? && transcribe.Ok? && !transcribe.value.JString? ==>
      Transcript(model, transcribe) == Err(TranscribeError(InvalidTranscript))
    ensures model.Ok? && transcribe.Ok? && transcribe.value.JString? && !NonBlank(transcribe.value.s) ==>
      Transcript(model, transcribe) == Err(TranscribeError(EmptyTranscript))
  {
    if model.Ok? && transcribe.Ok? && transcribe.value.JString? {
      StripEmptyIffBlank(transcribe.value.s);
    }
  }

  /** The missing-key check of `gemini_client`: an unset or empty key is refused, any other string passes. */
  function GeminiClient(apiKey: Option<string>): (r: Outcome<string>)
    ensures r.Fail? ==> r.error == MissingApiKey
  {
    if apiKey.None? || apiKey.value == [] then Fail(MissingApiKey) else Pass
  }

  /** The key check refuses exactly the unset and the empty key; white space alone passes. */
  lemma GeminiClientRefuses(apiKey: Option<string>)
    ensures GeminiClient(apiKey).Fail? <==> apiKey == None || apiKey == Some("")
    ensures GeminiClient(Some(" ")) == Pass
  {
  }

  /** The reply check: a string with a non-white-space character, passed on untrimmed. */
  function AiText(reply: Json): (r: Result<string, string>)
    ensures r.Ok? <==> reply.JString? && NonBlank(reply.s)
    ensures r.Ok? ==> r.value == reply.s
    ensures r.Err? ==> r.error == EmptyAiResponse
  {
    if !reply.JString? then Err(EmptyAiResponse)
    else
      StripEmptyIffBlank(reply.s);
      if Strip(reply.s) != [] then Ok(reply.s) else Err(EmptyAiResponse)
  }

  /** What the steps inside the `try` leave behind: the result, the cache and whether a step cleaned up itself. */
  datatype Trace = Trace(result: Result<Json, PipelineError>, cached: Option<WhisperModel>, innerCleanup: bool)

  /** The steps after the transcript: client, AI call, reply check, decoding and validation. */
  function AfterTranscript(env: Environment): (r: Result<Json, PipelineError>)
    ensures r.Ok? ==> ValidQuiz(r.value)
  {
    if GeminiClient(env.apiKey).Fail? then Err(QuizCreation(MissingApiKey))
    else if env.aiReply.Err? then Err(Unexpected(env.aiReply.error))
    else
      match AiText(env.aiReply.value)
      case Err(m) => Err(QuizCreation(m))
      case Ok(text) =>
        match ParseQuizJson(text, env.decode)
        case Err(m) => Err(QuizCreation(m))
        case Ok(payload) =>
          ValidateQuizPayloadCorrect(payload);
          match ValidateQuizPayload(payload)
          case Fail(m) => Err(QuizCreation(m))
          case Pass => Ok(payload)
  }

  /** Which error each failing step after the transcript raises, in the order of the steps. */
  lemma AfterTranscriptErrors(env: Environment)
    ensures GeminiClient(env.apiKey).Fail? ==> AfterTranscript(env) == Err(QuizCreation(MissingApiKey))
    ensures GeminiClient(env.apiKey).Pass? && env.aiReply.Err? ==>
      AfterTranscript(env) == Err(Unexpected(env.aiReply.error))
    ensures GeminiClient(env.apiKey).Pass? && env.aiReply.Ok? && AiText(env.aiReply.value).Err? ==>
      AfterTranscript(env) == Err(QuizCreation(EmptyAiResponse))
    ensures (&& GeminiClient(env.apiKey).Pass?
             && env.aiReply.Ok? && AiText(env.aiReply.value).Ok?
             && env.decode(ExtractJson(env.aiReply.value.s)).Err?) ==>
      AfterTranscript(env) == Err(QuizCreation(InvalidJsonPrefix + env.decode(ExtractJson(env.aiReply.value.s)).error))
  {
  }

  /** A decoded reply that fails validation is refused with the validator's message. */
  lemma InvalidPayloadRefused(env: Environment, p: Json, m: string)
    requires ReplyDecodesTo(env, p) && ValidateQuizPayload(p) == Fail(m)
    ensures AfterTranscript(env) == Err(QuizCreation(m))
  {
  }

  /** The body of the `try` in `create_quiz_from_url`, up to the payload handed to the store. */
  function Steps(cached: Option<WhisperModel>, env: Environment): (t: Trace)
    ensures t.result.Ok? ==> ValidQuiz(t.result.value)
    ensures t.innerCleanup ==> t.result.Err?
  {
    if env.download.Fail? then Trace(Err(QuizCreation(DownloadError(env.download.error))), cached, true)
    else
      var step := GetModelStep(cached, env.whisper, env.load);
      match Transcript(step.1, env.transcribe)
      case Err(m) => Trace(Err(QuizCreation(m)), step.0, true)
      case Ok(_) => Trace(AfterTranscript(env), step.0, false)
  }

  /** The whole run as a value: the payload that reaches the store, or the error raised. */
  function CreateQuiz(url: Option<string>, cached: Option<WhisperModel>, env: Environment): (r: Result<Json, PipelineError>)
    ensures r.Ok? ==> ValidQuiz(r.value)
  {
    if !IsYoutubeUrl(Some(Normalize(url))) then Err(InvalidYouTubeUrl(NotYoutube))
    else Steps(cached, env).result
  }

  /** The key is set, the AI answers with non-blank text, and that text decodes to `p`. */
  ghost predicate ReplyDecodesTo(env: Environment, p: Json) {
    && GeminiClient(env.apiKey).Pass?
    && env.aiReply.Ok?
    && AiText(env.aiReply.value).Ok?
    && ParseQuizJson(AiText(env.aiReply.value).value, env.decode) == Ok(p)
  }

  /**
   * The payload handed on after the transcript is the decoded AI reply, and it is
   * handed on exactly when every check passes.
   */
  lemma AfterTranscriptOkIff(env: Environment, p: Json)
    ensures AfterTranscript(env) == Ok(p) <==> ReplyDecodesTo(env, p) && ValidQuiz(p)
  {
    if GeminiClient(env.apiKey).Pass? && env.aiReply.Ok? && AiText(env.aiReply.value).Ok? {
      var parsed := ParseQuizJson(AiText(env.aiReply.value).value, env.decode);
      if parsed.Ok? {
        ValidateQuizPayloadCorrect(parsed.value);
      }
    }
  }

  /**
   * The steps hand on a payload exactly when the download and the transcription
   * succeed and the AI reply decodes to that payload, which is a valid quiz.
   */
  lemma StepsOkIff(cached: Option<WhisperModel>, env: Environment, p: Json)
    ensures Steps(cached, env).result == Ok(p) <==>
      && env.download.Pass?
      && Transcript(GetModelStep(cached, env.whisper, env.load).1, env.transcribe).Ok?
      && ReplyDecodesTo(env, p)
      && ValidQuiz(p)
  {
    AfterTranscriptOkIff(env, p);
  }

  /** A run hands on a payload exactly when the URL check passes and the steps hand it on. */
  lemma CreateQuizOkIff(url: Option<string>, cached: Option<WhisperModel>, env: Environment, p: Json)
    ensures CreateQuiz(url, cached, env) == Ok(p) <==>
      IsYoutubeUrl(Some(Normalize(url))) && Steps(cached, env).result == Ok(p)
  {
  }

  /**
   * The end-to-end success path: a run hands a payload to the store exactly when
   * the URL is a YouTube URL, the download and the transcription succeed, the AI
   * client answers with non-blank text, and that text decodes to a valid quiz,
   * which is then the payload.
   */
  lemma CreateQuizSucceedsIff(url: Option<string>, cached: Option<WhisperModel>, env: Environment, p: Json)
    ensures CreateQuiz(url, cached, env) == Ok(p) <==>
      && IsYoutubeUrl(Some(Normalize(url)))
      && env.download.Pass?
      && Transcript(GetModelStep(cached, env.whisper, env.load).1, env.transcribe).Ok?
      && ReplyDecodesTo(env, p)
      && ValidQuiz(p)
  {
    CreateQuizOkIff(url, cached, env, p);
    StepsOkIff(cached, env, p);
  }

  /**
   * The steps run the corrected model cache. As written, the first run with an
   * empty download root caches the model but fails the transcription step with
   * the unbound-`t0` error under the transcription prefix, where the corrected
   * step hands the loaded model to the transcription.
   */
  lemma FirstRunAsWrittenFails(env: Environment)
    requires EffectiveRoot(env.whisper) == [] && env.load(Request(env.whisper)).Ok?
    ensures var m := env.load(Request(env.whisper)).value;
      && GetModelStepAsWritten(None, env.whisper, env.load).0 == Some(m)
      && Transcript(GetModelStepAsWritten(None, env.whisper, env.load).1, env.transcribe)
         == Err(TranscribeError(UnboundT0))
      && GetModelStep(None, env.whisper, env.load) == (Some(m), Ok(m))
    ensures env.download.Pass? ==> Steps(None, env).cached == Some(env.load(Request(env.whisper)).value)
  {
    FirstLoadFailsWithoutRoot(env.whisper, env.load);
    if env.download.Pass? {
      DownloadedRunCachesModel(None, env);
    }
  }

  /** Once the download succeeds, the steps leave the cache as the model step does. */
  lemma DownloadedRunCachesModel(cached: Option<WhisperModel>, env: Environment)
    requires env.download.Pass?
    ensures Steps(cached, env).cached == GetModelStep(cached, env.whisper, env.load).0
  {
  }

  /** The steps clean up on their own exactly when the download or the transcription fails. */
  lemma InnerCleanupIff(cached: Option<WhisperModel>, env: Environment)
    ensures Steps(cached, env).innerCleanup <==>
      env.download.Fail? || Transcript(GetModelStep(cached, env.whisper, env.load).1, env.transcribe).Err?
  {
  }

  /** A failed download leaves the model cache as it was: the model is never fetched. */
  lemma DownloadFailureSkipsModel(cached: Option<WhisperModel>, env: Environment)
    requires env.download.Fail?
    ensures Steps(cached, env) == Trace(Err(QuizCreation(DownloadPrefix + env.download.error)), cached, true)
  {
  }

  /** A blank transcript is reported under the transcription prefix, not on its own. */
  lemma BlankTranscriptRewrapped(cached: Option<WhisperModel>, env: Environment)
    requires env.download.Pass? && GetModelStep(cached, env.whisper, env.load).1.Ok?
    requires env.transcribe.Ok? && env.transcribe.value.JString? && !NonBlank(env.transcribe.value.s)
    ensures Steps(cached, env).result == Err(QuizCreation(TranscribePrefix + EmptyTranscript))
  {
    StripEmptyIffBlank(env.transcribe.value.s);
  }

  /** The messages of the steps after the transcript. */
  lemma AfterTranscriptMessages(env: Environment, m: string)
    requires AfterTranscript(env) == Err(QuizCreation(m))
    ensures m == MissingApiKey || m == EmptyAiResponse || StartsWith(m, InvalidJsonPrefix) || m in ValidationMessages
  {
    if GeminiClient(env.apiKey).Pass? && env.aiReply.Ok? && AiText(env.aiReply.value).Ok? {
      var parsed := ParseQuizJson(AiText(env.aiReply.value).value, env.decode);
      if parsed.Ok? {
        ValidationMessageKnown(parsed.value, m);
      }
    }
  }

  /** Every error the pipeline raises itself carries one of its known messages or prefixes. */
  lemma QuizCreationMessages(cached: Option<WhisperModel>, env: Environment, m: string)
    requires Steps(cached, env).result == Err(QuizCreation(m))
    ensures || StartsWith(m, DownloadPrefix)
            || StartsWith(m, TranscribePrefix)
            || m == MissingApiKey
            || m == EmptyAiResponse
            || StartsWith(m, InvalidJsonPrefix)
            || m in ValidationMessages
  {
    if env.download.Pass? && !Steps(cached, env).innerCleanup {
      AfterTranscriptMessages(env, m);
    }
  }

  /** The AI client's error is the only one the steps pass on untranslated. */
  lemma UnexpectedOnlyFromAiClient(cached: Option<WhisperModel>, env: Environment, m: string)
    requires Steps(cached, env).result == Err(Unexpected(m))
    ensures env.aiReply == Err(m)
  {
    if env.download.Pass? && !Steps(cached, env).innerCleanup {
      AfterTranscriptUnexpected(env, m);
    }
  }

  /** After the transcript, only the AI client's error is passed on untranslated. */
  lemma AfterTranscriptUnexpected(env: Environment, m: string)
    requires AfterTranscript(env) == Err(Unexpected(m))
    ensures env.aiReply == Err(m)
  {
  }

  /**
   * The steps inside the `try`, with their effects: the download writes the audio
   * file, the transcription fetches the model, and the validated payload is stored.
   */
  method RunSteps(tmp: TempAudio, videoUrl: string, owner: nat, env: Environment, fs: FileSystem, cache: ModelCache, db: Database)
    returns (r: Result<nat, PipelineError>)
    requires db.Valid()
    modifies fs, cache, db
    ensures db.Valid()
    ensures var t := Steps(old(cache.cached), env);
      && cache.cached == t.cached
      && fs.files - {tmp.basePath, tmp.Mp3Path()} == old(fs.files) - {tmp.basePath, tmp.Mp3Path()}
      && fs.cleanups == old(fs.cleanups) + (if t.innerCleanup then [tmp.basePath] else [])
      && (t.result.Err? ==> r == Err(t.result.error) && db.quizzes == old(db.quizzes) && db.questions == old(db.questions))
      && (t.result.Ok? && env.commit.Fail? ==>
            r == Err(Unexpected(env.commit.error)) && db.quizzes == old(db.quizzes) && db.questions == old(db.questions))
      && (t.result.Ok? && env.commit.Pass? ==>
            var payload := t.result.value;
            && r == Ok(|old(db.quizzes)|)
            && db.quizzes == old(db.quizzes) + [QuizRow(payload.fields["title"], payload.fields["description"], videoUrl, owner)]
            && db.questions == old(db.questions) + QuestionRows(|old(db.quizzes)|, payload.fields["questions"].items))
  {
    ghost var t := Steps(cache.cached, env);
    // download_audio_from_video
    if env.download.Fail? {
      fs.CleanupAudio(tmp);
      r := Err(QuizCreation(DownloadError(env.download.error)));
      assert t.result == Err(r.error) && t.cached == cache.cached && t.innerCleanup;
      return;
    }
    fs.files := fs.files + {tmp.Mp3Path()};
    // generate_transcript
    var model := cache.GetModel(env.whisper, env.load);
    var transcript := Transcript(model, env.transcribe);
    if transcript.Err? {
      fs.CleanupAudio(tmp);
      r := Err(QuizCreation(transcript.error));
      assert t.result == Err(r.error) && t.cached == cache.cached && t.innerCleanup;
      return;
    }
    // client, AI reply, parsing and validation
    var payload := AfterTranscript(env);
    assert t == Trace(payload, cache.cached, false);
    if payload.Err? {
      r := Err(payload.error);
      return;
    }
    ValidQuizPersistable(payload.value);
    var stored := db.Persist(payload.value, videoUrl, owner, env.commit);
    if stored.Err? {
      r := Err(Unexpected(stored.error));
    } else {
      r := Ok(stored.value);
    }
  }

  /**
   * `create_quiz_from_url`: a URL that is not a YouTube URL is refused before any
   * file exists; otherwise the temporary files are removed on every way out, and a
   * quiz is stored only when the payload was validated and the store committed.
   */
  method CreateQuizFromUrl(url: Option<string>, owner: nat, env: Environment, fs: FileSystem, cache: ModelCache, db: Database)
    returns (r: Result<nat, PipelineError>)
    requires env.tmpName !in fs.files
    requires db.Valid()
    modifies fs, cache, db
    ensures db.Valid()
    ensures !IsYoutubeUrl(Some(Normalize(url))) ==>
      && r == Err(InvalidYouTubeUrl(NotYoutube))
      && fs.files == old(fs.files) && fs.cleanups == old(fs.cleanups)
      && cache.cached == old(cache.cached)
      && db.quizzes == old(db.quizzes) && db.questions == old(db.questions)
    ensures IsYoutubeUrl(Some(Normalize(url))) ==>
      var t := Steps(old(cache.cached), env);
      && fs.files == old(fs.files) - {TempAudio(env.tmpName).Mp3Path()}
      && fs.cleanups == old(fs.cleanups) + (if t.innerCleanup then [env.tmpName] else []) + [env.tmpName]
      && cache.cached == t.cached
    ensures var expected := CreateQuiz(url, old(cache.cached), env);
      && (expected.Err? ==> r == Err(expected.error) && db.quizzes == old(db.quizzes) && db.questions == old(db.questions))
      && (expected.Ok? && env.commit.Fail? ==>
            r == Err(Unexpected(env.commit.error)) && db.quizzes == old(db.quizzes) && db.questions == old(db.questions))
      && (expected.Ok? && env.commit.Pass? ==>
            && r == Ok(|old(db.quizzes)|)
            && db.quizzes == old(db.quizzes)
                 + [QuizRow(expected.value.fields["title"], expected.value.fields["description"], Normalize(url), owner)]
            && db.questions == old(db.questions) + QuestionRows(|old(db.quizzes)|, expected.value.fields["questions"].items))
  {
    var normalized := Normalize(url);
    if !IsYoutubeUrl(Some(normalized)) {
      r := Err(InvalidYouTubeUrl(NotYoutube));
      return;
    }
    var tmp := fs.MakeTempAudio(env.tmpName);
    r := RunSteps(tmp, normalized, owner, env, fs, cache, db);
    // finally
    fs.CleanupAudio(tmp);
  }
}
