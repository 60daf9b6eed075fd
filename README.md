# Quiz generation pipeline — a Dafny model

This project models the deterministic core of a Django service that turns a YouTube
video into a ten-question multiple-choice quiz. The modelled code lives in
`backend/apps/quiz_management_app/utils.py`, `api/serializers.py` and `admin.py`.

- **URL helpers** (`youtube_url.dfy`). Short `youtu.be` links are canonicalised into
  watch URLs, and a case-insensitive test decides whether a URL is a YouTube URL.
- **AI reply handling** (`quiz_payload.dfy`).
  - The JSON candidate is cut out of free text.
  - Decoding is a parameter, and a decoder error becomes "invalid JSON".
  - The ordered, fail-fast schema check runs over a decoded JSON tree. It yields the
    first failing message.
- **Temporary audio files** (`temp_files.dfy`). A `FileSystem` class holds the set of
  existing paths. It has `os.remove`, `safe_remove`, `cleanup_audio` and the creation
  of the base file.
- **Speech-model cache** (`whisper_cache.dfy`).
  - The load-once model cache is a class.
  - Two single-call step functions sit next to it: one as the source is written and
    one corrected (see Findings).
  - Sequences of calls are replayed to show that the model is loaded once.
- **Store** (`quiz_store.dfy`). A `Database` class holds quiz and question rows.
  `_persist_quiz` is an all-or-nothing write of one quiz row and one row per question.
- **Orchestrator** (`pipeline.dfy`).
  - `create_quiz_from_url` is written as methods over the file system, the model cache
    and the database.
  - The pure `Steps` / `CreateQuiz` functions specify its result.
  - The downloader, the speech model, the AI service, the JSON decoder, the database
    commit and the operating system's random file name are the fields of an
    `Environment` value.
- **Strict serializer check** (`serializers.dfy`). This is
  `StrictModelSerializer.to_internal_value` and the field set of
  `QuizUpdateSerializer`, together with the Python string order that `sorted` uses.
  A request body is its list of key/value pairs in the order received.
- **Admin title** (`admin.dfy`). This is `question_title_short`.
- **Shared helpers.** `wrappers.dfy` and `text.dfy` hold `Option`/`Result`/`Outcome`
  and the Python `str` operations used: `strip`, `startswith`, `in`, `replace`,
  `split(c, 1)[0]`, `lower` and `join`.

Python's `None` is `Option.None`. A raised exception is an `Err`/`Fail` value that
carries its message. The three exception kinds of the pipeline are the
`PipelineError` variants `InvalidYouTubeUrl`, `QuizCreation` and `Unexpected`.
`Unexpected` is an exception that the pipeline passes on untranslated: from the AI
client or the database.

## Model

All source paths are relative to the repository root.

| member | source | states |
|---|---|---|
| YoutubeUrl.Normalize | backend/apps/quiz_management_app/utils.py:36-41 | `normalize_youtube_url` itself. Its contract is stated by `NormalizeShortLink` and `NormalizeOtherwiseTrims` (the two branches), `NormalizeTwiceOnlyStrips` and `NormalizeIdempotentIff` (repeated calls). |
| YoutubeUrl.IsYoutubeUrl | backend/apps/quiz_management_app/utils.py:44-46 | `is_youtube_url` itself. Its contract is stated by `WatchUrlAccepted`, `ShortLinkAccepted`, `AcceptsShortHost` and `RejectsOtherHost`. |
| YoutubeUrl.NormalizeShortLink | backend/apps/quiz_management_app/utils.py:36-40 | A trimmed input that starts with the short prefix keeps its text up to the first `?`. Every short prefix in that text, not only the leading one, becomes the watch prefix. With no second short prefix, the result is the watch prefix followed by the identifier. |
| YoutubeUrl.NormalizeTrimmedShortLink | backend/apps/quiz_management_app/utils.py:36-40 | For a short link with no surrounding white space and its first `?` at position k, the result is the watch prefix plus the text between the prefix and k. |
| YoutubeUrl.NormalizeShortExample | backend/apps/quiz_management_app/utils.py:36-40 | `https://youtu.be/abc123?si=foo` becomes `https://www.youtube.com/watch?v=abc123`. |
| YoutubeUrl.NormalizeOtherwiseTrims | backend/apps/quiz_management_app/utils.py:36-41 | Any input that is not a short link after trimming is only trimmed. `None` becomes the empty string. |
| YoutubeUrl.NormalizeTrimmedOther | backend/apps/quiz_management_app/utils.py:36-41 | A trimmed URL that is not a short link is returned as it is. |
| YoutubeUrl.NormalizeWatchExample | backend/apps/quiz_management_app/utils.py:36-41 | A canonical watch URL is a fixed point. |
| YoutubeUrl.WatchIsNotShort | backend/apps/quiz_management_app/utils.py:32-33 | Nothing that starts with the watch prefix starts with the short prefix. |
| YoutubeUrl.StrippedWatchIsNotShort | backend/apps/quiz_management_app/utils.py:36-41 | A watch URL is still not a short link after trimming. |
| YoutubeUrl.NormalizeShortIsWatch | backend/apps/quiz_management_app/utils.py:38-40 | A rewritten short link starts with the watch prefix. |
| YoutubeUrl.NormalizeStartsClean | backend/apps/quiz_management_app/utils.py:36-41 | A normalised URL never starts with white space. |
| YoutubeUrl.NormalizeTwiceOnlyStrips | backend/apps/quiz_management_app/utils.py:36-41 | Normalising twice is normalising once and then trimming. |
| YoutubeUrl.NormalizeIdempotentIff | backend/apps/quiz_management_app/utils.py:36-41 | Normalisation is idempotent on a URL if and only if its result is empty or does not end in white space. |
| YoutubeUrl.NormalizeNotIdempotent | backend/apps/quiz_management_app/utils.py:36-41 | `https://youtu.be/abc ?x` becomes `https://www.youtube.com/watch?v=abc ` with a trailing space, which a second call changes. So idempotence fails in general. |
| YoutubeUrl.WatchUrlAccepted | backend/apps/quiz_management_app/utils.py:44-46 | Every URL that starts with the watch prefix passes the YouTube test. |
| YoutubeUrl.ShortLinkAccepted | backend/apps/quiz_management_app/utils.py:36-46 | Every rewritten short link passes the YouTube test. |
| YoutubeUrl.AcceptsShortHost | backend/apps/quiz_management_app/utils.py:44-46 | The test ignores letter case: `HTTPS://YOUTU.BE/ABC` is accepted. |
| YoutubeUrl.RejectsOtherHost | backend/apps/quiz_management_app/utils.py:44-46 | `https://vimeo.com/123` and `None` are rejected. |
| QuizPayload.DropToBrace | backend/apps/quiz_management_app/utils.py:275 | The result is a suffix of the text. The dropped part holds no `{`. The result is empty or starts with `{`. |
| QuizPayload.DropToBraceAt | backend/apps/quiz_management_app/utils.py:275 | The cut falls exactly at the first `{`. |
| QuizPayload.RemoveBackticks | backend/apps/quiz_management_app/utils.py:276 | No backtick remains. Every other character occurs in the result if and only if it occurs in the input. |
| QuizPayload.RemoveBackticksAppend | backend/apps/quiz_management_app/utils.py:276 | Backtick removal distributes over concatenation. |
| QuizPayload.RemoveBackticksNone | backend/apps/quiz_management_app/utils.py:276 | Text without backticks is unchanged. |
| QuizPayload.ExtractJson | backend/apps/quiz_management_app/utils.py:270-277 | `extract_json` itself. Its contract is stated by `ExtractJsonShape` and `ExtractJsonFenced`. |
| QuizPayload.ExtractJsonShape | backend/apps/quiz_management_app/utils.py:270-277 | The candidate holds no backtick. It is empty if and only if the text has no `{`, and otherwise it starts with `{`. |
| QuizPayload.ExtractJsonFenced | backend/apps/quiz_management_app/utils.py:270-277 | A reply made of a lead-in without `{`, an object text and a closing fence of backticks and white space yields exactly the object text. |
| QuizPayload.ParseQuizJson | backend/apps/quiz_management_app/utils.py:280-284 | Decoding succeeds if and only if the decoder accepts the extracted candidate, and then it returns that tree. A failure message is `Gemini returned invalid JSON: ` followed by the decoder's diagnostic. |
| QuizPayload.NonBlankStringCorrect | backend/apps/quiz_management_app/utils.py:311 | `isinstance(v, str) and v.strip()` holds exactly for strings with a non-white-space character. |
| QuizPayload.ElementSetSize | backend/apps/quiz_management_app/utils.py:320 | `len(set(opts)) == len(opts)` holds if and only if the options are pairwise distinct. |
| QuizPayload.ElementSetRepeat | backend/apps/quiz_management_app/utils.py:320 | A repeated option makes the set smaller than the list. |
| QuizPayload.OptionChecksCorrect | backend/apps/quiz_management_app/utils.py:314-321 | For four options, the non-blank check and the set-size check together accept exactly four non-blank strings that are pairwise different. |
| QuizPayload.NonBlankStringsChecked | backend/apps/quiz_management_app/utils.py:317 | Non-blank string options pass the per-option check. |
| QuizPayload.AnswerCheckCorrect | backend/apps/quiz_management_app/utils.py:323-324 | The answer check accepts exactly a string equal to one option, without trimming or case folding. |
| QuizPayload.ValidateQuestionFields | backend/apps/quiz_management_app/utils.py:307-324 | The ordered checks of `_validate_question` on the looked-up fields. Their contract is stated by `ValidateQuestionFieldsCorrect`, by the message lemmas `BlankTitleReported`, `OptionCountReported`, `BlankOptionReported`, `DuplicateOptionsReported` and `AnswerNotAnOptionReported`, and by `QuestionMessageKnown`. |
| QuizPayload.ValidateQuestion | backend/apps/quiz_management_app/utils.py:303-324 | `_validate_question` itself. Its contract is stated by `ValidateQuestionCorrect`, `NonObjectQuestionReported`, the message lemmas of `ValidateQuestionFields` and `QuestionMessageKnown`. |
| QuizPayload.ValidateQuestions | backend/apps/quiz_management_app/utils.py:299-300 | The `for q in questions` loop. Its contract is stated by `ValidateQuestionsIsFirstFailure`, `ValidateQuestionsFirstFailure` and `ValidateQuestionsAll`. |
| QuizPayload.ValidateQuizPayload | backend/apps/quiz_management_app/utils.py:287-300 | `validate_quiz_payload` itself. Its contract is stated by `ValidateQuizPayloadCorrect`, `PayloadMessagesInOrder`, `QuestionsMessageReported`, `FirstBadQuestionReported`, `ValidateQuestionsFirstFailure`, `ValidationMessageKnown` and `TitleAndDescriptionUnchecked`. |
| QuizPayload.ValidateQuestionFieldsCorrect | backend/apps/quiz_management_app/utils.py:307-324 | The checks on the looked-up title, options and answer pass if and only if those fields are well formed. |
| QuizPayload.ValidateQuestionCorrect | backend/apps/quiz_management_app/utils.py:303-324 | A question passes if and only if it satisfies the declarative `WellFormedQuestion`. |
| QuizPayload.PayloadMessagesInOrder | backend/apps/quiz_management_app/utils.py:287-297 | A payload that is not an object fails with `Invalid quiz payload type.`. An object missing `title`, `description` or `questions` fails with `Gemini payload missing required keys.`. An object with all three keys whose `questions` is not a list of exactly 10 fails with `Gemini payload must contain exactly 10 questions.`. |
| QuizPayload.QuestionsMessageReported | backend/apps/quiz_management_app/utils.py:287-300 | Once the payload is an object with the three keys and exactly 10 questions, its verdict is the question loop's verdict, so the question messages reach `validate_quiz_payload`. |
| QuizPayload.FirstBadQuestionReported | backend/apps/quiz_management_app/utils.py:287-324 | A payload that passes its own checks fails with the message of its first failing question. |
| QuizPayload.NonObjectQuestionReported | backend/apps/quiz_management_app/utils.py:303-305 | A question that is not an object fails with `Invalid question payload.`, also as the first question of the loop. |
| QuizPayload.BlankTitleReported | backend/apps/quiz_management_app/utils.py:307-312 | A missing, non-string or blank title fails with `Each question must have a non-empty question_title.`, whatever the options and the answer. |
| QuizPayload.OptionCountReported | backend/apps/quiz_management_app/utils.py:311-315 | With a good title, options that are missing, not a list or not exactly four fail with `Each question must have exactly 4 options.`, whatever the answer. |
| QuizPayload.BlankOptionReported | backend/apps/quiz_management_app/utils.py:311-318 | With a good title and four options, one option that is not a non-blank string gives `All options must be non-empty strings.`, whatever the answer. |
| QuizPayload.QuestionMessageKnown | backend/apps/quiz_management_app/utils.py:303-324 | A rejected question carries one of the validator's fixed messages. |
| QuizPayload.DuplicateOptionsReported | backend/apps/quiz_management_app/utils.py:311-321 | With a good title and four non-blank options of which two are equal, the question fails with `Options must be distinct.`, whatever the answer. |
| QuizPayload.AnswerNotAnOptionReported | backend/apps/quiz_management_app/utils.py:311-324 | With a good title and well-formed options, an answer that is missing, not a string or not equal to an option fails with `Answer must be one of the options.`. |
| QuizPayload.DuplicateOptionsExample | backend/apps/quiz_management_app/utils.py:311-324 | The options `a, a, c, d` with answer `a` report the duplicates, not the answer. |
| QuizPayload.FirstFailureIff | backend/apps/quiz_management_app/utils.py:299-300 | The first failure of a list of verdicts is a failing verdict preceded only by passing ones. |
| QuizPayload.FirstFailurePass | backend/apps/quiz_management_app/utils.py:299-300 | There is no first failure if and only if every verdict passes. |
| QuizPayload.ValidateQuestionsIsFirstFailure | backend/apps/quiz_management_app/utils.py:299-300 | The question loop reports the first failing verdict. |
| QuizPayload.ValidateQuestionsFirstFailure | backend/apps/quiz_management_app/utils.py:299-300 | Fail-fast: the loop fails with a message if and only if some question fails with it and all questions before that one pass. |
| QuizPayload.ValidateQuestionsAll | backend/apps/quiz_management_app/utils.py:299-300 | The loop passes if and only if every question passes. |
| QuizPayload.QuestionsWellFormed | backend/apps/quiz_management_app/utils.py:299-300 | The loop passes if and only if every question meets the declarative question rules (an object with a non-blank title, four distinct non-blank string options and an answer among them). |
| QuizPayload.ValidateQuizPayloadCorrect | backend/apps/quiz_management_app/utils.py:287-300 | A payload passes if and only if it satisfies `ValidQuiz`: an object with `title`, `description` and `questions`, where `questions` is an array of exactly 10 well-formed questions. |
| QuizPayload.ValidationMessageKnown | backend/apps/quiz_management_app/utils.py:287-324 | Every validation failure carries one of the nine fixed messages. |
| QuizPayload.TitleAndDescriptionUnchecked | backend/apps/quiz_management_app/utils.py:291-293 | Replacing the values of `title` and `description` never changes the verdict. Only their presence is checked. |
| TempFiles.TempAudio.Mp3Path | backend/apps/quiz_management_app/utils.py:56-58 | `TempAudio.mp3_path`. Its contract is stated by `Mp3PathShape` and `Mp3PathInjective`. |
| TempFiles.Mp3PathShape | backend/apps/quiz_management_app/utils.py:56-58 | The audio path is the base path followed by four more characters, so it differs from the base path. |
| TempFiles.Mp3PathInjective | backend/apps/quiz_management_app/utils.py:56-58 | Different base paths give different audio paths. |
| TempFiles.FileSystem.Remove | backend/apps/quiz_management_app/utils.py:69 | An existing path is deleted. A missing path fails with "No such file or directory" and nothing changes. |
| TempFiles.FileSystem.SafeRemove | backend/apps/quiz_management_app/utils.py:67-71 | The path is absent afterwards and nothing else changes, whether or not it existed. |
| TempFiles.FileSystem.CleanupAudio | backend/apps/quiz_management_app/utils.py:74-76 | Exactly the base path and the audio path are removed, and the call is recorded. |
| TempFiles.FileSystem.MakeTempAudio | backend/apps/quiz_management_app/utils.py:61-64 | A fresh name becomes an existing base path. Nothing else changes. |
| WhisperCache.Request | backend/apps/quiz_management_app/utils.py:139-160 | The model name is the configured `WHISPER_MODEL`, or `small` when it is not defined. A `download_root` argument is passed if and only if the configured root has a non-white-space character, and the argument is the trimmed root. |
| WhisperCache.GetModelStep | backend/apps/quiz_management_app/utils.py:133-165 | Corrected step. A cached model is returned and kept. On an empty cache, the result is exactly what the loader returns. A successful result is always what the cache then holds. The call succeeds if and only if a model was cached or the loader succeeds. |
| WhisperCache.GetModelStepAsWritten | backend/apps/quiz_management_app/utils.py:133-165 | Step as written. A cached model is returned and kept. A successful result is what the cache then holds. |
| WhisperCache.FirstLoadFailsWithoutRoot | backend/apps/quiz_management_app/utils.py:147-162 | With an empty root and a working loader, the code as written caches the model but fails the first call with the unbound-`t0` error, and the next call succeeds. The corrected step succeeds at once. |
| WhisperCache.AsWrittenAgreesWithRoot | backend/apps/quiz_management_app/utils.py:147-165 | With a download root configured, the code as written and the corrected step agree. |
| WhisperCache.Replay | backend/apps/quiz_management_app/utils.py:133-160 | The cache content after a sequence of `get_whisper_model` calls and one result per call. The lemmas `ReplayConsistent`, `ReplaySameModel` and `LoadsAtMostOnce` state its contract. |
| WhisperCache.ReplayConsistent | backend/apps/quiz_management_app/utils.py:133-160 | Over any sequence of calls, a cached model is never replaced, and every successful call returns the model the cache finally holds. |
| WhisperCache.ReplaySameModel | backend/apps/quiz_management_app/utils.py:133-160 | Any two successful calls of a sequence return the same model. |
| WhisperCache.LoadsAtMostOnce | backend/apps/quiz_management_app/utils.py:133-160 | The loader succeeds at most once in any sequence of calls, and never once a model is cached. |
| WhisperCache.ModelCache.GetModel | backend/apps/quiz_management_app/utils.py:128-165 | The new cache content and the result are those of the corrected step. The loader runs only when the cache was empty. |
| QuizStore.ValidQuizPersistable | backend/apps/quiz_management_app/utils.py:350-368 | Every payload the validator accepts has every key `_persist_quiz` reads, with exactly 10 question items. |
| QuizStore.QuestionRows | backend/apps/quiz_management_app/utils.py:358-368 | There is one question row per item, in order. Each row points at the new quiz and carries the item's `question_title`, `question_options` and `answer` as given. |
| QuizStore.Database.Persist | backend/apps/quiz_management_app/utils.py:349-370 | On commit, one quiz row with the payload's title, description, URL and owner is appended, followed by one question row per item, and the call returns the new quiz's id. On a database error nothing changes. Every question row names an existing quiz. |
| Pipeline.DownloadError | backend/apps/quiz_management_app/utils.py:120-122 | A download failure is re-raised as `Error downloading audio: ` followed by the downloader's message. |
| Pipeline.TranscribeError | backend/apps/quiz_management_app/utils.py:189-191 | A transcription failure is re-raised as `Error transcribing audio: ` followed by the original message. |
| Pipeline.Transcript | backend/apps/quiz_management_app/utils.py:168-191 | The transcript is trimmed and non-empty. It succeeds if and only if the model is available, transcription succeeds and its text is a non-blank string. Every failure, the function's own two included, carries the transcription prefix. `TranscriptValue` states the value and `TranscriptErrors` the message of each failure. |
| Pipeline.TranscriptValue | backend/apps/quiz_management_app/utils.py:179-187 | A successful transcript is the transcription text with its surrounding white space removed. |
| Pipeline.TranscriptErrors | backend/apps/quiz_management_app/utils.py:168-191 | In the order of the checks, the failure message is the transcription prefix followed by: the model error, then the transcription error, then `Whisper returned invalid transcript text.` for non-string text, then `Whisper returned an empty transcript.` for blank text. |
| Pipeline.GeminiClient | backend/apps/quiz_management_app/utils.py:202-204 | A refused key yields `Missing GEMINI_API_KEY in settings.`. |
| Pipeline.GeminiClientRefuses | backend/apps/quiz_management_app/utils.py:202-204 | Exactly the unset and the empty key are refused. A key of white space passes. |
| Pipeline.AiText | backend/apps/quiz_management_app/utils.py:339-341 | The reply passes if and only if it is a string with a non-white-space character, and it is passed on untrimmed. Otherwise the error is `Gemini returned an empty or invalid response.`. |
| Pipeline.AfterTranscript | backend/apps/quiz_management_app/utils.py:338-343 | A payload reaches the store only if it is a valid quiz. `AfterTranscriptOkIff` states which payload is handed on and when, and `AfterTranscriptErrors` and `InvalidPayloadRefused` which error each failing step raises. |
| Pipeline.AfterTranscriptErrors | backend/apps/quiz_management_app/utils.py:338-342 | In the order of the steps: a refused key gives the missing-key message, an AI client error is passed on as raised, a blank or non-string reply gives the empty-response message, and a decoder failure gives `Gemini returned invalid JSON: ` followed by the diagnostic. |
| Pipeline.InvalidPayloadRefused | backend/apps/quiz_management_app/utils.py:342-343 | A reply that decodes to a payload the validator refuses fails with the validator's message. |
| Pipeline.Steps | backend/apps/quiz_management_app/utils.py:335-344 | Only a valid quiz is handed to the store. A step that cleaned up itself always ends in an error. `StepsOkIff` states which payload is handed on and when. |
| Pipeline.CreateQuiz | backend/apps/quiz_management_app/utils.py:330-344 | The whole run hands only valid quizzes to the store. `CreateQuizSucceedsIff` states which payload is handed on and when. |
| Pipeline.AfterTranscriptOkIff | backend/apps/quiz_management_app/utils.py:338-343 | After the transcript, the payload handed on is exactly the decoded AI reply. It is handed on if and only if the key is set, the client answers with non-blank text, that text decodes, and the result is a valid quiz. |
| Pipeline.StepsOkIff | backend/apps/quiz_management_app/utils.py:335-343 | The steps hand on payload p if and only if the download and the transcription succeed, the key is set, the AI answers with non-blank text, and that text decodes to p, which is a valid quiz. |
| Pipeline.CreateQuizSucceedsIff | backend/apps/quiz_management_app/utils.py:330-343 | End to end: a run hands payload p to the store if and only if the URL is a YouTube URL, the download and the transcription succeed, the key is set, the AI answers with non-blank text, and that text decodes to p, which is a valid quiz. |
| Pipeline.FirstRunAsWrittenFails | backend/apps/quiz_management_app/utils.py:147-191 | The steps use the corrected cache. As written, a first run with an empty download root caches the model, but the transcription step fails with `Error transcribing audio: ` and the unbound-`t0` message. The corrected step hands the loaded model on. |
| Pipeline.InnerCleanupIff | backend/apps/quiz_management_app/utils.py:117-191 | A step cleans up itself exactly when the download or the transcription fails. |
| Pipeline.DownloadFailureSkipsModel | backend/apps/quiz_management_app/utils.py:335-337 | A failed download yields its prefixed message and leaves the model cache untouched. |
| Pipeline.BlankTranscriptRewrapped | backend/apps/quiz_management_app/utils.py:183-191 | A blank transcript fails as `Error transcribing audio: Whisper returned an empty transcript.`. |
| Pipeline.AfterTranscriptMessages | backend/apps/quiz_management_app/utils.py:338-343 | After the transcript, a pipeline error is the missing-key message, the empty-reply message, an invalid-JSON message or a validation message. |
| Pipeline.QuizCreationMessages | backend/apps/quiz_management_app/utils.py:335-344 | Every error the steps raise themselves carries one of the known messages or prefixes. |
| Pipeline.AfterTranscriptUnexpected | backend/apps/quiz_management_app/utils.py:338-343 | After the transcript, only the AI client's error is passed on untranslated. |
| Pipeline.UnexpectedOnlyFromAiClient | backend/apps/quiz_management_app/utils.py:335-344 | Among the steps, only the AI client's error is passed on untranslated. |
| Pipeline.RunSteps | backend/apps/quiz_management_app/utils.py:335-344 | The `try` body behaves as `Steps` says. The cache ends as `Steps` says, and no file other than the base and audio paths changes. A clean-up is recorded exactly when a step cleaned up itself. Rows are added only for a valid payload and a committed transaction. |
| Pipeline.CreateQuizFromUrl | backend/apps/quiz_management_app/utils.py:330-346 | A non-YouTube URL is refused with `Not a YouTube URL.` before any file exists, and nothing changes. Otherwise the files end as before minus the audio path, and the final clean-up is recorded last, after any clean-up of a failed step. The result and the tables follow `CreateQuiz` and the commit. |
| Serializers.LessIrreflexive | backend/apps/quiz_management_app/api/serializers.py:14 | No string sorts before itself. |
| Serializers.LessTransitive | backend/apps/quiz_management_app/api/serializers.py:14 | The string order is transitive. |
| Serializers.LessTotal | backend/apps/quiz_management_app/api/serializers.py:14 | Of two different strings, one sorts first. |
| Serializers.LessAsymmetric | backend/apps/quiz_management_app/api/serializers.py:14 | Two strings never sort before each other. |
| Serializers.Insert | backend/apps/quiz_management_app/api/serializers.py:14 | Insertion keeps a list ascending without repetitions and adds exactly the new name. |
| Serializers.SortedSet | backend/apps/quiz_management_app/api/serializers.py:14 | `sorted(set(keys))` is ascending, without repetitions, and holds exactly the keys. |
| Serializers.SortedUnique | backend/apps/quiz_management_app/api/serializers.py:14 | Two ascending lists without repetitions that hold the same names are equal, so the sorted list depends only on the set. |
| Serializers.Undeclared | backend/apps/quiz_management_app/api/serializers.py:9-11 | It holds exactly the received keys that are not declared. |
| Serializers.UnexpectedFields | backend/apps/quiz_management_app/api/serializers.py:9-14 | It holds exactly the undeclared received keys, ascending and once each. |
| Serializers.ToInternalValue | backend/apps/quiz_management_app/api/serializers.py:7-16 | Control passes to the parent conversion if and only if every received key is declared, the empty body included. Otherwise one `non_field_errors` message is raised, starting with `Unexpected fields: `. |
| Serializers.UnexpectedMessage | backend/apps/quiz_management_app/api/serializers.py:11-15 | The message is `Unexpected fields: ` followed by the unexpected names, ascending and joined by `, `. |
| Serializers.VideoUrlRefused | backend/apps/quiz_management_app/api/serializers.py:50-57 | A title and description update is accepted. The same update with `video_url` is refused with `Unexpected fields: video_url`. |
| Serializers.ApplyFields | backend/apps/quiz_management_app/api/serializers.py:55-57 | The new `title` and `description` are each the last value the request gives for them, or the old value when the request does not name them. The video URL and the owner are never touched. |
| Serializers.PatchQuiz | backend/apps/quiz_management_app/api/serializers.py:50-57 | An accepted update gives the row the last `title` and `description` the request carries, keeping the old value of a field it does not name, and keeps the video URL and owner. A refused update is a validation error. |
| Serializers.LastValue | backend/apps/quiz_management_app/api/serializers.py:7-16 | The result is the value of the last pair with the key, with no later pair for it, or the fallback when no pair has the key. |
| Serializers.LastValueCons | backend/apps/quiz_management_app/api/serializers.py:7-16 | Reading the pairs from the front, a leading pair for the key only replaces the fallback. |
| Serializers.PatchSetsTitleAndDescription | backend/apps/quiz_management_app/api/serializers.py:50-57 | An update that gives a title and a description sets both and keeps the rest of the row. |
| Serializers.PatchKeepsVideoUrl | backend/apps/quiz_management_app/api/serializers.py:50-57 | An update succeeds if and only if it names only `title` and `description`, and it never changes the stored video URL. |
| Admin.QuestionTitleShort | backend/apps/quiz_management_app/admin.py:34-36 | The result is never longer than 53 characters. `None` and titles of at most 50 characters are shown as they are, with `None` shown as empty. A longer title shows its first 50 characters followed by `...`, 53 characters in all. |
| Admin.QuestionTitleShortIdempotent | backend/apps/quiz_management_app/admin.py:34-36 | Shortening a shown title again changes nothing. |
| Admin.QuestionTitleShortCollides | backend/apps/quiz_management_app/admin.py:36 | Two long titles are shown alike if and only if their first 50 characters agree. |

## Left out

- The downloader options, the cookie file, the `yt_dlp` call and its partial files (utils.py:82-119). A download is an outcome: it completes and writes the `.mp3` file, or it raises with a message.
- `whisper.load_model` and `model.transcribe`. They are a loader function and a transcription outcome in the `Environment`.
- The `google.genai` client and `get_ai_response`. The client's reply or error is an `Environment` field.
- `build_quiz_prompt` is a fixed text template, so the prompt is not modelled.
- `json.loads` is the `decode` parameter. It returns a tree or the decoder's diagnostic.
- Logging, `time.time()` and the `Path.glob` listing in `get_whisper_model` are diagnostics only. The unbound `t0` read is modelled only in `WhisperCache.GetModelStepAsWritten`: see Findings.
- Pipeline.Steps, Pipeline.RunSteps and Pipeline.CreateQuizFromUrl use the corrected cache step (`GetModelStep` / `ModelCache.GetModel`), not the code as written.
  - Take an unset or empty `WHISPER_DOWNLOAD_ROOT` (the settings default), an empty cache and a working loader.
  - As written, the first run caches the model and then fails with `Error transcribing audio: ` and the unbound-`t0` message.
  - In that failing run the temporary files are cleaned up twice and no rows are written.
  - The model's run goes on to the transcription instead. `FirstRunAsWrittenFails` states the difference.
- The Django ORM, `transaction.atomic`, the model classes and the database's own identifiers.
  - The store is two sequences, and a quiz's id is its position.
  - Commit success is a parameter.
  - Field coercion by the model fields (for example a non-string title) is not modelled.
- Concurrency. The model cache is a single sequential object, with no locking or parallel first loads.
- `str(settings.WHISPER_DOWNLOAD_ROOT)` applied to a non-string setting is not modelled. An undefined setting is `None` and counts as the empty string.
- A `WHISPER_MODEL` setting that is not a string is not modelled. The setting is a string or undefined.
- Text.Lower: lower-cases ASCII letters only. The YouTube test searches for needles made of lower-case ASCII letters and punctuation without `i` or `k`. No non-ASCII character lower-cases to one of those letters: only U+0130 and U+212A lower-case to ASCII, as `i` and `k`. So the test agrees with Python's full `str.lower`.
- TempFiles.FileSystem.Remove: permission and other operating-system errors are not modelled. `os.remove` fails only on a missing path.
- TempFiles.FileSystem.MakeTempAudio: the random name is the parameter `name`, and that it is fresh is the operating system's guarantee.
- Serializers.PatchQuiz: DRF's own field validation after the hand-over (types, lengths) is not modelled. Accepted fields are written as given.
- The request body is its ordered list of key/value pairs, not a Python dict. The message is proved to depend only on the set of names.
- Serializers.ToInternalValue: a request body that is not a JSON object is not modelled, because the body is always a list of key/value pairs.
  - For a list or string body, `data.keys()` (serializers.py:10) raises `AttributeError` before the parent's mapping check runs.
  - That surfaces as a server error, not a validation error.

## Findings

| source | as written | input that shows it | evidently intended | confidence | as-written member | corrected member |
|---|---|---|---|---|---|---|
| backend/apps/quiz_management_app/utils.py:147-162 | `t0` is assigned only inside `if download_root:` but read after every load. With an empty download root, the first call stores the model in the global and then raises an unbound-local error. | `WHISPER_DOWNLOAD_ROOT` unset or `""` (the settings default), an empty cache and a working loader. The first call fails, and `generate_transcript` reports `Error transcribing audio: ...`. The second call returns the cached model. | The model is timed, or at least returned, whether or not a download root is configured. The first call returns the freshly loaded model, as the cache test expects. | high, not executed | WhisperCache.FirstLoadFailsWithoutRoot | WhisperCache.GetModelStep |
