/**
 * The in-process cache of the speech-recognition model. The first request loads
 * the model through the loader and keeps it; later requests reuse it. The loader
 * is a parameter: a function from the load request to the model or the error the
 * library raised.
 */
module WhisperCache {
  import opened Wrappers
  import opened Text

  /** A loaded speech-recognition model, identified by what it was loaded from. */
  datatype WhisperModel = WhisperModel(name: string, downloadRoot: Option<string>)

  /** The two settings the cache reads; `None` is a setting that is not defined. */
  datatype WhisperSettings = WhisperSettings(modelName: Option<string>, downloadRoot: Option<string>)

  /** The arguments of one `whisper.load_model` call: no `download_root` argument is `None`. */
  datatype LoadRequest = LoadRequest(name: string, downloadRoot: Option<string>)

  /** A model loader: the model, or the message of the error it raised. */
  type Loader = LoadRequest -> Result<WhisperModel, string>

  const DefaultModelName: string := "small"

  /** The message Python gives when `t0` is read before it was ever assigned. */
  const UnboundT0: string := "cannot access local variable 't0' where it is not associated with a value"

  /** The trimmed download root; an undefined setting counts as the empty string. */
  function EffectiveRoot(s: WhisperSettings): string {
    Strip(s.downloadRoot.GetOr(""))
  }

  /**
   * The load call the settings lead to: the configured model name or `small`,
   * with a `download_root` argument only when the trimmed root is not empty.
   */
  function Request(s: WhisperSettings): (req: LoadRequest)
    ensures s.modelName.None? ==> req.name == DefaultModelName
    ensures s.modelName.Some? ==> req.name == s.modelName.value
    ensures req.downloadRoot.Some? <==> NonBlank(s.downloadRoot.GetOr(""))
    ensures req.downloadRoot.Some? ==> req.downloadRoot.value == EffectiveRoot(s) && EffectiveRoot(s) != []
  {
    StripEmptyIffBlank(s.downloadRoot.GetOr(""));
    var root := EffectiveRoot(s);
    LoadRequest(s.modelName.GetOr(DefaultModelName), if root != [] then Some(root) else None)
  }

  /**
   * One call of `get_whisper_model`, corrected so that the timing code cannot fail:
   * the new cache content and the call's result. A cached model is returned
   * without loading; otherwise the loader runs once and its model is cached.
   */
  function GetModelStep(cached: Option<WhisperModel>, s: WhisperSettings, load: Loader): (r: (Option<WhisperModel>, Result<WhisperModel, string>))
    ensures cached.Some? ==> r.0 == cached && r.1 == Ok(cached.value)
    ensures cached.None? ==> r.1 == load(Request(s))
    ensures r.1.Ok? ==> r.0 == Some(r.1.value)
    ensures r.1.Ok? <==> cached.Some? || load(Request(s)).Ok?
    ensures r.0.None? ==> r.1.Err? && r.1 == load(Request(s))
  {
    if cached.Some? then (cached, Ok(cached.value))
    else
      match load(Request(s))
      case Ok(m) => (Some(m), Ok(m))
      case Err(e) => (None, Err(e))
  }

  /**
   * One call of `get_whisper_model` as written: `t0` is assigned only when the
   * download root is not empty but read after every load, so with an empty root
   * the freshly loaded model is cached and the call still fails.
   */
  function GetModelStepAsWritten(cached: Option<WhisperModel>, s: WhisperSettings, load: Loader): (r: (Option<WhisperModel>, Result<WhisperModel, string>))
    ensures cached.Some? ==> r.0 == cached && r.1 == Ok(cached.value)
    ensures r.1.Ok? ==> r.0 == Some(r.1.value)
  {
    if cached.Some? then (cached, Ok(cached.value))
    else
      match load(Request(s))
      case Ok(m) => if EffectiveRoot(s) != [] then (Some(m), Ok(m)) else (Some(m), Err(UnboundT0))
      case Err(e) => (None, Err(e))
  }

  /**
   * The defect: with an empty download root, the first successful load is
   * reported as an error although the model is cached, and the very next call
   * returns that model; the corrected step reports the load as it happened.
   */
  lemma FirstLoadFailsWithoutRoot(s: WhisperSettings, load: Loader)
    requires EffectiveRoot(s) == [] && load(Request(s)).Ok?
    ensures var m := load(Request(s)).value;
      && GetModelStepAsWritten(None, s, load) == (Some(m), Err(UnboundT0))
      && GetModelStepAsWritten(Some(m), s, load) == (Some(m), Ok(m))
      && GetModelStep(None, s, load) == (Some(m), Ok(m))
  {
  }

  /** With a download root configured, the code as written behaves as the corrected step. */
  lemma AsWrittenAgreesWithRoot(cached: Option<WhisperModel>, s: WhisperSettings, load: Loader)
    requires EffectiveRoot(s) != []
    ensures GetModelStepAsWritten(cached, s, load) == GetModelStep(cached, s, load)
  {
  }

  /** One call of a sequence of requests: its settings and the loader it would use. */
  datatype Call = Call(settings: WhisperSettings, load: Loader)

  /** The cache content after a sequence of calls, and each call's result. */
  function Replay(cached: Option<WhisperModel>, calls: seq<Call>): (r: (Option<WhisperModel>, seq<Result<WhisperModel, string>>))
    ensures |r.1| == |calls|
    decreases |calls|
  {
    if calls == [] then (cached, [])
    else
      var step := GetModelStep(cached, calls[0].settings, calls[0].load);
      var rest := Replay(step.0, calls[1..]);
      (rest.0, [step.1] + rest.1)
  }

  /** How many calls of a sequence actually run the loader successfully. */
  function SuccessfulLoads(cached: Option<WhisperModel>, calls: seq<Call>): nat
    decreases |calls|
  {
    if calls == [] then 0
    else
      var step := GetModelStep(cached, calls[0].settings, calls[0].load);
      (if cached.None? && step.1.Ok? then 1 else 0) + SuccessfulLoads(step.0, calls[1..])
  }

  /**
   * Load once: a cached model is kept for good, and every successful call in a
   * sequence returns the model the cache finally holds.
   */
  lemma {:induction false} ReplayConsistent(cached: Option<WhisperModel>, calls: seq<Call>)
    ensures cached.Some? ==> Replay(cached, calls).0 == cached
    ensures forall i :: 0 <= i < |calls| && Replay(cached, calls).1[i].Ok? ==>
      Replay(cached, calls).0 == Some(Replay(cached, calls).1[i].value)
    decreases |calls|
  {
    if calls != [] {
      var step := GetModelStep(cached, calls[0].settings, calls[0].load);
      var rest := Replay(step.0, calls[1..]);
      ReplayConsistent(step.0, calls[1..]);
      var r := Replay(cached, calls);
      assert r == (rest.0, [step.1] + rest.1);
      forall i | 0 <= i < |calls| && r.1[i].Ok? ensures r.0 == Some(r.1[i].value) {
        if i == 0 {
          assert step.0 == Some(step.1.value);
        } else {
          assert r.1[i] == rest.1[i - 1];
        }
      }
    }
  }

  /** Two successful calls of a sequence return the same model. */
  lemma ReplaySameModel(cached: Option<WhisperModel>, calls: seq<Call>, i: nat, j: nat)
    requires i < |calls| && j < |calls|
    requires Replay(cached, calls).1[i].Ok? && Replay(cached, calls).1[j].Ok?
    ensures Replay(cached, calls).1[i] == Replay(cached, calls).1[j]
  {
    ReplayConsistent(cached, calls);
  }

  /** The loader succeeds at most once, and never once a model is cached. */
  lemma {:induction false} LoadsAtMostOnce(cached: Option<WhisperModel>, calls: seq<Call>)
    ensures SuccessfulLoads(cached, calls) <= (if cached.None? then 1 else 0)
    decreases |calls|
  {
    if calls != [] {
      var step := GetModelStep(cached, calls[0].settings, calls[0].load);
      LoadsAtMostOnce(step.0, calls[1..]);
    }
  }

  /** The process-wide cache (`_whisper_model`). */
  class ModelCache {
    var cached: Option<WhisperModel>
    /** How many times the loader has been run. */
    ghost var loaderCalls: nat

    constructor()
      ensures cached == None && loaderCalls == 0
    {
      cached := None;
      loaderCalls := 0;
    }

    /** `get_whisper_model`, corrected: returns the cached model or loads and caches it. */
    method GetModel(s: WhisperSettings, load: Loader) returns (r: Result<WhisperModel, string>)
      modifies this
      ensures (cached, r) == GetModelStep(old(cached), s, load)
      ensures loaderCalls == old(loaderCalls) + (if old(cached).None? then 1 else 0)
    {
      if cached.Some? {
        r := Ok(cached.value);
        return;
      }
      loaderCalls := loaderCalls + 1;
      r := load(Request(s));
      if r.Ok? {
        cached := Some(r.value);
      }
    }
  }
}
