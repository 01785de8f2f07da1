/** The HTTP handlers of the Go gateway (routes.go), as pure functions from
    the outcomes of their collaborators to the reply they send.

    `routeTranslate` is a staged flow: pre-process, translate, post-process,
    extract hashtags.  Besides the reply, the model returns the calls the
    handler makes into its collaborators, in order, with the text each one
    receives; this is how "a later stage never runs" is stated. */
module Routes {
  import opened Results
  import opened Pipeline

  /** The stage a failed translation request is tagged with. */
  datatype Stage = PreProcess | Translation | PostProcess {
    /** The value of the reply's `stage` field; distinct stages have
        distinct tags. */
    function Tag(): (t: string)
      ensures t == "pre-process" <==> this == PreProcess
      ensures t == "translation" <==> this == Translation
      ensures t == "post-process" <==> this == PostProcess
    {
      match this
      case PreProcess => "pre-process"
      case Translation => "translation"
      case PostProcess => "post-process"
    }
  }

  /** The JSON bodies the handlers send. */
  datatype Body =
    | Translated(status: string, version: string, text: string, hashtags: seq<string>)
    | StageError(error: string, stage: string)
    | Up(status: string)
    | Down(status: string, error: string)

  datatype Reply = Reply(code: int, body: Body)

  /** A call the translation handler makes, with the text it passes. */
  datatype Call =
    | PreprocessCall(input: string)
    | TranslateCall(input: string)
    | PostprocessCall(input: string)
    | HashtagsCall(input: string)

  /** The handler's reply together with the calls it made, in order. */
  datatype Handled = Handled(reply: Reply, calls: seq<Call>)

  /** What `routeTranslate` calls into: the transformer's two phases, the
      engine's `Translate` remote call, and `getHashtags`, whose definition
      is not part of this model. */
  datatype Stages = Stages(
    preprocess: string -> Result<string>,
    translate: string -> Result<string>,
    postprocess: string -> Result<string>,
    getHashtags: string -> seq<string>)

  /** The stages of the running gateway: the phases of `tf`, and the given
      remote call and hashtag extractor. */
  function GatewayStages(tf: Transformer, env: Env, translate: string -> Result<string>, getHashtags: string -> seq<string>): (g: Stages)
    requires AllWellFormed(tf.preprocessSteps) && AllWellFormed(tf.postprocessSteps)
    ensures forall s :: g.preprocess(s) == Preprocess(tf, env, s)
    ensures forall s :: g.postprocess(s) == Postprocess(tf, env, s)
    ensures g.translate == translate && g.getHashtags == getHashtags
  {
    Stages(s => Preprocess(tf, env, s), translate, s => Postprocess(tf, env, s), getHashtags)
  }

  /** The version string of successful replies. */
  const Version := "1.1.2pre"

  /** A 500 reply tagged with the failing stage, carrying the error text. */
  function Failure(stage: Stage, error: string): Reply {
    Reply(500, StageError(error, stage.Tag()))
  }

  /** `routeTranslate` on a request whose `text` field is `text`. */
  function RouteTranslate(st: Stages, text: string): (h: Handled)
    // the request text is handed to pre-processing, and nothing else happens first
    ensures |h.calls| >= 1 && h.calls[0] == PreprocessCall(text)
    // pre-processing failed: tagged "pre-process", nothing else runs
    ensures st.preprocess(text).Err? ==>
              h.reply == Failure(PreProcess, st.preprocess(text).msg) && |h.calls| == 1
    // otherwise the engine receives exactly the pre-processed text
    ensures st.preprocess(text).Ok? ==>
              |h.calls| >= 2 && h.calls[1] == TranslateCall(st.preprocess(text).value)
    // translation failed: tagged "translation", post-processing never runs
    ensures st.preprocess(text).Ok? && st.translate(st.preprocess(text).value).Err? ==>
              h.reply == Failure(Translation, st.translate(st.preprocess(text).value).msg)
              && |h.calls| == 2
    // otherwise post-processing receives exactly the translation
    ensures st.preprocess(text).Ok? && st.translate(st.preprocess(text).value).Ok? ==>
              |h.calls| == 4
              && h.calls[2] == PostprocessCall(st.translate(st.preprocess(text).value).value)
    // the reply is 200 exactly when its body is a translation, else 500
    ensures h.reply.code == 200 <==> h.reply.body.Translated?
    ensures h.reply.code != 200 ==> h.reply.code == 500 && h.reply.body.StageError?
    // a successful reply: fixed status and version, the final text and its hashtags
    ensures h.reply.code == 200 ==>
              && h.reply.body.status == "ok"
              && h.reply.body.version == Version
              && h.calls[3] == HashtagsCall(h.reply.body.text)
              && h.reply.body.hashtags == st.getHashtags(h.reply.body.text)
  {
    var pre := st.preprocess(text);
    if pre.Err? then
      Handled(Failure(PreProcess, pre.msg), [PreprocessCall(text)])
    else
      var translated := st.translate(pre.value);
      if translated.Err? then
        Handled(Failure(Translation, translated.msg), [PreprocessCall(text), TranslateCall(pre.value)])
      else
        var post := st.postprocess(translated.value);
        // Go keeps the empty string returned beside the error, and extracts
        // hashtags from it before looking at the error.
        var finalSrc := if post.Ok? then post.value else "";
        var hashtags := st.getHashtags(finalSrc);
        var calls := [PreprocessCall(text), TranslateCall(pre.value), PostprocessCall(translated.value), HashtagsCall(finalSrc)];
        if post.Err? then
          Handled(Failure(PostProcess, post.msg), calls)
        else
          Handled(Reply(200, Translated("ok", Version, finalSrc, hashtags)), calls)
  }

  /** The three phases composed without any staging: pre-process, translate,
      post-process, stopping at the first error. */
  function Composed(st: Stages, text: string): Result<string> {
    match st.preprocess(text)
    case Err(e) => Err(e)
    case Ok(p) =>
      match st.translate(p)
      case Err(e) => Err(e)
      case Ok(t) => st.postprocess(t)
  }

  /** Staging changes nothing but the tag: the handler succeeds exactly
      when the composition does, with the composed text, and otherwise
      carries the composition's error message unchanged under the tag of
      the stage that produced it. */
  lemma RouteTranslateIsComposition(st: Stages, text: string)
    ensures var h := RouteTranslate(st, text);
            var c := Composed(st, text);
            && (h.reply.code == 200 <==> c.Ok?)
            && (c.Ok? ==> h.reply.body.text == c.value)
            && (c.Err? ==> h.reply.body.error == c.msg)
            && (c.Err? ==> exists stage: Stage :: h.reply == Failure(stage, c.msg))
  {
    var h := RouteTranslate(st, text);
    var c := Composed(st, text);
    var pre := st.preprocess(text);
    if pre.Err? {
      assert h.reply == Failure(PreProcess, c.msg);
    } else if st.translate(pre.value).Err? {
      assert h.reply == Failure(Translation, c.msg);
    } else if c.Err? {
      assert h.reply == Failure(PostProcess, c.msg);
    }
  }

  /** A failure while post-processing still extracts hashtags, from the
      empty text, but never returns them. */
  lemma PostprocessFailureHashtags(st: Stages, text: string)
    requires st.preprocess(text).Ok?
    requires st.translate(st.preprocess(text).value).Ok?
    requires st.postprocess(st.translate(st.preprocess(text).value).value).Err?
    ensures var h := RouteTranslate(st, text);
            && h.calls[3] == HashtagsCall("")
            && h.reply == Failure(PostProcess, st.postprocess(st.translate(st.preprocess(text).value).value).msg)
  {
  }

  /** In the running gateway, a request whose pre-processing fails never
      reaches the engine; its reply carries the pipeline's error, which
      names the failing command. */
  lemma GatewayPreprocessFailure(tf: Transformer, env: Env, translate: string -> Result<string>, getHashtags: string -> seq<string>, text: string)
    requires AllWellFormed(tf.preprocessSteps) && AllWellFormed(tf.postprocessSteps)
    requires Preprocess(tf, env, text).Err?
    ensures var h := RouteTranslate(GatewayStages(tf, env, translate, getHashtags), text);
            && h.calls == [PreprocessCall(text)]
            && h.reply.body.stage == "pre-process"
            && HasPrefix(h.reply.body.error, ErrPrefix)
  {
  }

  // ---------------------------------------------------------------------
  // Health
  // ---------------------------------------------------------------------

  /** rpc.go's `Health`: the engine is reachable exactly when the remote call
      returns no error; it never reports "not ok" without an error. */
  function Health(callError: Option<string>): (r: Result<bool>)
    ensures r != Ok(false)
    ensures r.Ok? <==> callError.None?
    ensures callError.Some? ==> r.msg == callError.value
  {
    match callError
    case None => Ok(true)
    case Some(e) => Err(e)
  }

  /** `routeHealth`: 200 `{"status":"ok"}` exactly when the engine reports
      ok, else 500 `{"status":"down"}` with the error text. */
  function RouteHealth(health: Result<bool>): (r: Reply)
    requires health != Ok(false)
    ensures r.code == 200 <==> health.Ok?
    ensures r.code == 200 ==> r.body == Up("ok")
    ensures r.code != 200 ==> r.code == 500 && r.body == Down("down", health.msg)
  {
    if health.Ok? && health.value then Reply(200, Up("ok"))
    else Reply(500, Down("down", health.msg))
  }

  /** The health endpoint over the remote call: 200 exactly when the call
      returned no error, and the call's error text otherwise. */
  lemma HealthEndpoint(callError: Option<string>)
    ensures RouteHealth(Health(callError)).code == 200 <==> callError.None?
    ensures callError.Some? ==> RouteHealth(Health(callError)).body == Down("down", callError.value)
  {
  }
}
