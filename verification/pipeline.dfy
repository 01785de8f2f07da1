/** The pre/post-processing pipeline of the Go gateway (norm.go): the two
    kinds of transform step, the resolution of an external step's command
    line against the library path, the fail-fast chaining of a phase's steps,
    and the phases the constructor installs.

    Everything the Go code calls into and that is not part of the pipeline
    itself is a parameter gathered in `Env`: the Unicode tables, path joining
    and the spawning of an external process. */
module Pipeline {
  import opened Results
  import opened TextFilters

  /** The collaborators of the pipeline.
      - `isSymbol`: `unicode.IsSymbol`
      - `isSpace`: `unicode.IsSpace`, as `strings.TrimSpace` uses it
      - `join`: `filepath.Join`
      - `run(cmd, args, stdin)`: spawn `cmd` with `args`, write `stdin` to it,
        and return its standard output, or the error of the spawn, the pipe or
        a non-zero exit */
  datatype Env = Env(
    isSymbol: char -> bool,
    isSpace: char -> bool,
    join: (string, string) -> string,
    run: (string, seq<string>, string) -> Result<string>)

  /** `FilterTransformCommand`: which of the three in-process passes run. */
  datatype FilterStep = FilterStep(removeNewlines: bool, collapseSpaces: bool, removeEmoji: bool)

  /** `ExecTransformCommand`: an external program and how its command line is
      resolved against the library path. */
  datatype ExecStep = ExecStep(
    args: seq<string>,
    command: string,
    appendPathToCmd: bool,
    appendPathToFirstArg: bool)

  /** A `TransformCommand`: one of the two step kinds. */
  datatype Step = Filter(filter: FilterStep) | Exec(exec: ExecStep)

  /** `TranslationTransformer`: the absolute library path and the two phases. */
  datatype Transformer = Transformer(
    libPath: string,
    preprocessSteps: seq<Step>,
    postprocessSteps: seq<Step>)

  // ---------------------------------------------------------------------
  // FilterTransformCommand.Execute
  // ---------------------------------------------------------------------

  /** Runs symbol removal, newline removal and space collapsing, in that
      order, each only when its flag is set; the error is always nil. */
  function ExecuteFilter(f: FilterStep, isSymbol: char -> bool, s: string): (r: Result<string>)
    ensures r.Ok?
    ensures |r.value| <= |s|
    ensures !f.removeEmoji && !f.removeNewlines && !f.collapseSpaces ==> r.value == s
    ensures f.removeNewlines ==> '\n' !in r.value
    ensures f.collapseSpaces ==> NoAdjacentSpace(GoSpace, r.value) && NoSpaceBeforePunct(GoSpace, r.value)
    ensures f.removeEmoji && !isSymbol(' ') ==> Avoids(isSymbol, r.value)
  {
    var a := if f.removeEmoji then RemoveSymbols(isSymbol, s) else s;
    var b := if f.removeNewlines then RemoveNewlines(a) else a;
    var c := if f.collapseSpaces then CollapseSpaces(GoSpace, b) else b;
    assert WsClass(GoSpace);
    if f.removeNewlines then
      assert Avoids(IsLF, b);
      CollapseSpacesAvoids(IsLF, GoSpace, b);
      assert Avoids(IsLF, c);
      if f.removeEmoji && !isSymbol(' ') then
        RemoveNewlinesAvoids(isSymbol, a);
        CollapseSpacesAvoids(isSymbol, GoSpace, b);
        Ok(c)
      else
        Ok(c)
    else if f.removeEmoji && !isSymbol(' ') then
      CollapseSpacesAvoids(isSymbol, GoSpace, b);
      Ok(c)
    else
      Ok(c)
  }

  /** Filtering twice is filtering once, for every combination of flags,
      as long as the space itself is not a symbol. */
  lemma ExecuteFilterIdempotent(f: FilterStep, isSymbol: char -> bool, s: string)
    requires !isSymbol(' ')
    ensures ExecuteFilter(f, isSymbol, ExecuteFilter(f, isSymbol, s).value) == ExecuteFilter(f, isSymbol, s)
  {
    var c := ExecuteFilter(f, isSymbol, s).value;
    if f.removeEmoji {
      RemoveSymbolsNoOp(isSymbol, c);
    }
    if f.removeNewlines {
      RemoveNewlinesNoOp(c);
    }
    if f.collapseSpaces {
      CollapseSpacesNoOp(GoSpace, c);
    }
  }

  // ---------------------------------------------------------------------
  // ExecTransformCommand.getCommand / getArgs
  // ---------------------------------------------------------------------

  /** The program is `Command` when it is set, else the first element of `Args`. */
  function Program(tc: ExecStep): string
    requires tc.command != "" || |tc.args| > 0
  {
    if tc.command != "" then tc.command else tc.args[0]
  }

  /** The arguments before resolution: `Args` when `Command` is set, else
      `Args` without its first element (which is then the program). */
  function SelectedArgs(tc: ExecStep): seq<string>
    requires tc.command != "" || |tc.args| > 0
  {
    if tc.command != "" then tc.args else tc.args[1..]
  }

  /** What the Go code needs to avoid an index panic: an argument list to
      take the program from when `Command` is empty, and a first argument to
      resolve when `AppendPathToFirstArg` is set. */
  predicate Resolvable(tc: ExecStep) {
    && (tc.command != "" || |tc.args| > 0)
    && (tc.appendPathToFirstArg ==> |SelectedArgs(tc)| > 0)
  }

  /** `getCommand`: the program, joined onto the base path exactly when
      `AppendPathToCmd` is set. */
  function GetCommand(tc: ExecStep, basePath: string, join: (string, string) -> string): (cmd: string)
    requires tc.command != "" || |tc.args| > 0
    ensures tc.appendPathToCmd ==> cmd == join(basePath, Program(tc))
    ensures !tc.appendPathToCmd ==> cmd == Program(tc)
  {
    var cmd := if tc.command != "" then tc.command else tc.args[0];
    if tc.appendPathToCmd then join(basePath, cmd) else cmd
  }

  /** `getArgs`: a fresh copy of the selected arguments in which only
      element 0 may differ, joined onto the base path exactly when
      `AppendPathToFirstArg` is set. */
  function GetArgs(tc: ExecStep, basePath: string, join: (string, string) -> string): (t: seq<string>)
    requires Resolvable(tc)
    ensures |t| == |SelectedArgs(tc)|
    ensures tc.command != "" ==> |t| == |tc.args|
    ensures tc.command == "" ==> |t| == |tc.args| - 1
    ensures forall i :: 1 <= i < |t| ==> t[i] == SelectedArgs(tc)[i]
    ensures |t| > 0 && tc.appendPathToFirstArg ==> t[0] == join(basePath, SelectedArgs(tc)[0])
    ensures |t| > 0 && !tc.appendPathToFirstArg ==> t[0] == SelectedArgs(tc)[0]
  {
    var args := if tc.command != "" then tc.args else tc.args[1..];
    if tc.appendPathToFirstArg then [join(basePath, args[0])] + args[1..] else args
  }

  /** With neither flag set, the resolved command line is exactly the
      configured one: `Command` followed by `Args`, or `Args` alone. */
  lemma CommandLineUnresolved(tc: ExecStep, basePath: string, join: (string, string) -> string)
    requires tc.command != "" || |tc.args| > 0
    requires !tc.appendPathToCmd && !tc.appendPathToFirstArg
    ensures [GetCommand(tc, basePath, join)] + GetArgs(tc, basePath, join)
            == (if tc.command != "" then [tc.command] + tc.args else tc.args)
  {
    var t := GetArgs(tc, basePath, join);
    assert t == SelectedArgs(tc);
  }

  /** The two flags act independently: `AppendPathToCmd` changes only the
      program, `AppendPathToFirstArg` changes only argument 0, and all
      arguments after the first are never touched. */
  lemma ResolutionFlagsIndependent(tc: ExecStep, basePath: string, join: (string, string) -> string)
    requires Resolvable(tc)
    ensures GetArgs(tc, basePath, join) == GetArgs(tc.(appendPathToCmd := !tc.appendPathToCmd), basePath, join)
    ensures GetCommand(tc, basePath, join) == GetCommand(tc.(appendPathToFirstArg := false), basePath, join)
    ensures |SelectedArgs(tc)| > 0 ==> GetArgs(tc, basePath, join)[1..] == SelectedArgs(tc)[1..]
  {
    var t := GetArgs(tc, basePath, join);
    if |t| > 0 {
      assert t[1..] == SelectedArgs(tc)[1..];
    }
  }

  // ---------------------------------------------------------------------
  // TransformCommand.Execute and execCommands
  // ---------------------------------------------------------------------

  /** A step the pipeline can run without an index panic. */
  predicate WellFormed(step: Step) {
    step.Exec? ==> Resolvable(step.exec)
  }

  predicate AllWellFormed(steps: seq<Step>) {
    forall i :: 0 <= i < |steps| ==> WellFormed(steps[i])
  }

  /** One step on the current text: a filter runs in-process and never
      fails; an external step runs the resolved command line with the text
      on its standard input. */
  function ExecuteStep(step: Step, tf: Transformer, env: Env, s: string): (r: Result<string>)
    requires WellFormed(step)
    ensures step.Filter? ==> r.Ok?
    ensures step.Exec? ==> r == env.run(GetCommand(step.exec, tf.libPath, env.join), GetArgs(step.exec, tf.libPath, env.join), s)
  {
    match step
    case Filter(f) => ExecuteFilter(f, env.isSymbol, s)
    case Exec(tc) => env.run(GetCommand(tc, tf.libPath, env.join), GetArgs(tc, tf.libPath, env.join), s)
  }

  /** The prefix `execCommands` puts on the error of the failing step. */
  const ErrPrefix := "command errored with: "

  /** `execCommands`: each step receives the previous step's output; the
      first error stops the phase and is reported with `ErrPrefix`. */
  function ExecCommands(tf: Transformer, env: Env, steps: seq<Step>, s: string): (r: Result<string>)
    requires AllWellFormed(steps)
    ensures steps == [] ==> r == Ok(s)
    ensures r.Err? ==> HasPrefix(r.msg, ErrPrefix)
    ensures (forall i :: 0 <= i < |steps| ==> steps[i].Filter?) ==> r.Ok?
    decreases |steps|
  {
    if steps == [] then Ok(s)
    else
      match ExecuteStep(steps[0], tf, env, s)
      case Err(e) =>
        assert (ErrPrefix + e)[..|ErrPrefix|] == ErrPrefix;
        Err(ErrPrefix + e)
      case Ok(out) => ExecCommands(tf, env, steps[1..], out)
  }

  /** Running `a + b` is running `a`, then `b` on its output; an error in
      `a` is the result, whatever `b` holds. */
  lemma {:induction false} ExecCommandsAppend(tf: Transformer, env: Env, a: seq<Step>, b: seq<Step>, s: string)
    requires AllWellFormed(a) && AllWellFormed(b)
    ensures AllWellFormed(a + b)
    ensures ExecCommands(tf, env, a + b, s)
            == match ExecCommands(tf, env, a, s)
               case Ok(x) => ExecCommands(tf, env, b, x)
               case Err(e) => Err(e)
    decreases |a|
  {
    assert forall i :: 0 <= i < |a + b| ==> (a + b)[i] == (if i < |a| then a[i] else b[i - |a|]);
    if a == [] {
      assert a + b == b;
    } else {
      assert (a + b)[0] == a[0];
      assert (a + b)[1..] == a[1..] + b;
      match ExecuteStep(a[0], tf, env, s)
      case Err(e) =>
      case Ok(out) =>
        ExecCommandsAppend(tf, env, a[1..], b, out);
    }
  }

  /** Fail-fast: when a step fails on the output of the steps before it,
      the phase reports that step's error, whatever steps come after it;
      their outcome is never consulted. */
  lemma ExecCommandsFailFast(tf: Transformer, env: Env, done: seq<Step>, failing: Step, later: seq<Step>, s: string, x: string)
    requires AllWellFormed(done) && WellFormed(failing) && AllWellFormed(later)
    requires ExecCommands(tf, env, done, s) == Ok(x)
    requires ExecuteStep(failing, tf, env, x).Err?
    ensures AllWellFormed(done + [failing] + later)
    ensures ExecCommands(tf, env, done + [failing] + later, s) == Err(ErrPrefix + ExecuteStep(failing, tf, env, x).msg)
  {
    assert done + [failing] + later == done + ([failing] + later);
    assert ([failing] + later)[0] == failing;
    assert AllWellFormed([failing] + later);
    ExecCommandsAppend(tf, env, done, [failing] + later, s);
  }

  /** The loop of `execCommands`, with the inputs handed to each invoked
      step recorded in `fed`: it agrees with `ExecCommands`, the steps are
      invoked in order on each other's output, and after a failure no
      further step is invoked. */
  method RunCommands(tf: Transformer, env: Env, steps: seq<Step>, s: string)
    returns (r: Result<string>, fed: seq<string>)
    requires AllWellFormed(steps)
    ensures r == ExecCommands(tf, env, steps, s)
    ensures |fed| <= |steps|
    ensures |fed| > 0 ==> fed[0] == s
    ensures forall i :: 0 <= i < |fed| - 1 ==> ExecuteStep(steps[i], tf, env, fed[i]) == Ok(fed[i + 1])
    ensures r.Ok? ==> |fed| == |steps|
    ensures r.Ok? && |fed| > 0 ==> ExecuteStep(steps[|fed| - 1], tf, env, fed[|fed| - 1]) == Ok(r.value)
    ensures r.Err? ==> |fed| > 0 && ExecuteStep(steps[|fed| - 1], tf, env, fed[|fed| - 1]).Err?
    ensures r.Err? ==> r.msg == ErrPrefix + ExecuteStep(steps[|fed| - 1], tf, env, fed[|fed| - 1]).msg
  {
    fed := [];
    var cur := s;
    var i := 0;
    assert steps[0..] == steps;
    while i < |steps|
      invariant 0 <= i <= |steps|
      invariant |fed| == i
      invariant i > 0 ==> fed[0] == s
      invariant i == 0 ==> cur == s
      invariant forall j :: 0 <= j < i - 1 ==> ExecuteStep(steps[j], tf, env, fed[j]) == Ok(fed[j + 1])
      invariant i > 0 ==> ExecuteStep(steps[i - 1], tf, env, fed[i - 1]) == Ok(cur)
      invariant AllWellFormed(steps[i..])
      invariant ExecCommands(tf, env, steps, s) == ExecCommands(tf, env, steps[i..], cur)
    {
      var out := ExecuteStep(steps[i], tf, env, cur);
      ExecCommandsStep(tf, env, steps[i..], cur);
      assert steps[i..][0] == steps[i];
      assert steps[i..][1..] == steps[i + 1..];
      FedExtends(tf, env, steps, fed, cur);
      fed := fed + [cur];
      if out.Err? {
        r := Err(ErrPrefix + out.msg);
        return;
      }
      cur := out.value;
      i := i + 1;
    }
    assert steps[i..] == [];
    r := Ok(cur);
  }

  // ---------------------------------------------------------------------
  // Preprocess / Postprocess
  // ---------------------------------------------------------------------

  /** `Preprocess`: trims surrounding white space, then runs the
      pre-processing steps. */
  function Preprocess(tf: Transformer, env: Env, s: string): (r: Result<string>)
    requires AllWellFormed(tf.preprocessSteps)
    ensures tf.preprocessSteps == [] ==> r == Ok(TrimSpace(env.isSpace, s))
    ensures r.Err? ==> HasPrefix(r.msg, ErrPrefix)
  {
    ExecCommands(tf, env, tf.preprocessSteps, TrimSpace(env.isSpace, s))
  }

  /** `Postprocess`: runs the post-processing steps on the text as it is,
      without trimming. */
  function Postprocess(tf: Transformer, env: Env, s: string): (r: Result<string>)
    requires AllWellFormed(tf.postprocessSteps)
    ensures tf.postprocessSteps == [] ==> r == Ok(s)
    ensures r.Err? ==> HasPrefix(r.msg, ErrPrefix)
  {
    ExecCommands(tf, env, tf.postprocessSteps, s)
  }

  /** White space around the request text never reaches the
      pre-processing steps. */
  lemma PreprocessIgnoresPadding(tf: Transformer, env: Env, lead: string, s: string, trail: string)
    requires AllWellFormed(tf.preprocessSteps)
    requires forall k :: 0 <= k < |lead| ==> env.isSpace(lead[k])
    requires forall k :: 0 <= k < |trail| ==> env.isSpace(trail[k])
    ensures Preprocess(tf, env, lead + s + trail) == Preprocess(tf, env, s)
  {
    TrimSpaceIgnoresPadding(env.isSpace, lead, s, trail);
  }

  // ---------------------------------------------------------------------
  // NewTranslationTransformer and the built-in steps
  // ---------------------------------------------------------------------

  const TagString := ExecStep(
    ["pretag-twitter-zone.perl", "-b", "-protected", "bin/tag-fixed-twitter-protected-patterns"],
    "perl", false, true)
  const TokenizeString := ExecStep(["moses_proc_zone.perl"], "perl", false, true)
  const RejoinString := ExecStep(["rejoin-hashtags.perl"], "perl", false, true)
  const DetokenizeString := ExecStep(["detokenizer.perl", "-b", "-l", "en"], "perl", false, true)

  /** Tag, tokenize, then a filter that only removes symbols. */
  const PreprocessSteps: seq<Step> :=
    [Exec(TagString), Exec(TokenizeString), Filter(FilterStep(false, false, true))]

  /** Rejoin hashtags, detokenize, then a filter that removes newlines and
      collapses spaces. */
  const PostprocessSteps: seq<Step> :=
    [Exec(RejoinString), Exec(DetokenizeString), Filter(FilterStep(true, true, false))]

  /** `NewTranslationTransformer`: installs the built-in phases and resolves
      the library path with `abs` (`filepath.Abs`), whose error is the
      constructor's error. */
  function NewTranslationTransformer(libPath: string, abs: string -> Result<string>): (r: Result<Transformer>)
    ensures r.Ok? <==> abs(libPath).Ok?
    ensures r.Err? ==> r.msg == abs(libPath).msg
    ensures r.Ok? ==> r.value.libPath == abs(libPath).value
    ensures r.Ok? ==> AllWellFormed(r.value.preprocessSteps) && AllWellFormed(r.value.postprocessSteps)
    ensures r.Ok? ==> |r.value.preprocessSteps| == 3 && |r.value.postprocessSteps| == 3
    // pre-processing: tag, tokenize, then a filter that only removes symbols
    ensures r.Ok? ==> r.value.preprocessSteps == [Exec(TagString), Exec(TokenizeString), Filter(FilterStep(false, false, true))]
    // post-processing: rejoin, detokenize, then a filter that removes newlines and collapses spaces
    ensures r.Ok? ==> r.value.postprocessSteps == [Exec(RejoinString), Exec(DetokenizeString), Filter(FilterStep(true, true, false))]
  {
    match abs(libPath)
    case Ok(p) => Ok(Transformer(p, PreprocessSteps, PostprocessSteps))
    case Err(e) => Err(e)
  }

  /** The tagger runs `perl` on the script under the library path; its
      patterns file is passed on as written, relative to the working
      directory rather than to the library path. */
  lemma TaggerCommandLine(basePath: string, join: (string, string) -> string)
    ensures Resolvable(TagString)
    ensures GetCommand(TagString, basePath, join) == "perl"
    ensures GetArgs(TagString, basePath, join)
            == [join(basePath, "pretag-twitter-zone.perl"), "-b", "-protected", "bin/tag-fixed-twitter-protected-patterns"]
  {
  }

  /** Appending the current text to the inputs fed so far keeps each input
      the successful output of the step before it. */
  lemma FedExtends(tf: Transformer, env: Env, steps: seq<Step>, fed: seq<string>, cur: string)
    requires AllWellFormed(steps) && |fed| < |steps|
    requires forall j :: 0 <= j < |fed| - 1 ==> ExecuteStep(steps[j], tf, env, fed[j]) == Ok(fed[j + 1])
    requires |fed| > 0 ==> ExecuteStep(steps[|fed| - 1], tf, env, fed[|fed| - 1]) == Ok(cur)
    ensures forall j :: 0 <= j < |fed| ==> ExecuteStep(steps[j], tf, env, (fed + [cur])[j]) == Ok((fed + [cur])[j + 1])
  {
    var ext := fed + [cur];
    forall j | 0 <= j < |fed|
      ensures ExecuteStep(steps[j], tf, env, ext[j]) == Ok(ext[j + 1])
    {
      assert ext[j] == fed[j];
      if j < |fed| - 1 {
        assert ext[j + 1] == fed[j + 1];
      }
    }
  }

  /** One step of `execCommands`. */
  lemma ExecCommandsStep(tf: Transformer, env: Env, steps: seq<Step>, s: string)
    requires AllWellFormed(steps) && steps != []
    ensures AllWellFormed(steps[1..])
    ensures ExecCommands(tf, env, steps, s)
            == match ExecuteStep(steps[0], tf, env, s)
               case Err(e) => Err(ErrPrefix + e)
               case Ok(o) => ExecCommands(tf, env, steps[1..], o)
  {
  }

  /** A phase of two external steps and a filter, step by step. */
  lemma {:induction false} ExecThree(tf: Transformer, env: Env, x: ExecStep, y: ExecStep, f: FilterStep, s: string)
    requires Resolvable(x) && Resolvable(y)
    ensures AllWellFormed([Exec(x), Exec(y), Filter(f)])
    ensures var a := ExecuteStep(Exec(x), tf, env, s);
            ExecCommands(tf, env, [Exec(x), Exec(y), Filter(f)], s)
            == if a.Err? then Err(ErrPrefix + a.msg)
               else
                 var b := ExecuteStep(Exec(y), tf, env, a.value);
                 if b.Err? then Err(ErrPrefix + b.msg)
                 else ExecuteFilter(f, env.isSymbol, b.value)
  {
    var steps := [Exec(x), Exec(y), Filter(f)];
    assert AllWellFormed(steps) by {
      assert WellFormed(steps[0]) && WellFormed(steps[1]) && WellFormed(steps[2]);
    }
    ExecCommandsStep(tf, env, steps, s);
    var a := ExecuteStep(Exec(x), tf, env, s);
    if a.Ok? {
      assert steps[1..] == [Exec(y), Filter(f)];
      ExecCommandsStep(tf, env, steps[1..], a.value);
      var b := ExecuteStep(Exec(y), tf, env, a.value);
      if b.Ok? {
        assert steps[1..][1..] == [Filter(f)];
        ExecCommandsStep(tf, env, [Filter(f)], b.value);
        assert [Filter(f)][1..] == [];
      }
    }
  }

  /** The built-in pre-processing phase, step by step: the trimmed text
      goes to the tagger, its output to the tokenizer, and the tokenizer's
      output loses its symbol characters; the first failing script's error
      is the phase's error. */
  lemma BuiltinPreprocess(tf: Transformer, env: Env, s: string)
    requires tf.preprocessSteps == PreprocessSteps
    ensures AllWellFormed(tf.preprocessSteps)
    ensures var tag := ExecuteStep(Exec(TagString), tf, env, TrimSpace(env.isSpace, s));
            Preprocess(tf, env, s)
            == if tag.Err? then Err(ErrPrefix + tag.msg)
               else
                 var tok := ExecuteStep(Exec(TokenizeString), tf, env, tag.value);
                 if tok.Err? then Err(ErrPrefix + tok.msg)
                 else Ok(RemoveSymbols(env.isSymbol, tok.value))
  {
    assert Resolvable(TagString) && Resolvable(TokenizeString);
    ExecThree(tf, env, TagString, TokenizeString, FilterStep(false, false, true), TrimSpace(env.isSpace, s));
  }

  /** The built-in post-processing phase, step by step: the translation goes
      to the hashtag rejoiner, its output to the detokenizer, and the
      detokenizer's output has its newlines removed and its spaces
      collapsed. */
  lemma BuiltinPostprocess(tf: Transformer, env: Env, s: string)
    requires tf.postprocessSteps == PostprocessSteps
    ensures AllWellFormed(tf.postprocessSteps)
    ensures var rejoin := ExecuteStep(Exec(RejoinString), tf, env, s);
            Postprocess(tf, env, s)
            == if rejoin.Err? then Err(ErrPrefix + rejoin.msg)
               else
                 var detok := ExecuteStep(Exec(DetokenizeString), tf, env, rejoin.value);
                 if detok.Err? then Err(ErrPrefix + detok.msg)
                 else Ok(CollapseSpaces(GoSpace, RemoveNewlines(detok.value)))
  {
    assert Resolvable(RejoinString) && Resolvable(DetokenizeString);
    ExecThree(tf, env, RejoinString, DetokenizeString, FilterStep(true, true, false), s);
  }

  /** Whatever the scripts do, a successful built-in pre-processing leaves
      no symbol character in the text. */
  lemma BuiltinPreprocessDropsSymbols(tf: Transformer, env: Env, s: string)
    requires tf.preprocessSteps == PreprocessSteps
    ensures AllWellFormed(tf.preprocessSteps)
    ensures Preprocess(tf, env, s).Ok? ==> Avoids(env.isSymbol, Preprocess(tf, env, s).value)
  {
    BuiltinPreprocess(tf, env, s);
  }

  /** Whatever the scripts do, a successful built-in post-processing leaves
      text without line feeds, without adjacent white space and without
      white space before `' , .`. */
  lemma BuiltinPostprocessNormalises(tf: Transformer, env: Env, s: string)
    requires tf.postprocessSteps == PostprocessSteps
    ensures AllWellFormed(tf.postprocessSteps)
    ensures Postprocess(tf, env, s).Ok? ==>
              var r := Postprocess(tf, env, s).value;
              '\n' !in r && NoAdjacentSpace(GoSpace, r) && NoSpaceBeforePunct(GoSpace, r)
  {
    BuiltinPostprocess(tf, env, s);
    var r := Postprocess(tf, env, s);
    if r.Ok? {
      var d := ExecuteStep(Exec(DetokenizeString), tf, env, ExecuteStep(Exec(RejoinString), tf, env, s).value).value;
      var n := RemoveNewlines(d);
      assert Avoids(IsLF, n);
      CollapseSpacesAvoids(IsLF, GoSpace, n);
      assert WsClass(GoSpace);
    }
  }

  /** A transformer built by `NewTranslationTransformer` pre-processes to
      text without symbols and post-processes to normalised text, whatever
      the scripts answer. */
  lemma NewTransformerNormalises(libPath: string, abs: string -> Result<string>, env: Env, s: string, t: string)
    requires abs(libPath).Ok?
    ensures var tf := NewTranslationTransformer(libPath, abs).value;
            && AllWellFormed(tf.preprocessSteps) && AllWellFormed(tf.postprocessSteps)
            && (Preprocess(tf, env, s).Ok? ==> Avoids(env.isSymbol, Preprocess(tf, env, s).value))
            && (Postprocess(tf, env, t).Ok? ==>
                  var r := Postprocess(tf, env, t).value;
                  '\n' !in r && NoAdjacentSpace(GoSpace, r) && NoSpaceBeforePunct(GoSpace, r))
  {
    var tf := NewTranslationTransformer(libPath, abs).value;
    BuiltinPreprocessDropsSymbols(tf, env, s);
    BuiltinPostprocessNormalises(tf, env, t);
  }
}
