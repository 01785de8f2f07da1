# gomosesgo, modelled in Dafny

gomosesgo is an HTTP gateway in front of a Moses machine-translation engine.
A request's text is pre-processed, sent to the engine over XML-RPC, then
post-processed. Each phase is a list of transform steps:

- external Perl scripts: a tagger, a tokenizer, a hashtag rejoiner and a
  detokenizer;
- in-process filters that remove symbol characters ("emoji"), replace
  newlines with spaces, and collapse white space.

An older Python front end, `bin/python-server.py`, does the same job with
its own copy of the filter and of the step chaining.

This project models that core as pure functions. It proves what each part
guarantees and how the Go and Python implementations relate:

| file | module | what it holds |
|---|---|---|
| `results.dfy` | `Results` | `Result`/`Option` outcomes, `HasPrefix` |
| `text_filters.dfy` | `TextFilters` | symbol removal, newline removal, the two collapse rewrites, `TrimSpace` |
| `pipeline.dfy` | `Pipeline` | transform steps, command-line resolution, `execCommands`, the two phases, the built-in steps |
| `routes.dfy` | `Routes` | the `/translate` and health handlers |
| `py_server.dfy` | `PyServer` | Python `Filter`, `ExternalProcessor`, `_exec`, `_timeout_error`, `Root.translate` |
| `filter_parity.dfy` | `FilterParity` | where the Go and Python filters and chains agree, and where they differ |

Modelling choices:

- **Text.** Text is a sequence of code points.
- **Parameters.** The Unicode tables (`unicode.IsSymbol`, `unicode.IsSpace`),
  `filepath.Join`, `filepath.Abs`, spawning a process, the engine's remote
  calls, `getHashtags` and Python's `lower()` are all parameters. The model
  assumes nothing about them.
- **White-space classes.** The two regular-expression classes `\s` are
  written out, because they differ. RE2's class is tab, LF, FF, CR and
  space. Python 2's class adds the vertical tab.
- **Traces.** The translation handler returns its reply together with the
  list of calls it made. This is how "a later stage never runs" is stated.
- **Panics.** `getCommand` and `getArgs` panic on an empty argument list.
  The model expresses that as a precondition (`Resolvable`), and the
  built-in steps are proved to meet it.

Two facts about the code that the model keeps:

- A failed request only logs the raw input (`c.Error`). The raw input is
  not part of the reply.
- The second collapse rewrite drops any `\s` character before `' , .`, not
  only a space.

## Model

| member | source | states |
|---|---|---|
| TextFilters.RemoveSymbols | norm.go:51-58 | No symbol remains. The result is never longer. |
| TextFilters.RemoveSymbolsCounts | norm.go:51-58 | Every character that is not a symbol is kept with its multiplicity; symbols occur zero times. |
| TextFilters.RemoveSymbolsAppend | norm.go:51-58 | Symbol removal works character by character: it distributes over concatenation. |
| TextFilters.RemoveSymbolsNoOp | norm.go:51-58 | Text without symbols passes through unchanged. |
| TextFilters.RemoveSymbolsIdempotent | norm.go:51-58 | Removing symbols twice is removing them once. |
| TextFilters.RemoveSymbolsStripsTrailing | norm_test.go:5-18 | Symbol-free text followed by symbols comes back as the text alone. This is the shape of the emoji test. |
| TextFilters.ReplaceCRLF | norm.go:60 | The result is never longer than the input. |
| TextFilters.ReplaceCRLFPair | norm.go:60 | A CR LF pair not preceded by a CR becomes one space, and the text on either side is rewritten on its own. |
| TextFilters.ReplaceCRLFNoOp | norm.go:60 | Text with no CR LF pair is left unchanged. |
| TextFilters.ReplaceLF | norm.go:61 | Each LF becomes a space and nothing else changes, position by position. |
| TextFilters.RemoveNewlines | norm.go:59-62 | No LF remains and the text never grows. |
| TextFilters.RemoveNewlinesOnePass | norm.go:59-62 | The two replacements equal one left-to-right pass: CR LF becomes one space, a lone LF becomes one space, everything else is copied. |
| TextFilters.RemoveNewlinesAppend | norm.go:59-62 | The pass distributes over concatenation unless the cut splits a CR LF pair. |
| TextFilters.RemoveNewlinesCRLF | norm.go:60 | A CR LF pair becomes exactly one space. |
| TextFilters.RemoveNewlinesLF | norm.go:61 | An LF not preceded by CR becomes one space. |
| TextFilters.RemoveNewlinesLoneCR | norm.go:59-62 | A CR not followed by LF is kept. |
| TextFilters.RemoveNewlinesNoOp | norm.go:59-62 | Text without an LF passes through unchanged. |
| TextFilters.RemoveNewlinesAvoids | norm.go:59-62 | The pass introduces no character except the space. |
| TextFilters.LeadingRun | norm.go:44 | The run it measures stops at the end of the text or at a non-white-space character. |
| TextFilters.LeadingRunSpaces | norm.go:44 | Every character inside the measured run is white space, so the run is maximal. |
| TextFilters.CollapseRuns | norm.go:44-64 | `\s\s+` replaced by a space. The text never grows. |
| TextFilters.CollapseRunsNoAdjacent | norm.go:44-64 | After the rewrite no two white-space characters are adjacent. The result starts with white space only if the input does. |
| TextFilters.CollapseRunsKeepsText | norm.go:44-64 | Every non-white-space character is kept, in order. |
| TextFilters.CollapseRunsNoOp | norm.go:44-64 | Text without adjacent white space is unchanged. |
| TextFilters.CollapseRunsOfRun | norm.go:44-64 | A run of two or more white-space characters becomes one space. A single one is kept. |
| TextFilters.CollapseRunsAppend | norm.go:44-64 | The rewrite distributes over a cut with non-white-space on at least one side. |
| TextFilters.CollapseRunsAvoids | norm.go:44-64 | The rewrite introduces no character except the space. |
| TextFilters.DropSpaceBeforePunct | norm.go:45-65 | `\s([',.])` replaced by the punctuation. The text never grows. A leading non-white-space character is kept. |
| TextFilters.DropSpaceKeepsText | norm.go:45-65 | Only white space is deleted. |
| TextFilters.DropSpaceCleans | norm.go:45-65 | On text without adjacent white space, the result has no white space before `' , .` and still none adjacent. |
| TextFilters.DropSpaceNoOp | norm.go:45-65 | Text without white space before `' , .` is unchanged. |
| TextFilters.DropSpaceAppend | norm.go:45-65 | The rewrite works piecewise: cutting the text anywhere except between a white-space character and the `' , .` after it does not change the result. |
| TextFilters.DropSpaceAtPair | norm.go:45-65 | A white-space character directly before `' , .` is deleted, and the text on either side is rewritten on its own. With `DropSpaceAppend` and `DropSpaceNoOp` on single characters, this determines the rewrite completely. |
| TextFilters.CollapseSpaces | norm.go:63-66 | No adjacent white space, no white space before `' , .`, and the same non-white-space characters in the same order. The text never grows. |
| TextFilters.CollapseSpacesNoOp | norm.go:63-66 | Collapsed text is a fixed point. |
| TextFilters.CollapseSpacesIdempotent | norm.go:63-66 | Collapsing twice is collapsing once. |
| TextFilters.CollapseSpacesAvoids | norm.go:63-66 | Collapsing introduces no character except the space. |
| TextFilters.CollapseSpacesKeepsWordGap | norm.go:63-66 | Collapsing `"a b ,"` gives `"a b,"`: the space before the comma goes, and the space between the words stays. |
| TextFilters.TrimLeft | norm.go:120 | The result is a suffix of the input that does not start with white space. |
| TextFilters.TrimLeftDropsSpaces | norm.go:120 | Everything `TrimLeft` drops is white space. |
| TextFilters.TrimRight | norm.go:120 | The result is a prefix of the input that does not end with white space. |
| TextFilters.TrimRightDropsSpaces | norm.go:120 | Everything `TrimRight` drops is white space. |
| TextFilters.TrimSpace | norm.go:120 | The result is empty or has non-white-space at both ends. It is never longer. |
| TextFilters.TrimSpaceIsWindow | norm.go:120 | The trimmed text is a window of the input with only white space outside it and non-white-space at both its ends. |
| TextFilters.TrimSpaceWindow | norm.go:120 | Any window with only white space outside it and non-white-space at its ends is what `TrimSpace` returns. |
| TextFilters.TrimSpaceIgnoresPadding | norm.go:120 | White space added around a text does not change its trimmed form. |
| Pipeline.ExecuteFilter | norm.go:49-68 | The error is always nil. The text never grows. With all flags off it is the identity. Newline removal leaves no LF. Collapsing leaves no adjacent white space and none before `' , .`. Emoji removal leaves no symbol, provided the space is not a symbol. |
| Pipeline.ExecuteFilterIdempotent | norm.go:49-68 | Every filter step is idempotent, provided the space is not a symbol. |
| Pipeline.GetCommand | norm.go:70-81 | The program is `Command`, or else `Args[0]`. It is joined onto the base path exactly when `AppendPathToCmd` is set. |
| Pipeline.GetArgs | norm.go:83-97 | The arguments are `Args`, or `Args[1:]` when the program came from them. Only element 0 may change: it is joined onto the base path exactly when `AppendPathToFirstArg` is set. |
| Pipeline.CommandLineUnresolved | norm.go:70-97 | With neither flag set, the resolved command line is the configured one. |
| Pipeline.ResolutionFlagsIndependent | norm.go:70-97 | `AppendPathToCmd` affects only the program. `AppendPathToFirstArg` affects only argument 0. Later arguments are never touched. |
| Pipeline.ExecuteStep | norm.go:142-157 | A filter step never fails. An external step is the runner applied to the resolved command line, with the text as input. |
| Pipeline.ExecCommands | norm.go:129-139 | With no steps, the input is returned. A phase of filters never fails. Every error starts with "command errored with: ". |
| Pipeline.ExecCommandsAppend | norm.go:129-139 | Running `a + b` is running `a`, then `b` on its output. An error in `a` is the result. |
| Pipeline.ExecCommandsFailFast | norm.go:132-136 | A step that fails on the output of the steps before it decides the phase's error, whatever comes after it. |
| Pipeline.RunCommands | norm.go:129-139 | The loop agrees with the fold. Each invoked step receives the previous step's output. After an error no further step is invoked, and the error is the failing step's error with the prefix. |
| Pipeline.Preprocess | norm.go:119-122 | The steps run on the trimmed text. With no steps, the result is the trimmed text. Errors carry the prefix. |
| Pipeline.PreprocessIgnoresPadding | norm.go:119-122 | White space around the request never reaches the steps. |
| Pipeline.Postprocess | norm.go:125-127 | The steps run on the text as is. With no steps, it is the identity. Errors carry the prefix. |
| Pipeline.NewTranslationTransformer | norm.go:109-116 | Succeeds exactly when `filepath.Abs` does, carrying its error otherwise. The library path is the absolute path. Pre-processing is the tagger, the tokenizer, then a filter that only removes symbols. Post-processing is the rejoiner, the detokenizer, then a filter that removes newlines and collapses spaces. Every step is resolvable. |
| Pipeline.NewTransformerNormalises | norm.go:109-127 | For a transformer the constructor builds, whatever the scripts answer: successful pre-processing leaves no symbol, and successful post-processing leaves no LF, no adjacent white space and no white space before `' , .`. |
| Pipeline.TaggerCommandLine | norm.go:36 | The tagger runs `perl` with the script joined onto the library path. Its patterns file is passed as written, not joined. |
| Pipeline.BuiltinPreprocess | norm.go:109-112 | Pre-processing: trimmed text goes to the tagger, then the tokenizer, then symbol removal. The first failing script's error, with the prefix, is the result. |
| Pipeline.BuiltinPostprocess | norm.go:109-112 | Post-processing: the rejoiner, then the detokenizer, then newline removal and collapsing. The first failing script's error, with the prefix, is the result. |
| Pipeline.BuiltinPreprocessDropsSymbols | norm.go:111 | Whatever the scripts answer, successful pre-processing leaves no symbol. |
| Pipeline.BuiltinPostprocessNormalises | norm.go:112 | Whatever the scripts answer, successful post-processing leaves no LF, no adjacent white space and no white space before `' , .`. |
| Routes.Stage.Tag | routes.go:35-57 | The three stage tags are distinct. |
| Routes.GatewayStages | routes.go:27-28 | The handler's pre- and post-processing are the transformer's phases. |
| Routes.RouteTranslate | routes.go:25-65 | Pre-processing receives the request text. Its failure is a 500 tagged "pre-process" and nothing else runs. The engine receives exactly the pre-processed text; its failure is a 500 tagged "translation" and post-processing never runs. Post-processing receives exactly the translation. The reply is 200 exactly when it carries a translation, with status "ok", version "1.1.2pre", the final text and that text's hashtags. |
| Routes.RouteTranslateIsComposition | routes.go:35-64 | The handler succeeds exactly when the three phases composed succeed, with the composed text. Otherwise it carries the composed error unchanged under some stage tag. |
| Routes.PostprocessFailureHashtags | routes.go:51-57 | When post-processing fails, hashtags are still extracted, from the empty text, and are never returned. |
| Routes.GatewayPreprocessFailure | routes.go:35-40 | In the running gateway, a failing pre-processing step stops the request before the engine. The reply's error starts with "command errored with: ". |
| Routes.Health | rpc.go:28-35 | The engine is healthy exactly when the remote call returns no error. It is never "not ok" without an error. |
| Routes.RouteHealth | routes.go:14-23 | 200 `{"status":"ok"}` exactly when the engine is healthy. Otherwise 500 `{"status":"down"}` with the error text. |
| Routes.HealthEndpoint | routes.go:14-23 | Through the remote call: 200 exactly when the call succeeds, and the call's error text otherwise. |
| PyServer.FilterFn.Apply | bin/python-server.py:62-70 | Newline removal leaves no LF. Collapsing under Python's `\s` leaves no adjacent white space and none before `' , .`. Neither pass grows the text. |
| PyServer.NewFilter | bin/python-server.py:50-55 | A pass is registered exactly when its flag is set, at most once. Newline removal comes before collapsing. Both flags default to on. |
| PyServer.ApplyAll | bin/python-server.py:57-60 | Applying no passes is the identity. The text never grows. |
| PyServer.FilterText | bin/python-server.py:57-60 | A filter without passes is the identity. The text never grows. |
| PyServer.ApplyAllAppend | bin/python-server.py:57-60 | Applying `a + b` is applying `a`, then `b`. |
| PyServer.NewFilterRuns | bin/python-server.py:50-70 | A constructed filter removes newlines when that flag is set, then collapses when that flag is set. |
| PyServer.NewFilterGuarantees | bin/python-server.py:50-70 | The constructed filter's output has no LF if newline removal is on. It has no adjacent white space and none before `' , .` if collapsing is on. |
| PyServer.NewFilterIdempotent | bin/python-server.py:50-70 | Filtering twice is filtering once. |
| PyServer.Process | bin/python-server.py:85-86 | A processor without a command returns its line unchanged. Otherwise the line is the script's answer. |
| PyServer.ExecChain | bin/python-server.py:129-134 | An empty chain returns the line unchanged. |
| PyServer.ExecChainLast | bin/python-server.py:129-134 | A non-empty chain answers what its last processor makes of the output of the processors before it. |
| PyServer.ExecChainAppend | bin/python-server.py:129-134 | Chaining `a + b` is chaining `a`, then `b` on its output. |
| PyServer.ExecChainIdle | bin/python-server.py:129-134 | A chain of processors without commands is the identity. |
| PyServer.ExecChainSingle | bin/python-server.py:129-134 | A one-processor chain is that processor. |
| PyServer.NatToDecimal | bin/python-server.py:138 | The digits are decimal with no leading zero. They start with 0 only for zero. |
| PyServer.NatToDecimalRoundTrip | bin/python-server.py:138 | Reading the digits back gives the number. |
| PyServer.IntToDecimal | bin/python-server.py:138 | The rendering is canonical: "0", or a nonzero digit and more digits, or a minus sign before such a nonzero rendering. It starts with a minus sign exactly when the number is negative. |
| PyServer.CanonicalNatRendering | bin/python-server.py:138 | A digit string with no leading zero is the rendering of its own value. |
| PyServer.CanonicalRendering | bin/python-server.py:138 | A canonical string parses, and rendering its value gives the string back. So exactly one string renders each number. |
| PyServer.IntToDecimalRoundTrip | bin/python-server.py:138 | Parsing the rendering gives the number back. |
| PyServer.TimeoutError | bin/python-server.py:136-139 | Code 400. A single error entry carries the query and the location. The message is "Timeout after", the timeout and "s", and the timeout can be read back from it. The middle is canonical, so it is exactly Python's `str` of the timeout. |
| PyServer.NewRoot | bin/python-server.py:100-126 | The filter has both passes. The timeout is the one given, and -1 when none is given. Each chain is one processor, running the tagger, tokenizer, rejoiner or detokenizer script under `/home/moses/bin`. The detokenizer's command carries the target language. Each processor answers what `spawn` gives for its own command line. |
| PyServer.ServerTimeoutMessage | bin/python-server.py:269-273 | The entry point passes no timeout and `Root` defaults it to -1 (line 100), so every timeout reply the server sends reads "Timeout after -1s". |
| PyServer.Translate | bin/python-server.py:173-220 | The stages run in the order lowercase, tag, tokenize, engine, rejoin, detokenize, filter, and only a prefix of that order runs. The raw text is lowercased first. Without a `text` entry the reply is the timeout error on the tokenized query at location "translation", and nothing after the engine runs. Otherwise the engine's text is rejoined and the reply is the filter's output with version "0.1.2pre". |
| PyServer.TranslateIsComposition | bin/python-server.py:185-212 | The engine receives the lowercased text through the tagger and tokenizer chains. The reply text is the engine's answer through the rejoiner and detokenizer chains, then the filter. |
| PyServer.TranslateNormalises | bin/python-server.py:212 | With the server's own filter, a successful reply has no LF, no adjacent white space and no white space before `' , .`. |
| FilterParity.SpaceClasses | norm.go:44-45 | RE2's `\s` in the two patterns is exactly tab, LF, FF, CR and space. Python's `\s` (bin/python-server.py:68-69) is those and the vertical tab. |
| FilterParity.TaggerPatternsPaths | bin/python-server.py:110 | Python joins the tagger's patterns file onto the install directory. The gateway passes it on as `bin/tag-fixed-twitter-protected-patterns`, relative to its working directory. |
| FilterParity.CollapseSpacesAgrees | bin/python-server.py:67-70 | On text without a vertical tab, Python's collapse equals Go's. |
| FilterParity.FilterMatchesGo | bin/python-server.py:49-70 | On text without a vertical tab, Python's `Filter(nl, cs)` computes what Go's filter step with the same flags and no emoji removal computes. |
| FilterParity.PostprocessFilterMatchesGo | bin/python-server.py:102 | The final filter of both servers agrees on text without a vertical tab. |
| FilterParity.VerticalTabsDiffer | bin/python-server.py:68 | On "a", VT, VT, "b", Python's collapse gives "a b" while Go's filter leaves the text unchanged. |
| FilterParity.ExecCommandsMatchesChain | bin/python-server.py:129-134 | When every Go step answers what the matching Python processor would, `execCommands` succeeds with `_exec`'s output. |

## Left out

- The request semaphore (`maxAllowed`) and the pool of RPC clients: they
  are concurrency control around the core, not part of its results.
- gin routing and JSON binding, zap logging, command-line flags and `main`.
  The handlers are modelled from the bound request text to the reply.
- The inside of `ExecTransformCommand.Execute`: spawning, the stdin pipe
  and reading the output. A step is the runner parameter applied to the
  resolved command line.
- The XML-RPC client and message encoding in rpc.go. `Translate` and the
  health call are parameters that return a text or an error.
- `getHashtags`: its definition is not part of this model. It is a parameter.
- The Unicode tables behind `unicode.IsSymbol` and `unicode.IsSpace`: they
  are parameters.
- Go's symbol removal runs on bytes, and invalid UTF-8 decodes to U+FFFD,
  which the model does not represent. Text here is always valid code points.
- `Routes.RouteHealth`: requires that the health outcome is not
  "false without error". rpc.go never returns that, and Go would
  dereference a nil error on it.
- `Pipeline.GetCommand`, `Pipeline.GetArgs`: require an argument list to
  index. On an empty one Go panics, which the model does not represent.
- Python: `popen`/`pclose` and the process lock, `geometric_mean`,
  `_recaser`, `json_error`, `_dump_json`/`_load_json`, the logging calls,
  cherrypy setup and argument parsing.
- Python exceptions: a request without `text`, a script that dies, and a
  failing XML-RPC call in `_translate` (a socket error or a `Fault`) raise
  exceptions the model does not represent. The engine parameter answers a
  text or nothing, never an exception.
- Python's `lower()` and `os.path.join` are not re-implemented. The former
  is a parameter. The latter is written out for the fixed install directory
  `/home/moses`.
- `ExternalProcessor.process` with a command: each processor is one
  long-lived script that is written the line plus a newline and read back
  one line. The model treats the script's answer as a function of the line
  alone, with the UTF-8 round trip and `strip()` folded in. That holds only
  for lines without an LF: `translate` does not remove line feeds before
  tagging, so a request containing one leaves extra output lines in the
  pipe, and later requests read those as their answers. This state carried
  between requests is not modelled, and `PyServer.TranslateIsComposition`
  says nothing about it.
- mock-server.py and the tests in rpc_test.go: they are fixtures, not core.
