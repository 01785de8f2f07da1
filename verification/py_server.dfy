/** The older Python front end of the same engine (bin/python-server.py):
    its text `Filter`, the external processors that wrap a script, the
    left-to-right chaining of processors, the timeout error, and the order
    in which `Root.translate` runs its stages.

    The scripts themselves, the XML-RPC call to the engine and Python's
    `lower()` are parameters. */
module PyServer {
  import opened Results
  import opened TextFilters

  // ---------------------------------------------------------------------
  // Filter
  // ---------------------------------------------------------------------

  /** The two private passes a `Filter` can register. */
  datatype FilterFn = RemoveNewlinesFn | CollapseSpacesFn {
    /** One pass.  Newline removal is the same replacement as the Go
        filter's; collapsing uses Python's `\s`, which includes `\v`. */
    function Apply(s: string): (r: string)
      ensures |r| <= |s|
      ensures this == RemoveNewlinesFn ==> '\n' !in r
      ensures this == CollapseSpacesFn ==> NoAdjacentSpace(PySpace, r) && NoSpaceBeforePunct(PySpace, r)
    {
      assert WsClass(PySpace);
      match this
      case RemoveNewlinesFn => RemoveNewlines(s)
      case CollapseSpacesFn => CollapseSpaces(PySpace, s)
    }
  }

  /** `Filter`: the registered passes, in registration order. */
  datatype PyFilter = PyFilter(filters: seq<FilterFn>)

  /** `Filter.__init__`: newline removal is registered before collapsing,
      each only when its flag is set. */
  function NewFilter(removeNewlines: bool := true, collapseSpaces: bool := true): (f: PyFilter)
    ensures RemoveNewlinesFn in f.filters <==> removeNewlines
    ensures CollapseSpacesFn in f.filters <==> collapseSpaces
    ensures |f.filters| == (if removeNewlines then 1 else 0) + (if collapseSpaces then 1 else 0)
    ensures forall i, j :: 0 <= i < |f.filters| && 0 <= j < |f.filters| ==>
              (f.filters[i] == RemoveNewlinesFn && f.filters[j] == CollapseSpacesFn ==> i < j)
  {
    PyFilter((if removeNewlines then [RemoveNewlinesFn] else []) + (if collapseSpaces then [CollapseSpacesFn] else []))
  }

  /** The passes applied in order, each to the previous one's output. */
  function ApplyAll(fs: seq<FilterFn>, s: string): (r: string)
    ensures |r| <= |s|
    ensures fs == [] ==> r == s
    decreases |fs|
  {
    if fs == [] then s else ApplyAll(fs[1..], fs[0].Apply(s))
  }

  /** `Filter.filter`. */
  function FilterText(f: PyFilter, s: string): (r: string)
    ensures |r| <= |s|
    ensures f.filters == [] ==> r == s
  {
    ApplyAll(f.filters, s)
  }

  /** Running the passes `a + b` is running `a`, then `b`. */
  lemma {:induction false} ApplyAllAppend(a: seq<FilterFn>, b: seq<FilterFn>, s: string)
    ensures ApplyAll(a + b, s) == ApplyAll(b, ApplyAll(a, s))
    decreases |a|
  {
    if a == [] {
      assert a + b == b;
    } else {
      assert (a + b)[0] == a[0];
      assert (a + b)[1..] == a[1..] + b;
      ApplyAllAppend(a[1..], b, a[0].Apply(s));
    }
  }

  /** A filter built by the constructor: newline removal when its flag is
      set, then collapsing when its flag is set. */
  lemma NewFilterRuns(removeNewlines: bool, collapseSpaces: bool, s: string)
    ensures var n := if removeNewlines then RemoveNewlines(s) else s;
            FilterText(NewFilter(removeNewlines, collapseSpaces), s)
            == if collapseSpaces then CollapseSpaces(PySpace, n) else n
  {
    var n := if removeNewlines then RemoveNewlines(s) else s;
    var a: seq<FilterFn> := if removeNewlines then [RemoveNewlinesFn] else [];
    var b: seq<FilterFn> := if collapseSpaces then [CollapseSpacesFn] else [];
    ApplyAllAppend(a, b, s);
    assert ApplyAll(a, s) == n by {
      if removeNewlines {
        assert ApplyAll(a, s) == ApplyAll([], RemoveNewlinesFn.Apply(s));
      }
    }
    if collapseSpaces {
      assert ApplyAll(b, n) == ApplyAll([], CollapseSpacesFn.Apply(n));
    }
  }

  /** What a constructed filter guarantees of its output. */
  lemma NewFilterGuarantees(removeNewlines: bool, collapseSpaces: bool, s: string)
    ensures var r := FilterText(NewFilter(removeNewlines, collapseSpaces), s);
            && (removeNewlines ==> '\n' !in r)
            && (collapseSpaces ==> NoAdjacentSpace(PySpace, r) && NoSpaceBeforePunct(PySpace, r))
  {
    NewFilterRuns(removeNewlines, collapseSpaces, s);
    assert WsClass(PySpace);
    if removeNewlines && collapseSpaces {
      var n := RemoveNewlines(s);
      assert Avoids(IsLF, n);
      CollapseSpacesAvoids(IsLF, PySpace, n);
      assert Avoids(IsLF, CollapseSpaces(PySpace, n));
    }
  }

  /** Filtering twice is filtering once. */
  lemma NewFilterIdempotent(removeNewlines: bool, collapseSpaces: bool, s: string)
    ensures var f := NewFilter(removeNewlines, collapseSpaces);
            FilterText(f, FilterText(f, s)) == FilterText(f, s)
  {
    var f := NewFilter(removeNewlines, collapseSpaces);
    var r := FilterText(f, s);
    NewFilterGuarantees(removeNewlines, collapseSpaces, s);
    NewFilterRuns(removeNewlines, collapseSpaces, r);
    if removeNewlines {
      RemoveNewlinesNoOp(r);
    }
    if collapseSpaces {
      CollapseSpacesNoOp(PySpace, r);
    }
  }

  // ---------------------------------------------------------------------
  // ExternalProcessor and Root._exec
  // ---------------------------------------------------------------------

  /** `ExternalProcessor`: an optional command line and, when there is
      one, the line the script answers to each input line (the `strip()`ped
      reply read back from its standard output). */
  datatype ExternalProcessor = ExternalProcessor(cmd: Option<string>, reply: string -> string)

  /** A processor without a command. */
  predicate Idle(p: ExternalProcessor) {
    p.cmd.None?
  }

  /** `ExternalProcessor.process`: without a command the line comes back
      unchanged; with one, it is the script's answer. */
  function Process(p: ExternalProcessor, line: string): (r: string)
    ensures Idle(p) ==> r == line
    ensures !Idle(p) ==> r == p.reply(line)
  {
    if p.cmd.None? then line else p.reply(line)
  }

  /** `Root._exec(procs)`: the processors in order, each receiving the
      previous one's output. */
  function ExecChain(procs: seq<ExternalProcessor>, line: string): (r: string)
    ensures procs == [] ==> r == line
    decreases |procs|
  {
    if procs == [] then line else ExecChain(procs[1..], Process(procs[0], line))
  }

  /** Read from the end, a chain's answer is its last processor's, applied
      to what the rest of the chain made of the line. */
  lemma {:induction false} ExecChainLast(procs: seq<ExternalProcessor>, line: string)
    requires procs != []
    ensures ExecChain(procs, line) == Process(procs[|procs| - 1], ExecChain(procs[..|procs| - 1], line))
    decreases |procs|
  {
    var rest := procs[1..];
    if rest != [] {
      ExecChainLast(rest, Process(procs[0], line));
      assert procs[..|procs| - 1][1..] == rest[..|rest| - 1];
      assert procs[..|procs| - 1][0] == procs[0];
    }
  }

  /** Chaining `a + b` is chaining `a`, then `b` on its output. */
  lemma {:induction false} ExecChainAppend(a: seq<ExternalProcessor>, b: seq<ExternalProcessor>, line: string)
    ensures ExecChain(a + b, line) == ExecChain(b, ExecChain(a, line))
    decreases |a|
  {
    if a == [] {
      assert a + b == b;
    } else {
      assert (a + b)[0] == a[0];
      assert (a + b)[1..] == a[1..] + b;
      ExecChainAppend(a[1..], b, Process(a[0], line));
    }
  }

  /** A chain of idle processors hands its input back unchanged. */
  lemma {:induction false} ExecChainIdle(procs: seq<ExternalProcessor>, line: string)
    requires forall i :: 0 <= i < |procs| ==> Idle(procs[i])
    ensures ExecChain(procs, line) == line
    decreases |procs|
  {
    if procs != [] {
      assert Idle(procs[0]);
      ExecChainIdle(procs[1..], line);
    }
  }

  /** A single processor chains to what it processes. */
  lemma ExecChainSingle(p: ExternalProcessor, line: string)
    ensures ExecChain([p], line) == Process(p, line)
  {
    assert [p][1..] == [];
  }

  // ---------------------------------------------------------------------
  // Decimal rendering, as `%s` formats an int
  // ---------------------------------------------------------------------

  predicate IsDigit(c: char) {
    '0' <= c <= '9'
  }

  predicate AllDigits(s: string) {
    forall i :: 0 <= i < |s| ==> IsDigit(s[i])
  }

  function DigitChar(d: nat): (c: char)
    requires d < 10
    ensures IsDigit(c) && (c as int) - ('0' as int) == d
  {
    (('0' as int) + d) as char
  }

  /** Digits in the usual form: "0", or digits without a leading zero. */
  predicate CanonicalNat(d: string) {
    |d| >= 1 && AllDigits(d) && (d[0] == '0' ==> |d| == 1)
  }

  /** An integer in the usual form: a canonical natural, or a minus sign
      followed by a canonical natural other than "0". */
  predicate Canonical(d: string) {
    CanonicalNat(d) || (|d| >= 2 && d[0] == '-' && CanonicalNat(d[1..]) && d[1] != '0')
  }

  /** The decimal digits of `n`, most significant first, without leading zeros. */
  function NatToDecimal(n: nat): (s: string)
    ensures CanonicalNat(s)
    ensures s[0] == '0' ==> n == 0
    decreases n
  {
    if n < 10 then [DigitChar(n)] else NatToDecimal(n / 10) + [DigitChar(n % 10)]
  }

  /** The value of a string of decimal digits. */
  function DecimalValue(s: string): nat
    requires AllDigits(s)
    decreases |s|
  {
    if s == [] then 0
    else DecimalValue(s[..|s| - 1]) * 10 + ((s[|s| - 1] as int) - ('0' as int))
  }

  lemma {:induction false} NatToDecimalRoundTrip(n: nat)
    ensures DecimalValue(NatToDecimal(n)) == n
    decreases n
  {
    var s := NatToDecimal(n);
    if n >= 10 {
      NatToDecimalRoundTrip(n / 10);
      assert s[..|s| - 1] == NatToDecimal(n / 10);
    }
  }

  /** `%s` of an int: a minus sign for negative numbers, then the digits. */
  function IntToDecimal(i: int): (s: string)
    ensures Canonical(s)
    ensures s[0] == '-' <==> i < 0
  {
    if i < 0 then
      var d := NatToDecimal(-i);
      assert ("-" + d)[1..] == d;
      "-" + d
    else NatToDecimal(i)
  }

  /** Reads back what `IntToDecimal` writes. */
  function ParseInt(s: string): Option<int> {
    if |s| >= 2 && s[0] == '-' && AllDigits(s[1..]) then Some(0 - DecimalValue(s[1..]) as int)
    else if |s| >= 1 && AllDigits(s) then Some(DecimalValue(s) as int)
    else None
  }

  lemma IntToDecimalRoundTrip(i: int)
    ensures ParseInt(IntToDecimal(i)) == Some(i)
  {
    var s := IntToDecimal(i);
    if i < 0 {
      NatToDecimalRoundTrip(-i);
      assert s[1..] == NatToDecimal(-i);
    } else {
      NatToDecimalRoundTrip(i);
      assert !IsDigit('-');
    }
  }

  /** A digit string without a leading zero has a positive value. */
  lemma {:induction false} DecimalValuePositive(d: string)
    requires |d| >= 1 && AllDigits(d) && d[0] != '0'
    ensures DecimalValue(d) >= 1
    decreases |d|
  {
    if |d| >= 2 {
      DecimalValuePositive(d[..|d| - 1]);
    }
  }

  /** Canonical digits are the rendering of their own value. */
  lemma {:induction false} CanonicalNatRendering(d: string)
    requires CanonicalNat(d)
    ensures NatToDecimal(DecimalValue(d)) == d
    decreases |d|
  {
    var v := DecimalValue(d);
    var x := (d[|d| - 1] as int) - ('0' as int);
    if |d| == 1 {
      assert d[..|d| - 1] == [];
      assert DecimalValue(d[..|d| - 1]) == 0;
      assert v == DecimalValue(d[..|d| - 1]) * 10 + x;
      assert NatToDecimal(v) == [DigitChar(x)];
    } else {
      var p := d[..|d| - 1];
      assert p[0] == d[0];
      DecimalValuePositive(p);
      CanonicalNatRendering(p);
      assert v == DecimalValue(p) * 10 + x;
      assert v / 10 == DecimalValue(p) && v % 10 == x;
      assert d == p + [d[|d| - 1]];
    }
  }

  /** The rendering is the only canonical string that parses to a number:
      a canonical string parses, and renders back to itself. */
  lemma CanonicalRendering(d: string)
    requires Canonical(d)
    ensures ParseInt(d).Some? && IntToDecimal(ParseInt(d).value) == d
  {
    if d[0] == '-' {
      var u := d[1..];
      CanonicalNatRendering(u);
      DecimalValuePositive(u);
      var v: int := DecimalValue(u);
      assert ParseInt(d) == Some(0 - v);
      assert IntToDecimal(0 - v) == "-" + NatToDecimal(v);
      assert d == "-" + u;
    } else {
      CanonicalNatRendering(d);
      assert ParseInt(d) == Some(DecimalValue(d) as int);
    }
  }

  // ---------------------------------------------------------------------
  // Replies and the timeout error
  // ---------------------------------------------------------------------

  /** One element of the error reply's `errors` list. */
  datatype ErrorEntry = ErrorEntry(originalquery: string, location: string)

  /** The dictionaries `Root.translate` returns. */
  datatype PyReply =
    | Translation(text: string, version: string)
    | ErrorReply(errors: seq<ErrorEntry>, code: int, message: string)

  const TimeoutPrefix := "Timeout after "

  /** `_timeout_error(q, location)` for a server with the given timeout:
      code 400, a single entry carrying the query and the location, and a
      message from which the timeout can be read back. */
  function TimeoutError(q: string, location: string, timeout: int): (r: PyReply)
    ensures r.ErrorReply? && r.code == 400
    ensures r.errors == [ErrorEntry(q, location)]
    ensures HasPrefix(r.message, TimeoutPrefix) && |r.message| > |TimeoutPrefix| + 1
    ensures r.message[|r.message| - 1] == 's'
    ensures ParseInt(r.message[|TimeoutPrefix|..|r.message| - 1]) == Some(timeout)
    ensures Canonical(r.message[|TimeoutPrefix|..|r.message| - 1])
  {
    var digits := IntToDecimal(timeout);
    var message := TimeoutPrefix + digits + "s";
    assert message[..|TimeoutPrefix|] == TimeoutPrefix;
    assert message[|TimeoutPrefix|..|message| - 1] == digits;
    IntToDecimalRoundTrip(timeout);
    ErrorReply([ErrorEntry(q, location)], 400, message)
  }

  // ---------------------------------------------------------------------
  // Root and Root.translate
  // ---------------------------------------------------------------------

  /** `Root`: its filter, its timeout and its four processor chains. */
  datatype PyRoot = PyRoot(
    filter: PyFilter,
    timeout: int,
    tagger: seq<ExternalProcessor>,
    tokenizer: seq<ExternalProcessor>,
    rejoinhasher: seq<ExternalProcessor>,
    detokenizer: seq<ExternalProcessor>)

  /** The install directory the script paths hang off. */
  const Afrlmt := "/home/moses"

  function Script(name: string): string {
    Afrlmt + "/bin/" + name
  }

  /** The tagger's command line.  Unlike the gateway's, it joins the
      patterns file onto the install directory as well. */
  const TaggerCmd := "perl " + Script("pretag-twitter-zone.perl") + " -b -protected " + Script("tag-fixed-twitter-protected-patterns")

  const TokenizerCmd := "perl " + Script("moses_proc_zone.perl")

  const RejoinCmd := "perl " + Script("rejoin-hashtags.perl")

  function DetokenizerCmd(tlang: string): string {
    "perl " + Script("detokenizer.perl") + " -b -l " + tlang
  }

  /** `Root.__init__`: a filter with both passes, and one processor per
      chain, each wrapping its script; `spawn` gives the answers of the
      script started with a command line.  The timeout is -1 unless one is
      given, and the server's entry point never gives one. */
  function NewRoot(tlang: string, spawn: string -> (string -> string), timeout: int := -1): (root: PyRoot)
    ensures root.filter == NewFilter(true, true) && root.timeout == timeout
    ensures |root.tagger| == 1 && |root.tokenizer| == 1 && |root.rejoinhasher| == 1 && |root.detokenizer| == 1
    ensures root.tagger[0].cmd == Some(TaggerCmd) && root.tokenizer[0].cmd == Some(TokenizerCmd)
    ensures root.rejoinhasher[0].cmd == Some(RejoinCmd) && root.detokenizer[0].cmd == Some(DetokenizerCmd(tlang))
    ensures !Idle(root.tagger[0]) && !Idle(root.tokenizer[0]) && !Idle(root.rejoinhasher[0]) && !Idle(root.detokenizer[0])
    ensures root.tagger[0].reply == spawn(TaggerCmd) && root.tokenizer[0].reply == spawn(TokenizerCmd)
    ensures root.rejoinhasher[0].reply == spawn(RejoinCmd) && root.detokenizer[0].reply == spawn(DetokenizerCmd(tlang))
  {
    PyRoot(
      NewFilter(),
      timeout,
      [ExternalProcessor(Some(TaggerCmd), spawn(TaggerCmd))],
      [ExternalProcessor(Some(TokenizerCmd), spawn(TokenizerCmd))],
      [ExternalProcessor(Some(RejoinCmd), spawn(RejoinCmd))],
      [ExternalProcessor(Some(DetokenizerCmd(tlang)), spawn(DetokenizerCmd(tlang)))])
  }

  /** The stages of `Root.translate`. */
  datatype PyStage = Lower | Tag | Tokenize | Engine | RejoinHash | Detokenize | Filtering

  /** The order in which `Root.translate` runs its stages. */
  const StageOrder := [Lower, Tag, Tokenize, Engine, RejoinHash, Detokenize, Filtering]

  /** A stage run, with the text it received. */
  datatype StageCall = StageCall(stage: PyStage, input: string)

  datatype PyHandled = PyHandled(reply: PyReply, calls: seq<StageCall>)

  /** The version string of successful replies. */
  const PyVersion := "0.1.2pre"

  /** The calls of a request that reached the engine: the four early
      stages, with the inputs they received. */
  function EarlyCalls(rawSrc: string, lowerSrc: string, tagSrc: string, query: string): (c: seq<StageCall>)
    ensures |c| == 4 && c[0].input == rawSrc && c[3].input == query
    ensures forall i :: 0 <= i < |c| ==> c[i].stage == StageOrder[i]
  {
    [StageCall(Lower, rawSrc), StageCall(Tag, lowerSrc), StageCall(Tokenize, tagSrc), StageCall(Engine, query)]
  }

  /** The calls after the engine answered: the last three stages, with the
      inputs they received. */
  function LateCalls(translation: string, rejoined: string, detokenized: string): (c: seq<StageCall>)
    ensures |c| == 3 && c[0].input == translation && c[2].input == detokenized
    ensures forall i :: 0 <= i < |c| ==> c[i].stage == StageOrder[4 + i]
  {
    [StageCall(RejoinHash, translation), StageCall(Detokenize, rejoined), StageCall(Filtering, detokenized)]
  }

  /** `Root.translate` on a request whose `text` is `rawSrc`.  `lower` is
      Python's `lower()`; `engine` is the XML-RPC call, answering the
      reply's `text` entry when it has one. */
  function Translate(root: PyRoot, lower: string -> string, engine: string -> Option<string>, rawSrc: string): (h: PyHandled)
    // the stages run in the fixed order, and only a prefix of it
    ensures 4 <= |h.calls| <= |StageOrder|
    ensures forall i :: 0 <= i < |h.calls| ==> h.calls[i].stage == StageOrder[i]
    // the raw text is lowercased first
    ensures h.calls[0].input == rawSrc
    // no text from the engine: a timeout error on the query, and nothing after the engine
    ensures engine(h.calls[3].input).None? ==>
              |h.calls| == 4 && h.reply == TimeoutError(h.calls[3].input, "translation", root.timeout)
    // text from the engine: every later stage runs, the filter's output is the reply
    ensures engine(h.calls[3].input).Some? ==>
              && |h.calls| == 7
              && h.calls[4].input == engine(h.calls[3].input).value
              && h.reply == Translation(FilterText(root.filter, h.calls[6].input), PyVersion)
  {
    var lowerSrc := lower(rawSrc);
    var tagSrc := ExecChain(root.tagger, lowerSrc);
    var tokenized := ExecChain(root.tokenizer, tagSrc);
    var early := EarlyCalls(rawSrc, lowerSrc, tagSrc, tokenized);
    match engine(tokenized)
    case None =>
      PyHandled(TimeoutError(tokenized, "translation", root.timeout), early)
    case Some(translation) =>
      var rejoined := ExecChain(root.rejoinhasher, translation);
      var detokenized := ExecChain(root.detokenizer, rejoined);
      var late := LateCalls(translation, rejoined, detokenized);
      PyHandled(Translation(FilterText(root.filter, detokenized), PyVersion), early + late)
  }

  /** Each stage receives the previous stage's output: the engine sees the
      lowercased text through the tagger and the tokenizer, and the reply
      is the filtered engine output through the rejoiner and detokenizer. */
  lemma TranslateIsComposition(root: PyRoot, lower: string -> string, engine: string -> Option<string>, rawSrc: string)
    ensures var h := Translate(root, lower, engine, rawSrc);
            var query := ExecChain(root.tagger + root.tokenizer, lower(rawSrc));
            && h.calls[3].input == query
            && (engine(query).None? ==> h.reply.ErrorReply?)
            && (engine(query).Some? ==>
                  h.reply.text == FilterText(root.filter, ExecChain(root.rejoinhasher + root.detokenizer, engine(query).value)))
  {
    ExecChainAppend(root.tagger, root.tokenizer, lower(rawSrc));
    var query := ExecChain(root.tagger + root.tokenizer, lower(rawSrc));
    if engine(query).Some? {
      ExecChainAppend(root.rejoinhasher, root.detokenizer, engine(query).value);
    }
  }

  /** With the server's own filter, a successful reply has no line feed, no
      run of whitespace and no whitespace before `'`, `,` or `.`. */
  lemma TranslateNormalises(root: PyRoot, lower: string -> string, engine: string -> Option<string>, rawSrc: string)
    requires root.filter == NewFilter(true, true)
    ensures var h := Translate(root, lower, engine, rawSrc);
            h.reply.Translation? ==>
              && '\n' !in h.reply.text
              && NoAdjacentSpace(PySpace, h.reply.text)
              && NoSpaceBeforePunct(PySpace, h.reply.text)
  {
    var h := Translate(root, lower, engine, rawSrc);
    if h.reply.Translation? {
      NewFilterGuarantees(true, true, h.calls[6].input);
    }
  }

  /** The server as its entry point starts it passes no timeout, so every
      timeout reply it sends reads "Timeout after -1s". */
  lemma ServerTimeoutMessage(tlang: string, spawn: string -> (string -> string), lower: string -> string,
                             engine: string -> Option<string>, rawSrc: string)
    ensures var h := Translate(NewRoot(tlang, spawn), lower, engine, rawSrc);
            engine(h.calls[3].input).None? ==> h.reply.message == "Timeout after -1s"
  {
    var h := Translate(NewRoot(tlang, spawn), lower, engine, rawSrc);
    if engine(h.calls[3].input).None? {
      assert NatToDecimal(1) == "1";
      assert IntToDecimal(-1) == "-1";
    }
  }
}
