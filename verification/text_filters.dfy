/** The in-process text passes of the translation gateway: symbol ("emoji")
    removal, newline removal, the two whitespace-collapsing regular-expression
    rewrites, and the whitespace trimming applied before pre-processing.

    Text is a sequence of code points.  Character classes that come from
    Unicode tables (`unicode.IsSymbol`, `unicode.IsSpace`) are parameters; the
    two regular-expression classes `\s` are spelled out, because they are
    small, fixed and differ between Go's RE2 and Python 2's `re`. */
module TextFilters {

  // ---------------------------------------------------------------------
  // Character classes
  // ---------------------------------------------------------------------

  /** `\s` in Go's RE2 syntax: tab, line feed, form feed, carriage return, space. */
  predicate GoSpace(c: char) {
    c == '\t' || c == '\n' || c == '\U{000C}' || c == '\r' || c == ' '
  }

  /** `\s` in Python 2's `re` without the UNICODE flag: RE2's class plus vertical tab. */
  predicate PySpace(c: char) {
    GoSpace(c) || c == '\U{000B}'
  }

  /** A character is a line feed. */
  predicate IsLF(c: char) {
    c == '\n'
  }

  /** The characters captured by the second collapse rewrite, `[',.]`. */
  predicate IsPunct(c: char) {
    c == '\'' || c == ',' || c == '.'
  }

  /** What the collapse rewrites need of a whitespace class: the replacement
      space belongs to it and the captured punctuation does not. */
  predicate WsClass(ws: char -> bool) {
    ws(' ') && !ws('\'') && !ws(',') && !ws('.')
  }

  // ---------------------------------------------------------------------
  // Properties of normalised text
  // ---------------------------------------------------------------------

  /** No two whitespace characters stand next to each other. */
  predicate NoAdjacentSpace(ws: char -> bool, s: string) {
    forall i :: 0 <= i < |s| - 1 ==> !(ws(s[i]) && ws(s[i + 1]))
  }

  /** No whitespace character stands directly before `'`, `,` or `.`. */
  predicate NoSpaceBeforePunct(ws: char -> bool, s: string) {
    forall i :: 0 <= i < |s| - 1 ==> !(ws(s[i]) && IsPunct(s[i + 1]))
  }

  /** No character of `s` satisfies `p`. */
  predicate Avoids(p: char -> bool, s: string) {
    forall i :: 0 <= i < |s| ==> !p(s[i])
  }

  /** The characters of `s` outside the class `ws`, in their original order. */
  function NonSpace(ws: char -> bool, s: string): string
    decreases |s|
  {
    if s == [] then []
    else (if ws(s[0]) then [] else [s[0]]) + NonSpace(ws, s[1..])
  }

  // ---------------------------------------------------------------------
  // Symbol ("emoji") removal: transform.RemoveFunc(unicode.IsSymbol)
  // ---------------------------------------------------------------------

  /** Deletes every code point satisfying `isSymbol` and keeps the others. */
  function RemoveSymbols(isSymbol: char -> bool, s: string): (r: string)
    ensures |r| <= |s|
    ensures forall i :: 0 <= i < |r| ==> !isSymbol(r[i])
    decreases |s|
  {
    if s == [] then []
    else (if isSymbol(s[0]) then [] else [s[0]]) + RemoveSymbols(isSymbol, s[1..])
  }

  /** Every code point that is not a symbol is kept as often as it occurs. */
  lemma {:induction false} RemoveSymbolsCounts(isSymbol: char -> bool, s: string)
    ensures forall c :: multiset(RemoveSymbols(isSymbol, s))[c] == (if isSymbol(c) then 0 else multiset(s)[c])
    decreases |s|
  {
    if s != [] {
      RemoveSymbolsCounts(isSymbol, s[1..]);
      assert s == [s[0]] + s[1..];
      assert multiset(s) == multiset([s[0]]) + multiset(s[1..]);
    }
  }

  /** Removal distributes over concatenation: it decides each code point on
      its own, so the kept ones stay in their original order. */
  lemma {:induction false} RemoveSymbolsAppend(isSymbol: char -> bool, a: string, b: string)
    ensures RemoveSymbols(isSymbol, a + b) == RemoveSymbols(isSymbol, a) + RemoveSymbols(isSymbol, b)
    decreases |a|
  {
    if a == [] {
      assert a + b == b;
    } else {
      var h := if isSymbol(a[0]) then [] else [a[0]];
      assert (a + b)[0] == a[0];
      assert (a + b)[1..] == a[1..] + b;
      calc {
        RemoveSymbols(isSymbol, a + b);
        h + RemoveSymbols(isSymbol, a[1..] + b);
        { RemoveSymbolsAppend(isSymbol, a[1..], b); }
        h + (RemoveSymbols(isSymbol, a[1..]) + RemoveSymbols(isSymbol, b));
        (h + RemoveSymbols(isSymbol, a[1..])) + RemoveSymbols(isSymbol, b);
      }
    }
  }

  /** Text without symbols passes through unchanged. */
  lemma {:induction false} RemoveSymbolsNoOp(isSymbol: char -> bool, s: string)
    requires forall i :: 0 <= i < |s| ==> !isSymbol(s[i])
    ensures RemoveSymbols(isSymbol, s) == s
    decreases |s|
  {
    if s != [] {
      RemoveSymbolsNoOp(isSymbol, s[1..]);
    }
  }

  /** A second removal changes nothing. */
  lemma RemoveSymbolsIdempotent(isSymbol: char -> bool, s: string)
    ensures RemoveSymbols(isSymbol, RemoveSymbols(isSymbol, s)) == RemoveSymbols(isSymbol, s)
  {
    RemoveSymbolsNoOp(isSymbol, RemoveSymbols(isSymbol, s));
  }

  /** Trailing symbols are stripped and the symbol-free text before them is
      left exactly as it was. */
  lemma RemoveSymbolsStripsTrailing(isSymbol: char -> bool, text: string, tail: string)
    requires forall i :: 0 <= i < |text| ==> !isSymbol(text[i])
    requires forall i :: 0 <= i < |tail| ==> isSymbol(tail[i])
    ensures RemoveSymbols(isSymbol, text + tail) == text
  {
    RemoveSymbolsAppend(isSymbol, text, tail);
    RemoveSymbolsNoOp(isSymbol, text);
    RemoveSymbolsDropsAll(isSymbol, tail);
    assert text + [] == text;
  }

  lemma {:induction false} RemoveSymbolsDropsAll(isSymbol: char -> bool, s: string)
    requires forall i :: 0 <= i < |s| ==> isSymbol(s[i])
    ensures RemoveSymbols(isSymbol, s) == []
    decreases |s|
  {
    if s != [] {
      RemoveSymbolsDropsAll(isSymbol, s[1..]);
    }
  }

  // ---------------------------------------------------------------------
  // Newline removal: strings.Replace("\r\n" -> " "), then ("\n" -> " ")
  // ---------------------------------------------------------------------

  /** `strings.Replace(s, "\r\n", " ", -1)`: non-overlapping, left to right. */
  function ReplaceCRLF(s: string): (r: string)
    ensures |r| <= |s|
    decreases |s|
  {
    if |s| >= 2 && s[0] == '\r' && s[1] == '\n' then
      [' '] + ReplaceCRLF(s[2..])
    else if s == [] then []
    else [s[0]] + ReplaceCRLF(s[1..])
  }

  /** A CR LF pair not preceded by a CR becomes one space, and the text on
      either side is replaced on its own. */
  lemma {:induction false} ReplaceCRLFPair(a: string, b: string)
    requires !(|a| > 0 && a[|a| - 1] == '\r')
    ensures ReplaceCRLF(a + "\r\n" + b) == ReplaceCRLF(a) + " " + ReplaceCRLF(b)
    decreases |a|
  {
    if a == [] {
      assert a + "\r\n" + b == ['\r', '\n'] + b;
      ReplaceCRLFAtPair(b);
    } else if |a| >= 2 && a[0] == '\r' && a[1] == '\n' {
      ReplaceCRLFPair(a[2..], b);
      ReplaceCRLFPairAfterPair(a, b);
    } else {
      ReplaceCRLFPair(a[1..], b);
      ReplaceCRLFPairAfterCons(a, b);
    }
  }

  /** The step of `ReplaceCRLFPair` when `a` starts with a CR LF pair. */
  lemma ReplaceCRLFPairAfterPair(a: string, b: string)
    requires |a| >= 2 && a[0] == '\r' && a[1] == '\n'
    requires ReplaceCRLF(a[2..] + "\r\n" + b) == ReplaceCRLF(a[2..]) + " " + ReplaceCRLF(b)
    ensures ReplaceCRLF(a + "\r\n" + b) == ReplaceCRLF(a) + " " + ReplaceCRLF(b)
  {
    var u := a[2..];
    assert a == ['\r', '\n'] + u;
    ConcatAssoc(['\r', '\n'], u, "\r\n");
    ConcatAssoc(['\r', '\n'], u + "\r\n", b);
    ReplaceCRLFAtPair(u);
    ReplaceCRLFAtPair(u + "\r\n" + b);
    ConcatAssoc([' '], ReplaceCRLF(u), " " + ReplaceCRLF(b));
    ConcatAssoc(ReplaceCRLF(u), " ", ReplaceCRLF(b));
    ConcatAssoc([' '] + ReplaceCRLF(u), " ", ReplaceCRLF(b));
  }

  /** The step of `ReplaceCRLFPair` when no pair starts `a`. */
  lemma ReplaceCRLFPairAfterCons(a: string, b: string)
    requires |a| > 0 && a[|a| - 1] != '\r'
    requires !(|a| >= 2 && a[0] == '\r' && a[1] == '\n')
    requires ReplaceCRLF(a[1..] + "\r\n" + b) == ReplaceCRLF(a[1..]) + " " + ReplaceCRLF(b)
    ensures ReplaceCRLF(a + "\r\n" + b) == ReplaceCRLF(a) + " " + ReplaceCRLF(b)
  {
    var c, u := a[0], a[1..];
    assert a == [c] + u;
    ConcatAssoc([c], u, "\r\n");
    ConcatAssoc([c], u + "\r\n", b);
    assert c == '\r' ==> u != [] && u[0] != '\n';
    ReplaceCRLFCons(c, u);
    assert (u + "\r\n" + b)[0] == (if u == [] then '\r' else u[0]);
    ReplaceCRLFCons(c, u + "\r\n" + b);
    ConcatAssoc(ReplaceCRLF(u), " ", ReplaceCRLF(b));
    ConcatAssoc([c], ReplaceCRLF(u), " " + ReplaceCRLF(b));
    ConcatAssoc([c] + ReplaceCRLF(u), " ", ReplaceCRLF(b));
  }

  /** A leading CR LF pair becomes one space. */
  lemma ReplaceCRLFAtPair(u: string)
    ensures ReplaceCRLF(['\r', '\n'] + u) == [' '] + ReplaceCRLF(u)
  {
    assert (['\r', '\n'] + u)[2..] == u;
  }

  /** Where no pair starts, the first character is copied. */
  lemma ReplaceCRLFCons(c: char, u: string)
    requires !(c == '\r' && |u| > 0 && u[0] == '\n')
    ensures ReplaceCRLF([c] + u) == [c] + ReplaceCRLF(u)
  {
    assert ([c] + u)[1..] == u;
  }

  /** Text without a CR LF pair is left unchanged. */
  lemma {:induction false} ReplaceCRLFNoOp(s: string)
    requires forall i :: 0 <= i < |s| - 1 ==> !(s[i] == '\r' && s[i + 1] == '\n')
    ensures ReplaceCRLF(s) == s
    decreases |s|
  {
    if s != [] {
      var u := s[1..];
      forall i | 0 <= i < |u| - 1
        ensures !(u[i] == '\r' && u[i + 1] == '\n')
      {
        assert u[i] == s[i + 1] && u[i + 1] == s[i + 2];
      }
      ReplaceCRLFNoOp(u);
      assert s == [s[0]] + u;
      ReplaceCRLFCons(s[0], u);
    }
  }

  /** `strings.Replace(s, "\n", " ", -1)`. */
  function ReplaceLF(s: string): (r: string)
    ensures |r| == |s|
    ensures forall i :: 0 <= i < |s| ==> r[i] == (if s[i] == '\n' then ' ' else s[i])
    decreases |s|
  {
    if s == [] then []
    else [if s[0] == '\n' then ' ' else s[0]] + ReplaceLF(s[1..])
  }

  /** The newline pass: each CRLF, then each remaining LF, becomes one space. */
  function RemoveNewlines(s: string): (r: string)
    ensures '\n' !in r
    ensures |r| <= |s|
  {
    ReplaceLF(ReplaceCRLF(s))
  }

  lemma {:induction false} ReplaceCRLFAvoids(p: char -> bool, s: string)
    requires !p(' ') && Avoids(p, s)
    ensures Avoids(p, ReplaceCRLF(s))
    decreases |s|
  {
    if |s| >= 2 && s[0] == '\r' && s[1] == '\n' {
      ReplaceCRLFAvoids(p, s[2..]);
    } else if s != [] {
      ReplaceCRLFAvoids(p, s[1..]);
    }
  }

  /** The newline pass introduces no character other than the space. */
  lemma RemoveNewlinesAvoids(p: char -> bool, s: string)
    requires !p(' ') && Avoids(p, s)
    ensures Avoids(p, RemoveNewlines(s))
  {
    ReplaceCRLFAvoids(p, s);
  }

  /** Independent one-pass reading of the newline pass: scanning left to
      right, CRLF becomes one space, a lone LF becomes one space, and every
      other character (a lone CR included) is kept. */
  function NewlinesToSpaces(s: string): string
    decreases |s|
  {
    if |s| >= 2 && s[0] == '\r' && s[1] == '\n' then
      [' '] + NewlinesToSpaces(s[2..])
    else if s == [] then []
    else [if s[0] == '\n' then ' ' else s[0]] + NewlinesToSpaces(s[1..])
  }

  lemma ReplaceLFCons(c: char, t: string)
    ensures ReplaceLF([c] + t) == [if c == '\n' then ' ' else c] + ReplaceLF(t)
  {
    assert ([c] + t)[1..] == t;
  }

  /** The two sequential replacements equal the one-pass reading. */
  lemma {:induction false} RemoveNewlinesOnePass(s: string)
    ensures RemoveNewlines(s) == NewlinesToSpaces(s)
    decreases |s|
  {
    if |s| >= 2 && s[0] == '\r' && s[1] == '\n' {
      RemoveNewlinesOnePass(s[2..]);
      ReplaceLFCons(' ', ReplaceCRLF(s[2..]));
    } else if s != [] {
      RemoveNewlinesOnePass(s[1..]);
      ReplaceLFCons(s[0], ReplaceCRLF(s[1..]));
    }
  }

  /** The newline pass works piecewise: splitting the text anywhere except
      between the CR and LF of a CRLF pair does not change the result. */
  lemma {:induction false} NewlinesToSpacesAppend(a: string, b: string)
    requires !(|a| > 0 && a[|a| - 1] == '\r' && |b| > 0 && b[0] == '\n')
    ensures NewlinesToSpaces(a + b) == NewlinesToSpaces(a) + NewlinesToSpaces(b)
    decreases |a|
  {
    if a == [] {
      assert a + b == b;
    } else if |a| >= 2 && a[0] == '\r' && a[1] == '\n' {
      NewlinesToSpacesAppend(a[2..], b);
      NewlinesToSpacesAppendAfterPair(a, b);
    } else {
      NewlinesToSpacesAppend(a[1..], b);
      NewlinesToSpacesAppendAfterCons(a, b);
    }
  }

  /** The step of `NewlinesToSpacesAppend` when `a` starts with a CR LF pair. */
  lemma NewlinesToSpacesAppendAfterPair(a: string, b: string)
    requires |a| >= 2 && a[0] == '\r' && a[1] == '\n'
    requires NewlinesToSpaces(a[2..] + b) == NewlinesToSpaces(a[2..]) + NewlinesToSpaces(b)
    ensures NewlinesToSpaces(a + b) == NewlinesToSpaces(a) + NewlinesToSpaces(b)
  {
    var u := a[2..];
    assert a == ['\r', '\n'] + u;
    ConcatAssoc(['\r', '\n'], u, b);
    NewlinesToSpacesAtPair(u);
    NewlinesToSpacesAtPair(u + b);
    ConcatAssoc([' '], NewlinesToSpaces(u), NewlinesToSpaces(b));
  }

  /** The step of `NewlinesToSpacesAppend` when no pair starts `a`. */
  lemma NewlinesToSpacesAppendAfterCons(a: string, b: string)
    requires a != [] && !(|a| >= 2 && a[0] == '\r' && a[1] == '\n')
    requires !(a[|a| - 1] == '\r' && |b| > 0 && b[0] == '\n')
    requires NewlinesToSpaces(a[1..] + b) == NewlinesToSpaces(a[1..]) + NewlinesToSpaces(b)
    ensures NewlinesToSpaces(a + b) == NewlinesToSpaces(a) + NewlinesToSpaces(b)
  {
    var c, u := a[0], a[1..];
    assert a == [c] + u;
    ConcatAssoc([c], u, b);
    NewlinesToSpacesCons(c, u);
    assert !(c == '\r' && |u + b| > 0 && (u + b)[0] == '\n') by {
      if u == [] {
        assert u + b == b;
      } else {
        assert (u + b)[0] == u[0];
      }
    }
    NewlinesToSpacesCons(c, u + b);
    ConcatAssoc([if c == '\n' then ' ' else c], NewlinesToSpaces(u), NewlinesToSpaces(b));
  }

  /** A leading CR LF pair becomes one space. */
  lemma NewlinesToSpacesAtPair(u: string)
    ensures NewlinesToSpaces(['\r', '\n'] + u) == [' '] + NewlinesToSpaces(u)
  {
    assert (['\r', '\n'] + u)[2..] == u;
  }

  /** Where no pair starts, the first character is kept, a line feed turned
      into a space. */
  lemma NewlinesToSpacesCons(c: char, u: string)
    requires !(c == '\r' && |u| > 0 && u[0] == '\n')
    ensures NewlinesToSpaces([c] + u) == [if c == '\n' then ' ' else c] + NewlinesToSpaces(u)
  {
    assert ([c] + u)[1..] == u;
  }

  /** The newline pass works piecewise: splitting the text anywhere except
      between the CR and LF of a CRLF pair does not change the result. */
  lemma RemoveNewlinesAppend(a: string, b: string)
    requires !(|a| > 0 && a[|a| - 1] == '\r' && |b| > 0 && b[0] == '\n')
    ensures RemoveNewlines(a + b) == RemoveNewlines(a) + RemoveNewlines(b)
  {
    RemoveNewlinesOnePass(a + b);
    RemoveNewlinesOnePass(a);
    RemoveNewlinesOnePass(b);
    NewlinesToSpacesAppend(a, b);
  }

  lemma NewlinesToSpacesAround(a: string, e: string, b: string)
    requires |e| > 0
    requires !(|a| > 0 && a[|a| - 1] == '\r' && e[0] == '\n')
    requires !(e[|e| - 1] == '\r' && |b| > 0 && b[0] == '\n')
    ensures NewlinesToSpaces(a + e + b) == NewlinesToSpaces(a) + NewlinesToSpaces(e) + NewlinesToSpaces(b)
  {
    ConcatAssoc(a, e, b);
    assert (e + b)[0] == e[0];
    NewlinesToSpacesAppend(a, e + b);
    NewlinesToSpacesAppend(e, b);
    ConcatAssoc(NewlinesToSpaces(a), NewlinesToSpaces(e), NewlinesToSpaces(b));
  }

  /** A CRLF pair becomes exactly one space. */
  lemma RemoveNewlinesCRLF(a: string, b: string)
    ensures RemoveNewlines(a + "\r\n" + b) == RemoveNewlines(a) + " " + RemoveNewlines(b)
  {
    var e := "\r\n";
    NewlinesToSpacesAround(a, e, b);
    assert NewlinesToSpaces(e) == " " by {
      assert e[2..] == [];
    }
    RemoveNewlinesOnePass(a + e + b);
    RemoveNewlinesOnePass(a);
    RemoveNewlinesOnePass(b);
  }

  /** A line feed not preceded by a carriage return becomes one space. */
  lemma RemoveNewlinesLF(a: string, b: string)
    requires |a| == 0 || a[|a| - 1] != '\r'
    ensures RemoveNewlines(a + "\n" + b) == RemoveNewlines(a) + " " + RemoveNewlines(b)
  {
    var e := "\n";
    NewlinesToSpacesAround(a, e, b);
    assert NewlinesToSpaces(e) == " " by {
      assert e[1..] == [];
    }
    RemoveNewlinesOnePass(a + e + b);
    RemoveNewlinesOnePass(a);
    RemoveNewlinesOnePass(b);
  }

  /** A carriage return not followed by a line feed is kept. */
  lemma RemoveNewlinesLoneCR(a: string, b: string)
    requires |b| == 0 || b[0] != '\n'
    ensures RemoveNewlines(a + "\r" + b) == RemoveNewlines(a) + "\r" + RemoveNewlines(b)
  {
    var e := "\r";
    NewlinesToSpacesAround(a, e, b);
    assert NewlinesToSpaces(e) == "\r" by {
      assert e[1..] == [];
    }
    RemoveNewlinesOnePass(a + e + b);
    RemoveNewlinesOnePass(a);
    RemoveNewlinesOnePass(b);
  }

  /** Text without a line feed passes through the newline pass unchanged. */
  lemma {:induction false} RemoveNewlinesNoOp(s: string)
    requires '\n' !in s
    ensures RemoveNewlines(s) == s
    decreases |s|
  {
    RemoveNewlinesOnePass(s);
    NewlinesToSpacesNoOp(s);
  }

  lemma {:induction false} NewlinesToSpacesNoOp(s: string)
    requires '\n' !in s
    ensures NewlinesToSpaces(s) == s
    decreases |s|
  {
    if s != [] {
      assert s[0] in s;
      if |s| >= 2 {
        assert s[1] in s;
      }
      NewlinesToSpacesNoOp(s[1..]);
    }
  }

  // ---------------------------------------------------------------------
  // First collapse rewrite: `\s\s+` -> " "
  // ---------------------------------------------------------------------

  /** Length of the whitespace run at the start of `s`. */
  function LeadingRun(ws: char -> bool, s: string): (k: nat)
    ensures k <= |s|
    ensures k < |s| ==> !ws(s[k])
    decreases |s|
  {
    if s == [] || !ws(s[0]) then 0 else 1 + LeadingRun(ws, s[1..])
  }

  /** Everything inside the leading run is whitespace. */
  lemma {:induction false} LeadingRunSpaces(ws: char -> bool, s: string)
    ensures forall i :: 0 <= i < LeadingRun(ws, s) ==> ws(s[i])
    decreases |s|
  {
    if s != [] && ws(s[0]) {
      LeadingRunSpaces(ws, s[1..]);
      assert forall i :: 1 <= i < LeadingRun(ws, s) ==> s[i] == s[1..][i - 1];
    }
  }

  /** `ReplaceAllString` with the greedy pattern `\s\s+`: scanning left to
      right, a whitespace run of length two or more becomes one space and the
      scan resumes after the run; anything else is copied. */
  function CollapseRuns(ws: char -> bool, s: string): (r: string)
    ensures |r| <= |s|
    decreases |s|
  {
    if s == [] then []
    else
      var k := LeadingRun(ws, s);
      if k >= 2 then [' '] + CollapseRuns(ws, s[k..])
      else [s[0]] + CollapseRuns(ws, s[1..])
  }

  /** After the first rewrite no two whitespace characters are adjacent, and
      the result starts with whitespace only if the input does. */
  lemma {:induction false} CollapseRunsNoAdjacent(ws: char -> bool, s: string)
    ensures NoAdjacentSpace(ws, CollapseRuns(ws, s))
    ensures |CollapseRuns(ws, s)| > 0 && ws(CollapseRuns(ws, s)[0]) ==> |s| > 0 && ws(s[0])
    decreases |s|
  {
    if s != [] {
      var k := LeadingRun(ws, s);
      var r := CollapseRuns(ws, s);
      if k >= 2 {
        var rest := CollapseRuns(ws, s[k..]);
        CollapseRunsNoAdjacent(ws, s[k..]);
        assert r == [' '] + rest;
        assert forall i :: 1 <= i < |r| ==> r[i] == rest[i - 1];
      } else {
        var rest := CollapseRuns(ws, s[1..]);
        CollapseRunsNoAdjacent(ws, s[1..]);
        assert r == [s[0]] + rest;
        assert forall i :: 1 <= i < |r| ==> r[i] == rest[i - 1];
      }
    }
  }

  /** The first rewrite introduces no character other than the space. */
  lemma {:induction false} CollapseRunsAvoids(p: char -> bool, ws: char -> bool, s: string)
    requires !p(' ') && Avoids(p, s)
    ensures Avoids(p, CollapseRuns(ws, s))
    decreases |s|
  {
    if s != [] {
      var k := LeadingRun(ws, s);
      if k >= 2 {
        CollapseRunsAvoids(p, ws, s[k..]);
      } else {
        CollapseRunsAvoids(p, ws, s[1..]);
      }
    }
  }

  lemma {:induction false} NonSpaceSkipRun(ws: char -> bool, s: string, k: nat)
    requires k <= |s|
    requires forall i :: 0 <= i < k ==> ws(s[i])
    ensures NonSpace(ws, s) == NonSpace(ws, s[k..])
    decreases k
  {
    if k > 0 {
      assert s[1..][k - 1..] == s[k..];
      NonSpaceSkipRun(ws, s[1..], k - 1);
    }
  }

  lemma NonSpaceCons(ws: char -> bool, c: char, t: string)
    ensures NonSpace(ws, [c] + t) == (if ws(c) then [] else [c]) + NonSpace(ws, t)
  {
    assert ([c] + t)[1..] == t;
  }

  /** The first rewrite keeps every non-whitespace character, in order. */
  lemma {:induction false} CollapseRunsKeepsText(ws: char -> bool, s: string)
    requires ws(' ')
    ensures NonSpace(ws, CollapseRuns(ws, s)) == NonSpace(ws, s)
    decreases |s|
  {
    if s != [] {
      var k := LeadingRun(ws, s);
      if k >= 2 {
        CollapseRunsKeepsText(ws, s[k..]);
        NonSpaceCons(ws, ' ', CollapseRuns(ws, s[k..]));
        LeadingRunSpaces(ws, s);
        NonSpaceSkipRun(ws, s, k);
      } else {
        CollapseRunsKeepsText(ws, s[1..]);
        NonSpaceCons(ws, s[0], CollapseRuns(ws, s[1..]));
      }
    }
  }

  /** Text already free of adjacent whitespace is a fixed point. */
  lemma {:induction false} CollapseRunsNoOp(ws: char -> bool, s: string)
    requires NoAdjacentSpace(ws, s)
    ensures CollapseRuns(ws, s) == s
    decreases |s|
  {
    if s != [] {
      assert LeadingRun(ws, s) < 2;
      CollapseRunsNoOp(ws, s[1..]);
    }
  }

  /** A whole whitespace run of length two or more collapses to one space;
      a single whitespace character is kept as it is. */
  lemma CollapseRunsOfRun(ws: char -> bool, s: string)
    requires |s| > 0
    requires forall i :: 0 <= i < |s| ==> ws(s[i])
    ensures CollapseRuns(ws, s) == (if |s| >= 2 then " " else s)
  {
    assert LeadingRun(ws, s) == |s|;
    assert s[|s|..] == [];
    if |s| == 1 {
      assert s[1..] == [];
    }
  }

  lemma {:induction false} LeadingRunAppend(ws: char -> bool, a: string, b: string)
    requires |a| > 0
    requires !ws(a[|a| - 1]) || |b| == 0 || !ws(b[0])
    ensures LeadingRun(ws, a + b) == LeadingRun(ws, a)
    decreases |a|
  {
    if ws(a[0]) {
      if |a| == 1 {
        assert (a + b)[1..] == b;
        assert a[1..] == [];
      } else {
        assert (a + b)[1..] == a[1..] + b;
        LeadingRunAppend(ws, a[1..], b);
      }
    }
  }

  /** Runs never reach across a split point that has a non-whitespace
      character on at least one side, so each side collapses on its own. */
  lemma {:induction false} CollapseRunsAppend(ws: char -> bool, a: string, b: string)
    requires |a| == 0 || |b| == 0 || !ws(a[|a| - 1]) || !ws(b[0])
    ensures CollapseRuns(ws, a + b) == CollapseRuns(ws, a) + CollapseRuns(ws, b)
    decreases |a|, 2
  {
    if a == [] {
      assert a + b == b;
    } else if b == [] {
      assert a + b == a;
    } else if LeadingRun(ws, a) >= 2 {
      CollapseRunsAppendRun(ws, a, b);
    } else {
      CollapseRunsAppendChar(ws, a, b);
    }
  }

  lemma {:induction false} CollapseRunsAppendRun(ws: char -> bool, a: string, b: string)
    requires |a| > 0 && |b| > 0 && LeadingRun(ws, a) >= 2
    requires !ws(a[|a| - 1]) || !ws(b[0])
    ensures CollapseRuns(ws, a + b) == CollapseRuns(ws, a) + CollapseRuns(ws, b)
    decreases |a|, 1
  {
    var k := LeadingRun(ws, a);
    var head := [' '];
    calc {
      CollapseRuns(ws, a + b);
      { LeadingRunAppend(ws, a, b); CollapseRunsStep(ws, a + b); }
      head + CollapseRuns(ws, (a + b)[k..]);
      { DropAppend(a, b, k); }
      head + CollapseRuns(ws, a[k..] + b);
      { CollapseRunsAppendRest(ws, a, b, k); }
      head + (CollapseRuns(ws, a[k..]) + CollapseRuns(ws, b));
      { ConcatAssoc(head, CollapseRuns(ws, a[k..]), CollapseRuns(ws, b)); }
      (head + CollapseRuns(ws, a[k..])) + CollapseRuns(ws, b);
      { CollapseRunsStep(ws, a); }
      CollapseRuns(ws, a) + CollapseRuns(ws, b);
    }
  }

  lemma {:induction false} CollapseRunsAppendChar(ws: char -> bool, a: string, b: string)
    requires |a| > 0 && |b| > 0 && LeadingRun(ws, a) < 2
    requires !ws(a[|a| - 1]) || !ws(b[0])
    ensures CollapseRuns(ws, a + b) == CollapseRuns(ws, a) + CollapseRuns(ws, b)
    decreases |a|, 1
  {
    var head := [a[0]];
    calc {
      CollapseRuns(ws, a + b);
      { LeadingRunAppend(ws, a, b); DropAppend(a, b, 1); CollapseRunsStep(ws, a + b); }
      head + CollapseRuns(ws, (a + b)[1..]);
      { DropAppend(a, b, 1); }
      head + CollapseRuns(ws, a[1..] + b);
      { CollapseRunsAppendRest(ws, a, b, 1); }
      head + (CollapseRuns(ws, a[1..]) + CollapseRuns(ws, b));
      { ConcatAssoc(head, CollapseRuns(ws, a[1..]), CollapseRuns(ws, b)); }
      (head + CollapseRuns(ws, a[1..])) + CollapseRuns(ws, b);
      { CollapseRunsStep(ws, a); }
      CollapseRuns(ws, a) + CollapseRuns(ws, b);
    }
  }

  /** The rest of `a` after its first step still splits cleanly from `b`. */
  lemma {:induction false} CollapseRunsAppendRest(ws: char -> bool, a: string, b: string, k: nat)
    requires 0 < k <= |a| && |b| > 0
    requires !ws(a[|a| - 1]) || !ws(b[0])
    ensures CollapseRuns(ws, a[k..] + b) == CollapseRuns(ws, a[k..]) + CollapseRuns(ws, b)
    decreases |a|, 0
  {
    if k == |a| {
      assert a[k..] == [];
      assert a[k..] + b == b;
    } else {
      LastOfDrop(a, k);
      CollapseRunsAppend(ws, a[k..], b);
    }
  }

  /** One step of the first rewrite. */
  lemma CollapseRunsStep(ws: char -> bool, s: string)
    requires s != []
    ensures CollapseRuns(ws, s)
            == if LeadingRun(ws, s) >= 2 then [' '] + CollapseRuns(ws, s[LeadingRun(ws, s)..])
               else [s[0]] + CollapseRuns(ws, s[1..])
  {
  }

  lemma DropAppend(a: string, b: string, k: nat)
    requires k <= |a|
    ensures (a + b)[k..] == a[k..] + b
    ensures k < |a| ==> (a + b)[0] == a[0]
  {
  }

  lemma ConcatAssoc(x: string, y: string, z: string)
    ensures x + (y + z) == (x + y) + z
  {
  }

  lemma LastOfDrop(a: string, k: nat)
    requires k < |a|
    ensures a[k..][|a| - k - 1] == a[|a| - 1]
  {
  }

  // ---------------------------------------------------------------------
  // Second collapse rewrite: `\s([',.])` -> "$1"
  // ---------------------------------------------------------------------

  /** `ReplaceAllString` with `\s([',.])` and replacement `$1`: scanning left
      to right, a whitespace character followed by `'`, `,` or `.` is dropped
      and the scan resumes after the punctuation. */
  function DropSpaceBeforePunct(ws: char -> bool, s: string): (r: string)
    ensures |r| <= |s|
    ensures |s| > 0 && !ws(s[0]) ==> |r| > 0 && r[0] == s[0]
    decreases |s|
  {
    if |s| >= 2 && ws(s[0]) && IsPunct(s[1]) then
      [s[1]] + DropSpaceBeforePunct(ws, s[2..])
    else if s == [] then []
    else [s[0]] + DropSpaceBeforePunct(ws, s[1..])
  }

  /** The second rewrite introduces no character at all. */
  lemma {:induction false} DropSpaceAvoids(p: char -> bool, ws: char -> bool, s: string)
    requires Avoids(p, s)
    ensures Avoids(p, DropSpaceBeforePunct(ws, s))
    decreases |s|
  {
    if |s| >= 2 && ws(s[0]) && IsPunct(s[1]) {
      DropSpaceAvoids(p, ws, s[2..]);
    } else if s != [] {
      DropSpaceAvoids(p, ws, s[1..]);
    }
  }

  /** The second rewrite only ever deletes whitespace. */
  lemma {:induction false} DropSpaceKeepsText(ws: char -> bool, s: string)
    ensures NonSpace(ws, DropSpaceBeforePunct(ws, s)) == NonSpace(ws, s)
    decreases |s|
  {
    if |s| >= 2 && ws(s[0]) && IsPunct(s[1]) {
      DropSpaceKeepsText(ws, s[2..]);
      NonSpaceCons(ws, s[1], DropSpaceBeforePunct(ws, s[2..]));
      NonSpaceSkipRun(ws, s, 1);
      assert s[1..] == [s[1]] + s[2..];
      NonSpaceCons(ws, s[1], s[2..]);
    } else if s != [] {
      DropSpaceKeepsText(ws, s[1..]);
      NonSpaceCons(ws, s[0], DropSpaceBeforePunct(ws, s[1..]));
    }
  }

  /** On text with no adjacent whitespace, the second rewrite leaves no
      whitespace before `' , .` and creates no adjacent whitespace. */
  lemma {:induction false} DropSpaceCleans(ws: char -> bool, s: string)
    requires WsClass(ws)
    requires NoAdjacentSpace(ws, s)
    ensures NoAdjacentSpace(ws, DropSpaceBeforePunct(ws, s))
    ensures NoSpaceBeforePunct(ws, DropSpaceBeforePunct(ws, s))
    decreases |s|
  {
    var r := DropSpaceBeforePunct(ws, s);
    if |s| >= 2 && ws(s[0]) && IsPunct(s[1]) {
      DropSpaceCleans(ws, s[2..]);
      assert !ws(r[0]);
      assert forall i :: 1 <= i < |r| ==> r[i] == DropSpaceBeforePunct(ws, s[2..])[i - 1];
    } else if s != [] {
      DropSpaceCleans(ws, s[1..]);
      var rest := DropSpaceBeforePunct(ws, s[1..]);
      assert r == [s[0]] + rest;
      if ws(s[0]) && |rest| > 0 {
        // s[1] is neither whitespace (no adjacent runs) nor punctuation
        // (otherwise the first branch applies), so it is kept first.
        assert |s| >= 2;
        assert !ws(s[1]) && !IsPunct(s[1]);
        assert rest[0] == s[1];
      }
      assert forall i :: 1 <= i < |r| ==> r[i] == rest[i - 1];
    }
  }

  /** The second rewrite works piecewise: cutting the text anywhere except
      between a whitespace character and the punctuation after it does not
      change the result. */
  lemma {:induction false} DropSpaceAppend(ws: char -> bool, a: string, b: string)
    requires !(|a| > 0 && ws(a[|a| - 1]) && |b| > 0 && IsPunct(b[0]))
    ensures DropSpaceBeforePunct(ws, a + b) == DropSpaceBeforePunct(ws, a) + DropSpaceBeforePunct(ws, b)
    decreases |a|, 1
  {
    if a == [] {
      assert a + b == b;
    } else if |a| >= 2 && ws(a[0]) && IsPunct(a[1]) {
      DropSpaceAppendPair(ws, a, b);
    } else {
      DropSpaceAppendChar(ws, a, b);
    }
  }

  lemma {:induction false} DropSpaceAppendPair(ws: char -> bool, a: string, b: string)
    requires |a| >= 2 && ws(a[0]) && IsPunct(a[1])
    requires !(|a| > 0 && ws(a[|a| - 1]) && |b| > 0 && IsPunct(b[0]))
    ensures DropSpaceBeforePunct(ws, a + b) == DropSpaceBeforePunct(ws, a) + DropSpaceBeforePunct(ws, b)
    decreases |a|, 0
  {
    var ab := a + b;
    assert ab[0] == a[0] && ab[1] == a[1];
    assert ab[2..] == a[2..] + b;
    DropSpaceAppend(ws, a[2..], b);
    calc {
      DropSpaceBeforePunct(ws, ab);
      [a[1]] + DropSpaceBeforePunct(ws, a[2..] + b);
      [a[1]] + (DropSpaceBeforePunct(ws, a[2..]) + DropSpaceBeforePunct(ws, b));
      ([a[1]] + DropSpaceBeforePunct(ws, a[2..])) + DropSpaceBeforePunct(ws, b);
      DropSpaceBeforePunct(ws, a) + DropSpaceBeforePunct(ws, b);
    }
  }

  lemma {:induction false} DropSpaceAppendChar(ws: char -> bool, a: string, b: string)
    requires |a| >= 1 && !(|a| >= 2 && ws(a[0]) && IsPunct(a[1]))
    requires !(|a| > 0 && ws(a[|a| - 1]) && |b| > 0 && IsPunct(b[0]))
    ensures DropSpaceBeforePunct(ws, a + b) == DropSpaceBeforePunct(ws, a) + DropSpaceBeforePunct(ws, b)
    decreases |a|, 0
  {
    var c, u := a[0], a[1..];
    assert a == [c] + u;
    assert a + b == [c] + (u + b);
    DropSpaceAppend(ws, u, b);
    DropSpaceCons(ws, c, u);
    assert !(|u + b| >= 1 && ws(c) && IsPunct((u + b)[0])) by {
      if u == [] {
        assert u + b == b && a[|a| - 1] == c;
      } else {
        assert (u + b)[0] == a[1];
      }
    }
    DropSpaceCons(ws, c, u + b);
    ConcatAssoc([c], DropSpaceBeforePunct(ws, u), DropSpaceBeforePunct(ws, b));
  }

  /** Where no pair starts, the first character is copied. */
  lemma DropSpaceCons(ws: char -> bool, c: char, u: string)
    requires !(|u| >= 1 && ws(c) && IsPunct(u[0]))
    ensures DropSpaceBeforePunct(ws, [c] + u) == [c] + DropSpaceBeforePunct(ws, u)
  {
    assert ([c] + u)[1..] == u;
  }

  /** A whitespace character directly before `' , .` is deleted, and only
      it: the text on either side is rewritten on its own. */
  lemma DropSpaceAtPair(ws: char -> bool, a: string, w: char, p: char, b: string)
    requires WsClass(ws) && ws(w) && IsPunct(p)
    ensures DropSpaceBeforePunct(ws, a + [w, p] + b)
            == DropSpaceBeforePunct(ws, a) + [p] + DropSpaceBeforePunct(ws, b)
  {
    var e := [w, p] + b;
    assert a + [w, p] + b == a + e;
    DropSpaceAppend(ws, a, e);
    DropSpacePair(ws, w, p, b);
    ConcatAssoc(DropSpaceBeforePunct(ws, a), [p], DropSpaceBeforePunct(ws, b));
  }

  /** A pair at the start leaves its punctuation. */
  lemma DropSpacePair(ws: char -> bool, w: char, p: char, b: string)
    requires ws(w) && IsPunct(p)
    ensures DropSpaceBeforePunct(ws, [w, p] + b) == [p] + DropSpaceBeforePunct(ws, b)
  {
    assert ([w, p] + b)[2..] == b;
  }

  /** Text with no whitespace before `' , .` is a fixed point. */
  lemma {:induction false} DropSpaceNoOp(ws: char -> bool, s: string)
    requires NoSpaceBeforePunct(ws, s)
    ensures DropSpaceBeforePunct(ws, s) == s
    decreases |s|
  {
    if s != [] {
      DropSpaceNoOp(ws, s[1..]);
    }
  }

  // ---------------------------------------------------------------------
  // The collapse step: both rewrites, in order
  // ---------------------------------------------------------------------

  /** Space collapsing as the filter runs it: `\s\s+` first, then `\s([',.])`. */
  function CollapseSpaces(ws: char -> bool, s: string): (r: string)
    ensures |r| <= |s|
    ensures WsClass(ws) ==> NoAdjacentSpace(ws, r) && NoSpaceBeforePunct(ws, r)
    ensures WsClass(ws) ==> NonSpace(ws, r) == NonSpace(ws, s)
  {
    var t := CollapseRuns(ws, s);
    var r := DropSpaceBeforePunct(ws, t);
    if WsClass(ws) then
      CollapseRunsNoAdjacent(ws, s);
      DropSpaceCleans(ws, t);
      CollapseRunsKeepsText(ws, s);
      DropSpaceKeepsText(ws, t);
      r
    else
      r
  }

  /** The collapse step introduces no character other than the space. */
  lemma CollapseSpacesAvoids(p: char -> bool, ws: char -> bool, s: string)
    requires !p(' ') && Avoids(p, s)
    ensures Avoids(p, CollapseSpaces(ws, s))
  {
    CollapseRunsAvoids(p, ws, s);
    DropSpaceAvoids(p, ws, CollapseRuns(ws, s));
  }

  /** Collapsing deletes the space before the comma and keeps the space
      between the words: `"a b ,"` becomes `"a b,"`, not `"ab,"`. */
  lemma CollapseSpacesKeepsWordGap(ws: char -> bool)
    requires WsClass(ws) && !ws('a') && !ws('b')
    ensures CollapseSpaces(ws, "a b ,") == "a b,"
  {
    WordGapRuns(ws);
    WordGapDrop(ws);
  }

  lemma WordGapRuns(ws: char -> bool)
    requires WsClass(ws) && !ws('a') && !ws('b')
    ensures CollapseRuns(ws, "a b ,") == "a b ,"
  {
    var s := "a b ,";
    forall i | 0 <= i < |s| - 1
      ensures !(ws(s[i]) && ws(s[i + 1]))
    {
      assert s[i] == ' ' ==> s[i + 1] != ' ';
    }
    CollapseRunsNoOp(ws, s);
  }

  lemma WordGapDrop(ws: char -> bool)
    requires WsClass(ws) && !ws('a') && !ws('b')
    ensures DropSpaceBeforePunct(ws, "a b ,") == "a b,"
  {
    var w := "a b";
    assert "a b ," == w + [' ', ','] + "";
    DropSpaceAtPair(ws, w, ' ', ',', "");
    assert NoSpaceBeforePunct(ws, w) by {
      assert !IsPunct(w[1]) && !IsPunct(w[2]);
    }
    DropSpaceNoOp(ws, w);
    assert DropSpaceBeforePunct(ws, "") == "";
    assert w + [','] + "" == "a b,";
  }

  /** Collapsed text is a fixed point of the collapse step. */
  lemma CollapseSpacesNoOp(ws: char -> bool, s: string)
    requires NoAdjacentSpace(ws, s) && NoSpaceBeforePunct(ws, s)
    ensures CollapseSpaces(ws, s) == s
  {
    CollapseRunsNoOp(ws, s);
    DropSpaceNoOp(ws, s);
  }

  /** Collapsing twice is collapsing once. */
  lemma CollapseSpacesIdempotent(ws: char -> bool, s: string)
    requires WsClass(ws)
    ensures CollapseSpaces(ws, CollapseSpaces(ws, s)) == CollapseSpaces(ws, s)
  {
    CollapseSpacesNoOp(ws, CollapseSpaces(ws, s));
  }

  // ---------------------------------------------------------------------
  // strings.TrimSpace
  // ---------------------------------------------------------------------

  /** Drops the leading characters satisfying `isSpace`. */
  function TrimLeft(isSpace: char -> bool, s: string): (r: string)
    ensures |r| <= |s| && r == s[|s| - |r|..]
    ensures r == [] || !isSpace(r[0])
    decreases |s|
  {
    if s != [] && isSpace(s[0]) then TrimLeft(isSpace, s[1..]) else s
  }

  /** Everything `TrimLeft` drops is a space. */
  lemma {:induction false} TrimLeftDropsSpaces(isSpace: char -> bool, s: string)
    ensures forall i :: 0 <= i < |s| - |TrimLeft(isSpace, s)| ==> isSpace(s[i])
    decreases |s|
  {
    if s != [] && isSpace(s[0]) {
      TrimLeftDropsSpaces(isSpace, s[1..]);
      assert forall i :: 1 <= i < |s| ==> s[i] == s[1..][i - 1];
    }
  }

  /** Drops the trailing characters satisfying `isSpace`. */
  function TrimRight(isSpace: char -> bool, s: string): (r: string)
    ensures |r| <= |s| && r == s[..|r|]
    ensures r == [] || !isSpace(r[|r| - 1])
    decreases |s|
  {
    if s != [] && isSpace(s[|s| - 1]) then TrimRight(isSpace, s[..|s| - 1]) else s
  }

  /** Everything `TrimRight` drops is a space. */
  lemma {:induction false} TrimRightDropsSpaces(isSpace: char -> bool, s: string)
    ensures forall i :: |TrimRight(isSpace, s)| <= i < |s| ==> isSpace(s[i])
    decreases |s|
  {
    if s != [] && isSpace(s[|s| - 1]) {
      TrimRightDropsSpaces(isSpace, s[..|s| - 1]);
      assert forall i :: 0 <= i < |s| - 1 ==> s[i] == s[..|s| - 1][i];
    }
  }

  /** `strings.TrimSpace`, with `unicode.IsSpace` as the parameter `isSpace`:
      the longest window of `s` that neither starts nor ends with a space. */
  function TrimSpace(isSpace: char -> bool, s: string): (r: string)
    ensures |r| <= |s|
    ensures r == [] || (!isSpace(r[0]) && !isSpace(r[|r| - 1]))
  {
    TrimRight(isSpace, TrimLeft(isSpace, s))
  }

  lemma {:induction false} TrimLeftAt(isSpace: char -> bool, s: string, i: nat)
    requires i <= |s|
    requires forall k :: 0 <= k < i ==> isSpace(s[k])
    requires i == |s| || !isSpace(s[i])
    ensures TrimLeft(isSpace, s) == s[i..]
    decreases i
  {
    if i > 0 {
      assert s[1..][i - 1..] == s[i..];
      TrimLeftAt(isSpace, s[1..], i - 1);
    }
  }

  lemma {:induction false} TrimRightAt(isSpace: char -> bool, s: string, j: nat)
    requires j <= |s|
    requires forall k :: j <= k < |s| ==> isSpace(s[k])
    requires j == 0 || !isSpace(s[j - 1])
    ensures TrimRight(isSpace, s) == s[..j]
    decreases |s| - j
  {
    if j < |s| {
      assert s[..|s| - 1][..j] == s[..j];
      TrimRightAt(isSpace, s[..|s| - 1], j);
    }
  }

  /** Any window of `s` with only spaces outside it and no space at either of
      its ends is what `TrimSpace` returns. */
  lemma TrimSpaceWindow(isSpace: char -> bool, s: string, i: nat, j: nat)
    requires i <= j <= |s|
    requires forall k :: 0 <= k < i ==> isSpace(s[k])
    requires forall k :: j <= k < |s| ==> isSpace(s[k])
    requires i < j ==> !isSpace(s[i]) && !isSpace(s[j - 1])
    ensures TrimSpace(isSpace, s) == s[i..j]
  {
    if i < j {
      TrimLeftAt(isSpace, s, i);
      TrimRightOfTail(isSpace, s, i, j);
    } else {
      TrimLeftAt(isSpace, s, |s|);
    }
  }

  lemma TrimRightOfTail(isSpace: char -> bool, s: string, i: nat, j: nat)
    requires i < j <= |s|
    requires forall k :: j <= k < |s| ==> isSpace(s[k])
    requires !isSpace(s[j - 1])
    ensures TrimRight(isSpace, s[i..]) == s[i..j]
  {
    var t := s[i..];
    forall k | j - i <= k < |t|
      ensures isSpace(t[k])
    {
      assert t[k] == s[i + k];
    }
    assert t[j - i - 1] == s[j - 1];
    TrimRightAt(isSpace, t, j - i);
    SliceOfSlice(s, i, j - i);
  }

  /** `TrimSpace` returns such a window: the indices where it sits. */
  lemma TrimSpaceIsWindow(isSpace: char -> bool, s: string) returns (i: nat, j: nat)
    ensures i <= j <= |s|
    ensures forall k :: 0 <= k < i ==> isSpace(s[k])
    ensures forall k :: j <= k < |s| ==> isSpace(s[k])
    ensures i < j ==> !isSpace(s[i]) && !isSpace(s[j - 1])
    ensures TrimSpace(isSpace, s) == s[i..j]
  {
    i, j := SpaceWindow(isSpace, s);
    TrimSpaceWindow(isSpace, s, i, j);
  }

  /** Every text has a window with only spaces outside it and no space at
      either of its ends. */
  lemma SpaceWindow(isSpace: char -> bool, s: string) returns (i: nat, j: nat)
    ensures i <= j <= |s|
    ensures forall k :: 0 <= k < i ==> isSpace(s[k])
    ensures forall k :: j <= k < |s| ==> isSpace(s[k])
    ensures i < j ==> !isSpace(s[i]) && !isSpace(s[j - 1])
  {
    i := TrimLeftWindow(isSpace, s);
    var t := s[i..];
    var m := TrimRightWindow(isSpace, t);
    j := i + m;
    forall k | j <= k < |s|
      ensures isSpace(s[k])
    {
      assert t[k - i] == s[k];
    }
    if i < j {
      assert s[i] == t[0] && s[j - 1] == t[m - 1];
    }
  }

  /** Where `TrimLeft` cuts: spaces before, a non-space (or the end) at. */
  lemma TrimLeftWindow(isSpace: char -> bool, s: string) returns (i: nat)
    ensures i <= |s| && TrimLeft(isSpace, s) == s[i..]
    ensures forall k :: 0 <= k < i ==> isSpace(s[k])
    ensures i < |s| ==> !isSpace(s[i])
  {
    i := |s| - |TrimLeft(isSpace, s)|;
    TrimLeftDropsSpaces(isSpace, s);
  }

  /** Where `TrimRight` cuts: spaces from there on, a non-space (or the
      start) just before. */
  lemma TrimRightWindow(isSpace: char -> bool, t: string) returns (m: nat)
    ensures m <= |t| && TrimRight(isSpace, t) == t[..m]
    ensures forall k :: m <= k < |t| ==> isSpace(t[k])
    ensures 0 < m ==> !isSpace(t[m - 1])
  {
    m := |TrimRight(isSpace, t)|;
    TrimRightDropsSpaces(isSpace, t);
  }

  lemma SliceOfSlice(s: string, i: nat, m: nat)
    requires i + m <= |s|
    ensures s[i..][..m] == s[i..i + m]
  {
  }

  /** Surrounding spaces make no difference to `TrimSpace`. */
  lemma TrimSpaceIgnoresPadding(isSpace: char -> bool, lead: string, s: string, trail: string)
    requires forall k :: 0 <= k < |lead| ==> isSpace(lead[k])
    requires forall k :: 0 <= k < |trail| ==> isSpace(trail[k])
    ensures TrimSpace(isSpace, lead + s + trail) == TrimSpace(isSpace, s)
  {
    var i, j := TrimSpaceIsWindow(isSpace, s);
    PaddedTrim(isSpace, lead, s, trail, i, j);
  }

  lemma PaddedTrim(isSpace: char -> bool, lead: string, s: string, trail: string, i: nat, j: nat)
    requires forall k :: 0 <= k < |lead| ==> isSpace(lead[k])
    requires forall k :: 0 <= k < |trail| ==> isSpace(trail[k])
    requires i <= j <= |s|
    requires forall k :: 0 <= k < i ==> isSpace(s[k])
    requires forall k :: j <= k < |s| ==> isSpace(s[k])
    requires i < j ==> !isSpace(s[i]) && !isSpace(s[j - 1])
    ensures TrimSpace(isSpace, lead + s + trail) == s[i..j]
  {
    var p := lead + s + trail;
    var a, b := |lead| + i, |lead| + j;
    PaddedWindow(isSpace, lead, s, trail, p, i, j);
    assert p[a..b] == s[i..j];
    TrimSpaceWindow(isSpace, p, a, b);
  }

  /** A window of `s` with spaces outside it is still such a window once
      `s` is padded with spaces. */
  lemma PaddedWindow(isSpace: char -> bool, lead: string, s: string, trail: string, p: string, i: nat, j: nat)
    requires p == lead + s + trail
    requires forall k :: 0 <= k < |lead| ==> isSpace(lead[k])
    requires forall k :: 0 <= k < |trail| ==> isSpace(trail[k])
    requires i <= j <= |s|
    requires forall k :: 0 <= k < i ==> isSpace(s[k])
    requires forall k :: j <= k < |s| ==> isSpace(s[k])
    requires i < j ==> !isSpace(s[i]) && !isSpace(s[j - 1])
    ensures |lead| + j <= |p|
    ensures forall k :: 0 <= k < |lead| + i ==> isSpace(p[k])
    ensures forall k :: |lead| + j <= k < |p| ==> isSpace(p[k])
    ensures i < j ==> !isSpace(p[|lead| + i]) && !isSpace(p[|lead| + j - 1])
    ensures p[|lead| + i..|lead| + j] == s[i..j]
  {
    var n := |lead|;
    forall k | 0 <= k < n + i
      ensures isSpace(p[k])
    {
      if k < n {
        assert p[k] == lead[k];
      } else {
        assert p[k] == s[k - n];
      }
    }
    forall k | n + j <= k < |p|
      ensures isSpace(p[k])
    {
      if k < n + |s| {
        assert p[k] == s[k - n];
      } else {
        assert p[k] == trail[k - n - |s|];
      }
    }
    if i < j {
      assert p[n + i] == s[i];
      assert p[n + j - 1] == s[j - 1];
    }
    assert p[n + i..n + j] == s[i..j] by {
      forall k | 0 <= k < j - i
        ensures p[n + i..n + j][k] == s[i..j][k]
      {
        assert p[n + i + k] == s[i + k];
      }
    }
  }
}
