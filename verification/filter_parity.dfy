/** The Go gateway and the older Python server implement the same text
    filter and the same chaining of processing steps.  This module states
    where they agree and exhibits where they do not: Python's `\s` also
    matches the vertical tab, RE2's does not. */
module FilterParity {
  import opened Results
  import opened TextFilters
  import opened Pipeline
  import opened PyServer

  /** The vertical tab, the one character the two `\s` classes disagree on. */
  predicate IsVT(c: char) {
    c == '\U{000B}'
  }

  /** The two `\s` classes as character sets: RE2's five characters, and
      Python's six, which add the vertical tab. */
  lemma SpaceClasses(c: char)
    ensures GoSpace(c) <==> c in "\t\n\U{000C}\r "
    ensures PySpace(c) <==> c in "\t\n\U{000B}\U{000C}\r "
    ensures PySpace(c) <==> GoSpace(c) || IsVT(c)
  {
  }

  /** Both servers run the same tagger script, but only Python joins the
      patterns file onto the install directory; the gateway hands it on
      relative to its working directory. */
  lemma TaggerPatternsPaths(basePath: string, join: (string, string) -> string)
    ensures GetArgs(TagString, basePath, join)[3] == "bin/tag-fixed-twitter-protected-patterns"
    ensures var p := Script("tag-fixed-twitter-protected-patterns");
            |p| <= |TaggerCmd| && TaggerCmd[|TaggerCmd| - |p|..] == p
  {
    TaggerCommandLine(basePath, join);
    var pre := "perl " + Script("pretag-twitter-zone.perl") + " -b -protected ";
    var p := Script("tag-fixed-twitter-protected-patterns");
    assert TaggerCmd == pre + p;
    assert (pre + p)[|pre + p| - |p|..] == p;
  }

  /** On text without a vertical tab the two classes find the same leading run. */
  lemma {:induction false} LeadingRunAgrees(s: string)
    requires Avoids(IsVT, s)
    ensures LeadingRun(GoSpace, s) == LeadingRun(PySpace, s)
    decreases |s|
  {
    if s != [] {
      assert !IsVT(s[0]);
      LeadingRunAgrees(s[1..]);
    }
  }

  lemma {:induction false} CollapseRunsAgrees(s: string)
    requires Avoids(IsVT, s)
    ensures CollapseRuns(GoSpace, s) == CollapseRuns(PySpace, s)
    decreases |s|
  {
    if s != [] {
      LeadingRunAgrees(s);
      var k := LeadingRun(GoSpace, s);
      if k >= 2 {
        assert Avoids(IsVT, s[k..]) by {
          assert forall i :: 0 <= i < |s| - k ==> s[k..][i] == s[k + i];
        }
        CollapseRunsAgrees(s[k..]);
      } else {
        assert Avoids(IsVT, s[1..]) by {
          assert forall i :: 0 <= i < |s| - 1 ==> s[1..][i] == s[1 + i];
        }
        CollapseRunsAgrees(s[1..]);
      }
    }
  }

  lemma {:induction false} DropSpaceAgrees(s: string)
    requires Avoids(IsVT, s)
    ensures DropSpaceBeforePunct(GoSpace, s) == DropSpaceBeforePunct(PySpace, s)
    decreases |s|
  {
    if s != [] {
      assert !IsVT(s[0]);
      if |s| >= 2 && GoSpace(s[0]) && IsPunct(s[1]) {
        assert Avoids(IsVT, s[2..]) by {
          assert forall i :: 0 <= i < |s| - 2 ==> s[2..][i] == s[2 + i];
        }
        DropSpaceAgrees(s[2..]);
      } else {
        assert Avoids(IsVT, s[1..]) by {
          assert forall i :: 0 <= i < |s| - 1 ==> s[1..][i] == s[1 + i];
        }
        DropSpaceAgrees(s[1..]);
      }
    }
  }

  /** Both collapse steps agree on text without a vertical tab. */
  lemma CollapseSpacesAgrees(s: string)
    requires Avoids(IsVT, s)
    ensures CollapseSpaces(GoSpace, s) == CollapseSpaces(PySpace, s)
  {
    CollapseRunsAgrees(s);
    CollapseRunsAvoids(IsVT, GoSpace, s);
    DropSpaceAgrees(CollapseRuns(GoSpace, s));
  }

  /** Python's `Filter(remove_newlines, collapse_spaces)` computes what
      Go's filter step with the same two flags and no emoji removal
      computes, on every text without a vertical tab. */
  lemma FilterMatchesGo(removeNewlines: bool, collapseSpaces: bool, isSymbol: char -> bool, s: string)
    requires Avoids(IsVT, s)
    ensures FilterText(NewFilter(removeNewlines, collapseSpaces), s)
            == ExecuteFilter(FilterStep(removeNewlines, collapseSpaces, false), isSymbol, s).value
  {
    NewFilterRuns(removeNewlines, collapseSpaces, s);
    var n := if removeNewlines then RemoveNewlines(s) else s;
    if removeNewlines {
      RemoveNewlinesAvoids(IsVT, s);
    }
    if collapseSpaces {
      CollapseSpacesAgrees(n);
    }
  }

  /** The last step of both servers' post-processing: Python's default
      filter and Go's built-in post-processing filter agree on text without
      a vertical tab. */
  lemma PostprocessFilterMatchesGo(s: string)
    requires Avoids(IsVT, s)
    ensures FilterText(NewFilter(true, true), s) == CollapseSpaces(GoSpace, RemoveNewlines(s))
  {
    NewFilterRuns(true, true, s);
    RemoveNewlinesAvoids(IsVT, s);
    CollapseSpacesAgrees(RemoveNewlines(s));
  }

  /** Two vertical tabs between words: Python collapses them into a space,
      Go leaves them alone. */
  lemma VerticalTabsDiffer(isSymbol: char -> bool)
    ensures FilterText(NewFilter(false, true), "a\U{000B}\U{000B}b") == "a b"
    ensures ExecuteFilter(FilterStep(false, true, false), isSymbol, "a\U{000B}\U{000B}b").value == "a\U{000B}\U{000B}b"
  {
    NewFilterRuns(false, true, "a\U{000B}\U{000B}b");
    PythonCollapsesVerticalTabs();
    GoKeepsVerticalTabs();
  }

  lemma PythonCollapsesVerticalTabs()
    ensures CollapseSpaces(PySpace, "a\U{000B}\U{000B}b") == "a b"
  {
    var s := "a\U{000B}\U{000B}b";
    var tail := "\U{000B}\U{000B}b";
    assert s[1..] == tail;
    assert LeadingRun(PySpace, "b") == 0;
    assert tail[1..] == "\U{000B}b" && tail[1..][1..] == "b";
    assert LeadingRun(PySpace, tail) == 2;
    assert tail[2..] == "b";
    assert "b"[1..] == [];
    assert CollapseRuns(PySpace, "b") == "b";
    assert CollapseRuns(PySpace, tail) == " b";
    assert CollapseRuns(PySpace, s) == "a b";
    assert " b"[1..] == "b";
    assert "a b"[1..] == " b";
    assert DropSpaceBeforePunct(PySpace, "b") == "b";
    assert DropSpaceBeforePunct(PySpace, " b") == " b";
  }

  lemma GoKeepsVerticalTabs()
    ensures CollapseSpaces(GoSpace, "a\U{000B}\U{000B}b") == "a\U{000B}\U{000B}b"
  {
    var s := "a\U{000B}\U{000B}b";
    assert forall i :: 0 <= i < |s| ==> !GoSpace(s[i]);
    CollapseSpacesNoOp(GoSpace, s);
  }

  /** `execCommands` and `_exec` are the same fold: when every step answers
      what the corresponding processor would, on every input, the Go phase
      succeeds with the Python chain's output. */
  lemma {:induction false} ExecCommandsMatchesChain(tf: Transformer, env: Env, steps: seq<Step>, procs: seq<ExternalProcessor>, s: string)
    requires AllWellFormed(steps) && |steps| == |procs|
    requires forall i, x :: 0 <= i < |steps| ==> ExecuteStep(steps[i], tf, env, x) == Ok(Process(procs[i], x))
    ensures ExecCommands(tf, env, steps, s) == Ok(ExecChain(procs, s))
    decreases |steps|
  {
    if steps != [] {
      assert ExecuteStep(steps[0], tf, env, s) == Ok(Process(procs[0], s));
      assert forall i, x :: 0 <= i < |steps| - 1 ==> ExecuteStep(steps[1..][i], tf, env, x) == Ok(Process(procs[1..][i], x)) by {
        forall i, x | 0 <= i < |steps| - 1
          ensures ExecuteStep(steps[1..][i], tf, env, x) == Ok(Process(procs[1..][i], x))
        {
          assert steps[1..][i] == steps[i + 1] && procs[1..][i] == procs[i + 1];
        }
      }
      ExecCommandsMatchesChain(tf, env, steps[1..], procs[1..], Process(procs[0], s));
    }
  }
}
