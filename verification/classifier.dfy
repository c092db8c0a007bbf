/**
 * The per-file line classifier of `isolate_functions_and_tests`
 * (src/main.rs), as values: how one line changes the scan state, and the
 * scan of a whole file as a left fold of that step over its lines.
 */
module Classifier {
  import opened Wrappers
  import opened Text

  /**
   * A line worth a closer look: it mentions `fn `, has an opening
   * parenthesis, and is not the scanner's own comment about that check
   * (which says "exactly this").
   */
  predicate IsCandidate(line: string): (r: bool)
    ensures r ==> 3 <= |line|
  {
    Contains(line, "fn ") && Contains(line, "(") && !Contains(line, "exactly this")
  }

  /** The text kept for a candidate line: left-trimmed, then cut before its first `(`. */
  function Signature(line: string): (sig: string)
    ensures '(' !in sig
    ensures sig <= TrimStart(line)
    ensures |sig| < |TrimStart(line)| ==> TrimStart(line)[|sig|] == '('
  {
    Split(TrimStart(line), '(')[0]
  }

  /** A candidate whose signature starts with the two characters `fn` is kept, with that signature. */
  ghost predicate Accepts(line: string, sig: string)
  {
    IsCandidate(line) && sig == Signature(line) && |sig| >= 2 && sig[..2] == "fn"
  }

  /** A candidate on whose signature the slice `&sig[0..2]` panics aborts the scan. */
  ghost predicate PanicsOn(line: string)
  {
    IsCandidate(line) && PrefixBytes(Signature(line), 2).None?
  }

  /** What one line does to the scan. */
  datatype LineEffect =
    | Ignored              // not a candidate
    | Rejected             // a candidate not starting with `fn`: skipped by `continue`
    | Panicked             // the two-byte slice panics
    | Accepted(sig: string)

  /** The classification of one line, decided exactly as the loop body does. */
  function Examine(line: string): (e: LineEffect)
    ensures e.Ignored? <==> !IsCandidate(line)
    ensures e.Panicked? <==> PanicsOn(line)
    ensures e.Accepted? <==> Accepts(line, Signature(line))
    ensures e.Accepted? ==> e.sig == Signature(line)
  {
    if !IsCandidate(line) then Ignored
    else
      var sig := Signature(line);
      StartsWithFn(sig);
      match PrefixBytes(sig, 2)
      case None => Panicked
      case Some(start) => if start != "fn" then Rejected else Accepted(sig)
  }

  /**
   * The loop's state: the tracked previous line and what this file has
   * added so far to the functions and the tests.
   */
  datatype Tracker = Tracker(prev: string, functions: seq<string>, tests: seq<string>)

  /** One iteration of the loop; None when it panics. */
  function Step(t: Tracker, line: string): (r: Option<Tracker>)
    ensures r.Some? ==> t.functions <= r.value.functions && t.tests <= r.value.tests
    ensures r.Some? ==> |r.value.functions| + |r.value.tests| <= |t.functions| + |t.tests| + 1
  {
    PrefixOfAppend(t.functions, []);
    PrefixOfAppend(t.tests, []);
    match Examine(line)
    case Ignored => Some(Tracker(line, t.functions, t.tests))
    case Rejected => Some(t)
    case Panicked => None
    case Accepted(sig) =>
      PrefixOfAppend(t.functions, [sig]);
      PrefixOfAppend(t.tests, [sig]);
      if Contains(t.prev, "#[test]") then Some(Tracker(sig, t.functions, t.tests + [sig]))
      else Some(Tracker(sig, t.functions + [sig], t.tests))
  }

  /** The loop run over `lines` from an empty tracker; None when some line panics. */
  function Run(lines: seq<string>): (r: Option<Tracker>)
    ensures r.Some? ==> |r.value.functions| + |r.value.tests| <= |lines|
    decreases |lines|
  {
    if lines == [] then Some(Tracker("", [], []))
    else match Run(lines[..|lines| - 1])
      case None => None
      case Some(t) => Step(t, lines[|lines| - 1])
  }

  /** `isolate_functions_and_tests` on one file's text, as a value. */
  function Isolate(contents: string): Option<Tracker>
  {
    Run(Split(contents, '\n'))
  }

  // ---------------------------------------------------------------------
  // One step
  // ---------------------------------------------------------------------

  /**
   * How one line changes the state. A non-candidate (in particular any line
   * mentioning "exactly this") adds nothing and becomes the tracked line; a
   * rejected candidate changes nothing at all, not even the tracked line; an
   * accepted candidate grows exactly one list by its signature, the tests
   * exactly when the tracked line contains `#[test]`, and its signature
   * becomes the tracked line.
   */
  lemma StepEffect(t: Tracker, line: string)
    ensures Step(t, line).None? <==> PanicsOn(line)
    ensures Contains(line, "exactly this") ==> Step(t, line) == Some(Tracker(line, t.functions, t.tests))
    ensures !IsCandidate(line) ==> Step(t, line) == Some(Tracker(line, t.functions, t.tests))
    ensures IsCandidate(line) && !PanicsOn(line) && !Accepts(line, Signature(line)) ==> Step(t, line) == Some(t)
    ensures Accepts(line, Signature(line)) && Contains(t.prev, "#[test]") ==>
      Step(t, line) == Some(Tracker(Signature(line), t.functions, t.tests + [Signature(line)]))
    ensures Accepts(line, Signature(line)) && !Contains(t.prev, "#[test]") ==>
      Step(t, line) == Some(Tracker(Signature(line), t.functions + [Signature(line)], t.tests))
  {
  }

  /** Extending the scanned prefix by one line is one Step. */
  lemma RunNext(lines: seq<string>, i: nat)
    requires i < |lines|
    ensures Run(lines[..i + 1]) == match Run(lines[..i]) case None => None case Some(t) => Step(t, lines[i])
  {
    assert lines[..i + 1] == lines[..i] + [lines[i]];
    RunSnoc(lines[..i], lines[i]);
  }

  /** Unfolding Run at its last line. */
  lemma RunSnoc(lines: seq<string>, line: string)
    ensures Run(lines + [line]) == match Run(lines) case None => None case Some(t) => Step(t, line)
  {
    assert (lines + [line])[..|lines|] == lines;
  }

  // ---------------------------------------------------------------------
  // Whole runs
  // ---------------------------------------------------------------------

  /**
   * The scan is append-only and in line order: the state after any prefix
   * of the lines is reached without a panic and its lists are prefixes of
   * the final lists.
   */
  lemma {:induction false} RunPrefix(lines: seq<string>, i: nat)
    requires i <= |lines| && Run(lines).Some?
    ensures Run(lines[..i]).Some?
    ensures Run(lines[..i]).value.functions <= Run(lines).value.functions
    ensures Run(lines[..i]).value.tests <= Run(lines).value.tests
    decreases |lines| - i
  {
    if i == |lines| {
      assert lines[..i] == lines;
    } else {
      RunPrefix(lines, i + 1);
      RunNext(lines, i);
      var t := Run(lines[..i]).value;
      PrefixTransitive(t.functions, Run(lines[..i + 1]).value.functions, Run(lines).value.functions);
      PrefixTransitive(t.tests, Run(lines[..i + 1]).value.tests, Run(lines).value.tests);
    }
  }

  /** Prefixes of prefixes are prefixes. */
  lemma PrefixTransitive(a: seq<string>, b: seq<string>, c: seq<string>)
    requires a <= b && b <= c
    ensures a <= c
  {
  }

  /** Once a prefix of the file panics, the whole file does. */
  lemma {:induction false} RunPrefixPanics(lines: seq<string>, i: nat)
    requires i <= |lines| && Run(lines[..i]).None?
    ensures Run(lines).None?
    decreases |lines|
  {
    if i < |lines| {
      var init := lines[..|lines| - 1];
      assert init[..i] == lines[..i];
      RunPrefixPanics(init, i);
    } else {
      assert lines[..i] == lines;
    }
  }

  /** Some line among `lines` makes the slice panic. */
  ghost predicate SomeLinePanics(lines: seq<string>)
  {
    exists k :: 0 <= k < |lines| && PanicsOn(lines[k])
  }

  /** A panicking line of the first lines is a panicking line of the file. */
  lemma SomeLinePanicsInit(lines: seq<string>, k: int)
    requires 0 <= k < |lines| - 1 && PanicsOn(lines[..|lines| - 1][k])
    ensures SomeLinePanics(lines)
  {
    assert lines[..|lines| - 1][k] == lines[k];
  }

  /** Splitting off the last line of a file for SomeLinePanics. */
  lemma SomeLinePanicsSnoc(lines: seq<string>)
    requires lines != []
    ensures SomeLinePanics(lines) <==> SomeLinePanics(lines[..|lines| - 1]) || PanicsOn(lines[|lines| - 1])
  {
    var init := lines[..|lines| - 1];
    if SomeLinePanics(lines) && !PanicsOn(lines[|lines| - 1]) {
      var k :| 0 <= k < |lines| && PanicsOn(lines[k]);
      assert init[k] == lines[k];
    }
    if SomeLinePanics(init) {
      var k :| 0 <= k < |init| && PanicsOn(init[k]);
      SomeLinePanicsInit(lines, k);
    }
  }

  /** A file's scan panics exactly when one of its lines does, whatever came before it. */
  lemma {:induction false} RunPanics(lines: seq<string>)
    ensures Run(lines).None? <==> SomeLinePanics(lines)
    decreases |lines|
  {
    if lines != [] {
      var init, last := lines[..|lines| - 1], lines[|lines| - 1];
      RunPanics(init);
      SomeLinePanicsSnoc(lines);
      if Run(init).Some? {
        StepEffect(Run(init).value, last);
      }
    }
  }

  /** The slice panics exactly when byte offset 2 is past the signature's end or inside a character. */
  lemma PanicsOnBoundary(line: string)
    ensures PanicsOn(line) <==> IsCandidate(line) && !IsCharBoundary(Signature(line), 2)
  {
    PrefixBytesDefined(Signature(line), 2);
  }

  /** `e` is the signature of some accepted line among `lines`. */
  ghost predicate Recorded(lines: seq<string>, e: string)
  {
    exists k :: 0 <= k < |lines| && Accepts(lines[k], e)
  }

  /** What one step records is an earlier entry or the signature of its own accepted line. */
  lemma StepEntries(t: Tracker, line: string, e: string)
    requires Step(t, line).Some?
    ensures e in Step(t, line).value.functions ==> e in t.functions || Accepts(line, e)
    ensures e in Step(t, line).value.tests ==> e in t.tests || Accepts(line, e)
  {
    StepEffect(t, line);
  }

  /** A signature recorded from the first lines, or from the last, is recorded from the file. */
  lemma RecordedSnoc(lines: seq<string>, e: string)
    requires lines != []
    requires Recorded(lines[..|lines| - 1], e) || Accepts(lines[|lines| - 1], e)
    ensures Recorded(lines, e)
  {
    if Recorded(lines[..|lines| - 1], e) {
      var k :| 0 <= k < |lines| - 1 && Accepts(lines[..|lines| - 1][k], e);
      assert lines[..|lines| - 1][k] == lines[k];
    }
  }

  /** Every signature the scan keeps comes from an accepted line of the file. */
  lemma {:induction false} RunEntries(lines: seq<string>)
    requires Run(lines).Some?
    ensures forall e :: e in Run(lines).value.functions ==> Recorded(lines, e)
    ensures forall e :: e in Run(lines).value.tests ==> Recorded(lines, e)
    decreases |lines|
  {
    if lines != [] {
      var init := lines[..|lines| - 1];
      var last := lines[|lines| - 1];
      RunEntries(init);
      var t := Run(init).value;
      assert Run(lines) == Step(t, last);
      forall e | e in Run(lines).value.functions
        ensures Recorded(lines, e)
      {
        StepEntries(t, last, e);
        RecordedSnoc(lines, e);
      }
      forall e | e in Run(lines).value.tests
        ensures Recorded(lines, e)
      {
        StepEntries(t, last, e);
        RecordedSnoc(lines, e);
      }
    }
  }

  /**
   * The shape of a kept signature: it starts with `fn`, has no `(`, does
   * not come from a line mentioning "exactly this", and has no line break
   * when its line has none.
   */
  lemma AcceptedShape(line: string, sig: string)
    requires Accepts(line, sig)
    ensures sig[..2] == "fn" && '(' !in sig
    ensures !Contains(line, "exactly this")
    ensures '\n' !in line ==> '\n' !in sig
  {
    var trimmed := TrimStart(line);
    if '\n' in sig {
      var k :| 0 <= k < |sig| && sig[k] == '\n';
      assert trimmed[k] == '\n';
      assert line[|line| - |trimmed| + k] == '\n';
    }
  }

  /** Every signature kept from a file's text starts with `fn` and has no `(` and no line break. */
  lemma IsolateEntries(contents: string)
    requires Isolate(contents).Some?
    ensures forall e :: e in Isolate(contents).value.functions + Isolate(contents).value.tests ==>
      |e| >= 2 && e[..2] == "fn" && '(' !in e && '\n' !in e
  {
    var lines := Split(contents, '\n');
    RunEntries(lines);
    forall e | e in Isolate(contents).value.functions + Isolate(contents).value.tests
      ensures |e| >= 2 && e[..2] == "fn" && '(' !in e && '\n' !in e
    {
      var k :| 0 <= k < |lines| && Accepts(lines[k], e);
      AcceptedShape(lines[k], e);
    }
  }

  /** The signature of an ASCII line is ASCII. */
  lemma SignatureAscii(line: string)
    requires forall i :: 0 <= i < |line| ==> line[i] as int < 0x80
    ensures forall i :: 0 <= i < |Signature(line)| ==> Signature(line)[i] as int < 0x80
  {
    var sig := Signature(line);
    var trimmed := TrimStart(line);
    forall i | 0 <= i < |sig|
      ensures sig[i] as int < 0x80
    {
      assert sig[i] == trimmed[i] == line[|line| - |trimmed| + i];
    }
  }

  /** For ASCII lines the slice panics exactly when the signature is shorter than two characters. */
  lemma AsciiPanics(line: string)
    requires forall i :: 0 <= i < |line| ==> line[i] as int < 0x80
    ensures PanicsOn(line) <==> IsCandidate(line) && |Signature(line)| < 2
  {
    SignatureAscii(line);
    PrefixBytesAscii(Signature(line), 2);
  }

  // ---------------------------------------------------------------------
  // The fixture of isolate_functions_and_tests_test
  // ---------------------------------------------------------------------

  /** A line whose signature starts after `j` whitespace characters and ends at its first `(`, at `k`. */
  lemma SignatureAt(line: string, j: nat, k: nat)
    requires j <= k < |line| && line[k] == '('
    requires forall i :: 0 <= i < j ==> IsWhitespace(line[i])
    requires !IsWhitespace(line[j])
    requires '(' !in line[j..k]
    ensures Signature(line) == line[j..k]
  {
    var trimmed := TrimStart(line);
    assert |line| - |trimmed| == j;
    assert trimmed == line[j..k] + ['('] + line[k + 1..];
    SplitAtSeparator(line[j..k], line[k + 1..], '(');
  }

  /** A line without the letter `f` is never a candidate. */
  lemma NoFNotCandidate(line: string)
    requires 'f' !in line
    ensures !IsCandidate(line)
  {
    if Contains(line, "fn ") {
      ContainsChar(line, "fn ", 'f');
    }
  }

  /** A line without the letter `x` never mentions "exactly this". */
  lemma NoXNoExclusion(line: string)
    requires 'x' !in line
    ensures !Contains(line, "exactly this")
  {
    if Contains(line, "exactly this") {
      ContainsChar(line, "exactly this", 'x');
    }
  }

  /** A declaration line: spaces, `fn `, a name without `(`, then `(` and the rest of the line. */
  lemma DeclarationLine(indent: string, name: string, tail: string)
    requires forall i :: 0 <= i < |indent| ==> indent[i] == ' '
    requires '(' !in name && 'x' !in name && 'x' !in tail
    ensures Examine(indent + "fn " + name + "(" + tail) == Accepted("fn " + name)
  {
    var line := indent + "fn " + name + "(" + tail;
    var j := |indent|;
    var k := j + 3 + |name|;
    assert line[j..j + 3] == "fn ";
    ContainsAt(line, "fn ", j);
    assert line[k..k + 1] == "(";
    ContainsAt(line, "(", k);
    assert 'x' !in line;
    NoXNoExclusion(line);
    assert line[j..k] == "fn " + name;
    SignatureAt(line, j, k);
  }

  /** Eight spaces, the indentation the fixture keeps. */
  const Indent: string := "        "

  /**
   * The lines of the fixture in `isolate_functions_and_tests_test`
   * (src/main.rs), after Rust's `\` line continuations, for a function
   * called `name`; the test uses "this_is_some_code".
   */
  function FixtureLines(name: string): seq<string>
  {
    // The declaration lines are spelled in the shape `DeclarationLine` takes.
    [ "" + "fn " + name + "(" + ") { return 0; }",
      Indent + "#[test]",
      Indent + "fn " + (name + "_test") + "(" + ") {",
      Indent + "    " + "assert!(" + name + "(" + ") == 0);",
      Indent + "}" ]
  }

  /** Extending a run by a line that is not a candidate. */
  lemma RunIgnored(lines: seq<string>, line: string, t: Tracker)
    requires Run(lines) == Some(t) && !IsCandidate(line)
    ensures Run(lines + [line]) == Some(Tracker(line, t.functions, t.tests))
  {
    RunSnoc(lines, line);
  }

  /** Extending a run by an accepted line. */
  lemma RunAccepted(lines: seq<string>, line: string, t: Tracker, sig: string)
    requires Run(lines) == Some(t) && Examine(line) == Accepted(sig)
    ensures !Contains(t.prev, "#[test]") ==> Run(lines + [line]) == Some(Tracker(sig, t.functions + [sig], t.tests))
    ensures Contains(t.prev, "#[test]") ==> Run(lines + [line]) == Some(Tracker(sig, t.functions, t.tests + [sig]))
  {
    RunSnoc(lines, line);
  }

  /** The fixture after its first line, a function declaration. */
  lemma FixtureRun1(l0: string, f: string)
    requires Examine(l0) == Accepted(f)
    ensures Run([l0]) == Some(Tracker(f, [f], []))
  {
    var s0: seq<string> := [];
    assert Run(s0) == Some(Tracker("", [], []));
    assert !Contains("", "#[test]");
    RunAccepted(s0, l0, Tracker("", [], []), f);
    assert s0 + [l0] == [l0] && [] + [f] == [f];
  }

  /** The fixture after its `#[test]` line, not a candidate. */
  lemma FixtureRun2(l0: string, l1: string, f: string)
    requires Run([l0]) == Some(Tracker(f, [f], []))
    requires !IsCandidate(l1)
    ensures Run([l0, l1]) == Some(Tracker(l1, [f], []))
  {
    RunIgnored([l0], l1, Tracker(f, [f], []));
    assert [l0] + [l1] == [l0, l1];
  }

  /** The fixture after the test declaration below the `#[test]` line. */
  lemma FixtureRun3(l0: string, l1: string, l2: string, f: string, g: string)
    requires Run([l0, l1]) == Some(Tracker(l1, [f], []))
    requires Contains(l1, "#[test]")
    requires Examine(l2) == Accepted(g)
    ensures Run([l0, l1, l2]) == Some(Tracker(g, [f], [g]))
  {
    RunAccepted([l0, l1], l2, Tracker(l1, [f], []), g);
    assert [l0, l1] + [l2] == [l0, l1, l2];
    assert [] + [g] == [g];
  }

  /** The fixture after its assertion line, not a candidate. */
  lemma FixtureRun4(l0: string, l1: string, l2: string, l3: string, f: string, g: string)
    requires Run([l0, l1, l2]) == Some(Tracker(g, [f], [g]))
    requires !IsCandidate(l3)
    ensures Run([l0, l1, l2, l3]) == Some(Tracker(l3, [f], [g]))
  {
    RunIgnored([l0, l1, l2], l3, Tracker(g, [f], [g]));
    assert [l0, l1, l2] + [l3] == [l0, l1, l2, l3];
  }

  /** The fixture after its closing line, not a candidate. */
  lemma FixtureRun5(l0: string, l1: string, l2: string, l3: string, l4: string, f: string, g: string)
    requires Run([l0, l1, l2, l3]) == Some(Tracker(l3, [f], [g]))
    requires !IsCandidate(l4)
    ensures Run([l0, l1, l2, l3, l4]) == Some(Tracker(l4, [f], [g]))
  {
    RunIgnored([l0, l1, l2, l3], l4, Tracker(l3, [f], [g]));
    assert [l0, l1, l2, l3] + [l4] == [l0, l1, l2, l3, l4];
  }

  /** The fixture's function declaration, for a name without `(` and `x`. */
  lemma FixtureFunction(name: string)
    requires '(' !in name && 'x' !in name
    ensures Examine(FixtureLines(name)[0]) == Accepted("fn " + name)
  {
    DeclarationLine("", name, ") { return 0; }");
  }

  /** The fixture's test declaration, for a name without `(` and `x`. */
  lemma FixtureTest(name: string)
    requires '(' !in name && 'x' !in name
    ensures Examine(FixtureLines(name)[2]) == Accepted("fn " + (name + "_test"))
  {
    DeclarationLine(Indent, name + "_test", ") {");
  }

  /** The fixture's other lines, for a name without `f`: only the second one mentions `#[test]`. */
  lemma FixtureOthers(name: string)
    requires 'f' !in name
    ensures !IsCandidate(FixtureLines(name)[1]) && Contains(FixtureLines(name)[1], "#[test]")
    ensures !IsCandidate(FixtureLines(name)[3]) && !IsCandidate(FixtureLines(name)[4])
  {
    var lines := FixtureLines(name);
    NoFNotCandidate(lines[1]);
    assert 'f' !in lines[3];
    NoFNotCandidate(lines[3]);
    NoFNotCandidate(lines[4]);
    assert lines[1][8..15] == "#[test]";
    ContainsAt(lines[1], "#[test]", 8);
  }

  /** The fixture's text splits back into its lines. */
  lemma FixtureSplit(name: string, contents: string)
    requires '\n' !in name
    requires contents == Join(FixtureLines(name), '\n')
    ensures Split(contents, '\n') == FixtureLines(name)
  {
    var lines := FixtureLines(name);
    assert forall p :: p in lines ==> '\n' !in p;
    SplitJoin(lines, '\n');
  }

  /**
   * The fixture yields exactly one function and one test, whatever the
   * function is called, as long as its name has no `(`, no line break and
   * neither of the letters `f` and `x`.
   */
  lemma IsolateFixtureFor(name: string, contents: string)
    requires '(' !in name && '\n' !in name && 'f' !in name && 'x' !in name
    requires contents == Join(FixtureLines(name), '\n')
    ensures Isolate(contents).Some?
    ensures Isolate(contents).value.functions == ["fn " + name]
    ensures Isolate(contents).value.tests == ["fn " + (name + "_test")]
  {
    var lines := FixtureLines(name);
    FixtureSplit(name, contents);
    FixtureFunction(name);
    FixtureTest(name);
    FixtureOthers(name);
    var f, g := "fn " + name, "fn " + (name + "_test");
    FixtureRun1(lines[0], f);
    FixtureRun2(lines[0], lines[1], f);
    FixtureRun3(lines[0], lines[1], lines[2], f, g);
    FixtureRun4(lines[0], lines[1], lines[2], lines[3], f, g);
    FixtureRun5(lines[0], lines[1], lines[2], lines[3], lines[4], f, g);
    assert lines == [lines[0], lines[1], lines[2], lines[3], lines[4]];
  }

  /** The fixture's function name meets the conditions of `IsolateFixtureFor`. */
  lemma FixtureNameChars()
    ensures var name := "this_is_some_code";
      '(' !in name && '\n' !in name && 'f' !in name && 'x' !in name
  {
  }

  /** The entries the fixture yields, spelled out as the unit test writes them. */
  lemma FixtureNameEntries()
    ensures "fn " + "this_is_some_code" == "fn this_is_some_code"
    ensures "fn " + ("this_is_some_code" + "_test") == "fn this_is_some_code_test"
  {
  }

  /**
   * The unit test `isolate_functions_and_tests_test`: its text yields one
   * function and one test, with the names the test asserts.
   */
  lemma IsolateFixture(contents: string)
    requires contents == Join(FixtureLines("this_is_some_code"), '\n')
    ensures Isolate(contents).Some?
    ensures Isolate(contents).value.functions == ["fn this_is_some_code"]
    ensures Isolate(contents).value.tests == ["fn this_is_some_code_test"]
  {
    FixtureNameChars();
    FixtureNameEntries();
    IsolateFixtureFor("this_is_some_code", contents);
  }
}
