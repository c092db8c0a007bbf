/**
 * The matching part of `show_test_cover` in src/main.rs: every test is
 * paired with every function its text contains, and every function no test
 * contains is reported as missing. The printed lines are returned as values.
 */
module Cover {
  import opened Text
  import opened Scan

  /** The right-hand side of a printed line: the test that covers the function, or the red `X`. */
  datatype Target = Test(name: string) | Missing

  /** One printed line `<function> -> <target>`. */
  datatype CoverLine = CoverLine(func: string, target: Target)

  /** Some test's text contains the function's text. */
  predicate Covered(f: string, tests: seq<string>)
  {
    exists j | 0 <= j < |tests| :: Contains(tests[j], f)
  }

  /** The lines the inner loop prints for one test: the functions it contains, in index order. */
  function MatchRow(test: string, functions: seq<string>): seq<CoverLine>
    decreases |functions|
  {
    if functions == [] then []
    else
      var f := functions[|functions| - 1];
      MatchRow(test, functions[..|functions| - 1]) + (if Contains(test, f) then [CoverLine(f, Test(test))] else [])
  }

  /** The lines the first loop prints: the rows of the tests, in test order. */
  function MatchLines(tests: seq<string>, functions: seq<string>): seq<CoverLine>
    decreases |tests|
  {
    if tests == [] then []
    else MatchLines(tests[..|tests| - 1], functions) + MatchRow(tests[|tests| - 1], functions)
  }

  /** The lines the second loop prints: the uncovered functions, in index order. */
  function MissLines(functions: seq<string>, tests: seq<string>): (r: seq<CoverLine>)
    ensures |r| <= |functions|
    decreases |functions|
  {
    if functions == [] then []
    else
      var f := functions[|functions| - 1];
      MissLines(functions[..|functions| - 1], tests) + (if Covered(f, tests) then [] else [CoverLine(f, Missing)])
  }

  /** Covering by a longer list of tests: one more test to look at. */
  lemma CoveredSnoc(f: string, tests: seq<string>, t: string)
    ensures Covered(f, tests + [t]) <==> Covered(f, tests) || Contains(t, f)
  {
    if Covered(f, tests) {
      var j :| 0 <= j < |tests| && Contains(tests[j], f);
      assert (tests + [t])[j] == tests[j];
    }
    if Contains(t, f) {
      assert (tests + [t])[|tests|] == t;
    }
    if Covered(f, tests + [t]) && !Contains(t, f) {
      var j :| 0 <= j < |tests| + 1 && Contains((tests + [t])[j], f);
      assert j < |tests| && tests[j] == (tests + [t])[j];
    }
  }

  /**
   * The inner loop of `show_test_cover` for one test: the lines for the
   * functions the test contains, in index order; their indices are pushed
   * onto `found`.
   */
  method MatchTest(test: string, functions: seq<string>, found: seq<nat>) returns (row: seq<CoverLine>, found': seq<nat>)
    ensures row == MatchRow(test, functions)
    ensures forall k: nat :: k in found' <==> k in found || (k < |functions| && Contains(test, functions[k]))
  {
    row := [];
    found' := found;
    for i := 0 to |functions|
      invariant row == MatchRow(test, functions[..i])
      invariant forall k: nat :: k in found' <==> k in found || (k < i && Contains(test, functions[k]))
    {
      assert functions[..i + 1][..i] == functions[..i];
      if Contains(test, functions[i]) {
        row := row + [CoverLine(functions[i], Test(test))];
        found' := found' + [i];
      }
    }
    assert functions[..|functions|] == functions;
  }

  /** After one more test, `found` holds the functions covered by the tests so far. */
  lemma OuterStep(found: seq<nat>, found': seq<nat>, functions: seq<string>, done: seq<string>, test: string)
    requires forall k: nat :: k in found <==> k < |functions| && Covered(functions[k], done)
    requires forall k: nat :: k in found' <==> k in found || (k < |functions| && Contains(test, functions[k]))
    ensures forall k: nat :: k in found' <==> k < |functions| && Covered(functions[k], done + [test])
  {
    forall k: nat | k < |functions|
      ensures Covered(functions[k], done + [test]) <==> Covered(functions[k], done) || Contains(test, functions[k])
    {
      CoveredSnoc(functions[k], done, test);
    }
  }

  /** One step of the second loop: index `i` is in `found` afterwards whether or not it was before. */
  lemma MissStep(found: seq<nat>, functions: seq<string>, tests: seq<string>, i: nat)
    requires i < |functions|
    requires forall k: nat :: k in found <==> k < |functions| && (Covered(functions[k], tests) || k < i)
    ensures i !in found ==> !Covered(functions[i], tests)
    ensures i !in found ==> forall k: nat :: k in found + [i] <==> k < |functions| && (Covered(functions[k], tests) || k < i + 1)
    ensures i in found ==> Covered(functions[i], tests)
    ensures i in found ==> forall k: nat :: k in found <==> k < |functions| && (Covered(functions[k], tests) || k < i + 1)
  {
  }

  /**
   * The matching loops of `show_test_cover`: the match lines in test-major,
   * function-index order, then an `X` line for every function no test
   * contains. `found` ends holding exactly the indices of the functions.
   */
  method ShowTestCover(source: Source) returns (report: seq<CoverLine>, found: seq<nat>)
    ensures report == MatchLines(source.tests, source.functions) + MissLines(source.functions, source.tests)
    ensures forall i: nat :: i in found <==> i < |source.functions|
  {
    var functions, tests := source.functions, source.tests;
    report := [];
    found := [];
    for j := 0 to |tests|
      invariant report == MatchLines(tests[..j], functions)
      invariant forall k: nat :: k in found <==> k < |functions| && Covered(functions[k], tests[..j])
    {
      var row, found' := MatchTest(tests[j], functions, found);
      OuterStep(found, found', functions, tests[..j], tests[j]);
      assert tests[..j + 1] == tests[..j] + [tests[j]];
      report := report + row;
      found := found';
    }
    assert tests[..|tests|] == tests;
    var missing;
    missing, found := ReportMissing(functions, tests, found);
    report := report + missing;
  }

  /**
   * The second loop of `show_test_cover`: given `found` holding the indices
   * of the covered functions, an `X` line for every other function, in
   * index order, each index then pushed onto `found`.
   */
  method ReportMissing(functions: seq<string>, tests: seq<string>, found: seq<nat>) returns (lines: seq<CoverLine>, found': seq<nat>)
    requires forall k: nat :: k in found <==> k < |functions| && Covered(functions[k], tests)
    ensures lines == MissLines(functions, tests)
    ensures forall k: nat :: k in found' <==> k < |functions|
  {
    lines := [];
    found' := found;
    for i := 0 to |functions|
      invariant lines == MissLines(functions[..i], tests)
      invariant forall k: nat :: k in found' <==> k < |functions| && (Covered(functions[k], tests) || k < i)
    {
      MissStep(found', functions, tests, i);
      assert functions[..i + 1][..i] == functions[..i];
      if i !in found' {
        lines := lines + [CoverLine(functions[i], Missing)];
        found' := found' + [i];
      }
    }
    assert functions[..|functions|] == functions;
  }

  // ---------------------------------------------------------------------
  // Properties of the report
  // ---------------------------------------------------------------------

  /** A row holds a line for a function exactly when the test contains it; every line names the test. */
  lemma {:induction false} MatchRowMember(test: string, functions: seq<string>, l: CoverLine)
    ensures l in MatchRow(test, functions) <==> l.func in functions && l.target == Test(test) && Contains(test, l.func)
    decreases |functions|
  {
    if functions != [] {
      var init, f := functions[..|functions| - 1], functions[|functions| - 1];
      MatchRowMember(test, init, l);
      assert functions == init + [f];
    }
  }

  /** The first loop prints `f -> t` exactly for the function and test pairs where `t` contains `f`. */
  lemma {:induction false} MatchLinesMember(tests: seq<string>, functions: seq<string>, f: string, t: string)
    ensures CoverLine(f, Test(t)) in MatchLines(tests, functions) <==> f in functions && t in tests && Contains(t, f)
    ensures CoverLine(f, Missing) !in MatchLines(tests, functions)
    decreases |tests|
  {
    if tests != [] {
      var init, last := tests[..|tests| - 1], tests[|tests| - 1];
      MatchLinesMember(init, functions, f, t);
      MatchRowMember(last, functions, CoverLine(f, Test(t)));
      MatchRowMember(last, functions, CoverLine(f, Missing));
      assert tests == init + [last];
    }
  }

  /** The second loop prints `f -> X` exactly for the functions no test contains, and only `X` lines. */
  lemma {:induction false} MissLinesMember(functions: seq<string>, tests: seq<string>, l: CoverLine)
    ensures l in MissLines(functions, tests) <==> l.func in functions && l.target == Missing && !Covered(l.func, tests)
    decreases |functions|
  {
    if functions != [] {
      var init, f := functions[..|functions| - 1], functions[|functions| - 1];
      MissLinesMember(init, tests, l);
      assert functions == init + [f];
    }
  }

  /** Rows follow function-index order: the row over two runs of functions is the two rows in turn. */
  lemma {:induction false} MatchRowAppend(test: string, a: seq<string>, b: seq<string>)
    ensures MatchRow(test, a + b) == MatchRow(test, a) + MatchRow(test, b)
    decreases |b|
  {
    if b == [] {
      assert a + b == a;
    } else {
      var init, f := b[..|b| - 1], b[|b| - 1];
      MatchRowAppend(test, a, init);
      assert (a + b)[..|a + b| - 1] == a + init;
    }
  }

  /** The match lines follow test order: two runs of tests give their lines in turn. */
  lemma {:induction false} MatchLinesAppend(a: seq<string>, b: seq<string>, functions: seq<string>)
    ensures MatchLines(a + b, functions) == MatchLines(a, functions) + MatchLines(b, functions)
    decreases |b|
  {
    if b == [] {
      assert a + b == a;
    } else {
      var init, last := b[..|b| - 1], b[|b| - 1];
      MatchLinesAppend(a, init, functions);
      assert (a + b)[..|a + b| - 1] == a + init;
      assert (a + b)[|a + b| - 1] == last;
      calc {
        MatchLines(a + b, functions);
        MatchLines(a + init, functions) + MatchRow(last, functions);
        MatchLines(a, functions) + MatchLines(init, functions) + MatchRow(last, functions);
        MatchLines(a, functions) + (MatchLines(init, functions) + MatchRow(last, functions));
      }
    }
  }

  /** The `X` lines follow function-index order. */
  lemma {:induction false} MissLinesAppend(a: seq<string>, b: seq<string>, tests: seq<string>)
    ensures MissLines(a + b, tests) == MissLines(a, tests) + MissLines(b, tests)
    decreases |b|
  {
    if b == [] {
      assert a + b == a;
    } else {
      var init := b[..|b| - 1];
      MissLinesAppend(a, init, tests);
      assert (a + b)[..|a + b| - 1] == a + init;
    }
  }

  /** No deduplication: a test that contains every function prints one line per function index. */
  lemma {:induction false} MatchRowAll(test: string, functions: seq<string>)
    requires forall i :: 0 <= i < |functions| ==> Contains(test, functions[i])
    ensures |MatchRow(test, functions)| == |functions|
    ensures forall i :: 0 <= i < |functions| ==> MatchRow(test, functions)[i] == CoverLine(functions[i], Test(test))
    decreases |functions|
  {
    if functions != [] {
      var init := functions[..|functions| - 1];
      MatchRowAll(test, init);
    }
  }

  /** One more row of `n` lines. */
  lemma MulSucc(m: nat, n: nat)
    ensures (m + 1) * n == m * n + n
  {
  }

  /** No deduplication: when every test contains every function, every pair is printed. */
  lemma {:induction false} MatchLinesAll(tests: seq<string>, functions: seq<string>)
    requires forall t, f :: t in tests && f in functions ==> Contains(t, f)
    ensures |MatchLines(tests, functions)| == |tests| * |functions|
    decreases |tests|
  {
    if tests != [] {
      var init, last := tests[..|tests| - 1], tests[|tests| - 1];
      assert forall t :: t in init ==> t in tests;
      MatchLinesAll(init, functions);
      assert forall i :: 0 <= i < |functions| ==> functions[i] in functions;
      MatchRowAll(last, functions);
      MulSucc(|init|, |functions|);
    }
  }

  /** Every function appears on the left of at least one printed line. */
  lemma EveryFunctionReported(functions: seq<string>, tests: seq<string>, f: string)
    requires f in functions
    ensures exists l :: l in MatchLines(tests, functions) + MissLines(functions, tests) && l.func == f
  {
    if Covered(f, tests) {
      var j :| 0 <= j < |tests| && Contains(tests[j], f);
      MatchLinesMember(tests, functions, f, tests[j]);
      assert CoverLine(f, Test(tests[j])) in MatchLines(tests, functions) + MissLines(functions, tests);
    } else {
      MissLinesMember(functions, tests, CoverLine(f, Missing));
      assert CoverLine(f, Missing) in MatchLines(tests, functions) + MissLines(functions, tests);
    }
  }
}
