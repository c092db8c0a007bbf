/**
 * The imperative part of src/main.rs: the `Source` record that the scan
 * fills in place, the loop of `isolate_functions_and_tests`, the directory
 * walk over files given as values, and the `Display` rendering.
 */
module Scan {
  import opened Wrappers
  import opened Text
  import opened Classifier

  /** The function and test signatures found so far, in the order they were found. */
  class Source {
    var functions: seq<string>
    var tests: seq<string>

    /** An empty record, as `walk` and the test build it. */
    constructor ()
      ensures functions == [] && tests == []
    {
      functions := [];
      tests := [];
    }

    /** The `Display` implementation: a header, then one indented line per function and per test. */
    method Display() returns (out: string)
      ensures out == Rendered(functions, tests)
    {
      out := "Source:\n";
      out := out + "  Functions:\n";
      for i := 0 to |functions|
        invariant out == "Source:\n" + "  Functions:\n" + Entries(functions[..i])
      {
        assert functions[..i + 1][..i] == functions[..i];
        out := out + "    " + functions[i] + ",\n";
      }
      assert functions[..|functions|] == functions;
      out := out + "  Tests:\n";
      for i := 0 to |tests|
        invariant out == "Source:\n" + "  Functions:\n" + Entries(functions) + "  Tests:\n" + Entries(tests[..i])
      {
        assert tests[..i + 1][..i] == tests[..i];
        out := out + "    " + tests[i] + ",\n";
      }
      assert tests[..|tests|] == tests;
    }
  }

  // ---------------------------------------------------------------------
  // isolate_functions_and_tests and read_tests_and_functions
  // ---------------------------------------------------------------------

  /**
   * Scans one file's text and appends its functions and tests to `source`.
   * Returns false where the Rust code panics at `&line[0..2]`; the entries
   * pushed before the panic stay, and nothing is ever removed.
   */
  method IsolateFunctionsAndTests(contents: string, source: Source) returns (completed: bool)
    modifies source
    ensures completed <==> Isolate(contents).Some?
    ensures completed ==> source.functions == old(source.functions) + Isolate(contents).value.functions
    ensures completed ==> source.tests == old(source.tests) + Isolate(contents).value.tests
    ensures old(source.functions) <= source.functions && old(source.tests) <= source.tests
  {
    ghost var f0, t0 := source.functions, source.tests;
    var lines := Split(contents, '\n');
    var prevLine := "";
    for i := 0 to |lines|
      invariant Run(lines[..i]).Some?
      invariant prevLine == Run(lines[..i]).value.prev
      invariant source.functions == f0 + Run(lines[..i]).value.functions
      invariant source.tests == t0 + Run(lines[..i]).value.tests
    {
      ghost var t := Run(lines[..i]).value;
      RunNext(lines, i);
      var next := IsolateLine(lines[i], prevLine, source, t, f0, t0);
      if next.None? {
        RunPrefixPanics(lines, i + 1);
        PrefixOfAppend(f0, t.functions);
        PrefixOfAppend(t0, t.tests);
        return false;
      }
      prevLine := next.value;
    }
    assert lines[..|lines|] == lines;
    PrefixOfAppend(f0, Run(lines).value.functions);
    PrefixOfAppend(t0, Run(lines).value.tests);
    completed := true;
  }

  /**
   * One pass of the loop body of `isolate_functions_and_tests`: returns the
   * new previous line, or None where `&line[0..2]` panics.
   */
  method IsolateLine(line: string, prevLine: string, source: Source, ghost t: Tracker, ghost f0: seq<string>, ghost t0: seq<string>)
      returns (next: Option<string>)
    requires prevLine == t.prev && source.functions == f0 + t.functions && source.tests == t0 + t.tests
    modifies source
    ensures next.None? <==> Step(t, line).None?
    ensures next.None? ==> unchanged(source)
    ensures next.Some? ==> next.value == Step(t, line).value.prev
    ensures next.Some? ==> source.functions == f0 + Step(t, line).value.functions
    ensures next.Some? ==> source.tests == t0 + Step(t, line).value.tests
  {
    StepEffect(t, line);
    if Contains(line, "fn ") && Contains(line, "(") && !Contains(line, "exactly this") {
      var trimmed := TrimStart(line);
      var parts := Split(trimmed, '(');
      var sig := parts[0];
      var start := PrefixBytes(sig, 2);
      if start.None? {
        return None;
      }
      if start.value != "fn" {
        return Some(prevLine);
      }
      if Contains(prevLine, "#[test]") {
        source.tests := source.tests + [sig];
      } else {
        source.functions := source.functions + [sig];
      }
      return Some(sig);
    }
    return Some(line);
  }

  /** A directory entry: its path and, when reading it succeeds, the file's text. */
  datatype DirEntry = DirEntry(path: string, contents: Option<string>)

  /** What a scan accumulates, as a value. */
  datatype Record = Record(functions: seq<string>, tests: seq<string>)

  /** What one file contributes; None when reading fails or the classifier panics. */
  function FileResult(contents: Option<string>): Option<Record>
  {
    match contents
    case None => None
    case Some(text) =>
      match Isolate(text)
      case None => None
      case Some(t) => Some(Record(t.functions, t.tests))
  }

  /**
   * Reads one file and scans it into `source`. Returns false where the Rust
   * code panics: the read fails (`expect`) or the classifier panics.
   */
  method ReadTestsAndFunctions(entry: DirEntry, source: Source) returns (completed: bool)
    modifies source
    ensures completed <==> FileResult(entry.contents).Some?
    ensures completed ==> source.functions == old(source.functions) + FileResult(entry.contents).value.functions
    ensures completed ==> source.tests == old(source.tests) + FileResult(entry.contents).value.tests
    ensures old(source.functions) <= source.functions && old(source.tests) <= source.tests
  {
    match entry.contents {
      case None =>
        PrefixOfAppend(source.functions, []);
        PrefixOfAppend(source.tests, []);
        completed := false;
      case Some(text) =>
        completed := IsolateFunctionsAndTests(text, source);
    }
  }

  // ---------------------------------------------------------------------
  // walk
  // ---------------------------------------------------------------------

  /** Concatenation of two partial results; a panic in either half is a panic of the whole. */
  function Merge(a: Option<Record>, b: Option<Record>): Option<Record>
  {
    if a.None? || b.None? then None
    else Some(Record(a.value.functions + b.value.functions, a.value.tests + b.value.tests))
  }

  /** The scan of the entries in order, skipping paths without `.rs`; None when it panics. */
  function WalkResult(entries: seq<DirEntry>): Option<Record>
    decreases |entries|
  {
    if entries == [] then Some(Record([], []))
    else
      var last := entries[|entries| - 1];
      var before := WalkResult(entries[..|entries| - 1]);
      if !Contains(last.path, ".rs") then before
      else Merge(before, FileResult(last.contents))
  }

  /** The empty record is a unit of Merge. */
  lemma MergeUnit(a: Option<Record>)
    ensures Merge(Some(Record([], [])), a) == a
    ensures Merge(a, Some(Record([], []))) == a
  {
    if a.Some? {
      assert [] + a.value.functions == a.value.functions + [] == a.value.functions;
      assert [] + a.value.tests == a.value.tests + [] == a.value.tests;
    }
  }

  /** Merge is associative. */
  lemma MergeAssoc(a: Option<Record>, b: Option<Record>, c: Option<Record>)
    ensures Merge(Merge(a, b), c) == Merge(a, Merge(b, c))
  {
    if a.Some? && b.Some? && c.Some? {
      assert a.value.functions + b.value.functions + c.value.functions
        == a.value.functions + (b.value.functions + c.value.functions);
      assert a.value.tests + b.value.tests + c.value.tests
        == a.value.tests + (b.value.tests + c.value.tests);
    }
  }

  /**
   * The walk is a concatenation over files: scanning `a` then `b` gives
   * `a`'s entries followed by `b`'s. In particular the `#[test]` tracker
   * starts afresh in every file.
   */
  lemma {:induction false} WalkConcat(a: seq<DirEntry>, b: seq<DirEntry>)
    ensures WalkResult(a + b) == Merge(WalkResult(a), WalkResult(b))
    decreases |b|
  {
    if b == [] {
      assert a + b == a;
      MergeUnit(WalkResult(a));
    } else {
      var init, last := b[..|b| - 1], b[|b| - 1];
      WalkConcat(a, init);
      assert (a + b)[..|a + b| - 1] == a + init;
      assert (a + b)[|a + b| - 1] == last;
      MergeAssoc(WalkResult(a), WalkResult(init), FileResult(last.contents));
    }
  }

  /** A single Rust file contributes exactly what its scan finds; other paths contribute nothing. */
  lemma WalkSingle(entry: DirEntry)
    ensures Contains(entry.path, ".rs") ==> WalkResult([entry]) == FileResult(entry.contents)
    ensures !Contains(entry.path, ".rs") ==> WalkResult([entry]) == Some(Record([], []))
  {
    assert [entry][..0] == [];
    MergeUnit(FileResult(entry.contents));
  }

  /** Extending the walked prefix by one entry. */
  lemma WalkNext(entries: seq<DirEntry>, i: nat)
    requires i < |entries|
    ensures !Contains(entries[i].path, ".rs") ==> WalkResult(entries[..i + 1]) == WalkResult(entries[..i])
    ensures Contains(entries[i].path, ".rs") ==>
      WalkResult(entries[..i + 1]) == Merge(WalkResult(entries[..i]), FileResult(entries[i].contents))
  {
    assert entries[..i + 1][..i] == entries[..i];
  }

  /** Once a prefix of the listing panics, the whole walk does. */
  lemma {:induction false} WalkPrefixPanics(entries: seq<DirEntry>, i: nat)
    requires i <= |entries| && WalkResult(entries[..i]).None?
    ensures WalkResult(entries).None?
    decreases |entries|
  {
    if i < |entries| {
      var init := entries[..|entries| - 1];
      assert init[..i] == entries[..i];
      WalkPrefixPanics(init, i);
    } else {
      assert entries[..i] == entries;
    }
  }

  /**
   * `walk` over a given listing: scans every entry whose path contains
   * `.rs`, in order, into one fresh record. `completed` is false where the
   * Rust code panics.
   */
  method Walk(entries: seq<DirEntry>) returns (source: Source, completed: bool)
    ensures fresh(source)
    ensures completed <==> WalkResult(entries).Some?
    ensures completed ==> source.functions == WalkResult(entries).value.functions
    ensures completed ==> source.tests == WalkResult(entries).value.tests
  {
    source := new Source();
    for i := 0 to |entries|
      invariant WalkResult(entries[..i]).Some?
      invariant source.functions == WalkResult(entries[..i]).value.functions
      invariant source.tests == WalkResult(entries[..i]).value.tests
    {
      var entry := entries[i];
      WalkNext(entries, i);
      if Contains(entry.path, ".rs") {
        var ok := ReadTestsAndFunctions(entry, source);
        if !ok {
          WalkPrefixPanics(entries, i + 1);
          return source, false;
        }
      }
    }
    assert entries[..|entries|] == entries;
    completed := true;
  }

  // ---------------------------------------------------------------------
  // Display
  // ---------------------------------------------------------------------

  /** The entry lines of the rendering, each `    <entry>,` and a line break. */
  function Entries(xs: seq<string>): string
    decreases |xs|
  {
    if xs == [] then "" else Entries(xs[..|xs| - 1]) + "    " + xs[|xs| - 1] + ",\n"
  }

  /** The text `Display` writes for a record. */
  function Rendered(functions: seq<string>, tests: seq<string>): string
  {
    "Source:\n" + "  Functions:\n" + Entries(functions) + "  Tests:\n" + Entries(tests)
  }

  /** The entry lines without their line breaks. */
  function EntryLines(xs: seq<string>): seq<string>
    decreases |xs|
  {
    if xs == [] then [] else EntryLines(xs[..|xs| - 1]) + ["    " + xs[|xs| - 1] + ","]
  }

  /** The entry block followed by more lines is the joined lines. */
  lemma {:induction false} EntriesJoin(xs: seq<string>, rest: seq<string>)
    requires |rest| >= 1
    ensures Join(EntryLines(xs) + rest, '\n') == Entries(xs) + Join(rest, '\n')
    decreases |xs|
  {
    if xs == [] {
      assert EntryLines(xs) + rest == rest;
    } else {
      var init, x := xs[..|xs| - 1], xs[|xs| - 1];
      var line := "    " + x + ",";
      EntriesJoin(init, [line] + rest);
      assert EntryLines(xs) + rest == EntryLines(init) + ([line] + rest);
      assert Join([line] + rest, '\n') == line + ['\n'] + Join(rest, '\n') by {
        assert ([line] + rest)[1..] == rest;
      }
      assert Entries(xs) == Entries(init) + "    " + x + ",\n";
      assert Entries(init) + (line + ['\n'] + Join(rest, '\n')) == Entries(xs) + Join(rest, '\n');
    }
  }

  /** No entry line contains a line break when no entry does. */
  lemma {:induction false} EntryLinesClean(xs: seq<string>)
    requires forall e :: e in xs ==> '\n' !in e
    ensures forall l :: l in EntryLines(xs) ==> '\n' !in l
    decreases |xs|
  {
    if xs != [] {
      EntryLinesClean(xs[..|xs| - 1]);
      assert xs[|xs| - 1] in xs;
    }
  }

  /** The lines of the rendering, without their line breaks. */
  function LinesOf(functions: seq<string>, tests: seq<string>): seq<string>
  {
    ["Source:", "  Functions:"] + EntryLines(functions) + ["  Tests:"] + EntryLines(tests) + [""]
  }

  /** Joining a first line onto the rest puts one line break between them. */
  lemma JoinCons(line: string, rest: seq<string>)
    requires |rest| >= 1
    ensures Join([line] + rest, '\n') == line + "\n" + Join(rest, '\n')
  {
    assert ([line] + rest)[1..] == rest;
  }

  /** A header line followed by entry lines and more lines, joined. */
  lemma BlockJoin(header: string, xs: seq<string>, rest: seq<string>)
    requires |rest| >= 1
    ensures Join([header] + (EntryLines(xs) + rest), '\n') == header + "\n" + (Entries(xs) + Join(rest, '\n'))
  {
    EntriesJoin(xs, rest);
    JoinCons(header, EntryLines(xs) + rest);
  }

  /** The layout of the rendering with its three headers left open. */
  lemma LayoutJoin(h0: string, h1: string, h2: string, functions: seq<string>, tests: seq<string>)
    ensures Join([h0] + ([h1] + (EntryLines(functions) + ([h2] + (EntryLines(tests) + [""])))), '\n') ==
      h0 + "\n" + (h1 + "\n" + (Entries(functions) + (h2 + "\n" + (Entries(tests) + ""))))
  {
    var tail := [h2] + (EntryLines(tests) + [""]);
    BlockJoin(h2, tests, [""]);
    var rest := [h1] + (EntryLines(functions) + tail);
    BlockJoin(h1, functions, tail);
    JoinCons(h0, rest);
  }

  /** The rendering is its lines joined with line breaks. */
  lemma RenderedJoin(functions: seq<string>, tests: seq<string>)
    ensures Join(LinesOf(functions, tests), '\n') == Rendered(functions, tests)
  {
    LayoutJoin("Source:", "  Functions:", "  Tests:", functions, tests);
    LinesOfNested(functions, tests);
    HeaderBreaks();
  }

  /** The rendered lines, grouped as `LayoutJoin` takes them. */
  lemma LinesOfNested(functions: seq<string>, tests: seq<string>)
    ensures LinesOf(functions, tests) ==
      ["Source:"] + (["  Functions:"] + (EntryLines(functions) + (["  Tests:"] + (EntryLines(tests) + [""]))))
  {
  }

  /** Each header followed by a line break is the header text `Display` writes. */
  lemma HeaderBreaks()
    ensures "Source:" + "\n" == "Source:\n"
    ensures "  Functions:" + "\n" == "  Functions:\n"
    ensures "  Tests:" + "\n" == "  Tests:\n"
  {
  }

  /** No line of the rendering holds a line break when no entry does. */
  lemma LinesOfClean(functions: seq<string>, tests: seq<string>)
    requires forall e :: e in functions ==> '\n' !in e
    requires forall e :: e in tests ==> '\n' !in e
    ensures forall l :: l in LinesOf(functions, tests) ==> '\n' !in l
  {
    EntryLinesClean(functions);
    EntryLinesClean(tests);
  }

  /**
   * Reading the rendering back: split at line breaks, it is the header,
   * one `    <function>,` line per function, `  Tests:`, one line per test,
   * and the empty text after the final line break.
   */
  lemma RenderedLines(functions: seq<string>, tests: seq<string>)
    requires forall e :: e in functions ==> '\n' !in e
    requires forall e :: e in tests ==> '\n' !in e
    ensures Split(Rendered(functions, tests), '\n') == LinesOf(functions, tests)
  {
    RenderedJoin(functions, tests);
    LinesOfClean(functions, tests);
    SplitJoin(LinesOf(functions, tests), '\n');
  }

  /** Every record a file's scan produces renders into lines that split back one per entry. */
  lemma IsolateRendered(contents: string)
    requires Isolate(contents).Some?
    ensures Split(Rendered(Isolate(contents).value.functions, Isolate(contents).value.tests), '\n') ==
      LinesOf(Isolate(contents).value.functions, Isolate(contents).value.tests)
  {
    IsolateEntries(contents);
    RenderedLines(Isolate(contents).value.functions, Isolate(contents).value.tests);
  }
}
