# covers — a verified model of the function/test scanner

`covers` is a small Rust tool. It lists the current directory and reads every
entry whose path contains `.rs` anywhere, so `notes.rs.txt` or `.rsync` is read
as well; an entry of that kind that is a directory, or cannot be read, makes
the read's `expect` panic. In each file it picks out function declarations
with a line-by-line heuristic.
It keeps each declaration as its signature text `fn name` (the left-trimmed
line cut before its first `(`). A declaration counts as a test when the tracked
previous line contains `#[test]`, and as a function otherwise.

The tracked previous line is not always the line just above. After a line
that is not a candidate it is that raw line. After an accepted declaration it
is the truncated signature. After a rejected candidate (one whose signature
does not start with `fn`) it stays as it was, because `continue` skips its
update (src/main.rs:41, 50). So in the lines `#[test]`, `let y = bar(fn z)`,
`fn foo() {`, the declaration `fn foo` counts as a test. The slice
`&line[0..2]` at src/main.rs:39 panics on a signature without a character
boundary at byte 2, which includes every signature shorter than two bytes. The
model keeps that panic as `None` rather than skipping the line.

It then reports, for each test, the functions whose signature text (`fn name`)
the test's signature text contains, and marks with `X` the functions no test
contains. As the whole text `fn name` is compared, the test `fn test_foo` does
not cover the function `fn foo`, while `fn foo_test` does: a test whose name
starts with the function's name covers it.

This project models that core, `src/main.rs`, in Dafny and proves its
behaviour:

- `wrappers.dfy`, module `Wrappers`: the `Option` type. `None` stands for a
  Rust panic.
- `text.dfy`, module `Text`: the string operations the scanner relies on.
  - `str::contains`.
  - `str::split` on a single character, with its inverse `Join`.
  - `str::trim_start`, using Rust's `char::is_whitespace`, which is the Unicode
    White_Space list.
  - The UTF-8 byte slice `&s[0..n]`, which panics unless byte `n` falls on a
    character boundary.
- `classifier.dfy`, module `Classifier`: the loop body of
  `isolate_functions_and_tests` as a pure step on a tracker (previous line,
  functions, tests), and the whole loop as a fold `Run` over the lines. It
  also holds the worked example from the crate's own unit test.
- `scan.dfy`, module `Scan`: the imperative code.
  - The `Source` record as a class whose lists the methods extend in place.
  - `isolate_functions_and_tests`, `read_tests_and_functions` and `walk` as
    loops proved against `Run` and its fold over files.
  - The `Display` implementation, with the proof that its output splits back
    into one line per entry.
- `cover.dfy`, module `Cover`: the two matching loops of `show_test_cover`.
  The inner loop over the functions (`MatchTest`) and the loop that reports
  uncovered functions (`ReportMissing`) are methods of their own. The printed
  lines are returned as `CoverLine` values.

## Model

| member | source | states |
|---|---|---|
| `Text.Contains` | src/main.rs:32 | `s.contains(pat)`: `pat` is a prefix of `s` or of one of its suffixes; its contract states that a contained pattern is no longer than the text |
| `Text.ContainsIff` | src/main.rs:32 | `contains(pat)` holds exactly when `pat` occurs at some position of the text |
| `Text.ContainsChar` | src/main.rs:32 | a text that contains a pattern contains every character of the pattern |
| `Text.Split` | src/main.rs:35-36 | the pieces of `split(sep)` are at least one and contain no separator; joined with the separator they give back the text; the first piece is the text up to the first separator |
| `Text.SplitAtSeparator` | src/main.rs:35-36 | splitting `a + sep + b` with `a` separator-free gives `a` followed by the pieces of `b` |
| `Text.Join` | src/main.rs:28 | the pieces glued back with the separator between them, the inverse of `split`; the result starts with the first piece |
| `Text.SplitJoin` | src/main.rs:28 | splitting the join of separator-free pieces gives back exactly those pieces |
| `Text.TrimStart` | src/main.rs:34 | `trim_start` keeps a suffix of the text; everything it drops is whitespace, and the result does not start with whitespace |
| `Text.PrefixBytes` | src/main.rs:39 | a defined `&s[0..n]` is a prefix of `s` whose UTF-8 encoding has exactly `n` bytes |
| `Text.PrefixBytesDefined` | src/main.rs:39 | `&s[0..n]` is defined exactly when byte `n` is a character boundary of `s` |
| `Text.PrefixBytesAscii` | src/main.rs:39 | on ASCII text `&s[0..n]` is defined exactly when `n` is at most the length, and is then the first `n` characters |
| `Text.PrefixBytesOfPrefix` | src/main.rs:39 | the byte slice at the encoded length of a prefix returns that prefix |
| `Text.StartsWithFn` | src/main.rs:39-40 | `&line[0..2] == "fn"` holds exactly when the line's first two characters are `fn` |
| `Classifier.IsCandidate` | src/main.rs:32 | the candidate test: the line contains `fn ` and `(` and does not contain `exactly this`; a candidate has at least three characters |
| `Classifier.Signature` | src/main.rs:34-36 | the kept signature has no `(`, is a prefix of the left-trimmed line, and is followed there by `(` unless it is the whole trimmed line |
| `Classifier.Examine` | src/main.rs:32-42 | a line is ignored exactly when it is not a candidate, panics exactly when `PanicsOn` holds (it is a candidate and the slice `&sig[0..2]` of its signature is undefined), and is accepted exactly when its signature starts with `fn`, the accepted text being that signature |
| `Classifier.StepEffect` | src/main.rs:31-50 | one line: a line containing `exactly this` or not a candidate only becomes the previous line; a rejected candidate changes nothing, the previous line included; an accepted one grows `tests` by one when the previous line contains `#[test]`, otherwise `functions` by one, and becomes the previous line in its truncated form |
| `Classifier.Step` | src/main.rs:31-50 | one pass of the loop body on the tracker, None where the slice panics; a step that does not panic only appends to the two lists, and adds at most one entry in all |
| `Classifier.Run` | src/main.rs:27-51 | the loop as a left fold of `Step` over the lines from an empty tracker, None once a line panics; a completed run records at most one entry per line |
| `Classifier.Isolate` | src/main.rs:26-52 | the scan of a file's text: `Run` over its `split("\n")` pieces; what it yields is characterised by `RunEntries`, `IsolateEntries` and `RunPanics` |
| `Classifier.RunPrefix` | src/main.rs:44-48 | append-only: the lists after any prefix of the lines are prefixes of the final lists, so entries appear in line order |
| `Classifier.RunPrefixPanics` | src/main.rs:39 | once some first lines of a file panic, the scan of the whole file panics |
| `Classifier.RunPanics` | src/main.rs:39 | a file panics exactly when one of its lines does |
| `Classifier.PanicsOnBoundary` | src/main.rs:39 | a line panics exactly when it is a candidate and byte 2 of its signature is not a character boundary |
| `Classifier.AsciiPanics` | src/main.rs:39 | on ASCII text a line panics exactly when it is a candidate whose signature is shorter than two characters |
| `Classifier.RunEntries` | src/main.rs:26-52 | every recorded function and test is the signature of some accepted line of the file |
| `Classifier.AcceptedShape` | src/main.rs:32-42 | an accepted signature starts with `fn`, has no `(`, comes from a line without `exactly this`, and has no line break when its line has none |
| `Classifier.IsolateEntries` | src/main.rs:26-52 | every entry of a scanned file starts with `fn` and contains neither `(` nor a line break |
| `Classifier.DeclarationLine` | src/main.rs:32-42 | an indented `fn name(...)` line, with no `(` in the name and no `x` anywhere, is accepted with signature `fn name` |
| `Classifier.IsolateFixtureFor` | src/main.rs:137-157 | the unit test's text (two declarations, a `#[test]` line and two body lines), for any name with no `(`, no line break, no `f` and no `x`, yields one function `fn name` and one test `fn name_test` |
| `Classifier.IsolateFixture` | src/main.rs:137-157 | the unit test's text yields `functions == ["fn this_is_some_code"]` and `tests == ["fn this_is_some_code_test"]` |
| `Scan.Source.constructor` | src/main.rs:5-8 | a new record has no functions and no tests |
| `Scan.Source.Display` | src/main.rs:10-23 | the output is the header, one `    <entry>,` line per function, `  Tests:`, then one per test, in list order |
| `Scan.IsolateFunctionsAndTests` | src/main.rs:26-52 | completes exactly when the scan of the file does not panic; on completion appends exactly the file's functions and tests, in order; never removes anything |
| `Scan.IsolateLine` | src/main.rs:31-50 | one pass of the loop body moves the record and the previous line as one classifier step does, and leaves the record alone when the slice panics |
| `Scan.FileResult` | src/main.rs:54-57 | what one file contributes as a value: None when it cannot be read or its scan panics, otherwise the functions and tests of `Isolate` on its text |
| `Scan.ReadTestsAndFunctions` | src/main.rs:54-57 | completes exactly when the file can be read and its scan does not panic, and then appends that file's functions and tests; never removes anything, on either outcome |
| `Scan.Merge` | src/main.rs:67-74 | one file's contribution appended after the record so far; None when either side panicked |
| `Scan.MergeUnit` | src/main.rs:60-63 | the empty record is a unit of `Merge` on both sides |
| `Scan.MergeAssoc` | src/main.rs:67-74 | `Merge` is associative, so a walk can be split at any entry |
| `Scan.WalkResult` | src/main.rs:67-74 | the fold of `Merge` over the listing, skipping paths without `.rs`, from the empty record |
| `Scan.Walk` | src/main.rs:59-77 | starts from a fresh empty record; completes exactly when no scanned file panics; the record then holds the fold over the `.rs` entries in listing order |
| `Scan.WalkConcat` | src/main.rs:67-74 | walking two listings in turn gives the first's entries followed by the second's; the `#[test]` tracker starts afresh in every file |
| `Scan.WalkSingle` | src/main.rs:71-73 | a path containing `.rs` contributes exactly its file's scan; any other path contributes nothing |
| `Scan.Entries` | src/main.rs:14-16 | the entry block of `Display`: one `    <entry>,` line with its line break per element, in order; `EntriesJoin` relates it to the joined entry lines |
| `Scan.Rendered` | src/main.rs:12-20 | the whole text `Display` builds: the two headers, the functions' block, `  Tests:`, the tests' block |
| `Scan.RenderedLines` | src/main.rs:12-20 | split at line breaks, the rendering is the header lines, one line per function, `  Tests:`, one line per test, and a final empty piece |
| `Scan.IsolateRendered` | src/main.rs:10-52 | the rendering of a scanned file always splits back into exactly one line per entry |
| `Cover.Covered` | src/main.rs:85-95 | a function is covered when some test's text contains it, which is when the first loop pushes its index |
| `Cover.MatchRow` | src/main.rs:86-91 | the lines the inner loop prints for one test: the functions it contains, in index order; `MatchRowMember` and `MatchRowAppend` state this |
| `Cover.MatchLines` | src/main.rs:85-92 | the lines the first loop prints: the rows of the tests in test order; `MatchLinesMember` and `MatchLinesAppend` state this |
| `Cover.MissLines` | src/main.rs:94-99 | the lines the second loop prints: the uncovered functions in index order; its contract states there is at most one per function |
| `Cover.CoveredSnoc` | src/main.rs:85-92 | a function is covered by one more test exactly when it was covered already or that test contains it |
| `Cover.MatchTest` | src/main.rs:86-91 | for one test, prints the lines of the functions it contains in index order, and adds exactly their indices to `found` |
| `Cover.ReportMissing` | src/main.rs:94-99 | given `found` holding the covered indices, prints an `X` line for each uncovered function in index order, and leaves `found` holding every index |
| `Cover.ShowTestCover` | src/main.rs:79-99 | the printed lines are the match lines in test-major, function-index order followed by the `X` lines; afterwards `found` holds exactly the indices of the functions |
| `Cover.MatchRowMember` | src/main.rs:86-91 | the inner loop prints a line for a function exactly when the test contains it, and every such line names that test |
| `Cover.MatchLinesMember` | src/main.rs:85-92 | the first loop prints `f -> t` exactly when `f` is a function, `t` a test and `t` contains `f`, and never prints an `X` line |
| `Cover.MissLinesMember` | src/main.rs:94-99 | the second loop prints `f -> X` exactly for the functions no test contains, and prints only `X` lines |
| `Cover.MatchRowAppend` | src/main.rs:86-91 | one test's lines follow function-index order |
| `Cover.MatchLinesAppend` | src/main.rs:85-92 | the match lines follow test order |
| `Cover.MissLinesAppend` | src/main.rs:94-99 | the `X` lines follow function-index order |
| `Cover.MatchRowAll` | src/main.rs:86-91 | no deduplication: a test containing every function prints one line per function index, duplicates included |
| `Cover.MatchLinesAll` | src/main.rs:85-92 | no deduplication: when every test contains every function, tests × functions lines are printed |
| `Cover.EveryFunctionReported` | src/main.rs:85-99 | every function appears on the left of at least one printed line |

## Left out

- Directory listing (`fs::read_dir("./").unwrap()`, `path.unwrap()`, `to_string_lossy`, src/main.rs:65-69): this is file-system I/O. `Scan.Walk` takes the listing as a sequence of entries, each a path and the file's text.
- File reading (`fs::read_to_string(...).expect`, src/main.rs:55): an entry whose contents are `None` is a file that cannot be read, and the walk stops there as the `expect` panic does.
- Panics: a panic ends the Rust process. The model returns `None` or `false`. `Scan.IsolateFunctionsAndTests` and `Scan.ReadTestsAndFunctions` then say only that nothing was removed from the record up to that point; `Scan.Walk` builds a fresh record and says nothing about it on that path.
- Console output and colours (`println!`, `colored`, src/main.rs:88, 96, 102): `Cover.ShowTestCover` returns the printed lines as `CoverLine` values, not as formatted text.
- The coverage ratio (src/main.rs:101-102): it is an `f64` division, formatted with `{:.4}`, and divides by zero when there are no functions. Floating point is not modelled.
- `main` (src/main.rs:104-107): it contains no logic beyond calling `walk` and `show_test_cover`.
- `_function_to_test` (src/main.rs:109-111): it contains no logic.
- `walk_test` (src/main.rs:126-134): it depends on the process's working directory and on the files of the repository.
- `Display` writes through a `fmt::Formatter` (src/main.rs:22). `Scan.Source.Display` returns the string, and a formatter error is not modelled.
- Cover.ShowTestCover: states which indices `found` holds, not the order or multiplicity of its elements.
- Strings are sequences of Unicode scalar values. UTF-8 enters the model only to measure byte offsets for `&line[0..2]`.
