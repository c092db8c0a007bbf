/**
 * The string operations of Rust's `str` that the scanner relies on, over
 * strings seen as sequences of Unicode scalar values: `contains`, `split`,
 * `trim_start`, and the byte-range slice `&s[0..n]` with its panics.
 */
module Text {
  import opened Wrappers

  // ---------------------------------------------------------------------
  // str::contains
  // ---------------------------------------------------------------------

  /** `s.contains(pat)`: `pat` occurs somewhere in `s` (the empty pattern occurs everywhere). */
  predicate Contains(s: string, pat: string): (r: bool)
    ensures r ==> |pat| <= |s|
    decreases |s|
  {
    pat <= s || (|s| > 0 && Contains(s[1..], pat))
  }

  /** `pat` occurs in `s` starting at character position `i`. */
  ghost predicate OccursAt(s: string, pat: string, i: nat)
  {
    i + |pat| <= |s| && s[i..i + |pat|] == pat
  }

  /** An occurrence at position `i` is enough for Contains. */
  lemma {:induction false} ContainsAt(s: string, pat: string, i: nat)
    requires OccursAt(s, pat, i)
    ensures Contains(s, pat)
    decreases i
  {
    if i == 0 {
      assert s[..|pat|] == pat;
    } else {
      assert s[1..][i - 1..i - 1 + |pat|] == s[i..i + |pat|];
      ContainsAt(s[1..], pat, i - 1);
    }
  }

  /** Contains yields a position where the pattern occurs. */
  lemma {:induction false} ContainsOccurs(s: string, pat: string)
    requires Contains(s, pat)
    ensures exists i: nat :: OccursAt(s, pat, i)
    decreases |s|
  {
    if pat <= s {
      assert OccursAt(s, pat, 0);
    } else {
      ContainsOccurs(s[1..], pat);
      var i: nat :| OccursAt(s[1..], pat, i);
      assert s[i + 1..i + 1 + |pat|] == s[1..][i..i + |pat|];
      assert OccursAt(s, pat, i + 1);
    }
  }

  /** Contains agrees with the positional definition of "occurs in". */
  lemma ContainsIff(s: string, pat: string)
    ensures Contains(s, pat) <==> exists i: nat :: OccursAt(s, pat, i)
  {
    if Contains(s, pat) {
      ContainsOccurs(s, pat);
    }
    if exists i: nat :: OccursAt(s, pat, i) {
      var i: nat :| OccursAt(s, pat, i);
      ContainsAt(s, pat, i);
    }
  }

  /** Every character of an occurring pattern occurs in the text. */
  lemma ContainsChar(s: string, pat: string, c: char)
    requires Contains(s, pat) && c in pat
    ensures c in s
  {
    ContainsIff(s, pat);
    var i: nat :| OccursAt(s, pat, i);
    var k :| 0 <= k < |pat| && pat[k] == c;
    assert s[i + k] == s[i..i + |pat|][k];
  }

  // ---------------------------------------------------------------------
  // str::split with a one-character separator
  // ---------------------------------------------------------------------

  /** The inverse of Split: the parts glued back with the separator between them. */
  function Join(parts: seq<string>, sep: char): (r: string)
    requires |parts| >= 1
    ensures parts[0] <= r
    decreases |parts|
  {
    if |parts| == 1 then parts[0] else parts[0] + [sep] + Join(parts[1..], sep)
  }

  /**
   * `s.split(sep)` collected: the maximal separator-free pieces of `s`, in
   * order, including empty pieces at either end. There is always at least
   * one piece, and the first one is the text before the first separator.
   */
  function Split(s: string, sep: char): (parts: seq<string>)
    ensures |parts| >= 1
    ensures forall p :: p in parts ==> sep !in p
    ensures Join(parts, sep) == s
    ensures parts[0] <= s && (|parts[0]| < |s| ==> s[|parts[0]|] == sep)
    decreases |s|
  {
    if s == [] then [[]]
    else
      var rest := Split(s[1..], sep);
      if s[0] == sep then
        assert [[]] + rest == [[]] + rest;
        [[]] + rest
      else
        var parts := [[s[0]] + rest[0]] + rest[1..];
        assert parts[1..] == rest[1..];
        assert forall p :: p in parts ==> p == parts[0] || p in rest;
        parts
  }

  /** Splitting text with no separator in it yields the text alone. */
  lemma {:induction false} SplitNoSeparator(s: string, sep: char)
    requires sep !in s
    ensures Split(s, sep) == [s]
    decreases |s|
  {
    if s != [] {
      SplitNoSeparator(s[1..], sep);
    }
  }

  /** The first separator ends the first piece. */
  lemma {:induction false} SplitAtSeparator(a: string, b: string, sep: char)
    requires sep !in a
    ensures Split(a + [sep] + b, sep) == [a] + Split(b, sep)
    decreases |a|
  {
    if a == [] {
      assert (a + [sep] + b)[1..] == b;
    } else {
      assert (a + [sep] + b)[1..] == a[1..] + [sep] + b;
      SplitAtSeparator(a[1..], b, sep);
      assert [a[0]] + a[1..] == a;
    }
  }

  /** Round trip: splitting joined separator-free parts gives the parts back. */
  lemma {:induction false} SplitJoin(parts: seq<string>, sep: char)
    requires |parts| >= 1
    requires forall p :: p in parts ==> sep !in p
    ensures Split(Join(parts, sep), sep) == parts
    decreases |parts|
  {
    if |parts| == 1 {
      SplitNoSeparator(parts[0], sep);
    } else {
      SplitJoin(parts[1..], sep);
      SplitAtSeparator(parts[0], Join(parts[1..], sep), sep);
      assert [parts[0]] + parts[1..] == parts;
    }
  }

  // ---------------------------------------------------------------------
  // str::trim_start
  // ---------------------------------------------------------------------

  /** Rust's `char::is_whitespace`: the Unicode White_Space property. */
  predicate IsWhitespace(c: char)
  {
    var n := c as int;
    n == 0x20 || 0x09 <= n <= 0x0D || n == 0x85 || n == 0xA0 || n == 0x1680 ||
    0x2000 <= n <= 0x200A || n == 0x2028 || n == 0x2029 || n == 0x202F ||
    n == 0x205F || n == 0x3000
  }

  /** `s.trim_start()`: the suffix of `s` left after dropping every leading whitespace character. */
  function TrimStart(s: string): (r: string)
    ensures |r| <= |s| && r == s[|s| - |r|..]
    ensures forall i :: 0 <= i < |s| - |r| ==> IsWhitespace(s[i])
    ensures r == [] || !IsWhitespace(r[0])
    decreases |s|
  {
    if |s| > 0 && IsWhitespace(s[0]) then TrimStart(s[1..]) else s
  }

  // ---------------------------------------------------------------------
  // UTF-8 byte offsets and the slice &s[0..n]
  // ---------------------------------------------------------------------

  /** Number of bytes UTF-8 spends on `c`. */
  function Utf8Len(c: char): nat
  {
    var n := c as int;
    if n < 0x80 then 1 else if n < 0x800 then 2 else if n < 0x10000 then 3 else 4
  }

  /** Length of `s` in bytes when encoded as UTF-8 (Rust's `str::len`). */
  function ByteLen(s: string): nat
    decreases |s|
  {
    if s == [] then 0 else Utf8Len(s[0]) + ByteLen(s[1..])
  }

  /** Byte offset `n` lies within `s` and falls between two characters. */
  ghost predicate IsCharBoundary(s: string, n: nat)
  {
    exists k :: 0 <= k <= |s| && ByteLen(s[..k]) == n
  }

  /**
   * `&s[0..n]`: the characters covering the first `n` bytes of `s`, or None
   * where Rust panics because `n` is past the end or inside a character.
   */
  function PrefixBytes(s: string, n: nat): (r: Option<string>)
    ensures r.Some? ==> r.value <= s && ByteLen(r.value) == n
    decreases |s|
  {
    if n == 0 then Some([])
    else if s == [] || Utf8Len(s[0]) > n then None
    else match PrefixBytes(s[1..], n - Utf8Len(s[0]))
      case None => None
      case Some(p) =>
        assert ([s[0]] + p)[1..] == p;
        Some([s[0]] + p)
  }

  /** Byte length adds up over concatenation. */
  lemma {:induction false} ByteLenAppend(a: string, b: string)
    ensures ByteLen(a + b) == ByteLen(a) + ByteLen(b)
    decreases |a|
  {
    if a == [] {
      assert a + b == b;
    } else {
      assert (a + b)[1..] == a[1..] + b;
      ByteLenAppend(a[1..], b);
    }
  }

  /** A non-empty prefix of `s` covers at least the bytes of its first character. */
  lemma PrefixCoversFirst(s: string, k: nat)
    requires 0 < k <= |s|
    ensures ByteLen(s[..k]) == Utf8Len(s[0]) + ByteLen(s[1..k])
  {
    assert s[..k][1..] == s[1..k];
  }

  /** The slice succeeds exactly when `n` is a character boundary of `s`. */
  lemma {:induction false} PrefixBytesDefined(s: string, n: nat)
    ensures PrefixBytes(s, n).Some? <==> IsCharBoundary(s, n)
    decreases |s|
  {
    if n == 0 {
      assert ByteLen(s[..0]) == 0;
    } else if s == [] {
      assert forall k :: 0 <= k <= |s| ==> s[..k] == [];
    } else if Utf8Len(s[0]) > n {
      forall k | 0 < k <= |s| ensures ByteLen(s[..k]) != n {
        PrefixCoversFirst(s, k);
      }
      assert s[..0] == [];
    } else {
      var m := n - Utf8Len(s[0]);
      PrefixBytesDefined(s[1..], m);
      if IsCharBoundary(s[1..], m) {
        var k :| 0 <= k <= |s[1..]| && ByteLen(s[1..][..k]) == m;
        PrefixCoversFirst(s, k + 1);
        assert s[1..][..k] == s[1..k + 1];
      }
      if IsCharBoundary(s, n) {
        var k :| 0 <= k <= |s| && ByteLen(s[..k]) == n;
        assert k != 0 by { assert s[..0] == []; }
        PrefixCoversFirst(s, k);
        assert s[1..][..k - 1] == s[1..k];
      }
    }
  }

  /** For ASCII text the slice `&s[0..n]` panics exactly when `s` is shorter than `n` characters. */
  lemma {:induction false} PrefixBytesAscii(s: string, n: nat)
    requires forall i :: 0 <= i < |s| ==> s[i] as int < 0x80
    ensures PrefixBytes(s, n).Some? <==> n <= |s|
    ensures n <= |s| ==> PrefixBytes(s, n) == Some(s[..n])
    decreases |s|
  {
    if n != 0 && s != [] {
      PrefixBytesAscii(s[1..], n - 1);
      if n <= |s| {
        assert [s[0]] + s[1..][..n - 1] == s[..n];
      }
    }
  }

  /** Slicing at the byte length of a prefix yields that prefix. */
  lemma {:induction false} PrefixBytesOfPrefix(s: string, p: string)
    requires p <= s
    ensures PrefixBytes(s, ByteLen(p)) == Some(p)
    decreases |p|
  {
    if p != [] {
      PrefixBytesOfPrefix(s[1..], p[1..]);
      assert [s[0]] + p[1..] == p;
    }
  }

  /** `&s[0..2] == "fn"` holds exactly when `s` starts with the two characters `fn`. */
  lemma StartsWithFn(s: string)
    ensures PrefixBytes(s, 2) == Some("fn") <==> |s| >= 2 && s[..2] == "fn"
  {
    if |s| >= 2 && s[..2] == "fn" {
      assert ByteLen("fn") == 2 by {
        assert "fn"[1..] == "n" && "n"[1..] == [];
      }
      PrefixBytesOfPrefix(s, "fn");
    }
  }

  /** What was there before an append is a prefix of the result. */
  lemma PrefixOfAppend<T>(a: seq<T>, b: seq<T>)
    ensures a <= a + b
  {
    assert (a + b)[..|a|] == a;
  }
}
