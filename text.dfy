/** The Python string operations the core relies on: `str.split`, `str.join`,
    `in` on strings, `startswith`/`endswith`, `strip`, slicing from an index and
    `split(sep, maxsplit=1)`. */
module Text {
  import opened Wrappers

  predicate StartsWith(s: string, prefix: string) {
    |prefix| <= |s| && s[..|prefix|] == prefix
  }

  predicate EndsWith(s: string, suffix: string) {
    |suffix| <= |s| && s[|s| - |suffix|..] == suffix
  }

  /** Python's `needle in hay` for two strings: a substring test (the empty
      string is in every string). */
  predicate Contains(hay: string, needle: string)
    decreases |hay|
  {
    StartsWith(hay, needle) || (|hay| > 0 && Contains(hay[1..], needle))
  }

  /** Python's `sep.join(parts)` for a one-character separator. */
  function Join(parts: seq<string>, sep: char): string
    decreases |parts|
  {
    if |parts| == 0 then ""
    else if |parts| == 1 then parts[0]
    else parts[0] + [sep] + Join(parts[1..], sep)
  }

  /** Python's `s.split(sep)` for a one-character separator: always at least one
      piece, no piece holds the separator, and joining the pieces gives `s` back. */
  function Split(s: string, sep: char): (pieces: seq<string>)
    ensures |pieces| >= 1
    ensures forall i :: 0 <= i < |pieces| ==> sep !in pieces[i]
    ensures Join(pieces, sep) == s
    decreases |s|
  {
    if s == [] then [""]
    else if s[0] == sep then
      var rest := Split(s[1..], sep);
      assert [sep] + s[1..] == s;
      [""] + rest
    else
      var rest := Split(s[1..], sep);
      var pieces := [[s[0]] + rest[0]] + rest[1..];
      assert pieces[1..] == rest[1..];
      assert Join(pieces, sep) == [s[0]] + Join(rest, sep) by {
        if |rest| > 1 {
          assert Join(rest, sep) == rest[0] + [sep] + Join(rest[1..], sep);
        }
      }
      pieces
  }

  /** `s.split(sep)` has a second piece exactly when `sep` occurs in `s`. */
  lemma SplitFindsSeparator(s: string, sep: char)
    ensures |Split(s, sep)| >= 2 <==> sep in s
  {
    var pieces := Split(s, sep);
    if |pieces| == 1 {
      assert Join(pieces, sep) == pieces[0];
    } else {
      assert s == pieces[0] + [sep] + Join(pieces[1..], sep);
      assert s[|pieces[0]|] == sep;
    }
  }

  /** Python's `s.split(sep, maxsplit=1)` unpacked into two names: `None` stands
      for the ValueError raised when `sep` does not occur in `s`. */
  function SplitFirst(s: string, sep: char): (r: Option<(string, string)>)
    ensures r.None? <==> sep !in s
    ensures r.Some? ==> s == r.value.0 + [sep] + r.value.1 && sep !in r.value.0
    decreases |s|
  {
    if s == [] then None
    else if s[0] == sep then Some(([], s[1..]))
    else match SplitFirst(s[1..], sep)
      case None => None
      case Some((before, after)) => Some(([s[0]] + before, after))
  }

  /** Python's `s[n:]`: everything after the first `n` characters, or "" when
      `s` is shorter. */
  function DropPrefix(s: string, n: nat): (r: string)
    ensures |s| <= n ==> r == ""
    ensures n <= |s| ==> s == s[..n] + r
  {
    if |s| <= n then "" else s[n..]
  }

  /** The ASCII whitespace Python's `str.strip()` removes. */
  predicate IsSpace(c: char) {
    c == ' ' || c == '\t' || c == '\n' || c == '\r' || c == '\U{b}' || c == '\U{c}'
  }

  /** `s.lstrip()`. */
  function TrimStart(s: string): (r: string)
    ensures |r| <= |s| && r == s[|s| - |r|..]
    ensures r == [] || !IsSpace(r[0])
  {
    if s != [] && IsSpace(s[0]) then TrimStart(s[1..]) else s
  }

  /** `s.rstrip()`. */
  function TrimEnd(s: string): (r: string)
    ensures |r| <= |s| && r == s[..|r|]
    ensures r == [] || !IsSpace(r[|r| - 1])
  {
    if s != [] && IsSpace(s[|s| - 1]) then TrimEnd(s[..|s| - 1]) else s
  }

  /** Python's `s.strip()`. */
  function Strip(s: string): string {
    TrimEnd(TrimStart(s))
  }

  lemma StripUnpadded(s: string)
    requires s == [] || (!IsSpace(s[0]) && !IsSpace(s[|s| - 1]))
    ensures Strip(s) == s
  {
  }

  /** Splitting `a` followed by the separator and `rest` yields `a` as the first
      piece when `a` holds no separator. */
  lemma {:induction false} SplitAfterPiece(a: string, sep: char, rest: string)
    requires sep !in a
    ensures Split(a + [sep] + rest, sep) == [a] + Split(rest, sep)
    decreases |a|
  {
    if a == [] {
      assert a + [sep] + rest == [sep] + rest;
      assert ([sep] + rest)[1..] == rest;
    } else {
      SplitAfterPiece(a[1..], sep, rest);
      assert (a + [sep] + rest)[1..] == a[1..] + [sep] + rest;
      assert [a[0]] + a[1..] == a;
    }
  }

  lemma {:induction false} SplitWithoutSeparator(a: string, sep: char)
    requires sep !in a
    ensures Split(a, sep) == [a]
    decreases |a|
  {
    if a != [] {
      SplitWithoutSeparator(a[1..], sep);
      assert [a[0]] + a[1..] == a;
    }
  }

  /** `split` undoes `join` when no piece holds the separator. */
  lemma {:induction false} SplitJoin(parts: seq<string>, sep: char)
    requires |parts| >= 1
    requires forall i :: 0 <= i < |parts| ==> sep !in parts[i]
    ensures Split(Join(parts, sep), sep) == parts
    decreases |parts|
  {
    if |parts| == 1 {
      SplitWithoutSeparator(parts[0], sep);
    } else {
      SplitJoin(parts[1..], sep);
      SplitAfterPiece(parts[0], sep, Join(parts[1..], sep));
      assert [parts[0]] + parts[1..] == parts;
    }
  }

  lemma {:induction false} ContainsInLeft(a: string, b: string, needle: string)
    requires Contains(a, needle)
    ensures Contains(a + b, needle)
    decreases |a|
  {
    if StartsWith(a, needle) {
      assert (a + b)[..|needle|] == a[..|needle|];
    } else {
      ContainsInLeft(a[1..], b, needle);
      assert (a + b)[1..] == a[1..] + b;
    }
  }

  lemma {:induction false} ContainsInRight(a: string, b: string, needle: string)
    requires Contains(b, needle)
    ensures Contains(a + b, needle)
    decreases |a|
  {
    if a == [] {
      assert a + b == b;
    } else {
      ContainsInRight(a[1..], b, needle);
      assert (a + b)[1..] == a[1..] + b;
    }
  }

  /** A needle with a character `hay` lacks is not in `hay`. */
  lemma {:induction false} MissingCharNotContained(hay: string, needle: string, c: char)
    requires c in needle && c !in hay
    ensures !Contains(hay, needle)
    decreases |hay|
  {
    assert !StartsWith(hay, needle) by {
      if |needle| <= |hay| {
        assert c in hay[..|needle|] ==> c in hay;
      }
    }
    if |hay| > 0 {
      MissingCharNotContained(hay[1..], needle, c);
    }
  }

  /** A non-empty needle without the separator that occurs in `a`, separator,
      `b` occurs in `a` or in `b`: it cannot straddle the separator. */
  lemma {:induction false} ContainsAroundSeparator(a: string, sep: char, b: string, needle: string)
    requires needle != [] && sep !in needle
    requires Contains(a + [sep] + b, needle)
    ensures Contains(a, needle) || Contains(b, needle)
    decreases |a|
  {
    var s := a + [sep] + b;
    if StartsWith(s, needle) {
      assert s[|a|] == sep;
      assert forall k :: 0 <= k < |needle| ==> s[k] == needle[k] != sep;
      assert s[..|needle|] == a[..|needle|];
      assert StartsWith(a, needle);
    } else if a == [] {
      assert s[1..] == b;
    } else {
      assert s[1..] == a[1..] + [sep] + b;
      ContainsAroundSeparator(a[1..], sep, b, needle);
    }
  }

  /** A non-empty needle without the separator occurs in a join exactly when it
      occurs in one of the joined pieces. */
  lemma {:induction false} ContainsInJoin(parts: seq<string>, sep: char, needle: string)
    requires needle != [] && sep !in needle
    ensures Contains(Join(parts, sep), needle) <==>
            exists i :: 0 <= i < |parts| && Contains(parts[i], needle)
    decreases |parts|
  {
    if |parts| == 0 {
      assert !Contains("", needle);
    } else if |parts| == 1 {
    } else {
      var rest := Join(parts[1..], sep);
      ContainsInJoin(parts[1..], sep, needle);
      if Contains(Join(parts, sep), needle) {
        ContainsAroundSeparator(parts[0], sep, rest, needle);
        if Contains(rest, needle) {
          var i :| 0 <= i < |parts[1..]| && Contains(parts[1..][i], needle);
          assert parts[i + 1] == parts[1..][i];
        }
      }
      if exists i :: 0 <= i < |parts| && Contains(parts[i], needle) {
        var i :| 0 <= i < |parts| && Contains(parts[i], needle);
        if i == 0 {
          ContainsInLeft(parts[0], [sep] + rest, needle);
          assert parts[0] + ([sep] + rest) == Join(parts, sep);
        } else {
          assert parts[1..][i - 1] == parts[i];
          ContainsInRight(parts[0] + [sep], rest, needle);
        }
      }
    }
  }

  /** Code-point lexicographic order on strings: the order `ORDER BY key`
      lists settings in (database collations are not modelled). */
  predicate LexLe(a: string, b: string)
    decreases |a|
  {
    a == [] || (b != [] && (a[0] < b[0] || (a[0] == b[0] && LexLe(a[1..], b[1..]))))
  }

  lemma {:induction false} LexLeTotal(a: string, b: string)
    ensures LexLe(a, b) || LexLe(b, a)
    decreases |a|
  {
    if a != [] && b != [] && a[0] == b[0] {
      LexLeTotal(a[1..], b[1..]);
    }
  }

  lemma {:induction false} LexLeTransitive(a: string, b: string, c: string)
    requires LexLe(a, b) && LexLe(b, c)
    ensures LexLe(a, c)
    decreases |a|
  {
    if a != [] && b != [] && c != [] && a[0] == b[0] == c[0] {
      LexLeTransitive(a[1..], b[1..], c[1..]);
    }
  }
}
