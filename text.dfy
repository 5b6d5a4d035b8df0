/** String operations of the Python runtime that the scripts rely on:
    str.strip(), str.split(sep), sep.join(parts), ''.join(lines),
    str.startswith, str.endswith and the substring test `sub in s`, and the
    built-ins min and max on integers. */
module Text {

  function Max(a: int, b: int): int { if a < b then b else a }

  function Min(a: int, b: int): int { if a < b then a else b }

  /** Python's str.isspace(), which str.strip() and regex `\s` also use:
      \t \n \v \f \r, the separator controls 0x1C..0x1F, space, NEL,
      no-break space, and the Unicode space separators, line separator and
      paragraph separator. */
  predicate IsSpace(c: char) {
    var n := c as int;
    || (9 <= n <= 13) || (28 <= n <= 32)
    || n == 0x85 || n == 0xA0 || n == 0x1680
    || (0x2000 <= n <= 0x200A) || n == 0x2028 || n == 0x2029
    || n == 0x202F || n == 0x205F || n == 0x3000
  }

  predicate AllSpace(s: string) {
    forall k :: 0 <= k < |s| ==> IsSpace(s[k])
  }

  predicate StartsWith(s: string, prefix: string) {
    |prefix| <= |s| && s[..|prefix|] == prefix
  }

  predicate EndsWith(s: string, suffix: string) {
    |suffix| <= |s| && s[|s| - |suffix|..] == suffix
  }

  /** Python's `sub in s`: some position of `s` starts with `sub`. */
  predicate Contains(s: string, sub: string)
    decreases |s|
  {
    StartsWith(s, sub) || (|s| > 0 && Contains(s[1..], sub))
  }

  lemma {:induction false} ContainsAt(s: string, sub: string, i: nat)
    requires i + |sub| <= |s| && s[i..i + |sub|] == sub
    ensures Contains(s, sub)
    decreases i
  {
    if i > 0 {
      assert s[1..][i - 1..i - 1 + |sub|] == s[i..i + |sub|];
      ContainsAt(s[1..], sub, i - 1);
    }
  }

  /** A string that never contains `c` contains no substring that holds `c`. */
  lemma {:induction false} NotContainsChar(s: string, sub: string, c: char)
    requires c !in s && c in sub
    ensures !Contains(s, sub)
    decreases |s|
  {
    if |s| > 0 {
      NotContainsChar(s[1..], sub, c);
    }
  }

  /** Number of whitespace characters at the front of `s`. */
  function LeadingSpaces(s: string): (n: nat)
    ensures n <= |s|
    ensures AllSpace(s[..n])
    ensures n < |s| ==> !IsSpace(s[n])
    decreases |s|
  {
    if |s| == 0 || !IsSpace(s[0]) then 0 else 1 + LeadingSpaces(s[1..])
  }

  /** Number of whitespace characters at the back of `s`. */
  function TrailingSpaces(s: string): (n: nat)
    ensures n <= |s|
    ensures AllSpace(s[|s| - n..])
    ensures n < |s| ==> !IsSpace(s[|s| - n - 1])
    decreases |s|
  {
    if |s| == 0 || !IsSpace(s[|s| - 1]) then 0 else 1 + TrailingSpaces(s[..|s| - 1])
  }

  /** Python's str.strip(): the text between the leading and the trailing whitespace. */
  function Strip(s: string): (r: string)
    ensures |r| > 0 ==> !IsSpace(r[0]) && !IsSpace(r[|r| - 1])
    ensures LeadingSpaces(s) + |r| <= |s|
    ensures r == s[LeadingSpaces(s)..LeadingSpaces(s) + |r|]
    ensures AllSpace(s[LeadingSpaces(s) + |r|..])
  {
    var t := s[LeadingSpaces(s)..];
    t[..|t| - TrailingSpaces(t)]
  }

  /** Stripping twice is stripping once. */
  lemma StripIdempotent(s: string)
    ensures Strip(Strip(s)) == Strip(s)
  {
    var r := Strip(s);
    assert LeadingSpaces(r) == 0;
    assert TrailingSpaces(r) == 0;
  }

  /** Python's `sep.join(parts)`. */
  function Join(parts: seq<string>, sep: char): (s: string)
    decreases |parts|
  {
    if |parts| == 0 then ""
    else if |parts| == 1 then parts[0]
    else Join(parts[..|parts| - 1], sep) + [sep] + parts[|parts| - 1]
  }

  /** Python's `s.split(sep)` for a one-character separator: the pieces between
      the separators, always at least one. */
  function Split(s: string, sep: char): (parts: seq<string>)
    ensures |parts| >= 1
    ensures forall k :: 0 <= k < |parts| ==> sep !in parts[k]
    ensures Join(parts, sep) == s
    decreases |s|
  {
    if |s| == 0 then [""]
    else
      var init := Split(s[..|s| - 1], sep);
      var c := s[|s| - 1];
      assert s == s[..|s| - 1] + [c];
      if c == sep then
        var parts := init + [""];
        assert parts[..|parts| - 1] == init;
        parts
      else
        var parts := init[..|init| - 1] + [init[|init| - 1] + [c]];
        assert parts[..|parts| - 1] == init[..|init| - 1];
        assert |init| > 1 ==> Join(init, sep) == Join(init[..|init| - 1], sep) + [sep] + init[|init| - 1];
        parts
  }

  /** Appending a separator-free tail only extends the last piece. */
  lemma {:induction false} SplitAppendPlain(x: string, y: string, sep: char)
    requires sep !in y
    ensures var p := Split(x, sep);
            Split(x + y, sep) == p[..|p| - 1] + [p[|p| - 1] + y]
    decreases |y|
  {
    var p := Split(x, sep);
    if |y| == 0 {
      assert x + y == x && p[|p| - 1] + y == p[|p| - 1];
      assert p == p[..|p| - 1] + [p[|p| - 1]];
    } else {
      var y0 := y[..|y| - 1];
      var c := y[|y| - 1];
      AppendLast(x, y);
      assert c != sep by { assert c in y; }
      SplitAppendPlain(x, y0, sep);
      SplitPlainChar(x + y0, c, sep);
      ExtendLast(p, y0, c);
    }
  }

  /** Extending the last piece by `y0`, then by `c`, is extending it by `y0 + [c]`. */
  lemma ExtendLast(p: seq<string>, y0: string, c: char)
    requires |p| >= 1
    ensures var init := p[..|p| - 1] + [p[|p| - 1] + y0];
            init[..|init| - 1] + [init[|init| - 1] + [c]] == p[..|p| - 1] + [p[|p| - 1] + (y0 + [c])]
  {
    var init := p[..|p| - 1] + [p[|p| - 1] + y0];
    assert init[..|init| - 1] == p[..|p| - 1];
    assert init[|init| - 1] + [c] == p[|p| - 1] + (y0 + [c]);
  }

  lemma AppendLast(x: string, y: string)
    requires |y| > 0
    ensures y == y[..|y| - 1] + [y[|y| - 1]]
    ensures x + y == (x + y[..|y| - 1]) + [y[|y| - 1]]
  {
    assert y == y[..|y| - 1] + [y[|y| - 1]];
  }

  /** A character other than the separator extends the last piece. */
  lemma SplitPlainChar(s: string, c: char, sep: char)
    requires c != sep
    ensures var init := Split(s, sep);
            Split(s + [c], sep) == init[..|init| - 1] + [init[|init| - 1] + [c]]
  {
    var t := s + [c];
    assert t[..|t| - 1] == s && t[|t| - 1] == c;
  }

  /** Splitting undoes joining when no piece holds the separator. */
  lemma {:induction false} SplitJoin(parts: seq<string>, sep: char)
    requires |parts| >= 1
    requires forall k :: 0 <= k < |parts| ==> sep !in parts[k]
    ensures Split(Join(parts, sep), sep) == parts
    decreases |parts|
  {
    if |parts| == 1 {
      SplitAppendPlain("", parts[0], sep);
      assert Split("", sep) == [""];
      assert "" + parts[0] == parts[0];
      assert parts == [parts[0]];
    } else {
      var init := parts[..|parts| - 1];
      var last := parts[|parts| - 1];
      SplitJoin(init, sep);
      var x := Join(init, sep) + [sep];
      assert Join(parts, sep) == x + last;
      SplitSepChar(Join(init, sep), sep);
      SplitAppendPlain(x, last, sep);
      NewLast(init, last);
      assert parts == init + [last];
    }
  }

  /** A separator at the end starts a new, empty piece. */
  lemma SplitSepChar(s: string, sep: char)
    ensures Split(s + [sep], sep) == Split(s, sep) + [""]
  {
    var t := s + [sep];
    assert t[..|t| - 1] == s && t[|t| - 1] == sep;
  }

  /** Replacing an empty last piece by `last`. */
  lemma NewLast(init: seq<string>, last: string)
    ensures var q := init + [""];
            q[..|q| - 1] + [q[|q| - 1] + last] == init + [last]
  {
    var q := init + [""];
    assert q[..|q| - 1] == init && q[|q| - 1] + last == last;
  }

  /** Joining a concatenation of two non-empty lists puts one separator between them. */
  lemma {:induction false} JoinAppend(a: seq<string>, b: seq<string>, sep: char)
    requires |a| >= 1 && |b| >= 1
    ensures Join(a + b, sep) == Join(a, sep) + [sep] + Join(b, sep)
    decreases |b|
  {
    if |b| == 1 {
      assert (a + b)[..|a + b| - 1] == a;
    } else {
      var b0 := b[..|b| - 1];
      JoinAppend(a, b0, sep);
      assert (a + b)[..|a + b| - 1] == a + b0;
    }
  }

  /** Python's `''.join(lines)`. */
  function Concat(lines: seq<string>): (s: string)
    decreases |lines|
  {
    if |lines| == 0 then "" else Concat(lines[..|lines| - 1]) + lines[|lines| - 1]
  }

  /** Concatenating a longer list of lines extends the shorter one's text. */
  lemma {:induction false} ConcatPrefix(lines: seq<string>, k: nat)
    requires k <= |lines|
    ensures |Concat(lines[..k])| <= |Concat(lines)|
    ensures Concat(lines)[..|Concat(lines[..k])|] == Concat(lines[..k])
    decreases |lines| - k
  {
    if k < |lines| {
      ConcatPrefix(lines[..|lines| - 1], k);
      assert lines[..|lines| - 1][..k] == lines[..k];
    } else {
      assert lines[..k] == lines;
    }
  }
}
