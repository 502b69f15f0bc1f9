/** The few operations on Python `str` values that the harness relies on:
    `str.strip()`, `str.startswith`, `" ".join`, `"=" * n` and the two-argument
    `os.path.join` of POSIX systems. Strings are sequences of code points. */
module Text {

  /** The characters Python's `str.isspace()` accepts, which is what
      `str.strip()` with no argument removes. */
  predicate IsSpace(c: char) {
    var n := c as int;
    (0x09 <= n <= 0x0D) || (0x1C <= n <= 0x20) || n == 0x85 || n == 0xA0
    || n == 0x1680 || (0x2000 <= n <= 0x200A) || n == 0x2028 || n == 0x2029
    || n == 0x202F || n == 0x205F || n == 0x3000
  }

  predicate StartsWith(s: string, prefix: string) {
    |prefix| <= |s| && s[..|prefix|] == prefix
  }

  predicate EndsWith(s: string, suffix: string) {
    |suffix| <= |s| && s[|s| - |suffix|..] == suffix
  }

  /** `s` with its leading whitespace removed. */
  function TrimStart(s: string): string
  {
    if |s| > 0 && IsSpace(s[0]) then TrimStart(s[1..]) else s
  }

  /** `s` with its trailing whitespace removed. */
  function TrimEnd(s: string): string
  {
    if |s| > 0 && IsSpace(s[|s| - 1]) then TrimEnd(s[..|s| - 1]) else s
  }

  /** What `TrimStart` leaves is a suffix of `s`, all of whose dropped
      characters are whitespace, that does not itself start with one. */
  lemma {:induction false} TrimStartIsWhitespaceFreeSuffix(s: string)
    ensures var r := TrimStart(s);
      |r| <= |s| && r == s[|s| - |r|..]
      && (forall k :: 0 <= k < |s| - |r| ==> IsSpace(s[k]))
      && (r == [] || !IsSpace(r[0]))
  {
    if |s| > 0 && IsSpace(s[0]) {
      TrimStartIsWhitespaceFreeSuffix(s[1..]);
    }
  }

  /** What `TrimEnd` leaves is a prefix of `s`, all of whose dropped
      characters are whitespace, that does not itself end with one. */
  lemma {:induction false} TrimEndIsWhitespaceFreePrefix(s: string)
    ensures var r := TrimEnd(s);
      |r| <= |s| && r == s[..|r|]
      && (forall k :: |r| <= k < |s| ==> IsSpace(s[k]))
      && (r == [] || !IsSpace(r[|r| - 1]))
  {
    if |s| > 0 && IsSpace(s[|s| - 1]) {
      TrimEndIsWhitespaceFreePrefix(s[..|s| - 1]);
      assert s[..|s| - 1][..|TrimEnd(s)|] == s[..|TrimEnd(s)|];
    }
  }

  /** Where the stripped text starts inside the original. */
  function StripOffset(s: string): nat
  {
    TrimStartIsWhitespaceFreeSuffix(s);
    |s| - |TrimStart(s)|
  }

  /** Python's `s.strip()`. */
  function Strip(s: string): (r: string)
    ensures |r| <= |s|
    ensures r == [] || (!IsSpace(r[0]) && !IsSpace(r[|r| - 1]))
  {
    TrimStartIsWhitespaceFreeSuffix(s);
    TrimEndIsWhitespaceFreePrefix(TrimStart(s));
    var r := TrimEnd(TrimStart(s));
    assert r == [] || r[0] == TrimStart(s)[0];
    r
  }

  /** `s.strip()` is the slice of `s` left once whitespace is removed from
      both ends: everything cut off is whitespace and what remains neither
      starts nor ends with whitespace. */
  lemma StripRemovesOnlyEdgeWhitespace(s: string)
    ensures var r := Strip(s);
      StripOffset(s) + |r| <= |s|
      && r == s[StripOffset(s)..StripOffset(s) + |r|]
      && (forall k :: 0 <= k < StripOffset(s) ==> IsSpace(s[k]))
      && (forall k :: StripOffset(s) + |r| <= k < |s| ==> IsSpace(s[k]))
      && (r == [] || (!IsSpace(r[0]) && !IsSpace(r[|r| - 1])))
  {
    var t := TrimStart(s);
    TrimStartIsWhitespaceFreeSuffix(s);
    TrimEndIsWhitespaceFreePrefix(t);
    var off, r := |s| - |t|, Strip(s);
    assert r == t[..|r|];
    assert t[..|r|] == s[off..off + |r|];
    forall k | off + |r| <= k < |s|
      ensures IsSpace(s[k])
    {
      assert s[k] == t[k - off];
    }
  }

  /** Trimming text that has no whitespace at its ends changes nothing. */
  lemma TrimmedIsFixed(s: string)
    requires s == [] || (!IsSpace(s[0]) && !IsSpace(s[|s| - 1]))
    ensures Strip(s) == s
  {
    assert TrimStart(s) == s;
    assert TrimEnd(s) == s;
  }

  /** `str.strip()` is idempotent. */
  lemma StripIdempotent(s: string)
    ensures Strip(Strip(s)) == Strip(s)
  {
    StripRemovesOnlyEdgeWhitespace(s);
    TrimmedIsFixed(Strip(s));
  }

  /** `sep.join(xs)`. */
  function Join(sep: string, xs: seq<string>): (r: string)
    ensures xs == [] ==> r == ""
    ensures xs != [] ==> StartsWith(r, xs[0])
  {
    if |xs| == 0 then ""
    else if |xs| == 1 then xs[0]
    else xs[0] + sep + Join(sep, xs[1..])
  }

  /** The joined text begins with the first part and the separator (when a
      second part follows) and ends with the last part. */
  lemma {:induction false} JoinEnds(sep: string, xs: seq<string>)
    requires xs != []
    ensures |xs| > 1 ==> StartsWith(Join(sep, xs), xs[0] + sep)
    ensures EndsWith(Join(sep, xs), xs[|xs| - 1])
  {
    if |xs| > 1 {
      JoinEnds(sep, xs[1..]);
      assert Join(sep, xs) == (xs[0] + sep) + Join(sep, xs[1..]);
    }
  }

  /** A character that occurs neither in the separator nor in any part does
      not occur in the joined text. */
  lemma {:induction false} JoinAvoids(sep: string, xs: seq<string>, c: char)
    requires c !in sep
    requires forall k :: 0 <= k < |xs| ==> c !in xs[k]
    ensures c !in Join(sep, xs)
  {
    if |xs| > 1 {
      JoinAvoids(sep, xs[1..], c);
    }
  }

  /** `c * n` for a one-character string `c`. */
  function Repeat(c: char, n: nat): (r: string)
    ensures |r| == n && forall k :: 0 <= k < n ==> r[k] == c
  {
    if n == 0 then "" else Repeat(c, n - 1) + [c]
  }

  /** The text before the first newline (all of `s` when it has none). */
  function FirstLine(s: string): (r: string)
    ensures '\n' !in r && StartsWith(s, r)
    ensures |r| < |s| ==> s[|r|] == '\n'
  {
    if s == [] || s[0] == '\n' then "" else [s[0]] + FirstLine(s[1..])
  }

  /** A line followed by a newline and anything else has that line first. */
  lemma {:induction false} FirstLineOf(line: string, rest: string)
    requires '\n' !in line
    ensures FirstLine(line + "\n" + rest) == line
  {
    if line != [] {
      assert (line + "\n" + rest)[1..] == line[1..] + "\n" + rest;
      FirstLineOf(line[1..], rest);
    }
  }

  /** Appending a suffix that does not start with `/` leaves the question of
      whether a name is absolute unchanged. */
  lemma AbsoluteIgnoresSuffix(name: string, suffix: string)
    requires suffix != [] && suffix[0] != '/'
    ensures StartsWith(name + suffix, "/") <==> StartsWith(name, "/")
  {
    if name != [] {
      assert (name + suffix)[0] == name[0];
    } else {
      assert name + suffix == suffix;
    }
  }

  /** POSIX `os.path.join(a, b)`: an absolute `b` replaces `a`; otherwise a
      slash is inserted unless `a` is empty or already ends with one. */
  function PathJoin(a: string, b: string): (r: string)
    ensures StartsWith(b, "/") ==> r == b
    ensures !StartsWith(b, "/") ==> EndsWith(r, b) && StartsWith(r, a)
    ensures !StartsWith(b, "/") && a != [] && !EndsWith(a, "/") ==> r == a + "/" + b
  {
    if StartsWith(b, "/") then b
    else if a == [] || EndsWith(a, "/") then a + b
    else a + "/" + b
  }
}
