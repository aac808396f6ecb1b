/** The Python `str` operations the core uses, on strings of Unicode scalar
    values: whitespace as `str.isspace`, `strip`, `startswith`/`endswith`,
    `replace`, `rfind`/`rsplit`, `split`, `join`, and `str(n)` for a natural. */
module Text {
  import opened Wrappers
  import opened Lists

  /** Python's `str.isspace()` for one character: the characters that
      `str.strip()` and `str.split()` treat as whitespace. */
  predicate IsWhitespace(c: char) {
    || c == ' '
    || ('\t' <= c <= '\r')
    || ('\U{1c}' <= c <= '\U{1f}')
    || c == '\U{85}' || c == '\U{a0}' || c == '\U{1680}'
    || ('\U{2000}' <= c <= '\U{200a}')
    || c == '\U{2028}' || c == '\U{2029}' || c == '\U{202f}' || c == '\U{205f}' || c == '\U{3000}'
  }

  predicate AllWhitespace(s: string) {
    forall i :: 0 <= i < |s| ==> IsWhitespace(s[i])
  }

  predicate NoWhitespace(s: string) {
    forall i :: 0 <= i < |s| ==> !IsWhitespace(s[i])
  }

  /** Python's `s.lstrip()`: the longest suffix that does not start with whitespace. */
  function TrimLeft(s: string): (r: string)
    ensures |r| <= |s| && r == s[|s| - |r|..]
    ensures AllWhitespace(s[..|s| - |r|])
    ensures r != "" ==> !IsWhitespace(r[0])
    decreases |s|
  {
    if s != "" && IsWhitespace(s[0]) then TrimLeft(s[1..]) else s
  }

  /** Python's `s.rstrip()`: the longest prefix that does not end with whitespace. */
  function TrimRight(s: string): (r: string)
    ensures r <= s
    ensures AllWhitespace(s[|r|..])
    ensures r != "" ==> !IsWhitespace(r[|r| - 1])
    decreases |s|
  {
    if s != "" && IsWhitespace(s[|s| - 1]) then TrimRight(s[..|s| - 1]) else s
  }

  /** Python's `s.strip()`: `s` without its leading and trailing whitespace. */
  function Strip(s: string): (r: string)
    ensures |r| <= |s|
    ensures r != "" ==> !IsWhitespace(r[0]) && !IsWhitespace(r[|r| - 1])
  {
    TrimRight(TrimLeft(s))
  }

  /** A string that neither starts nor ends with whitespace is its own strip. */
  lemma StripUnpadded(s: string)
    requires s != "" ==> !IsWhitespace(s[0]) && !IsWhitespace(s[|s| - 1])
    ensures Strip(s) == s
  {
  }

  lemma {:induction false} TrimLeftWhitespacePrefix(a: string, y: string)
    requires AllWhitespace(a)
    ensures TrimLeft(a + y) == TrimLeft(y)
    decreases |a|
  {
    if a != "" {
      assert (a + y)[1..] == a[1..] + y;
      TrimLeftWhitespacePrefix(a[1..], y);
    } else {
      assert a + y == y;
    }
  }

  lemma {:induction false} TrimLeftAppend(x: string, b: string)
    requires TrimLeft(x) != ""
    ensures TrimLeft(x + b) == TrimLeft(x) + b
    decreases |x|
  {
    assert x != "" && (x + b)[0] == x[0];
    if IsWhitespace(x[0]) {
      assert TrimLeft(x) == TrimLeft(x[1..]);
      assert (x + b)[1..] == x[1..] + b;
      assert TrimLeft(x + b) == TrimLeft(x[1..] + b);
      TrimLeftAppend(x[1..], b);
    } else {
      assert TrimLeft(x) == x && TrimLeft(x + b) == x + b;
    }
  }

  lemma {:induction false} TrimLeftAllWhitespace(x: string)
    requires AllWhitespace(x)
    ensures TrimLeft(x) == ""
    decreases |x|
  {
    if x != "" {
      TrimLeftAllWhitespace(x[1..]);
    }
  }

  lemma {:induction false} TrimRightWhitespaceSuffix(y: string, b: string)
    requires AllWhitespace(b)
    ensures TrimRight(y + b) == TrimRight(y)
    decreases |b|
  {
    if b != "" {
      assert (y + b)[..|y + b| - 1] == y + b[..|b| - 1];
      TrimRightWhitespaceSuffix(y, b[..|b| - 1]);
    } else {
      assert y + b == y;
    }
  }

  /** Whitespace added around a string does not change what it strips to. */
  lemma StripPadded(a: string, x: string, b: string)
    requires AllWhitespace(a) && AllWhitespace(b)
    ensures Strip(a + x + b) == Strip(x)
  {
    assert a + x + b == a + (x + b);
    TrimLeftWhitespacePrefix(a, x + b);
    if TrimLeft(x) != "" {
      TrimLeftAppend(x, b);
      TrimRightWhitespaceSuffix(TrimLeft(x), b);
    } else {
      var k := |x| - |TrimLeft(x)|;
      assert x == x[..k];
      assert AllWhitespace(x + b);
      TrimLeftAllWhitespace(x + b);
    }
  }

  /** Python's `s.startswith(p)`. */
  predicate StartsWith(s: string, p: string) {
    p <= s
  }

  /** Python's `s.endswith(p)`. */
  predicate EndsWith(s: string, p: string) {
    |p| <= |s| && s[|s| - |p|..] == p
  }

  /** Python's `s[:n]` on strings. */
  function Take(s: string, n: int): string {
    SliceTo(s, n)
  }

  /** `p` occurs in `s` starting at index `k`. */
  predicate OccursAt(s: string, p: string, k: int) {
    0 <= k && k + |p| <= |s| && s[k..k + |p|] == p
  }

  /** Python's `p in s`. */
  predicate Contains(s: string, p: string) {
    exists k :: 0 <= k <= |s| && OccursAt(s, p, k)
  }

  /** The largest `k` at or below `from` where `p` occurs in `s`. */
  function LastIndexFrom(s: string, p: string, from: int): (r: Option<nat>)
    ensures r.Some? ==> r.value <= from && OccursAt(s, p, r.value)
    ensures forall j :: (if r.Some? then r.value else -1) < j <= from ==> !OccursAt(s, p, j)
    decreases from + 1
  {
    if from < 0 then None
    else if OccursAt(s, p, from) then Some(from)
    else LastIndexFrom(s, p, from - 1)
  }

  /** Python's `s.rfind(p)`, as an option: the start of the last occurrence. */
  function LastIndexOf(s: string, p: string): (r: Option<nat>)
    ensures r.Some? ==> OccursAt(s, p, r.value)
    ensures r.Some? ==> forall j :: r.value < j ==> !OccursAt(s, p, j)
    ensures r.None? <==> !Contains(s, p)
  {
    LastIndexFrom(s, p, |s| - |p|)
  }

  /** Python's `s.find(c)` for one character, as an option: the first index of `c`. */
  function IndexOfChar(s: string, c: char): (r: Option<nat>)
    ensures r.Some? ==> r.value < |s| && s[r.value] == c && c !in s[..r.value]
    ensures r.None? <==> c !in s
    decreases |s|
  {
    if s == "" then None
    else if s[0] == c then Some(0)
    else
      match IndexOfChar(s[1..], c)
      case None => None
      case Some(i) =>
        assert s[..i + 1] == [s[0]] + s[1..][..i];
        Some(i + 1)
  }

  /** Python's `s.replace(pat, rep)`: every non-overlapping occurrence of `pat`,
      scanning left to right, is replaced by `rep`. */
  function ReplaceAll(s: string, pat: string, rep: string): (r: string)
    requires pat != ""
    ensures |rep| <= |pat| ==> |r| <= |s|
    ensures pat[0] !in s ==> r == s
    decreases |s|
  {
    if |s| < |pat| then s
    else if s[..|pat|] == pat then rep + ReplaceAll(s[|pat|..], pat, rep)
    else [s[0]] + ReplaceAll(s[1..], pat, rep)
  }


  /** Replacing a pattern that does not occur changes nothing. */
  lemma {:induction false} ReplaceNoMatch(s: string, pat: string, rep: string)
    requires pat != "" && !Contains(s, pat)
    ensures ReplaceAll(s, pat, rep) == s
    decreases |s|
  {
    if |s| >= |pat| {
      assert !OccursAt(s, pat, 0);
      assert !Contains(s[1..], pat) by {
        forall k | 0 <= k <= |s[1..]| && OccursAt(s[1..], pat, k)
          ensures false
        {
          assert s[k + 1..k + 1 + |pat|] == s[1..][k..k + |pat|];
          assert OccursAt(s, pat, k + 1);
        }
      }
      ReplaceNoMatch(s[1..], pat, rep);
      assert s == [s[0]] + s[1..];
    }
  }

  /** A prefix holding no character that could start the pattern is copied
      unchanged, and the replacement continues after it. */
  lemma {:induction false} ReplaceSkip(a: string, b: string, pat: string, rep: string)
    requires pat != "" && pat[0] !in a
    ensures ReplaceAll(a + b, pat, rep) == a + ReplaceAll(b, pat, rep)
    decreases |a|
  {
    if a != "" {
      var s := a + b;
      assert s[0] == a[0] && s[1..] == a[1..] + b;
      if |s| >= |pat| {
        assert s[..|pat|][0] != pat[0];
      }
      ReplaceSkip(a[1..], b, pat, rep);
      assert a == [a[0]] + a[1..];
    } else {
      assert a + b == b;
    }
  }

  /** An occurrence at the front is replaced, and scanning resumes after it. */
  lemma ReplaceHead(pat: string, b: string, rep: string)
    requires pat != ""
    ensures ReplaceAll(pat + b, pat, rep) == rep + ReplaceAll(b, pat, rep)
  {
    var s := pat + b;
    assert s[..|pat|] == pat && s[|pat|..] == b;
  }

  /** Each occurrence is replaced, left to right: text before the first
      occurrence is kept, the occurrence becomes `rep`, and the rest is
      replaced in turn. */
  lemma ReplaceSplit(a: string, pat: string, b: string, rep: string)
    requires pat != "" && pat[0] !in a
    ensures ReplaceAll(a + pat + b, pat, rep) == a + rep + ReplaceAll(b, pat, rep)
  {
    assert a + pat + b == a + (pat + b);
    ReplaceSkip(a, pat + b, pat, rep);
    ReplaceHead(pat, b, rep);
  }

  /** A text that does not start with the pattern keeps its first character. */
  lemma ReplaceMiss(s: string, pat: string, rep: string)
    requires pat != "" && s != "" && !StartsWith(s, pat)
    ensures ReplaceAll(s, pat, rep) == [s[0]] + ReplaceAll(s[1..], pat, rep)
  {
    if |s| < |pat| {
      assert s == [s[0]] + s[1..];
    } else {
      assert s[..|pat|] != pat;
    }
  }

  /** A prefix that differs from the pattern in its second character, and
      holds no further character that could start it, is copied unchanged. */
  lemma ReplaceNearMiss(e: string, b: string, pat: string, rep: string)
    requires |e| >= 2 && |pat| >= 2 && e[1] != pat[1] && pat[0] !in e[1..]
    ensures ReplaceAll(e + b, pat, rep) == e + ReplaceAll(b, pat, rep)
  {
    var s := e + b;
    assert s[1] == e[1] && s[1..] == e[1..] + b;
    ReplaceMiss(s, pat, rep);
    ReplaceSkip(e[1..], b, pat, rep);
    assert e == [e[0]] + e[1..];
  }

  /** Python's `sep.join(parts)`. */
  function Join(sep: string, parts: seq<string>): (r: string)
    ensures |parts| > 0 ==> parts[0] <= r
    ensures forall c :: c in r ==> c in sep || exists j :: 0 <= j < |parts| && c in parts[j]
    decreases |parts|
  {
    if |parts| == 0 then ""
    else if |parts| == 1 then parts[0]
    else parts[0] + sep + Join(sep, parts[1..])
  }

  /** Python's `s.split(c)` for a one-character separator. */
  function Split(s: string, c: char): (r: seq<string>)
    ensures |r| > 0
    ensures forall j :: 0 <= j < |r| ==> c !in r[j]
    decreases |s|
  {
    if s == "" then [""]
    else
      var rest := Split(s[1..], c);
      if s[0] == c then [""] + rest else [[s[0]] + rest[0]] + rest[1..]
  }

  lemma {:induction false} SplitNoSeparator(w: string, c: char)
    requires c !in w
    ensures Split(w, c) == [w]
    decreases |w|
  {
    if w != "" {
      assert c !in w[1..];
      SplitNoSeparator(w[1..], c);
      assert w == [w[0]] + w[1..];
    }
  }

  lemma {:induction false} SplitLeadingPart(w: string, c: char, t: string)
    requires c !in w
    ensures Split(w + [c] + t, c) == [w] + Split(t, c)
    decreases |w|
  {
    if w == "" {
      assert w + [c] + t == [c] + t;
      assert ([c] + t)[1..] == t;
    } else {
      assert (w + [c] + t)[1..] == w[1..] + [c] + t;
      assert c !in w[1..] && w[0] != c;
      SplitLeadingPart(w[1..], c, t);
      assert w == [w[0]] + w[1..];
    }
  }

  /** Splitting on a separator that occurs in none of the parts undoes joining. */
  lemma {:induction false} SplitJoin(parts: seq<string>, c: char)
    requires |parts| > 0
    requires forall i :: 0 <= i < |parts| ==> c !in parts[i]
    ensures Split(Join([c], parts), c) == parts
    decreases |parts|
  {
    if |parts| == 1 {
      SplitNoSeparator(parts[0], c);
    } else {
      SplitJoin(parts[1..], c);
      SplitLeadingPart(parts[0], c, Join([c], parts[1..]));
    }
  }

  /** Length of the leading run of non-whitespace characters. */
  function WordLength(s: string): (n: nat)
    ensures n <= |s|
    ensures NoWhitespace(s[..n])
    ensures n < |s| ==> IsWhitespace(s[n])
    decreases |s|
  {
    if s == "" || IsWhitespace(s[0]) then 0 else 1 + WordLength(s[1..])
  }

  /** Python's `s.split()` with no separator: the maximal runs of
      non-whitespace characters, in order. */
  function Words(s: string): (r: seq<string>)
    ensures forall j :: 0 <= j < |r| ==> r[j] != "" && NoWhitespace(r[j])
    ensures forall j, c :: 0 <= j < |r| && c in r[j] ==> c in s
    decreases |s|
  {
    if s == "" then []
    else if IsWhitespace(s[0]) then
      var r := Words(s[1..]);
      assert forall c :: c in s[1..] ==> c in s;
      r
    else
      var n := WordLength(s);
      var r := [s[..n]] + Words(s[n..]);
      assert forall c :: c in s[n..] ==> c in s;
      assert forall c :: c in s[..n] ==> c in s;
      r
  }

  /** Words are never split by a leading whitespace character. */
  lemma WordsLeadingWhitespace(c: char, s: string)
    requires IsWhitespace(c)
    ensures Words([c] + s) == Words(s)
  {
    assert ([c] + s)[1..] == s;
  }

  /** Decimal digits of a natural number, as Python's `str(n)` writes them. */
  function NatToString(n: nat): (r: string)
    ensures r != ""
    ensures forall i :: 0 <= i < |r| ==> '0' <= r[i] <= '9'
  {
    var d := [(('0' as int) + n % 10) as char];
    if n < 10 then d else NatToString(n / 10) + d
  }

  /** The number a string of decimal digits denotes, most significant first. */
  function DigitsValue(s: string): nat
    decreases |s|
  {
    if s == "" then 0
    else
      var d := (s[|s| - 1] as int) - ('0' as int);
      DigitsValue(s[..|s| - 1]) * 10 + (if 0 <= d then d else 0)
  }

  /** `str(n)` reads back as `n`. */
  lemma {:induction false} NatToStringValue(n: nat)
    ensures DigitsValue(NatToString(n)) == n
    decreases n
  {
    var d := [(('0' as int) + n % 10) as char];
    if n >= 10 {
      NatToStringValue(n / 10);
      var x := NatToString(n / 10);
      assert NatToString(n) == x + d;
      assert (x + d)[..|x + d| - 1] == x;
    } else {
      assert NatToString(n) == d;
      assert d[..0] == "";
    }
  }
}
