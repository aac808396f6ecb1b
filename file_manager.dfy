/** `safe_filename` (src/utils/file_manager.py): turns a title into a name
    usable as a file name on common file systems. */
module FileManager {
  import opened Wrappers
  import opened Lists
  import opened Text

  /** The characters Windows forbids in file names. */
  const INVALID_CHARS: string := "<>:\"/\\|?*"

  /** No character of `s` is in `bad`. */
  predicate Avoids(s: string, bad: string) {
    forall c :: c in s ==> c !in bad
  }

  /** `s` with every character of `bad` deleted. */
  function RemoveChars(s: string, bad: string): (r: string)
    ensures forall c :: c in r <==> c in s && c !in bad
    ensures |r| <= |s|
    decreases |s|
  {
    if s == "" then ""
    else
      var rest := RemoveChars(s[1..], bad);
      assert forall c :: c in s <==> c == s[0] || c in s[1..] by { assert s == [s[0]] + s[1..]; }
      if s[0] in bad then rest else [s[0]] + rest
  }

  /** Deleting characters that do not occur changes nothing. */
  lemma {:induction false} RemoveCharsAbsent(s: string, bad: string)
    requires Avoids(s, bad)
    ensures RemoveChars(s, bad) == s
    decreases |s|
  {
    if s != "" {
      assert s[0] in s && forall c :: c in s[1..] ==> c in s;
      RemoveCharsAbsent(s[1..], bad);
      assert s == [s[0]] + s[1..];
    }
  }

  /** Python's `s.replace(c, '')` deletes the character `c`. */
  lemma {:induction false} ReplaceDeletes(s: string, c: char)
    ensures ReplaceAll(s, [c], "") == RemoveChars(s, [c])
    decreases |s|
  {
    if s != "" {
      ReplaceDeletes(s[1..], c);
      assert s[..1] == [s[0]];
      assert s[1..] == s[|[c]|..];
    }
  }

  /** Deleting the characters of `bad`, then `c`, deletes those of `bad + [c]`. */
  lemma {:induction false} RemoveCharsThen(s: string, bad: string, c: char)
    ensures RemoveChars(RemoveChars(s, bad), [c]) == RemoveChars(s, bad + [c])
    decreases |s|
  {
    if s != "" {
      RemoveCharsThen(s[1..], bad, c);
      var rest := RemoveChars(s[1..], bad);
      if s[0] !in bad {
        assert RemoveChars(s, bad) == [s[0]] + rest;
        assert ([s[0]] + rest)[1..] == rest;
      }
    }
  }

  // ------------------------------------------------------------ whitespace

  /** The shape `' '.join(s.split())` gives: no whitespace at either end, and
      every whitespace character a single ' ' between two non-whitespace ones. */
  predicate Canonical(t: string) {
    && (t != "" ==> !IsWhitespace(t[0]) && !IsWhitespace(t[|t| - 1]))
    && forall i :: 0 < i < |t| && IsWhitespace(t[i]) ==> t[i] == ' ' && !IsWhitespace(t[i - 1])
  }

  /** `' '.join(s.split())`: the words of `s` separated by single spaces. */
  function Normalize(s: string): (r: string)
    ensures Canonical(r)
    ensures Words(r) == Words(s)
  {
    JoinCanonical(Words(s));
    WordsOfJoin(Words(s));
    Join(" ", Words(s))
  }

  /** A join of several parts begins with the first part and a separator. */
  lemma JoinCons(sep: string, parts: seq<string>)
    requires |parts| >= 2
    ensures Join(sep, parts) == parts[0] + sep + Join(sep, parts[1..])
  {
  }

  /** Nonempty words without whitespace, joined by ' ', are canonical. */
  lemma {:induction false} JoinCanonical(parts: seq<string>)
    requires forall j :: 0 <= j < |parts| ==> parts[j] != "" && NoWhitespace(parts[j])
    ensures Canonical(Join(" ", parts))
    decreases |parts|
  {
    if |parts| == 1 {
      assert NoWhitespace(Join(" ", parts));
    } else if |parts| >= 2 {
      var a := parts[0];
      var b := Join(" ", parts[1..]);
      JoinCanonical(parts[1..]);
      assert b != "" && !IsWhitespace(b[0]) by { assert parts[1..][0] <= b; assert b[0] == parts[1][0]; }
      ConcatCanonical(a, b);
    }
  }

  lemma ConcatCanonical(a: string, b: string)
    requires a != "" && NoWhitespace(a) && b != "" && Canonical(b)
    ensures Canonical(a + " " + b)
  {
    var t := a + " " + b;
    forall i | 0 < i < |t| && IsWhitespace(t[i])
      ensures t[i] == ' ' && !IsWhitespace(t[i - 1])
    {
      if i > |a| {
        assert t[i] == b[i - |a| - 1];
        if i - |a| - 1 > 0 {
          assert t[i - 1] == b[i - |a| - 2];
        }
      }
    }
  }


  /** After the first space of a canonical string comes a nonempty canonical string. */
  lemma CanonicalAfterSpace(t: string, n: nat)
    requires Canonical(t) && n < |t| && IsWhitespace(t[n])
    ensures t[n] == ' ' && n + 1 < |t|
    ensures Canonical(t[n + 1..]) && !IsWhitespace(t[n + 1])
  {
    var u := t[n + 1..];
    assert n > 0;
    forall i | 0 < i < |u| && IsWhitespace(u[i])
      ensures u[i] == ' ' && !IsWhitespace(u[i - 1])
    {
      assert u[i] == t[n + 1 + i] && u[i - 1] == t[n + i];
    }
  }

  /** The words of a string that starts with a non-whitespace character. */
  lemma WordsFromWord(t: string)
    requires t != "" && !IsWhitespace(t[0])
    ensures WordLength(t) > 0
    ensures Words(t) == [t[..WordLength(t)]] + Words(t[WordLength(t)..])
  {
  }

  /** A single word is its own normal form. */
  lemma NormalizeWord(t: string)
    requires t != "" && NoWhitespace(t)
    ensures Normalize(t) == t
  {
    WordsFromWord(t);
    assert WordLength(t) == |t|;
    assert t[|t|..] == "";
  }

  /** A word, a space and a string in normal form are in normal form. */
  lemma NormalizeWordSpace(w: string, u: string)
    requires w != "" && NoWhitespace(w)
    requires u != "" && !IsWhitespace(u[0]) && Normalize(u) == u
    ensures Normalize(w + " " + u) == w + " " + u
  {
    WordsOfWordSpace(w, u);
    var parts := [w] + Words(u);
    JoinCons(" ", parts);
    assert parts[1..] == Words(u);
  }

  /** The words after a leading word and a space are that word, then the
      words of the rest. */
  lemma WordsOfWordSpace(w: string, u: string)
    requires w != "" && NoWhitespace(w)
    requires u != "" && !IsWhitespace(u[0])
    ensures Words(w + " " + u) == [w] + Words(u)
  {
    var t := w + " " + u;
    WordsFromWord(t);
    LeadingWordLength(w, u);
    assert t[..|w|] == w;
    assert t[|w|..] == [' '] + u;
    WordsLeadingWhitespace(' ', u);
  }

  /** The first word of `w + " " + u` is `w`. */
  lemma LeadingWordLength(w: string, u: string)
    requires NoWhitespace(w)
    ensures WordLength(w + " " + u) == |w|
  {
    var t := w + " " + u;
    var n := WordLength(t);
    assert t[|w|] == ' ';
    forall k | 0 <= k < |w|
      ensures !IsWhitespace(t[k])
    {
      assert t[k] == w[k];
    }
    forall i | 0 <= i < n
      ensures !IsWhitespace(t[i])
    {
      assert t[..n][i] == t[i];
    }
  }

  /** A canonical string is its own normal form. */
  lemma {:induction false} NormalizeCanonicalFixed(t: string)
    requires Canonical(t)
    ensures Normalize(t) == t
    decreases |t|
  {
    if t != "" {
      var n := WordLength(t);
      if n == |t| {
        assert t[..n] == t;
        NormalizeWord(t);
      } else {
        CanonicalAfterSpace(t, n);
        var u := t[n + 1..];
        NormalizeCanonicalFixed(u);
        assert t == t[..n] + " " + u;
        NormalizeWordSpace(t[..n], u);
      }
    }
  }

  /** Splitting words that were joined by single spaces gives the words back. */
  lemma {:induction false} WordsOfJoin(parts: seq<string>)
    requires forall j :: 0 <= j < |parts| ==> parts[j] != "" && NoWhitespace(parts[j])
    ensures Words(Join(" ", parts)) == parts
    decreases |parts|
  {
    if |parts| == 1 {
      var w := parts[0];
      WordsFromWord(w);
      assert WordLength(w) == |w|;
      assert w[..|w|] == w && w[|w|..] == "";
    } else if |parts| >= 2 {
      var u := Join(" ", parts[1..]);
      WordsOfJoin(parts[1..]);
      assert u != "" && !IsWhitespace(u[0]) by { assert parts[1..][0] <= u; assert u[0] == parts[1][0]; }
      JoinCons(" ", parts);
      WordsOfWordSpace(parts[0], u);
      assert parts == [parts[0]] + parts[1..];
    }
  }

  /** A canonical string has nothing to strip. */
  lemma StripCanonical(t: string)
    requires Canonical(t)
    ensures Strip(t) == t
  {
    StripUnpadded(t);
  }

  // ------------------------------------------------------------ truncation

  /** The one-character pattern " " occurs exactly where `t` holds a space. */
  lemma SpaceOccurrences(t: string)
    ensures forall m :: 0 <= m < |t| ==> (OccursAt(t, " ", m) <==> t[m] == ' ')
  {
    forall m | 0 <= m < |t|
      ensures OccursAt(t, " ", m) <==> t[m] == ' '
    {
      if t[m] == ' ' {
        assert t[m..m + 1] == " ";
      }
    }
  }

  /** `t.rsplit(' ', 1)[0]`: everything before the last space, or all of `t`
      when it has none. */
  function CutAtSpace(t: string): (r: string)
    ensures r <= t
    ensures ' ' !in t ==> r == t
    ensures ' ' in t ==> |r| < |t| && t[|r|] == ' ' && ' ' !in t[|r| + 1..]
  {
    SpaceOccurrences(t);
    match LastIndexOf(t, " ")
    case None => t
    case Some(k) => assert t[k..k + 1] == " "; t[..k]
  }

  /** The length cut: a name longer than `maxLength` is cut to `maxLength`
      characters and then back to its last space. */
  function Truncate(t: string, maxLength: int): (r: string)
    ensures r <= t
    ensures maxLength >= 0 ==> |r| <= maxLength
    ensures |t| <= maxLength ==> r == t
  {
    if |t| > maxLength then CutAtSpace(Take(t, maxLength)) else t
  }

  /** A name cut for length ends just before the last space among its first
      `maxLength` characters, so at a word boundary; when those characters
      hold no space, the single word is cut short at `maxLength`. */
  lemma TruncateAtWordBoundary(t: string, maxLength: int)
    requires 0 <= maxLength < |t|
    ensures var r := Truncate(t, maxLength);
      && (' ' !in t[..maxLength] ==> r == t[..maxLength])
      && (' ' in t[..maxLength] ==> |r| < maxLength && t[|r|] == ' ' && ' ' !in t[|r| + 1..maxLength])
  {
    var p := Take(t, maxLength);
    assert p == t[..maxLength];
    var r := CutAtSpace(p);
    if ' ' in p {
      assert t[|r|] == p[|r|];
      assert t[|r| + 1..maxLength] == p[|r| + 1..];
    }
  }

  /** Cutting a canonical string to a prefix and back to its last space stays canonical. */
  lemma TruncateCanonical(t: string, maxLength: int)
    requires Canonical(t)
    ensures Canonical(Truncate(t, maxLength))
  {
    if |t| > maxLength {
      var p := Take(t, maxLength);
      var r := CutAtSpace(p);
      if r == p {
        assert NoWhitespace(p) by {
          forall i | 0 <= i < |p|
            ensures !IsWhitespace(p[i])
          {
            assert p[i] == t[i];
          }
        }
      } else {
        var k := |r|;
        assert p[k] == ' ' && t[k] == ' ';
        forall i | 0 < i < |r| && IsWhitespace(r[i])
          ensures r[i] == ' ' && !IsWhitespace(r[i - 1])
        {
          assert r[i] == t[i] && r[i - 1] == t[i - 1];
        }
        if r != "" {
          assert r[0] == t[0];
          assert r[|r| - 1] == t[k - 1];
        }
      }
    }
  }

  // ------------------------------------------------------------ safe_filename

  /** What `safe_filename` computes: forbidden characters deleted, whitespace
      collapsed, the length cut, ends stripped. */
  function SafeName(name: string, maxLength: int): (r: string)
    ensures Avoids(r, INVALID_CHARS)
    ensures Canonical(r)
    ensures maxLength >= 0 ==> |r| <= maxLength
  {
    var clean := RemoveChars(name, INVALID_CHARS);
    JoinAvoids(Words(clean), INVALID_CHARS);
    var cut := Truncate(Normalize(clean), maxLength);
    PrefixAvoids(Normalize(clean), cut, INVALID_CHARS);
    TruncateCanonical(Normalize(clean), maxLength);
    StripCanonical(cut);
    Strip(cut)
  }

  /** A prefix of a string free of `bad` is free of `bad`. */
  lemma PrefixAvoids(s: string, p: string, bad: string)
    requires p <= s && Avoids(s, bad)
    ensures Avoids(p, bad)
  {
    forall c | c in p
      ensures c in s
    {
      var k :| 0 <= k < |p| && p[k] == c;
      assert s[k] == c;
    }
  }

  /** Joining words free of `bad` with a space not in `bad`. */
  lemma {:induction false} JoinAvoids(parts: seq<string>, bad: string)
    requires ' ' !in bad
    requires forall j :: 0 <= j < |parts| ==> Avoids(parts[j], bad)
    ensures Avoids(Join(" ", parts), bad)
    decreases |parts|
  {
    if |parts| >= 2 {
      JoinAvoids(parts[1..], bad);
    }
  }



  /** A name is left unchanged exactly when it is already safe: free of
      forbidden characters, canonical, and within the length. */
  lemma SafeNameFixpoint(name: string, maxLength: int)
    requires maxLength >= 0
    ensures SafeName(name, maxLength) == name <==>
      Avoids(name, INVALID_CHARS) && Canonical(name) && |name| <= maxLength
  {
    if Avoids(name, INVALID_CHARS) && Canonical(name) && |name| <= maxLength {
      RemoveCharsAbsent(name, INVALID_CHARS);
      NormalizeCanonicalFixed(name);
      StripCanonical(name);
    }
  }

  /** Making a name safe twice is the same as once. */
  lemma SafeNameIdempotent(name: string, maxLength: int)
    requires maxLength >= 0
    ensures SafeName(SafeName(name, maxLength), maxLength) == SafeName(name, maxLength)
  {
    var r := SafeName(name, maxLength);
    SafeNameFixpoint(r, maxLength);
  }

  /** The safe name is a prefix of the cleaned, collapsed name; when that fits
      within `max_length` it is all of it, so every word survives in order. */
  lemma SafeNamePrefix(name: string, maxLength: int)
    ensures SafeName(name, maxLength) <= Normalize(RemoveChars(name, INVALID_CHARS))
    ensures |Normalize(RemoveChars(name, INVALID_CHARS))| <= maxLength ==>
      SafeName(name, maxLength) == Normalize(RemoveChars(name, INVALID_CHARS))
    ensures |Normalize(RemoveChars(name, INVALID_CHARS))| <= maxLength ==>
      Words(SafeName(name, maxLength)) == Words(RemoveChars(name, INVALID_CHARS))
  {
    var t := Normalize(RemoveChars(name, INVALID_CHARS));
    TruncateCanonical(t, maxLength);
    StripCanonical(Truncate(t, maxLength));
  }

  /** One pass of the deletion loop deletes one more forbidden character. */
  lemma DeleteStep(name: string, i: nat)
    requires i < |INVALID_CHARS|
    ensures ReplaceAll(RemoveChars(name, INVALID_CHARS[..i]), [INVALID_CHARS[i]], "")
      == RemoveChars(name, INVALID_CHARS[..i + 1])
  {
    var c := INVALID_CHARS[i];
    ReplaceDeletes(RemoveChars(name, INVALID_CHARS[..i]), c);
    RemoveCharsThen(name, INVALID_CHARS[..i], c);
    assert INVALID_CHARS[..i] + [c] == INVALID_CHARS[..i + 1];
  }

  /** The loop at the head of `safe_filename`: the forbidden characters are
      deleted one after another, each with `replace`. */
  method DeleteInvalid(name: string) returns (s: string)
    ensures s == RemoveChars(name, INVALID_CHARS)
  {
    s := name;
    RemoveCharsAbsent(name, INVALID_CHARS[..0]);
    for i := 0 to |INVALID_CHARS|
      invariant s == RemoveChars(name, INVALID_CHARS[..i])
    {
      DeleteStep(name, i);
      s := ReplaceAll(s, [INVALID_CHARS[i]], "");
    }
    assert INVALID_CHARS[..|INVALID_CHARS|] == INVALID_CHARS;
  }

  /** `safe_filename`: the forbidden characters are deleted, then the
      whitespace is collapsed, the length cut and the ends stripped. */
  method SafeFilename(name: string, maxLength: int) returns (r: string)
    ensures r == SafeName(name, maxLength)
    ensures Avoids(r, INVALID_CHARS) && Canonical(r)
    ensures maxLength >= 0 ==> |r| <= maxLength
  {
    var s := DeleteInvalid(name);
    s := Normalize(s);
    if |s| > maxLength {
      s := CutAtSpace(Take(s, maxLength));
    }
    r := Strip(s);
  }
}
