/**
 * Python string operations used across the pipeline: `str.strip`, `str.lower`,
 * `sep.join`, `startswith`/`endswith`, and the regex substitution `\s+` -> ' '.
 */
module Text {
  import Seqs

  type String = seq<char>

  /** Python's whitespace (`str.isspace`, and `\s` in a `str` regex). */
  predicate IsSpace(c: char) {
    || ('\t' <= c <= '\r')
    || ('\U{1C}' <= c <= ' ')
    || c == '\U{85}' || c == '\U{A0}' || c == '\U{1680}'
    || ('\U{2000}' <= c <= '\U{200A}')
    || c == '\U{2028}' || c == '\U{2029}' || c == '\U{202F}' || c == '\U{205F}' || c == '\U{3000}'
  }

  predicate AllSpace(s: String) {
    forall i :: 0 <= i < |s| ==> IsSpace(s[i])
  }

  /** No whitespace at either end. */
  predicate Trimmed(s: String) {
    |s| > 0 ==> !IsSpace(s[0]) && !IsSpace(s[|s| - 1])
  }

  /** `s.lstrip()`: the suffix left after dropping leading whitespace. */
  function TrimStart(s: String): (r: String)
    ensures |r| <= |s| && r == s[|s| - |r|..]
    ensures |r| > 0 ==> !IsSpace(r[0])
    ensures forall i :: 0 <= i < |s| - |r| ==> IsSpace(s[i])
  {
    if |s| > 0 && IsSpace(s[0]) then
      var r := TrimStart(s[1..]);
      assert forall i :: 1 <= i < |s| ==> s[i] == s[1..][i - 1];
      r
    else s
  }

  /** `TrimStart` drops one leading whitespace character and goes on. */
  lemma TrimStartSkip(s: String)
    requires |s| > 0 && IsSpace(s[0])
    ensures TrimStart(s) == TrimStart(s[1..])
  {
  }

  /** A single leading whitespace character is all `TrimStart` drops before a non-space. */
  lemma TrimStartOne(s: String)
    requires |s| >= 2 && IsSpace(s[0]) && !IsSpace(s[1])
    ensures TrimStart(s) == s[1..]
  {
    TrimStartSkip(s);
    TrimStartStops(s[1..]);
  }

  /** `TrimStart` stops at a non-space. */
  lemma TrimStartStops(s: String)
    requires |s| == 0 || !IsSpace(s[0])
    ensures TrimStart(s) == s
  {
  }

  /**
   * Trimming the text after position `k` removes exactly the whitespace run that starts
   * there.
   */
  lemma TrimStartFrom(s: String, k: nat)
    requires k <= |s|
    ensures var r := TrimStart(s[k..]);
      && k <= |s| - |r| && AllSpace(s[k..|s| - |r|]) && (|r| == 0 || !IsSpace(r[0]))
  {
    var t := s[k..];
    var r := TrimStart(t);
    assert s[k..|s| - |r|] == t[..|t| - |r|];
  }

  /** `s.rstrip()`: the prefix left after dropping trailing whitespace. */
  function TrimEnd(s: String): (r: String)
    ensures |r| <= |s| && r == s[..|r|]
    ensures |r| > 0 ==> !IsSpace(r[|r| - 1])
    ensures forall i :: |r| <= i < |s| ==> IsSpace(s[i])
  {
    if |s| > 0 && IsSpace(s[|s| - 1]) then TrimEnd(s[..|s| - 1]) else s
  }

  /** `s.strip()`: the text left after dropping surrounding whitespace. */
  function Strip(s: String): (r: String)
    ensures Trimmed(r) && |r| <= |s|
  {
    TrimEnd(TrimStart(s))
  }

  /** Stripping removes exactly the surrounding whitespace, nothing inside. */
  lemma StripSlice(s: String)
    ensures exists a, b :: 0 <= a <= b <= |s| && Strip(s) == s[a..b] && SpaceOutside(s, a, b)
  {
    var t := TrimStart(s);
    var r := TrimEnd(t);
    var a := |s| - |t|;
    assert t == s[a..];
    assert r == t[..|r|];
    assert r == s[a..a + |r|];
    forall i | 0 <= i < |s| && !(a <= i < a + |r|)
      ensures IsSpace(s[i])
    {
      if i >= a {
        assert s[i] == t[i - a];
      }
    }
    assert SpaceOutside(s, a, a + |r|);
  }

  /** The result is blank exactly when the input is all whitespace. */
  lemma StripBlank(s: String)
    ensures Strip(s) == [] <==> AllSpace(s)
  {
    StripSlice(s);
  }

  /** Every character of `s` outside `s[a..b]` is whitespace. */
  predicate SpaceOutside(s: String, a: int, b: int) {
    forall i :: 0 <= i < |s| && !(a <= i < b) ==> IsSpace(s[i])
  }

  lemma TrimmedIsFixed(s: String)
    requires Trimmed(s)
    ensures Strip(s) == s
  {
  }

  /** Stripping twice is stripping once. */
  lemma StripIdempotent(s: String)
    ensures Strip(Strip(s)) == Strip(s)
  {
    TrimmedIsFixed(Strip(s));
  }

  /** Python's `c.lower()` on ASCII letters; every other character is unchanged. */
  function LowerChar(c: char): char {
    if 'A' <= c <= 'Z' then (c as int + 32) as char else c
  }

  predicate IsUpper(c: char) {
    'A' <= c <= 'Z'
  }

  /** `s.lower()` (ASCII case mapping). */
  function ToLower(s: String): (r: String)
    ensures |r| == |s|
    ensures forall i :: 0 <= i < |s| ==> r[i] == LowerChar(s[i])
  {
    seq(|s|, i requires 0 <= i < |s| => LowerChar(s[i]))
  }

  /** Lowercasing leaves no upper-case letter, keeps whitespace where it was, and is idempotent. */
  lemma ToLowerFacts(s: String)
    ensures forall i :: 0 <= i < |s| ==> !IsUpper(ToLower(s)[i])
    ensures forall i :: 0 <= i < |s| ==> (IsSpace(ToLower(s)[i]) <==> IsSpace(s[i]))
    ensures ToLower(ToLower(s)) == ToLower(s)
  {
  }

  lemma ToLowerConcat(a: String, b: String)
    ensures ToLower(a + b) == ToLower(a) + ToLower(b)
  {
  }

  /** `sep.join(parts)`. */
  function Join(sep: String, parts: seq<String>): (r: String)
    ensures |parts| == 0 ==> r == []
    ensures |parts| == 1 ==> r == parts[0]
  {
    if |parts| == 0 then []
    else if |parts| == 1 then parts[0]
    else parts[0] + sep + Join(sep, parts[1..])
  }

  /** Total length of a sequence of strings. */
  function TotalLength(parts: seq<String>): nat {
    if |parts| == 0 then 0 else |parts[0]| + TotalLength(parts[1..])
  }

  /** A join of n parts adds exactly n - 1 separators to the parts. */
  lemma {:induction false} JoinLength(sep: String, parts: seq<String>)
    requires |parts| > 0
    ensures |Join(sep, parts)| == TotalLength(parts) + (|parts| - 1) * |sep|
  {
    if |parts| > 1 {
      JoinLength(sep, parts[1..]);
    }
  }

  predicate StartsWith(s: String, prefix: String) {
    |prefix| <= |s| && s[..|prefix|] == prefix
  }

  predicate EndsWith(s: String, suffix: String) {
    |suffix| <= |s| && s[|s| - |suffix|..] == suffix
  }

  /** The non-whitespace characters of `s`, in order. */
  function NonSpace(s: String): String {
    if |s| == 0 then [] else (if IsSpace(s[0]) then [] else [s[0]]) + NonSpace(s[1..])
  }

  lemma NonSpaceConcat(a: String, b: String)
    ensures NonSpace(a + b) == NonSpace(a) + NonSpace(b)
  {
    if |a| == 0 {
      assert a + b == b;
    } else {
      assert (a + b)[1..] == a[1..] + b;
      NonSpaceConcat(a[1..], b);
    }
  }

  lemma NonSpaceOfSpaces(s: String)
    requires AllSpace(s)
    ensures NonSpace(s) == []
  {
  }

  /** Dropping leading whitespace keeps every non-whitespace character. */
  lemma NonSpaceTrimStart(s: String)
    ensures NonSpace(TrimStart(s)) == NonSpace(s)
  {
    var r := TrimStart(s);
    assert s == s[..|s| - |r|] + r;
    NonSpaceConcat(s[..|s| - |r|], r);
    NonSpaceOfSpaces(s[..|s| - |r|]);
  }

  /** Whitespace runs are single ASCII spaces. */
  predicate Collapsed(s: String) {
    && (forall i :: 0 <= i < |s| && IsSpace(s[i]) ==> s[i] == ' ')
    && (forall i :: 0 <= i < |s| - 1 ==> !(IsSpace(s[i]) && IsSpace(s[i + 1])))
  }

  /**
   * `re.sub(r'\s+', ' ', s)`: every maximal whitespace run becomes one space, and the
   * ends stay whitespace or not.
   */
  function CollapseSpaces(s: String): (r: String)
    ensures Collapsed(r)
    ensures |r| == 0 <==> |s| == 0
    ensures |s| > 0 ==> (IsSpace(r[0]) <==> IsSpace(s[0]))
    ensures |s| > 0 ==> (IsSpace(r[|r| - 1]) <==> IsSpace(s[|s| - 1]))
    decreases |s|
  {
    if |s| == 0 then []
    else if IsSpace(s[0]) then
      var t := TrimStart(s);
      assert |t| > 0 ==> t[|t| - 1] == s[|s| - 1];
      [' '] + CollapseSpaces(t)
    else
      [s[0]] + CollapseSpaces(s[1..])
  }

  /** Collapsing keeps the non-whitespace characters, in order. */
  lemma {:induction false} CollapseKeepsNonSpace(s: String)
    ensures NonSpace(CollapseSpaces(s)) == NonSpace(s)
    decreases |s|
  {
    if |s| > 0 {
      if IsSpace(s[0]) {
        var rest := CollapseSpaces(TrimStart(s));
        assert CollapseSpaces(s) == [' '] + rest;
        CollapseKeepsNonSpace(TrimStart(s));
        NonSpaceTrimStart(s);
        NonSpaceConcat([' '], rest);
        assert NonSpace([' ']) == [];
      } else {
        var rest := CollapseSpaces(s[1..]);
        assert CollapseSpaces(s) == [s[0]] + rest;
        CollapseKeepsNonSpace(s[1..]);
        assert s == [s[0]] + s[1..];
        NonSpaceConcat([s[0]], s[1..]);
        NonSpaceConcat([s[0]], rest);
        assert NonSpace([s[0]]) == [s[0]];
      }
    }
  }

  /** Text without whitespace is left as it is. */
  lemma {:induction false} CollapseNoSpace(s: String)
    requires forall i :: 0 <= i < |s| ==> !IsSpace(s[i])
    ensures CollapseSpaces(s) == s
    decreases |s|
  {
    if |s| > 0 {
      CollapseNoSpace(s[1..]);
    }
  }

  /** Leading whitespace in front of a part that starts with a non-space is all `TrimStart` drops. */
  lemma {:induction false} TrimStartSpaces(w: String, b: String)
    requires AllSpace(w)
    requires |b| == 0 || !IsSpace(b[0])
    ensures TrimStart(w + b) == b
    decreases |w|
  {
    if |w| > 0 {
      assert (w + b)[1..] == w[1..] + b;
      TrimStartSpaces(w[1..], b);
    }
  }

  /** A part that ends in a non-space stops `TrimStart` before anything after it. */
  lemma {:induction false} TrimStartConcat(a: String, b: String)
    requires |a| > 0 && !IsSpace(a[|a| - 1])
    ensures TrimStart(a + b) == TrimStart(a) + b
    decreases |a|
  {
    if IsSpace(a[0]) {
      assert (a + b)[1..] == a[1..] + b;
      TrimStartConcat(a[1..], b);
    }
  }

  /** Collapsing works part by part when the first part does not end in whitespace. */
  lemma {:induction false} CollapseConcat(a: String, b: String)
    requires |a| == 0 || !IsSpace(a[|a| - 1])
    ensures CollapseSpaces(a + b) == CollapseSpaces(a) + CollapseSpaces(b)
    decreases |a|
  {
    if |a| == 0 {
      assert a + b == b;
    } else if IsSpace(a[0]) {
      TrimStartConcat(a, b);
      var t := TrimStart(a);
      assert |t| > 0;
      assert t[|t| - 1] == a[|a| - 1];
      CollapseConcat(t, b);
      assert (a + b)[0] == a[0];
      assert CollapseSpaces(a + b) == [' '] + CollapseSpaces(t + b);
      assert CollapseSpaces(a) == [' '] + CollapseSpaces(t);
      Seqs.ConcatAssoc([' '], CollapseSpaces(t), CollapseSpaces(b));
    } else {
      assert (a + b)[0] == a[0];
      assert (a + b)[1..] == a[1..] + b;
      CollapseConcat(a[1..], b);
      assert CollapseSpaces(a + b) == [a[0]] + CollapseSpaces(a[1..] + b);
      assert CollapseSpaces(a) == [a[0]] + CollapseSpaces(a[1..]);
      Seqs.ConcatAssoc([a[0]], CollapseSpaces(a[1..]), CollapseSpaces(b));
    }
  }

  /** A whitespace run between two non-space characters becomes exactly one space. */
  lemma CollapseRun(a: String, w: String, b: String)
    requires AllSpace(w) && |w| > 0
    requires |a| == 0 || !IsSpace(a[|a| - 1])
    requires |b| == 0 || !IsSpace(b[0])
    ensures CollapseSpaces(a + w + b) == CollapseSpaces(a) + " " + CollapseSpaces(b)
  {
    Seqs.ConcatAssoc(a, w, b);
    CollapseConcat(a, w + b);
    TrimStartSpaces(w, b);
    assert (w + b)[0] == w[0];
    assert CollapseSpaces(w + b) == " " + CollapseSpaces(b);
    Seqs.ConcatAssoc(CollapseSpaces(a), " ", CollapseSpaces(b));
  }
}
