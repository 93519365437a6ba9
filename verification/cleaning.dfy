/**
 * `clean_text_for_deduplication` of `step4_ranking_text.py`: the normal form under which
 * two text blocks count as duplicates. Whitespace is stripped and collapsed, a leading
 * bullet and a leading "tip"/"note"/"additional" tag are dropped, and the rest is lowered.
 */
module Cleaning {
  import opened Text

  /** The bullet class `[•\-\*]`. */
  const Bullets: set<char> := {'\U{2022}', '-', '*'}

  /** `re.sub(r'^[•\-\*]\s*', '', s)`. */
  function DropBullet(s: String): (r: String)
    ensures |r| <= |s| && r == s[|s| - |r|..]
  {
    if |s| > 0 && s[0] in Bullets then TrimStart(s[1..]) else s
  }

  /**
   * Exactly what the pattern matches: nothing without a leading bullet, otherwise the
   * bullet and the longest whitespace run after it.
   */
  lemma DropBulletMatches(s: String)
    ensures !(|s| > 0 && s[0] in Bullets) ==> DropBullet(s) == s
    ensures |s| > 0 && s[0] in Bullets ==>
      var r := DropBullet(s);
      && 1 <= |s| - |r| && AllSpace(s[1..|s| - |r|]) && (|r| == 0 || !IsSpace(r[0]))
  {
    if |s| > 0 && s[0] in Bullets {
      assert DropBullet(s) == TrimStart(s[1..]);
      TrimStartFrom(s, 1);
    }
  }

  /** `s` starts with the lower-case ASCII `word`, ignoring case. */
  predicate StartsWithIgnoringCase(s: String, word: String) {
    |word| <= |s| && forall i :: 0 <= i < |word| ==> LowerChar(s[i]) == word[i]
  }

  /**
   * Length of the tag `(tip|note|additional|tips?)` matched at the start, or 0. The
   * alternatives are tried in order, so `tip` wins over `tips?` and a plural keeps its 's'.
   */
  function TagLength(s: String): (n: nat)
    ensures n == 0 || n == 3 || n == 4 || n == 10
    ensures n <= |s|
  {
    if StartsWithIgnoringCase(s, "tip") then 3
    else if StartsWithIgnoringCase(s, "note") then 4
    else if StartsWithIgnoringCase(s, "additional") then 10
    else 0
  }

  /** Which alternative matched, in the order the pattern tries them. */
  lemma TagLengthMatches(s: String)
    ensures TagLength(s) == 3 <==> StartsWithIgnoringCase(s, "tip")
    ensures TagLength(s) == 4 <==> !StartsWithIgnoringCase(s, "tip") && StartsWithIgnoringCase(s, "note")
    ensures TagLength(s) == 10 <==>
      !StartsWithIgnoringCase(s, "tip") && !StartsWithIgnoringCase(s, "note") && StartsWithIgnoringCase(s, "additional")
    ensures TagLength(s) == 0 <==>
      !StartsWithIgnoringCase(s, "tip") && !StartsWithIgnoringCase(s, "note") && !StartsWithIgnoringCase(s, "additional")
  {
  }

  /** `re.sub(r'^(tip|note|additional|tips?):?\s*', '', s, flags=re.IGNORECASE)`. */
  function DropTag(s: String): (r: String)
    ensures |r| <= |s| && r == s[|s| - |r|..]
  {
    if TagLength(s) == 0 then s else TrimStart(s[TagEnd(s)..])
  }

  /** Where the tag ends, counting the optional colon `:?` after it. */
  function TagEnd(s: String): (k: nat)
    ensures TagLength(s) <= k <= |s|
  {
    var n := TagLength(s);
    if n < |s| && s[n] == ':' then n + 1 else n
  }

  /**
   * Exactly what the pattern matches: nothing without a tag, otherwise the tag, one
   * optional colon and the longest whitespace run after them.
   */
  lemma DropTagMatches(s: String)
    ensures TagLength(s) == 0 ==> DropTag(s) == s
    ensures TagLength(s) > 0 ==>
      var n := TagLength(s);
      var k := if n < |s| && s[n] == ':' then n + 1 else n;
      var r := DropTag(s);
      && k <= |s| - |r| && AllSpace(s[k..|s| - |r|]) && (|r| == 0 || !IsSpace(r[0]))
  {
    if TagLength(s) > 0 {
      var k := TagEnd(s);
      assert DropTag(s) == TrimStart(s[k..]);
      TrimStartFrom(s, k);
    }
  }

  /** A tag is matched even at the start of a longer word. */
  lemma TagInsideWord()
    ensures DropTag("notebook") == "book"
  {
    var s := "notebook";
    assert !StartsWithIgnoringCase(s, "tip") by {
      assert LowerChar(s[0]) == 'n';
    }
    assert StartsWithIgnoringCase(s, "note") by {
      assert LowerChar(s[0]) == 'n' && LowerChar(s[1]) == 'o';
      assert LowerChar(s[2]) == 't' && LowerChar(s[3]) == 'e';
    }
    assert TagEnd(s) == 4 by {
      assert s[4] == 'b';
    }
    var t := s[4..];
    assert t == "book";
    TrimStartStops(t);
  }

  /** `tip` is tried before `tips?`, so a plural tag keeps its 's' and the colon after it. */
  lemma PluralTagKeepsS()
    ensures TagLength("Tips: x") == 3
    ensures DropTag("Tips: x") == "s: x"
  {
    var s := "Tips: x";
    assert StartsWithIgnoringCase(s, "tip") by {
      assert LowerChar(s[0]) == 't' && LowerChar(s[1]) == 'i' && LowerChar(s[2]) == 'p';
    }
    assert TagEnd(s) == 3 by {
      assert s[3] == 's';
    }
    var t := s[3..];
    assert t == "s: x";
    TrimStartStops(t);
  }

  /** A bullet goes with the whitespace after it; a second bullet stays. */
  lemma BulletExample()
    ensures DropBullet("* - x") == "- x"
  {
    var s := "* - x";
    assert DropBullet(s) == TrimStart(s[1..]) by {
      assert s[0] in Bullets;
    }
    TrimmedExample();
    assert s[1..] == " - x";
  }

  lemma TrimmedExample()
    ensures TrimStart(" - x") == "- x"
  {
    var t := " - x";
    assert IsSpace(t[0]) && t[1] == '-';
    TrimStartOne(t);
    assert t[1..] == "- x";
  }

  /** The full normal form. */
  function Clean(text: String): String {
    Untag(CollapseSpaces(Strip(text)))
  }

  /** The steps after whitespace normalisation: drop bullet and tag, then lower. */
  function Untag(c: String): String {
    ToLower(DropTag(DropBullet(c)))
  }

  /** On collapsed text, dropping leading whitespace removes at most one character. */
  lemma TrimStartCollapsed(s: String)
    requires Collapsed(s)
    ensures |s| - |TrimStart(s)| <= 1
  {
    if |s| > 1 && IsSpace(s[0]) {
      assert !IsSpace(s[1]);
      assert TrimStart(s) == TrimStart(s[1..]);
    }
  }

  lemma SuffixCollapsed(s: String, k: nat)
    requires Collapsed(s) && k <= |s|
    ensures Collapsed(s[k..])
  {
    assert forall i :: 0 <= i < |s| - k ==> s[k..][i] == s[k + i];
  }

  /** Trimmed text whose whitespace runs are single spaces. */
  predicate Tidy(s: String) {
    Trimmed(s) && Collapsed(s)
  }

  /** Cutting `k` characters off tidy text and dropping the space after them keeps it tidy. */
  lemma CutTidy(s: String, k: nat)
    requires Tidy(s) && k <= |s|
    ensures var r := TrimStart(s[k..]);
      Tidy(r) && |s| - |r| <= k + 1 && r == s[|s| - |r|..]
  {
    SuffixCollapsed(s, k);
    TrimStartCollapsed(s[k..]);
    var r := TrimStart(s[k..]);
    assert r == s[|s| - |r|..];
    SuffixCollapsed(s, |s| - |r|);
  }

  lemma DropBulletTidy(s: String)
    requires Tidy(s)
    ensures Tidy(DropBullet(s))
    ensures |s| - |DropBullet(s)| <= 2
  {
    if |s| > 0 && s[0] in Bullets {
      CutTidy(s, 1);
    }
  }

  lemma DropTagTidy(s: String)
    requires Tidy(s)
    ensures Tidy(DropTag(s))
    ensures |s| - |DropTag(s)| <= 12
  {
    var n := TagLength(s);
    if n > 0 {
      var rest := s[n..];
      if |rest| > 0 && rest[0] == ':' {
        assert rest[1..] == s[n + 1..];
        CutTidy(s, n + 1);
      } else {
        CutTidy(s, n);
      }
    }
  }

  lemma ToLowerTidy(s: String)
    requires Tidy(s)
    ensures Tidy(ToLower(s))
  {
    ToLowerFacts(s);
  }

  /** The normal form is trimmed, its whitespace runs are single spaces, and it has no upper-case letter. */
  lemma CleanTidy(text: String)
    ensures var r := Clean(text);
      && Trimmed(r) && Collapsed(r)
      && forall i :: 0 <= i < |r| ==> !IsUpper(r[i])
  {
    NormalisedTidy(text);
    UntagTidy(CollapseSpaces(Strip(text)));
  }

  /** Stripping and collapsing whitespace yields tidy text. */
  lemma NormalisedTidy(text: String)
    ensures Tidy(CollapseSpaces(Strip(text)))
  {
  }

  lemma UntagTidy(c: String)
    requires Tidy(c)
    ensures Tidy(Untag(c)) && forall i :: 0 <= i < |Untag(c)| ==> !IsUpper(Untag(c)[i])
  {
    DropBulletTidy(c);
    DropTagTidy(DropBullet(c));
    ToLowerTidy(DropTag(DropBullet(c)));
    ToLowerFacts(DropTag(DropBullet(c)));
  }

  /**
   * After whitespace normalisation, cleaning only removes a prefix of the lowered
   * text, and at most 14 characters of it: a bullet, a tag, a colon and the spaces
   * after them.
   */
  lemma UntagIsShortSuffix(c: String)
    requires Tidy(c)
    ensures var r := Untag(c);
      |r| <= |c| && r == ToLower(c)[|c| - |r|..] && |c| - |r| <= 14
  {
    UntagSuffix(c);
    UntagShort(c);
  }

  /** Dropping the bullet and the tag only ever removes a prefix. */
  lemma UntagSuffix(c: String)
    ensures var r := Untag(c);
      |r| <= |c| && r == ToLower(c)[|c| - |r|..]
  {
    var b := DropBullet(c);
    var d := DropTag(b);
    assert b == c[|c| - |b|..];
    assert d == b[|b| - |d|..];
    SuffixOfSuffix(c, |c| - |b|, |b| - |d|);
    assert d == c[|c| - |d|..];
    ToLowerSuffix(c, |c| - |d|);
    assert |Untag(c)| == |d|;
  }

  lemma UntagShort(c: String)
    requires Tidy(c)
    ensures |c| - |Untag(c)| <= 14
  {
    DropBulletTidy(c);
    DropTagTidy(DropBullet(c));
  }

  lemma SuffixOfSuffix(s: String, j: nat, k: nat)
    requires j + k <= |s|
    ensures s[j..][k..] == s[j + k..]
  {
  }

  lemma ToLowerSuffix(s: String, k: nat)
    requires k <= |s|
    ensures ToLower(s[k..]) == ToLower(s)[k..]
  {
  }

  /** Blank-only text cleans to the empty string. */
  lemma CleanBlank(text: String)
    requires AllSpace(text)
    ensures Clean(text) == []
  {
    StripBlank(text);
  }
}
