/** POSIX path helpers: `os.path.basename` and the root half of `os.path.splitext`. */
module Paths {
  import opened Text

  /** Index of the last `c` in `s`, or -1 (`str.rfind`). */
  function RFind(s: String, c: char): (r: int)
    ensures -1 <= r < |s|
    ensures r >= 0 ==> s[r] == c
    ensures forall j :: r < j < |s| ==> s[j] != c
  {
    if |s| == 0 then -1
    else if s[|s| - 1] == c then |s| - 1
    else RFind(s[..|s| - 1], c)
  }

  /** `os.path.basename(p)`: what follows the last '/'. */
  function Basename(p: String): (r: String)
    ensures '/' !in r
    ensures EndsWith(p, r)
    ensures |r| < |p| ==> p[|p| - |r| - 1] == '/'
  {
    var i := RFind(p, '/') + 1;
    assert forall j :: 0 <= j < |p| - i ==> p[i..][j] == p[i + j];
    p[i..]
  }

  /** Some character before index `d` is not a dot. */
  predicate HasNonDotBefore(s: String, d: int)
    requires d <= |s|
  {
    exists i :: 0 <= i < d && s[i] != '.'
  }

  /**
   * The root returned by `os.path.splitext` on a name without '/': the text before the
   * last dot, unless every character before that dot is itself a dot (".bashrc").
   */
  function SplitExtRoot(name: String): (r: String)
    ensures StartsWith(name, r)
    ensures r != name ==> name[|r|] == '.' && '.' !in name[|r| + 1..] && HasNonDotBefore(name, |r|)
  {
    var d := RFind(name, '.');
    if d >= 0 && HasNonDotBefore(name, d) then name[..d] else name
  }

  /** `os.path.splitext(os.path.basename(p))[0]`. */
  function Stem(p: String): String {
    SplitExtRoot(Basename(p))
  }

  lemma {:induction false} BasenameAfterSlash(dir: String, name: String)
    requires '/' !in name
    ensures Basename(dir + "/" + name) == name
    decreases |name|
  {
    var p := dir + "/" + name;
    if |name| == 0 {
      assert p[|p| - 1] == '/';
    } else {
      assert p[..|p| - 1] == dir + "/" + name[..|name| - 1];
      BasenameAfterSlash(dir, name[..|name| - 1]);
      assert name == name[..|name| - 1] + [name[|name| - 1]];
    }
  }

  /** In `a`, `c`, `b` with no `c` in `b`, the last `c` is the one after `a`. */
  lemma {:induction false} RFindBeforeTail(a: String, c: char, b: String)
    requires c !in b
    ensures RFind(a + [c] + b, c) == |a|
    decreases |b|
  {
    var s := a + [c] + b;
    if |b| > 0 {
      var b' := b[..|b| - 1];
      assert s[|s| - 1] == b[|b| - 1];
      assert s[..|s| - 1] == a + [c] + b';
      RFindBeforeTail(a, c, b');
    } else {
      assert s[|s| - 1] == c;
    }
  }

  /** A document path `dir/name.ext` yields the title `name` (as long as `name` is not all dots). */
  lemma StemOfDocumentPath(dir: String, name: String, ext: String)
    requires '/' !in name && '/' !in ext && '.' !in ext
    requires HasNonDotBefore(name, |name|)
    ensures Stem(dir + "/" + name + "." + ext) == name
  {
    var file := name + "." + ext;
    assert Basename(dir + "/" + name + "." + ext) == file by {
      assert dir + "/" + name + "." + ext == dir + "/" + file;
      assert '/' !in file;
      BasenameAfterSlash(dir, file);
    }
    assert RFind(file, '.') == |name| by {
      RFindBeforeTail(name, '.', ext);
    }
    assert HasNonDotBefore(file, |name|) by {
      var i :| 0 <= i < |name| && name[i] != '.';
      assert file[i] == name[i];
    }
    assert file[..|name|] == name;
  }
}
