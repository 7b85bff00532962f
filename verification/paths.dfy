/** The few `pathlib` notions the checker uses, as functions over path
    strings: the last component (`name`), its `suffix`, the `/` join
    operator and `parent`. Separators are '/' only. */
module Paths {
  import opened Optional
  import opened Strings

  /** The path without its trailing '/' characters. */
  function DropTrailingSlashes(p: string): (r: string)
    ensures |r| <= |p| && r == p[..|r|]
    ensures r == [] || r[|r| - 1] != '/'
  {
    if |p| > 0 && p[|p| - 1] == '/' then DropTrailingSlashes(p[..|p| - 1]) else p
  }

  /** The index of the last `c` in `s` (`str.rfind(c)`). */
  function LastIndexOf(s: string, c: char): (r: Option<nat>)
    ensures r.Some? ==> r.value < |s| && s[r.value] == c
    ensures r.Some? ==> forall j :: r.value < j < |s| ==> s[j] != c
    ensures r.None? ==> forall j :: 0 <= j < |s| ==> s[j] != c
  {
    if |s| == 0 then None
    else if s[|s| - 1] == c then Some(|s| - 1)
    else LastIndexOf(s[..|s| - 1], c)
  }

  /** The text after the last '/' of `s` (all of `s` when it has none). */
  function AfterLastSlash(s: string): (r: string)
    ensures |r| <= |s| && r == s[|s| - |r|..]
    ensures '/' !in r
    ensures |r| < |s| ==> s[|s| - |r| - 1] == '/'
  {
    match LastIndexOf(s, '/')
    case Some(i) => s[i + 1..]
    case None => s
  }

  /** `PurePath(p).name`: the final path component. */
  function Name(p: string): string {
    AfterLastSlash(DropTrailingSlashes(p))
  }

  /** `PurePath.suffix` of a name: from its last '.' on, unless that dot
      is the first or the last character. */
  function Suffix(name: string): (r: string)
    ensures r == [] || (2 <= |r| < |name| && r == name[|name| - |r|..] && r[0] == '.')
    ensures forall j :: 0 < j < |r| ==> r[j] != '.'
  {
    match LastIndexOf(name, '.')
    case Some(i) => if 0 < i < |name| - 1 then name[i..] else []
    case None => []
  }

  /** `Path(d) / n` rendered as a string: the current directory adds no prefix. */
  function Join(d: string, n: string): (r: string)
    ensures EndsWith(r, n)
  {
    if d == "" || d == "." then n
    else if d[|d| - 1] == '/' then d + n
    else d + "/" + n
  }

  /** `PurePath(p).parent`: the path up to its last separator; "." when it has none. */
  function Parent(p: string): string {
    var q := DropTrailingSlashes(p);
    var dir := q[..|q| - |AfterLastSlash(q)|];
    if dir == [] then "."
    else if DropTrailingSlashes(dir) == [] then "/"
    else DropTrailingSlashes(dir)
  }

  /** After a separator (or at the start), a slash-free tail is all that
      `AfterLastSlash` keeps. */
  lemma AfterLastSlashOfTail(pre: string, n: string)
    requires pre == [] || pre[|pre| - 1] == '/'
    requires '/' !in n
    ensures AfterLastSlash(pre + n) == n
  {
    var s := pre + n;
    forall j | |pre| <= j < |s| ensures s[j] != '/' {
      assert s[j] == n[j - |pre|];
    }
    if pre != [] {
      assert s[|pre| - 1] == '/';
      assert LastIndexOf(s, '/') == Some(|pre| - 1);
    }
    assert s[|pre|..] == n;
  }

  /** A plain name joined onto any directory is the name of the result. */
  lemma NameOfJoin(d: string, n: string)
    requires n != [] && '/' !in n
    ensures Name(Join(d, n)) == n
  {
    var j := Join(d, n);
    assert j[|j| - 1] == n[|n| - 1];
    if d == "" || d == "." {
      AfterLastSlashOfTail([], n);
      assert [] + n == n;
    } else if d[|d| - 1] == '/' {
      AfterLastSlashOfTail(d, n);
    } else {
      assert j == (d + "/") + n;
      AfterLastSlashOfTail(d + "/", n);
    }
  }

  /** The name of a path with a directory prefix is its last component. */
  lemma NameOfPrefixed(dir: string, n: string)
    requires n != [] && '/' !in n
    ensures Name(dir + "/" + n) == n
  {
    var j := dir + "/" + n;
    assert j[|j| - 1] == n[|n| - 1];
    assert j == (dir + "/") + n;
    AfterLastSlashOfTail(dir + "/", n);
  }

  lemma NameOfPlain(n: string)
    requires n != [] && '/' !in n
    ensures Name(n) == n
  {
    AfterLastSlashOfTail([], n);
    assert [] + n == n;
  }

  /** A name longer than an extension ".x..." that ends with it has that
      extension as its suffix, provided the extension holds a single dot. */
  lemma SuffixOfExtension(name: string, ext: string)
    requires 2 <= |ext| && ext[0] == '.'
    requires forall j :: 0 < j < |ext| ==> ext[j] != '.'
    requires |ext| < |name| && EndsWith(name, ext)
    ensures Suffix(name) == ext
  {
    var k := |name| - |ext|;
    assert name[k] == ext[0];
    forall j | k < j < |name| ensures name[j] != '.' {
      assert name[j] == ext[j - k];
    }
    var i := LastIndexOf(name, '.').value;
    assert i == k;
  }
}
