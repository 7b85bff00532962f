/** Python string operations the checker relies on: `isspace`, `strip`,
    `split()`, `in`, `startswith`, `split(sep, 1)[0]`, `lower`, `replace`,
    `join` and `str(int)`, over `string` (a sequence of Unicode scalars,
    as a Python `str` is a sequence of code points). */
module Strings {
  import opened Optional

  /** Python's `str.isspace()` for one character: the ASCII controls
      tab..carriage return and file/group/record/unit separators, space,
      NEL, NBSP and the Unicode space separators and line/paragraph separators. */
  predicate IsSpace(c: char) {
    || c == ' '
    || ('\t' <= c <= '\r')
    || ('\U{1c}' <= c <= '\U{1f}')
    || c == '\U{85}' || c == '\U{a0}' || c == '\U{1680}'
    || ('\U{2000}' <= c <= '\U{200a}')
    || c == '\U{2028}' || c == '\U{2029}' || c == '\U{202f}'
    || c == '\U{205f}' || c == '\U{3000}'
  }

  predicate AllSpace(s: string) {
    forall i :: 0 <= i < |s| ==> IsSpace(s[i])
  }

  /** `any(ch.isspace() for ch in s)` */
  predicate HasSpace(s: string) {
    exists i :: 0 <= i < |s| && IsSpace(s[i])
  }

  /** True when `s` neither starts nor ends with whitespace. */
  predicate Trimmed(s: string) {
    s == [] || (!IsSpace(s[0]) && !IsSpace(s[|s| - 1]))
  }

  /** The number of leading whitespace characters of `s`. */
  function LeadCount(s: string): (n: nat)
    ensures n <= |s|
    ensures forall i :: 0 <= i < n ==> IsSpace(s[i])
    ensures n == |s| || !IsSpace(s[n])
  {
    if |s| > 0 && IsSpace(s[0]) then 1 + LeadCount(s[1..]) else 0
  }

  /** The number of trailing whitespace characters of `s`. */
  function TrailCount(s: string): (n: nat)
    ensures n <= |s|
    ensures forall i :: |s| - n <= i < |s| ==> IsSpace(s[i])
    ensures n == |s| || !IsSpace(s[|s| - n - 1])
  {
    if |s| > 0 && IsSpace(s[|s| - 1]) then 1 + TrailCount(s[..|s| - 1]) else 0
  }

  /** `s.lstrip()` */
  function TrimLeft(s: string): string {
    s[LeadCount(s)..]
  }

  /** `s.strip()`: `lstrip` followed by `rstrip`. */
  function Strip(s: string): (r: string)
    ensures |r| <= |s|
    ensures Trimmed(r)
    ensures r == [] <==> AllSpace(s)
  {
    var t := TrimLeft(s);
    var r := t[..|t| - TrailCount(t)];
    assert r != [] ==> r[0] == t[0] && r[|r| - 1] == t[|t| - TrailCount(t) - 1];
    r
  }

  lemma {:induction false} LeadCountPadded(a: string, t: string)
    requires AllSpace(a)
    requires t == [] || !IsSpace(t[0])
    ensures LeadCount(a + t) == |a|
    decreases |a|
  {
    if a == [] {
      assert a + t == t;
    } else {
      assert (a + t)[0] == a[0];
      assert (a + t)[1..] == a[1..] + t;
      LeadCountPadded(a[1..], t);
    }
  }

  lemma {:induction false} TrailCountPadded(t: string, b: string)
    requires AllSpace(b)
    requires t == [] || !IsSpace(t[|t| - 1])
    ensures TrailCount(t + b) == |b|
    decreases |b|
  {
    var s := t + b;
    if b == [] {
      assert s == t;
    } else {
      assert s[|s| - 1] == b[|b| - 1];
      assert s[..|s| - 1] == t + b[..|b| - 1];
      TrailCountPadded(t, b[..|b| - 1]);
    }
  }

  /** `strip` removes exactly the whitespace padding around a trimmed core:
      this pins its result down uniquely. */
  lemma StripPadded(a: string, t: string, b: string)
    requires AllSpace(a) && AllSpace(b) && Trimmed(t)
    ensures Strip(a + t + b) == t
  {
    var s := a + t + b;
    if t == [] {
      assert AllSpace(s) by {
        forall i | 0 <= i < |s| ensures IsSpace(s[i]) {
          if i < |a| { assert s[i] == a[i]; } else { assert s[i] == b[i - |a|]; }
        }
      }
    } else {
      assert s == a + (t + b);
      LeadCountPadded(a, t + b);
      assert TrimLeft(s) == t + b;
      TrailCountPadded(t, b);
      assert (t + b)[..|t|] == t;
    }
  }

  lemma StripOfTrimmed(t: string)
    requires Trimmed(t)
    ensures Strip(t) == t
  {
    StripPadded([], t, []);
    assert [] + t + [] == t;
  }

  /** `strip` is idempotent. */
  lemma StripIdempotent(s: string)
    ensures Strip(Strip(s)) == Strip(s)
  {
    StripOfTrimmed(Strip(s));
  }

  /** A string without whitespace is its own `strip`. */
  lemma StripOfSpaceFree(t: string)
    requires !HasSpace(t)
    ensures Strip(t) == t
  {
    if t != [] {
      assert !IsSpace(t[0]) && !IsSpace(t[|t| - 1]);
    }
    StripOfTrimmed(t);
  }

  /** The longest prefix of `s` that holds no whitespace. */
  function TakeWord(s: string): (r: string)
    ensures |r| <= |s| && r == s[..|r|]
    ensures !HasSpace(r)
    ensures |r| < |s| ==> IsSpace(s[|r|])
  {
    if |s| == 0 || IsSpace(s[0]) then
      []
    else
      var r := TakeWord(s[1..]);
      assert s[..1 + |r|] == [s[0]] + s[1..][..|r|];
      [s[0]] + r
  }

  /** `s.split()[0]`, or None where Python raises `IndexError` because the
      string is blank. */
  function FirstWord(s: string): (r: Option<string>)
    ensures r.None? <==> AllSpace(s)
    ensures r.Some? ==> r.value != [] && !HasSpace(r.value)
  {
    var t := TrimLeft(s);
    if t == [] then
      assert s == s[..|s| - |t|];
      None
    else
      Some(TakeWord(t))
  }

  /** A single word is its own first word. */
  lemma FirstWordOfWord(w: string)
    requires w != [] && !HasSpace(w)
    ensures FirstWord(w) == Some(w)
  {
    assert LeadCount(w) == 0;
    assert TrimLeft(w) == w;
    var t := TakeWord(w);
    assert forall i :: 0 <= i < |w| ==> !IsSpace(w[i]);
    assert t == w[..|w|] == w;
    assert FirstWord(w) == Some(TakeWord(TrimLeft(w)));
  }

  /** `pat` occurs in `s` at index `i`. */
  predicate OccursAt(s: string, pat: string, i: int) {
    0 <= i && i + |pat| <= |s| && s[i..i + |pat|] == pat
  }

  /** The first index at or after `k` where `pat` occurs (`str.find`). */
  function FindFrom(s: string, pat: string, k: nat): (r: Option<nat>)
    requires k <= |s| + 1
    requires forall j :: 0 <= j < k ==> !OccursAt(s, pat, j)
    ensures r.Some? ==> OccursAt(s, pat, r.value)
    ensures r.Some? ==> forall j :: 0 <= j < r.value ==> !OccursAt(s, pat, j)
    ensures r.None? ==> forall j :: !OccursAt(s, pat, j)
    decreases |s| + 1 - k
  {
    if k + |pat| > |s| then
      None
    else if s[k..k + |pat|] == pat then
      Some(k)
    else
      FindFrom(s, pat, k + 1)
  }

  /** The first occurrence of `pat` in `s`. */
  function Find(s: string, pat: string): (r: Option<nat>)
    ensures r.Some? ==> OccursAt(s, pat, r.value)
    ensures r.Some? ==> forall j :: 0 <= j < r.value ==> !OccursAt(s, pat, j)
    ensures r.None? ==> forall j :: !OccursAt(s, pat, j)
  {
    FindFrom(s, pat, 0)
  }

  /** Python's `pat in s`. */
  predicate Contains(s: string, pat: string) {
    Find(s, pat).Some?
  }

  /** `s.split(sep)[0]` and `s.split(sep, 1)[0]`: the text before the first `sep`. */
  function Before(s: string, sep: string): (r: string)
    requires sep != []
    ensures |r| <= |s| && r == s[..|r|]
    ensures !Contains(r, sep)
    ensures !Contains(s, sep) ==> r == s
  {
    match Find(s, sep)
    case None => s
    case Some(i) =>
      var r := s[..i];
      forall j ensures !OccursAt(r, sep, j) {
        if 0 <= j && j + |sep| <= |r| {
          assert !OccursAt(s, sep, j);
          assert r[j..j + |sep|] == s[j..j + |sep|];
        }
      }
      r
  }

  /** For a one-character pattern, `in` on strings is membership. */
  lemma ContainsChar(s: string, c: char)
    ensures Contains(s, [c]) <==> c in s
  {
    if c in s {
      var i :| 0 <= i < |s| && s[i] == c;
      assert OccursAt(s, [c], i);
    }
    if Contains(s, [c]) {
      var i := Find(s, [c]).value;
      assert s[i..i + 1][0] == s[i];
    }
  }

  /** A prefix of a string that lacks `pat` lacks it too. */
  lemma PrefixKeepsAbsence(s: string, n: nat, pat: string)
    requires n <= |s|
    requires !Contains(s, pat)
    ensures !Contains(s[..n], pat)
  {
    forall j ensures !OccursAt(s[..n], pat, j) {
      if 0 <= j && j + |pat| <= n {
        assert !OccursAt(s, pat, j);
        assert s[..n][j..j + |pat|] == s[j..j + |pat|];
      }
    }
  }

  lemma SpaceFreePrefix(s: string, n: nat)
    requires n <= |s|
    requires !HasSpace(s)
    ensures !HasSpace(s[..n])
  {
    forall i | 0 <= i < n ensures !IsSpace(s[..n][i]) {
      assert s[..n][i] == s[i];
    }
  }

  /** `s.startswith(p)` */
  predicate StartsWith(s: string, p: string) {
    |p| <= |s| && s[..|p|] == p
  }

  /** `s.endswith(p)` */
  predicate EndsWith(s: string, p: string) {
    |p| <= |s| && s[|s| - |p|..] == p
  }

  function LowerChar(c: char): char {
    if 'A' <= c <= 'Z' then (c as int + 32) as char else c
  }

  /** `s.lower()` on ASCII letters; other characters are kept as they are. */
  function Lower(s: string): (r: string)
    ensures |r| == |s|
    ensures forall i :: 0 <= i < |s| ==> r[i] == LowerChar(s[i])
  {
    seq(|s|, i requires 0 <= i < |s| => LowerChar(s[i]))
  }

  /** `s.replace(a, b)` for single characters. */
  function ReplaceChar(s: string, a: char, b: char): (r: string)
    ensures |r| == |s|
    ensures forall i :: 0 <= i < |s| ==> r[i] == (if s[i] == a then b else s[i])
  {
    seq(|s|, i requires 0 <= i < |s| => if s[i] == a then b else s[i])
  }

  /** `sep.join(parts)` */
  function JoinWith(sep: string, parts: seq<string>): string
    decreases |parts|
  {
    if |parts| == 0 then ""
    else if |parts| == 1 then parts[0]
    else parts[0] + sep + JoinWith(sep, parts[1..])
  }

  /** `s.split(c)` for a one-character separator: the pieces between the
      occurrences of `c`, empty pieces included. */
  function Split(s: string, c: char): (r: seq<string>)
    ensures |r| >= 1
    decreases |s|
  {
    if |s| == 0 then
      [""]
    else
      var t := Split(s[1..], c);
      if s[0] == c then [""] + t else [[s[0]] + t[0]] + t[1..]
  }

  lemma {:induction false} SplitOfFree(p: string, c: char)
    requires c !in p
    ensures Split(p, c) == [p]
    decreases |p|
  {
    if |p| > 0 {
      SplitOfFree(p[1..], c);
      assert [p[0]] + p[1..] == p;
    }
  }

  lemma {:induction false} SplitAfterPiece(p: string, c: char, rest: string)
    requires c !in p
    ensures Split(p + [c] + rest, c) == [p] + Split(rest, c)
    decreases |p|
  {
    var s := p + [c] + rest;
    if |p| == 0 {
      assert s[0] == c && s[1..] == rest;
    } else {
      assert s[0] == p[0] && s[1..] == p[1..] + [c] + rest;
      SplitAfterPiece(p[1..], c, rest);
      assert [p[0]] + p[1..] == p;
    }
  }

  /** Splitting a join on a separator that no part holds gives the parts back. */
  lemma {:induction false} SplitJoinRoundTrip(parts: seq<string>, c: char)
    requires |parts| >= 1
    requires forall i :: 0 <= i < |parts| ==> c !in parts[i]
    ensures Split(JoinWith([c], parts), c) == parts
    decreases |parts|
  {
    if |parts| == 1 {
      SplitOfFree(parts[0], c);
    } else {
      SplitJoinRoundTrip(parts[1..], c);
      SplitAfterPiece(parts[0], c, JoinWith([c], parts[1..]));
      assert [parts[0]] + parts[1..] == parts;
    }
  }

  function DigitChar(d: nat): (c: char)
    requires d < 10
    ensures IsDigit(c) && DigitValue(c) == d
  {
    ('0' as int + d) as char
  }

  predicate IsDigit(c: char) {
    '0' <= c <= '9'
  }

  function DigitValue(c: char): nat
    requires IsDigit(c)
  {
    c as int - '0' as int
  }

  /** `str(n)` for a natural number: its decimal digits, most significant first. */
  function NatToString(n: nat): (r: string)
    ensures r != []
    ensures forall i :: 0 <= i < |r| ==> IsDigit(r[i])
    decreases n
  {
    if n < 10 then [DigitChar(n)] else NatToString(n / 10) + [DigitChar(n % 10)]
  }

  /** A run of digits followed by a non-digit splits only one way. */
  lemma DigitRunUnique(x1: string, y1: string, x2: string, y2: string)
    requires forall i :: 0 <= i < |x1| ==> IsDigit(x1[i])
    requires forall i :: 0 <= i < |x2| ==> IsDigit(x2[i])
    requires y1 != [] && !IsDigit(y1[0]) && y2 != [] && !IsDigit(y2[0])
    requires x1 + y1 == x2 + y2
    ensures x1 == x2 && y1 == y2
  {
    var t := x1 + y1;
    assert forall k :: 0 <= k < |x1| ==> t[k] == x1[k];
    assert forall k :: 0 <= k < |x2| ==> t[k] == x2[k];
    assert t[|x1|] == y1[0] && t[|x2|] == y2[0];
    assert |x1| == |x2|;
    assert x1 == t[..|x1|] == x2;
    assert y1 == t[|x1|..] == y2;
  }

  /** `int(s)` for a string of decimal digits. */
  function DigitsValue(s: string): nat
    requires forall i :: 0 <= i < |s| ==> IsDigit(s[i])
    decreases |s|
  {
    if |s| == 0 then 0 else DigitsValue(s[..|s| - 1]) * 10 + DigitValue(s[|s| - 1])
  }

  /** Reading back the decimal rendering gives the number. */
  lemma {:induction false} NatToStringRoundTrip(n: nat)
    ensures DigitsValue(NatToString(n)) == n
    decreases n
  {
    var r := NatToString(n);
    if n >= 10 {
      NatToStringRoundTrip(n / 10);
      assert r[..|r| - 1] == NatToString(n / 10);
    } else {
      assert r[..0] == [];
    }
  }

  function Pow10(k: nat): nat {
    if k == 0 then 1 else 10 * Pow10(k - 1)
  }

  /** A number below 10^k has at most k digits (and always at least one). */
  lemma {:induction false} NatToStringLength(n: nat, k: nat)
    requires 1 <= k && n < Pow10(k)
    ensures |NatToString(n)| <= k
    decreases k
  {
    if n >= 10 {
      assert k >= 2;
      NatToStringLength(n / 10, k - 1);
    }
  }

  /** `str(n)` / `f"{n}"` for an int. */
  function IntToString(n: int): (r: string)
    ensures r != [] && (r[0] == '-' <==> n < 0)
    ensures forall i :: 0 < i < |r| ==> IsDigit(r[i])
    ensures IsDigit(r[|r| - 1])
  {
    if n < 0 then "-" + NatToString(-n) else NatToString(n)
  }

  /** A magnitude below 10^k renders in at most k digits and a sign. */
  lemma IntToStringLength(n: int, k: nat)
    requires 1 <= k && -(Pow10(k) as int) < n < Pow10(k)
    ensures |IntToString(n)| <= k + 1
  {
    NatToStringLength(if n < 0 then -n else n, k);
  }

  /** Distinct integers render differently. */
  lemma IntToStringInjective(a: int, b: int)
    requires IntToString(a) == IntToString(b)
    ensures a == b
  {
    if a < 0 {
      assert NatToString(-a) == IntToString(a)[1..] == IntToString(b)[1..] == NatToString(-b);
    } else {
      assert NatToString(a) == NatToString(b);
    }
    NatToStringRoundTrip(if a < 0 then -a else a);
    NatToStringRoundTrip(if b < 0 then -b else b);
  }

  /** Python's `a <= b` on `str`: code-point lexicographic order, a
      proper prefix coming first. */
  predicate LexLe(a: string, b: string)
    decreases |a|
  {
    |a| == 0 || (|b| > 0 && (a[0] < b[0] || (a[0] == b[0] && LexLe(a[1..], b[1..]))))
  }

  lemma {:induction false} LexLeReflexive(a: string)
    ensures LexLe(a, a)
    decreases |a|
  {
    if |a| > 0 {
      LexLeReflexive(a[1..]);
    }
  }

  lemma {:induction false} LexLeTotal(a: string, b: string)
    ensures LexLe(a, b) || LexLe(b, a)
    decreases |a|
  {
    if |a| > 0 && |b| > 0 && a[0] == b[0] {
      LexLeTotal(a[1..], b[1..]);
    }
  }

  lemma {:induction false} LexLeTransitive(a: string, b: string, c: string)
    requires LexLe(a, b) && LexLe(b, c)
    ensures LexLe(a, c)
    decreases |a|
  {
    if |a| > 0 && a[0] == b[0] && b[0] == c[0] {
      LexLeTransitive(a[1..], b[1..], c[1..]);
    }
  }

  lemma {:induction false} LexLeAntisymmetric(a: string, b: string)
    requires LexLe(a, b) && LexLe(b, a)
    ensures a == b
    decreases |a|
  {
    if |a| > 0 {
      LexLeAntisymmetric(a[1..], b[1..]);
      assert a == [a[0]] + a[1..] && b == [b[0]] + b[1..];
    }
  }

  /** `n` is the first element of `names` once they are sorted. */
  predicate IsLeast(n: string, names: seq<string>) {
    n in names && forall i :: 0 <= i < |names| ==> LexLe(n, names[i])
  }

  /** `sorted(names)[0]` */
  function Least(names: seq<string>): (r: string)
    requires |names| > 0
    ensures IsLeast(r, names)
  {
    if |names| == 1 then
      LexLeReflexive(names[0]);
      names[0]
    else
      var m := Least(names[1..]);
      if LexLe(names[0], m) then
        assert forall i :: 1 <= i < |names| ==> LexLe(names[0], names[i]) by {
          forall i | 1 <= i < |names| ensures LexLe(names[0], names[i]) {
            assert names[i] == names[1..][i - 1];
            LexLeTransitive(names[0], m, names[i]);
          }
        }
        LexLeReflexive(names[0]);
        names[0]
      else
        LexLeTotal(names[0], m);
        assert forall i :: 1 <= i < |names| ==> names[i] == names[1..][i - 1];
        m
  }

  /** The first of the sorted names is unique: sorting ties cannot change it. */
  lemma LeastIsUnique(a: string, b: string, names: seq<string>)
    requires IsLeast(a, names) && IsLeast(b, names)
    ensures a == b
  {
    var i :| 0 <= i < |names| && names[i] == a;
    var j :| 0 <= j < |names| && names[j] == b;
    LexLeAntisymmetric(a, b);
  }

  function Min(a: int, b: int): int {
    if a <= b then a else b
  }
}
