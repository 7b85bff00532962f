/** The dependency probe of envcheck.py
    (`python_deps_probe_from_requirements`): reading up to twelve package
    names from requirements.txt and recording which cannot be imported. */
module Requirements {
  import opened Optional
  import opened Strings
  import opened Paths
  import opened FactLog
  import opened Host
  import opened Resolver

  /** `max_pkgs` */
  const MaxPackages: nat := 12

  /** The version operators cut off a requirement, in the order they are tried. */
  const VersionOperators: seq<string> := ["==", ">=", "<=", "~=", ">", "<", "!="]

  /** A stripped line that names no package: blank, a comment, an option,
      a URL or a VCS reference. */
  predicate IsSkipped(s: string) {
    || s == []
    || StartsWith(s, "#")
    || StartsWith(s, "-") || StartsWith(s, "--")
    || Contains(s, "://")
    || StartsWith(s, "git+")
  }

  /** What every recorded package name looks like. */
  predicate WellFormedName(n: string) {
    && n != []
    && !HasSpace(n)
    && !Contains(n, "[")
    && forall k :: 0 <= k < |VersionOperators| ==> !Contains(n, VersionOperators[k])
  }

  /** The loop over the version operators, from operator `k` on: each one
      present cuts the name before its first occurrence. */
  function CutOperators(name: string, k: nat): (r: string)
    requires k <= |VersionOperators|
    requires !HasSpace(name)
    requires forall j :: 0 <= j < k ==> !Contains(name, VersionOperators[j])
    ensures |r| <= |name| && r == name[..|r|]
    ensures !HasSpace(r)
    ensures forall j :: 0 <= j < |VersionOperators| ==> !Contains(r, VersionOperators[j])
    ensures (forall j :: k <= j < |VersionOperators| ==> !Contains(name, VersionOperators[j])) ==> r == name
    decreases |VersionOperators| - k
  {
    if k == |VersionOperators| then
      name
    else
      var op := VersionOperators[k];
      if Contains(name, op) then
        var b := Strip(Before(name, op));
        CutKeepsInvariant(name, k);
        var r := CutOperators(b, k + 1);
        assert r == name[..|r|] by {
          assert b[..|r|] == name[..|r|];
        }
        r
      else
        CutOperators(name, k + 1)
  }

  /** Cutting at operator `k` keeps a space-free prefix of the name that
      contains none of the operators before `k` nor operator `k` itself. */
  lemma CutKeepsInvariant(name: string, k: nat)
    requires k < |VersionOperators|
    requires !HasSpace(name)
    requires forall j :: 0 <= j < k ==> !Contains(name, VersionOperators[j])
    ensures var b := Strip(Before(name, VersionOperators[k]));
      && |b| <= |name| && b == name[..|b|]
      && !HasSpace(b)
      && forall j :: 0 <= j <= k ==> !Contains(b, VersionOperators[j])
  {
    var b := Before(name, VersionOperators[k]);
    SpaceFreePrefix(name, |b|);
    StripOfSpaceFree(b);
    forall j | 0 <= j < k ensures !Contains(b, VersionOperators[j]) {
      PrefixKeepsAbsence(name, |b|, VersionOperators[j]);
    }
  }

  /** What one line of requirements.txt yields. */
  datatype LineParse =
    | Ignored          // skipped before looking for a name
    | Named(name: string)  // the name found, possibly empty
    | Raises           // `name.split()[0]` raises IndexError

  /** One iteration of the loop over the lines: strip, skip, cut the
      environment marker, take the first word, cut extras and version
      operators. */
  function ParseLine(ln: string): (r: LineParse)
    ensures r.Named? ==> r.name == [] || WellFormedName(r.name)
    ensures IsSkipped(Strip(ln)) <==> r == Ignored
    ensures WellFormedName(ln) && ';' !in ln && !IsSkipped(ln) ==> r == Named(ln)
  {
    BareNameIsItsOwnWord(ln);
    var s := Strip(ln);
    if IsSkipped(s) then
      Ignored
    else
      match FirstWord(Strip(Before(s, ";")))
      case None => Raises
      case Some(w) => Named(WordName(w))
  }

  /** The package name in the first word of a line: the word before any
      extras bracket, cut at the version operators. */
  function WordName(word: string): (r: string)
    requires !HasSpace(word)
    ensures r == [] || WellFormedName(r)
    ensures WellFormedName(word) ==> r == word
  {
    var w := Strip(word);
    StripOfSpaceFree(word);
    var name := if Contains(w, "[") then Before(w, "[") else w;
    SpaceFreePrefix(w, |name|);
    var r := CutOperators(name, 0);
    PrefixKeepsAbsence(name, |r|, "[");
    r
  }

  /** A line holding nothing but a package name is its own first word. */
  lemma BareNameIsItsOwnWord(ln: string)
    ensures WellFormedName(ln) && ';' !in ln ==> Strip(ln) == ln && FirstWord(Strip(Before(ln, ";"))) == Some(ln)
  {
    if WellFormedName(ln) && ';' !in ln {
      StripOfSpaceFree(ln);
      ContainsChar(ln, ';');
      FirstWordOfWord(ln);
    }
  }

  /** A pinned requirement `name==version` yields the bare name: the first
      "==" is the one after the name, and the operators tried later find
      nothing left to cut. */
  lemma VersionPinYieldsName(n: string, v: string)
    requires WellFormedName(n) && '=' !in n && ';' !in n
    requires !HasSpace(v) && ';' !in v && '[' !in v
    requires !IsSkipped(n + "==" + v)
    ensures ParseLine(n + "==" + v) == Named(n)
  {
    var s := n + "==" + v;
    ContainsChar(n, '[');
    PinIsOneWord(n, v);
    StripOfSpaceFree(s);
    ContainsChar(s, ';');
    FirstWordOfWord(s);
    PinWordName(n, v);
  }

  /** The pinned requirement is a single word without ';' or '['. */
  lemma PinIsOneWord(n: string, v: string)
    requires !HasSpace(n) && ';' !in n && '[' !in n
    requires !HasSpace(v) && ';' !in v && '[' !in v
    ensures var s := n + "==" + v; !HasSpace(s) && ';' !in s && '[' !in s
  {
    var s := n + "==" + v;
    forall i | 0 <= i < |s| ensures !IsSpace(s[i]) && s[i] != ';' && s[i] != '[' {
      if i < |n| { assert s[i] == n[i]; }
      else if i >= |n| + 2 { assert s[i] == v[i - |n| - 2]; }
    }
  }

  /** The name in a pinned word is what precedes its "==". */
  lemma PinWordName(n: string, v: string)
    requires WellFormedName(n) && '=' !in n
    requires !HasSpace(v) && '[' !in v
    requires !HasSpace(n + "==" + v) && '[' !in n + "==" + v
    ensures WordName(n + "==" + v) == n
  {
    var s := n + "==" + v;
    StripOfSpaceFree(s);
    ContainsChar(s, '[');
    assert OccursAt(s, "==", |n|);
    forall j | 0 <= j < |n| ensures !OccursAt(s, "==", j) {
      assert s[j] == n[j];
    }
    assert Before(s, "==") == n;
    StripOfSpaceFree(n);
  }

  /** A line raises exactly when, once stripped, it starts with ';' and is
      not skipped as a URL: nothing precedes the environment marker. */
  lemma RaisesIffLeadingSemicolon(ln: string)
    ensures ParseLine(ln) == Raises <==> StartsWith(Strip(ln), ";") && !Contains(Strip(ln), "://")
  {
    var s := Strip(ln);
    if s != [] && !IsSkipped(s) {
      var b := Before(s, ";");
      if StartsWith(s, ";") {
        assert OccursAt(s, ";", 0);
        assert Find(s, ";") == Some(0);
        assert b == [];
      } else {
        assert !OccursAt(s, ";", 0);
        assert b != [] && b[0] == s[0];
        assert !AllSpace(b);
        assert Strip(b) != [];
      }
    }
  }

  /** The parse of every line, in order. */
  function ParseLines(lines: seq<string>): (r: seq<LineParse>)
    ensures |r| == |lines|
    ensures forall j :: 0 <= j < |lines| ==> r[j] == ParseLine(lines[j])
  {
    seq(|lines|, j requires 0 <= j < |lines| => ParseLine(lines[j]))
  }

  lemma ParseLinesAppend(a: seq<string>, b: seq<string>)
    ensures ParseLines(a + b) == ParseLines(a) + ParseLines(b)
  {
    assert forall j :: 0 <= j < |a| ==> (a + b)[j] == a[j];
    assert forall j :: |a| <= j < |a + b| ==> (a + b)[j] == b[j - |a|];
  }

  /** Every parsed name satisfies `WellFormedName`, as `ParseLine` promises. */
  predicate NamesWellFormed(ps: seq<LineParse>) {
    forall j :: 0 <= j < |ps| && ps[j].Named? && ps[j].name != [] ==> WellFormedName(ps[j].name)
  }

  /** The names a parsed line contributes: its name, when it has a non-empty one. */
  function NamesOf(p: LineParse): seq<string> {
    match p
    case Named(n) => if n != [] then [n] else []
    case _ => []
  }

  /** Every name the parsed lines contribute, in order, with no cap: the
      reference the capped loop is measured against. */
  function Collect(ps: seq<LineParse>): seq<string>
    decreases |ps|
  {
    if |ps| == 0 then [] else Collect(ps[..|ps| - 1]) + NamesOf(ps[|ps| - 1])
  }

  /** The reference holds only well-formed names when the lines do. */
  lemma {:induction false} CollectWellFormed(ps: seq<LineParse>)
    requires NamesWellFormed(ps)
    ensures forall i :: 0 <= i < |Collect(ps)| ==> WellFormedName(Collect(ps)[i])
    decreases |ps|
  {
    if |ps| > 0 {
      var init := ps[..|ps| - 1];
      assert forall j :: 0 <= j < |init| ==> init[j] == ps[j];
      CollectWellFormed(init);
    }
  }

  lemma {:induction false} CollectAppend(a: seq<LineParse>, b: seq<LineParse>)
    ensures Collect(a + b) == Collect(a) + Collect(b)
    decreases |b|
  {
    if |b| == 0 {
      assert a + b == a;
    } else {
      var b' := b[..|b| - 1];
      assert (a + b)[..|a + b| - 1] == a + b';
      assert (a + b)[|a + b| - 1] == b[|b| - 1];
      CollectAppend(a, b');
    }
  }

  /** Collecting from a longer prefix only adds names. */
  lemma CollectMonotone(ps: seq<LineParse>, i: nat, j: nat)
    requires i <= j <= |ps|
    ensures |Collect(ps[..i])| <= |Collect(ps[..j])|
    ensures Collect(ps[..j])[..|Collect(ps[..i])|] == Collect(ps[..i])
  {
    assert ps[..j] == ps[..i] + ps[i..j];
    CollectAppend(ps[..i], ps[i..j]);
  }

  lemma CollectStep(ps: seq<LineParse>, i: nat)
    requires i < |ps|
    ensures Collect(ps[..i + 1]) == Collect(ps[..i]) + NamesOf(ps[i])
  {
    assert ps[..i + 1][..i] == ps[..i];
  }

  /** The first `n` names (`names[:n]`). */
  function Take(names: seq<string>, n: nat): (r: seq<string>)
    ensures |r| <= n && |r| <= |names| && r == names[..|r|]
  {
    names[..Min(|names|, n)]
  }

  /** The loop reaches a line that raises: one that raises before twelve
      names have been collected. */
  ghost predicate CrashReached(ps: seq<LineParse>) {
    exists j :: 0 <= j < |ps| && ps[j].Raises? && |Collect(ps[..j])| < MaxPackages
  }

  datatype ParseOutcome = Parsed(names: seq<string>) | Crashed

  /** The loop at envcheck.py:341-357 as written, over the parsed lines
      from `i` on with the names `pkgs` gathered so far: it stops at twelve
      names and lets the `IndexError` of a line with nothing before its ';'
      escape. */
  function ParseLoop(ps: seq<LineParse>, i: nat, pkgs: seq<string>): (r: ParseOutcome)
    requires i <= |ps| && |pkgs| < MaxPackages
    ensures r.Parsed? ==> |r.names| <= MaxPackages
    decreases |ps| - i
  {
    if i == |ps| then
      Parsed(pkgs)
    else
      match ps[i]
      case Ignored => ParseLoop(ps, i + 1, pkgs)
      case Raises => Crashed
      case Named(n) =>
        var pkgs' := if n != [] then pkgs + [n] else pkgs;
        if |pkgs'| >= MaxPackages then Parsed(pkgs') else ParseLoop(ps, i + 1, pkgs')
  }

  /** The same loop with the evident intent for a line that has no name
      before its ';': the line is passed over like any other nameless one. */
  function ParseLoopCorrected(ps: seq<LineParse>, i: nat, pkgs: seq<string>): (r: seq<string>)
    requires i <= |ps| && |pkgs| < MaxPackages
    ensures |r| <= MaxPackages
    decreases |ps| - i
  {
    if i == |ps| then
      pkgs
    else
      match ps[i]
      case Ignored => ParseLoopCorrected(ps, i + 1, pkgs)
      case Raises => ParseLoopCorrected(ps, i + 1, pkgs)
      case Named(n) =>
        var pkgs' := if n != [] then pkgs + [n] else pkgs;
        if |pkgs'| >= MaxPackages then pkgs' else ParseLoopCorrected(ps, i + 1, pkgs')
  }

  /** One iteration of either loop on a line that does not raise: append
      the line's names, then stop at the cap or go on. */
  lemma LoopStep(ps: seq<LineParse>, i: nat, pkgs: seq<string>)
    requires i < |ps| && |pkgs| < MaxPackages
    ensures var next := pkgs + NamesOf(ps[i]);
      ParseLoopCorrected(ps, i, pkgs)
        == if |next| >= MaxPackages then next else ParseLoopCorrected(ps, i + 1, next)
    ensures var next := pkgs + NamesOf(ps[i]);
      !ps[i].Raises? ==>
        ParseLoop(ps, i, pkgs)
          == if |next| >= MaxPackages then Parsed(next) else ParseLoop(ps, i + 1, next)
  {
    match ps[i]
    case Ignored =>
      assert pkgs + NamesOf(ps[i]) == pkgs;
    case Raises =>
      assert pkgs + NamesOf(ps[i]) == pkgs;
    case Named(n) =>
      assert pkgs + NamesOf(ps[i]) == if n != [] then pkgs + [n] else pkgs;
  }

  lemma {:induction false} ParseLoopCorrectedIsCappedCollect(ps: seq<LineParse>, i: nat, pkgs: seq<string>)
    requires i <= |ps| && |pkgs| < MaxPackages
    requires pkgs == Collect(ps[..i])
    ensures ParseLoopCorrected(ps, i, pkgs) == Take(Collect(ps), MaxPackages)
    decreases |ps| - i
  {
    if i == |ps| {
      assert ps[..i] == ps;
    } else {
      CollectStep(ps, i);
      LoopStep(ps, i, pkgs);
      var pkgs' := Collect(ps[..i + 1]);
      if |pkgs'| >= MaxPackages {
        CollectMonotone(ps, i + 1, |ps|);
        assert ps[..|ps|] == ps;
      } else {
        ParseLoopCorrectedIsCappedCollect(ps, i + 1, pkgs');
      }
    }
  }

  lemma {:induction false} ParseLoopIsCappedCollect(ps: seq<LineParse>, i: nat, pkgs: seq<string>)
    requires i <= |ps| && |pkgs| < MaxPackages
    requires pkgs == Collect(ps[..i])
    requires forall j :: 0 <= j < i ==> !ps[j].Raises?
    ensures ParseLoop(ps, i, pkgs)
      == if CrashReached(ps) then Crashed else Parsed(Take(Collect(ps), MaxPackages))
    decreases |ps| - i
  {
    if i == |ps| {
      assert ps[..i] == ps;
      assert !CrashReached(ps);
    } else {
      CollectStep(ps, i);
      LoopStep(ps, i, pkgs);
      var pkgs' := Collect(ps[..i + 1]);
      if ps[i].Raises? {
        assert CrashReached(ps);
      } else if |pkgs'| >= MaxPackages {
        CapReached(ps, i);
        assert !CrashReached(ps);
      } else {
        ParseLoopIsCappedCollect(ps, i + 1, pkgs');
      }
    }
  }

  /** Once line `i` brings the names to twelve, they are the capped
      reference, and no later line is reached. */
  lemma CapReached(ps: seq<LineParse>, i: nat)
    requires i < |ps|
    requires |Collect(ps[..i + 1])| >= MaxPackages
    ensures |Collect(ps[..i + 1])| <= MaxPackages ==> Take(Collect(ps), MaxPackages) == Collect(ps[..i + 1])
    ensures forall j :: i < j <= |ps| ==> |Collect(ps[..j])| >= MaxPackages
  {
    forall j | i < j <= |ps| ensures |Collect(ps[..j])| >= MaxPackages {
      CollectMonotone(ps, i + 1, j);
    }
    CollectMonotone(ps, i + 1, |ps|);
    assert ps[..|ps|] == ps;
  }

  /** The requirement names as the corrected loop reads them: the first
      twelve names the lines contribute. */
  function ParseRequirementNames(lines: seq<string>): (r: seq<string>)
    ensures r == Take(Collect(ParseLines(lines)), MaxPackages)
    ensures |r| <= MaxPackages
  {
    var ps := ParseLines(lines);
    assert ps[..0] == [];
    ParseLoopCorrectedIsCappedCollect(ps, 0, []);
    ParseLoopCorrected(ps, 0, [])
  }

  /** Every name read is non-empty and holds no whitespace, no `[` and no
      version operator. */
  lemma ParsedNamesWellFormed(lines: seq<string>)
    ensures forall i :: 0 <= i < |ParseRequirementNames(lines)| ==> WellFormedName(ParseRequirementNames(lines)[i])
  {
    var ps := ParseLines(lines);
    CollectWellFormed(ps);
  }

  /** The requirement names as the source reads them: the corrected result,
      unless a line that raises is reached before the twelfth name. */
  function ParseRequirementNamesAsWritten(lines: seq<string>): (r: ParseOutcome)
    ensures r == if CrashReached(ParseLines(lines)) then Crashed else Parsed(ParseRequirementNames(lines))
  {
    var ps := ParseLines(lines);
    assert ps[..0] == [];
    ParseLoopIsCappedCollect(ps, 0, []);
    ParseLoop(ps, 0, [])
  }

  /** Finding: a single line ";foo" makes the loop as written raise, where
      the corrected loop yields no names. */
  lemma SemicolonLineCrashes()
    ensures ParseRequirementNamesAsWritten([";foo"]) == Crashed
    ensures ParseRequirementNames([";foo"]) == []
  {
    SemicolonLineRaises();
    FirstLineRaisesCrashes([";foo"]);
    RaisingLineYieldsNothing(";foo");
  }

  /** A file whose first line raises makes the loop as written raise. */
  lemma FirstLineRaisesCrashes(lines: seq<string>)
    requires |lines| > 0 && ParseLine(lines[0]) == Raises
    ensures ParseRequirementNamesAsWritten(lines) == Crashed
  {
    var ps := ParseLines(lines);
    assert ps[0] == Raises;
    assert ps[..0] == [];
    assert CrashReached(ps);
  }

  /** The corrected loop reads no name from a file of one raising line. */
  lemma RaisingLineYieldsNothing(ln: string)
    requires ParseLine(ln) == Raises
    ensures ParseRequirementNames([ln]) == []
  {
    var ps := ParseLines([ln]);
    assert ps == [Raises];
    CollectSingle(Raises);
  }

  /** The line ";foo" has nothing before its environment marker. */
  lemma SemicolonLineRaises()
    ensures ParseLine(";foo") == Raises
  {
    var ln := ";foo";
    StripOfTrimmed(ln);
    assert StartsWith(ln, ";");
    assert !Contains(ln, "://") by {
      forall j ensures !OccursAt(ln, "://", j) {
        if 0 <= j && j + 3 <= |ln| {
          assert ln[j..j + 3][0] != ':';
        }
      }
    }
    RaisesIffLeadingSemicolon(ln);
  }

  /** A single parsed line contributes its own names. */
  lemma CollectSingle(p: LineParse)
    ensures Collect([p]) == NamesOf(p)
  {
    assert [p][..0] == [];
  }

  lemma CollectSkipsIgnored(pa: seq<LineParse>, pb: seq<LineParse>)
    ensures Collect(pa + [Ignored] + pb) == Collect(pa + pb)
  {
    var x := pa + [Ignored];
    CollectAppend(x, pb);
    CollectAppend(pa, [Ignored]);
    CollectSingle(Ignored);
    assert Collect(x) == Collect(pa);
    CollectAppend(pa, pb);
  }

  /** A skipped line (blank, comment, option, URL, VCS) can be inserted
      anywhere without changing the names read. */
  lemma SkippedLineChangesNothing(a: seq<string>, ln: string, b: seq<string>)
    requires IsSkipped(Strip(ln))
    ensures ParseRequirementNames(a + [ln] + b) == ParseRequirementNames(a + b)
  {
    var pa, pb := ParseLines(a), ParseLines(b);
    assert ParseLines([ln]) == [Ignored];
    ParseLinesAppend(a, [ln]);
    ParseLinesAppend(a + [ln], b);
    ParseLinesAppend(a, b);
    assert ParseLines(a + [ln] + b) == pa + [Ignored] + pb;
    CollectSkipsIgnored(pa, pb);
  }

  // ---------------------------------------------------------------------------
  // The probe around the loop

  /** The module name tried for a package: hyphens become underscores. */
  function ModuleGuess(p: string): string {
    ReplaceChar(p, '-', '_')
  }

  /** The import loop: the packages whose module cannot be found, in order,
      or None when a lookup raises (`importable` answers `None`). */
  function MissingPackages(pkgs: seq<string>, importable: ImportProbe): (r: Option<seq<string>>)
    ensures r.None? <==> exists i :: 0 <= i < |pkgs| && importable(ModuleGuess(pkgs[i])).None?
    ensures r.Some? ==> |r.value| <= |pkgs|
    ensures r.Some? ==> forall x :: x in r.value <==> x in pkgs && importable(ModuleGuess(x)) == Some(false)
    ensures |pkgs| == 1 ==> r == match importable(ModuleGuess(pkgs[0]))
                                 case None => None
                                 case Some(found) => Some(if found then [] else pkgs)
    decreases |pkgs|
  {
    if |pkgs| == 0 then
      Some([])
    else
      var rest := MissingPackages(pkgs[1..], importable);
      assert |pkgs| == 1 ==> rest == Some([]) && [pkgs[0]] + [] == pkgs;
      assert forall x :: x in pkgs <==> x == pkgs[0] || x in pkgs[1..];
      assert forall i :: 1 <= i < |pkgs| ==> pkgs[i] == pkgs[1..][i - 1];
      match importable(ModuleGuess(pkgs[0]))
      case None => None
      case Some(found) =>
        if rest.None? then
          var i :| 0 <= i < |pkgs[1..]| && importable(ModuleGuess(pkgs[1..][i])).None?;
          assert importable(ModuleGuess(pkgs[i + 1])).None?;
          None
        else if found then rest
        else Some([pkgs[0]] + rest.value)
  }

  /** The import loop over a list split anywhere: the missing packages of
      `a + b` are those of `a` followed by those of `b`, and a lookup that
      raises in either part makes the whole loop raise. With the one-package
      case of `MissingPackages` this fixes the order and the repetitions of
      the result. */
  lemma {:induction false} MissingPackagesAppend(a: seq<string>, b: seq<string>, importable: ImportProbe)
    ensures var ra := MissingPackages(a, importable);
            var rb := MissingPackages(b, importable);
            MissingPackages(a + b, importable) == if ra.Some? && rb.Some? then Some(ra.value + rb.value) else None
    decreases |a|
  {
    if |a| == 0 {
      assert a + b == b;
      assert MissingPackages(a, importable) == Some([]);
      var rb := MissingPackages(b, importable);
      if rb.Some? {
        assert [] + rb.value == rb.value;
      }
    } else {
      var ab := a + b;
      assert ab[0] == a[0] && ab[1..] == a[1..] + b;
      MissingPackagesAppend(a[1..], b, importable);
      MissingPackagesStep(ab, importable);
      MissingPackagesStep(a, importable);
      var rb := MissingPackages(b, importable);
      var restA := MissingPackages(a[1..], importable);
      if restA.Some? && rb.Some? {
        assert [a[0]] + (restA.value + rb.value) == ([a[0]] + restA.value) + rb.value;
      }
    }
  }

  /** One step of the import loop: the first package, then the rest. */
  lemma MissingPackagesStep(pkgs: seq<string>, importable: ImportProbe)
    requires pkgs != []
    ensures var rest := MissingPackages(pkgs[1..], importable);
            MissingPackages(pkgs, importable)
              == match importable(ModuleGuess(pkgs[0]))
                 case None => None
                 case Some(found) =>
                   if rest.None? then None else if found then rest else Some([pkgs[0]] + rest.value)
  {
  }

  /** The summary fact: how many packages were looked up and how many of
      them are missing. */
  function CheckedFact(checked: nat, missing: nat): string {
    "deps_probe: checked=" + IntToString(checked) + " missing=" + IntToString(missing)
  }

  /** The summary fact tells both counts: different counts give different
      facts. */
  lemma CheckedFactInjective(a: nat, b: nat, c: nat, d: nat)
    requires CheckedFact(a, b) == CheckedFact(c, d)
    ensures a == c && b == d
  {
    var q := " missing=";
    var x1, x2 := IntToString(a), IntToString(c);
    var y1, y2 := q + IntToString(b), q + IntToString(d);
    CheckedFactTail(a, b);
    CheckedFactTail(c, d);
    NatRendersAsDigits(a);
    NatRendersAsDigits(c);
    DigitRunUnique(x1, y1, x2, y2);
    IntToStringInjective(a, c);
    assert IntToString(b) == y1[|q|..] == y2[|q|..] == IntToString(d);
    IntToStringInjective(b, d);
  }

  /** What follows the fixed head of the summary fact. */
  lemma CheckedFactTail(a: nat, b: nat)
    ensures CheckedFact(a, b)[20..] == IntToString(a) + (" missing=" + IntToString(b))
  {
    var p := "deps_probe: checked=";
    assert CheckedFact(a, b) == p + (IntToString(a) + (" missing=" + IntToString(b)));
  }

  /** The decimal rendering of a count is all digits. */
  lemma NatRendersAsDigits(n: nat)
    ensures forall i :: 0 <= i < |IntToString(n)| ==> IsDigit(IntToString(n)[i])
  {
    assert IntToString(n) == NatToString(n);
  }

  /** The most missing packages the report names. */
  const MaxListed: nat := 6

  /** The fact naming the missing packages: the first six, comma-separated,
      with " ..." after them when there are more. */
  function MissingListFact(missing: seq<string>): string {
    "deps_missing: " + JoinWith(",", missing[..Min(|missing|, MaxListed)])
      + (if |missing| > MaxListed then " ..." else "")
  }

  /** The missing-packages fact reads back: splitting its list on ','
      gives the first six missing packages, in order, provided no name
      holds a comma. */
  lemma MissingListFactReadsBack(missing: seq<string>)
    requires missing != []
    requires forall i :: 0 <= i < |missing| ==> ',' !in missing[i]
    ensures var f := MissingListFact(missing);
            && StartsWith(f, "deps_missing: ")
            && (|missing| <= MaxListed ==> Split(f[14..], ',') == missing)
            && (|missing| > MaxListed ==> EndsWith(f, " ...") && Split(f[14..|f| - 4], ',') == missing[..MaxListed])
  {
    var shown := missing[..Min(|missing|, MaxListed)];
    var list := JoinWith(",", shown);
    var f := MissingListFact(missing);
    assert "," == [','];
    SplitJoinRoundTrip(shown, ',');
    if |missing| <= MaxListed {
      assert shown == missing;
      assert f == "deps_missing: " + list;
      assert f[14..] == list;
    } else {
      assert f == "deps_missing: " + list + " ...";
      assert f[14..|f| - 4] == list;
    }
  }

  /** The facts recorded once the names are read: that none were found,
      that a lookup raised, or the counts followed, when some are missing,
      by the list of them. */
  function ProbeReport(pkgs: seq<string>, importable: ImportProbe, log: Log): (r: Log)
    ensures Extends(log, r) && |r| <= |log| + 2
    ensures Bounded(log) ==> Bounded(r)
    ensures |pkgs| == 0 ==> r == Add(log, "deps_probe: no_packages_parsed")
    ensures |pkgs| > 0 && MissingPackages(pkgs, importable).None? ==> r == Add(log, "deps_probe: error")
    ensures |pkgs| > 0 && MissingPackages(pkgs, importable).Some? ==>
              var missing := MissingPackages(pkgs, importable).value;
              var log1 := Add(log, CheckedFact(|pkgs|, |missing|));
              r == if missing == [] then log1 else Add(log1, MissingListFact(missing))
  {
    if |pkgs| == 0 then
      Add(log, "deps_probe: no_packages_parsed")
    else
      match MissingPackages(pkgs, importable)
      case None => Add(log, "deps_probe: error")
      case Some(missing) =>
        var log1 := Add(log, CheckedFact(|pkgs|, |missing|));
        if |missing| == 0 then
          log1
        else
          var log2 := Add(log1, MissingListFact(missing));
          ExtendsTransitive(log, log1, log2);
          log2
  }

  /** Where the probe looks for requirements.txt: the directory target, or
      the parent of the entry point. */
  function ProbeBase(t: Target): Option<string> {
    if t.kind == Dir && t.path.Some? then t.path
    else if t.entrypoint.Some? then Some(Parent(t.entrypoint.value))
    else None
  }

  datatype ProbeSource = NotProbed | Unreadable | Lines(lines: seq<string>)

  /** The gate in front of the loop: python targets only, with a base, whose
      requirements.txt is a regular file that can be read. */
  function RequirementsSource(t: Target, fs: FileSystem, readLines: TextReader): ProbeSource {
    if t.runtime != Python then NotProbed
    else match ProbeBase(t)
      case None => NotProbed
      case Some(base) =>
        var req := Join(base, "requirements.txt");
        if !(fs.pathExists(req) && fs.isFile(req)) then NotProbed
        else match readLines(req)
          case None => Unreadable
          case Some(ls) => Lines(ls)
  }

  /** How the probe ends: with its facts logged, or with an exception that
      escapes it. */
  datatype ProbeOutcome = Logged(log: Log) | Raised(log: Log)

  /** `python_deps_probe_from_requirements` as written. */
  function DepsProbe(t: Target, fs: FileSystem, readLines: TextReader, importable: ImportProbe, log: Log): (r: ProbeOutcome)
    ensures r.Raised? <==> RequirementsSource(t, fs, readLines).Lines? && CrashReached(ParseLines(RequirementsSource(t, fs, readLines).lines))
    ensures r.Raised? ==> r.log == log
    ensures Extends(log, r.log)
    ensures Bounded(log) ==> Bounded(r.log)
  {
    match RequirementsSource(t, fs, readLines)
    case NotProbed => Logged(log)
    case Unreadable => Logged(Add(log, "deps_probe: requirements_read_error"))
    case Lines(ls) =>
      match ParseRequirementNamesAsWritten(ls)
      case Crashed => Raised(log)
      case Parsed(pkgs) => Logged(ProbeReport(pkgs, importable, log))
  }

  /** The probe with the corrected loop: it always returns, and agrees with
      the source whenever the source does not raise. */
  function DepsProbeCorrected(t: Target, fs: FileSystem, readLines: TextReader, importable: ImportProbe, log: Log): (r: Log)
    ensures DepsProbe(t, fs, readLines, importable, log).Logged? ==> r == DepsProbe(t, fs, readLines, importable, log).log
    ensures Extends(log, r)
    ensures Bounded(log) ==> Bounded(r)
  {
    match RequirementsSource(t, fs, readLines)
    case NotProbed => log
    case Unreadable => Add(log, "deps_probe: requirements_read_error")
    case Lines(ls) => ProbeReport(ParseRequirementNames(ls), importable, log)
  }
}
