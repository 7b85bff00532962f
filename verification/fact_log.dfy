/** The fact log (`Log` in envcheck.py): at most ten short, single-line
    facts, kept in the order they were added. */
module FactLog {
  import opened Strings

  const MaxLines: nat := 10
  const MaxEntryLength: nat := 240

  type Log = seq<string>

  /** What a stored fact looks like: at most 240 characters, no newline. */
  predicate WellFormedEntry(e: string) {
    |e| <= MaxEntryLength && '\n' !in e
  }

  /** What the log file may hold: at most ten well-formed facts. */
  predicate Bounded(log: Log) {
    |log| <= MaxLines && forall i :: 0 <= i < |log| ==> WellFormedEntry(log[i])
  }

  /** `later` keeps every fact of `earlier`, in place, and may add more. */
  predicate Extends(earlier: Log, later: Log) {
    |earlier| <= |later| && later[..|earlier|] == earlier
  }

  /** The stored form of a fact: stripped, newlines turned into spaces,
      cut to 240 characters. */
  function Sanitize(line: string): (e: string)
    ensures WellFormedEntry(e)
    ensures |e| == Min(|Strip(line)|, MaxEntryLength)
    ensures forall i :: 0 <= i < |e| ==>
      e[i] == (if Strip(line)[i] == '\n' then ' ' else Strip(line)[i])
  {
    var s := ReplaceChar(Strip(line), '\n', ' ');
    s[..Min(|s|, MaxEntryLength)]
  }

  /** `Log.add`: append the sanitized fact while there is room; once ten
      facts are stored, further facts are dropped. */
  function Add(log: Log, line: string): (r: Log)
    ensures Extends(log, r)
    ensures |log| < MaxLines ==> |r| == |log| + 1 && r[|log|] == Sanitize(line)
    ensures |log| >= MaxLines ==> r == log
    ensures Bounded(log) ==> Bounded(r)
  {
    if |log| < MaxLines then log + [Sanitize(line)] else log
  }

  /** Adding each fact of `lines` in turn. */
  function AddAll(log: Log, lines: seq<string>): (r: Log)
    ensures Extends(log, r)
    ensures Bounded(log) ==> Bounded(r)
    decreases |lines|
  {
    if |lines| == 0 then
      log
    else
      var next := Add(log, lines[0]);
      var r := AddAll(next, lines[1..]);
      ExtendsTransitive(log, next, r);
      r
  }

  lemma ExtendsTransitive(a: Log, b: Log, c: Log)
    requires Extends(a, b) && Extends(b, c)
    ensures Extends(a, c)
  {
    assert c[..|a|] == c[..|b|][..|a|];
  }

  /** A fact that is already stripped, single-line and short is stored verbatim. */
  lemma CleanFactStoredVerbatim(log: Log, line: string)
    requires |log| < MaxLines
    requires Trimmed(line) && '\n' !in line && |line| <= MaxEntryLength
    ensures Add(log, line) == log + [line]
  {
    StripOfTrimmed(line);
    var e := Sanitize(line);
    assert |e| == |line|;
    assert forall i :: 0 <= i < |e| ==> e[i] == line[i];
    assert e == line;
  }

  /** However many facts are added to an empty log, it stays bounded, and
      the facts beyond the tenth leave it unchanged. */
  lemma {:induction false} ManyFactsStayBounded(log: Log, lines: seq<string>)
    requires Bounded(log)
    ensures Bounded(AddAll(log, lines))
    ensures |log| == MaxLines ==> AddAll(log, lines) == log
    decreases |lines|
  {
    if |lines| > 0 {
      ManyFactsStayBounded(Add(log, lines[0]), lines[1..]);
    }
  }
}
