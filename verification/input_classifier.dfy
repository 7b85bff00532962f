/** Deciding whether the single argument is a shell command or a path
    (`unquote_if_wrapped` and `is_command_input` in envcheck.py). */
module InputClassifier {
  import opened Strings

  predicate IsQuote(c: char) {
    c == '\'' || c == '"'
  }

  /** The stripped text starts with a quote character and ends with the same one. */
  predicate Wrapped(s: string) {
    |s| >= 2 && IsQuote(s[0]) && s[|s| - 1] == s[0]
  }

  datatype Unquoted = Unquoted(text: string, wrapped: bool)

  /** `unquote_if_wrapped`: the text between a matching pair of outer
      quotes, or the argument untouched. */
  function Unquote(raw: string): (r: Unquoted)
    ensures r.wrapped <==> Wrapped(Strip(raw))
    ensures r.wrapped ==> |r.text| == |Strip(raw)| - 2
    ensures r.wrapped ==> Strip(raw) == [Strip(raw)[0]] + r.text + [Strip(raw)[0]]
    ensures !r.wrapped ==> r.text == raw
  {
    var s := Strip(raw);
    if Wrapped(s) then Unquoted(Inner(s), true) else Unquoted(raw, false)
  }

  /** The text inside the outer quotes of a wrapped string. */
  function Inner(s: string): (r: string)
    requires Wrapped(s)
    ensures |r| == |s| - 2 && s == [s[0]] + r + [s[0]]
  {
    assert s == [s[0]] + s[1..|s| - 1] + [s[|s| - 1]];
    s[1..|s| - 1]
  }

  /** Wrapping any text in quotes, with any padding, and unquoting gives
      the text back. */
  lemma UnquoteOfQuoted(pad1: string, q: char, text: string, pad2: string)
    requires AllSpace(pad1) && AllSpace(pad2) && IsQuote(q)
    ensures Unquote(pad1 + [q] + text + [q] + pad2) == Unquoted(text, true)
  {
    var core := [q] + text + [q];
    assert pad1 + [q] + text + [q] + pad2 == pad1 + core + pad2;
    StripPadded(pad1, core, pad2);
    assert core[1..|core| - 1] == text;
  }

  /** `is_command_input`: quoted input is a command unless its inner text
      exists; unquoted input is a command only when it holds whitespace
      and does not exist as a whole. */
  function IsCommandInput(raw: string, pathExists: string -> bool): (r: bool)
    ensures Wrapped(Strip(raw)) ==> (r <==> !pathExists(Unquote(raw).text))
    ensures !Wrapped(Strip(raw)) && !HasSpace(Strip(raw)) ==> !r
    ensures !Wrapped(Strip(raw)) && HasSpace(Strip(raw)) ==> (r <==> !pathExists(Strip(raw)))
  {
    var s := Strip(raw);
    StripIdempotent(raw);
    var u := Unquote(s);
    if u.wrapped then
      !pathExists(u.text)
    else if HasSpace(s) then
      !pathExists(s)
    else
      false
  }

  /** A quoted existing path is never taken for a command, whatever
      whitespace it holds. */
  lemma QuotedExistingPathIsNotCommand(pad1: string, q: char, text: string, pad2: string,
                                       pathExists: string -> bool)
    requires AllSpace(pad1) && AllSpace(pad2) && IsQuote(q)
    requires pathExists(text)
    ensures !IsCommandInput(pad1 + [q] + text + [q] + pad2, pathExists)
  {
    UnquoteOfQuoted(pad1, q, text, pad2);
  }
}
