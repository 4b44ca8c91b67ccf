/** Recognising a property placeholder: a string value that is, as a whole,
    a dollar sign, an opening brace, a non-empty name and a closing brace.
    This follows the semantics of the Java regular expression the façade
    compiles: the name may not contain a line terminator (the dot does not
    match one), and the end-of-input anchor also matches just before one
    final line terminator, so `${name}` followed by a single line break is a
    placeholder too. */
module Placeholders {
  import opened Base

  /** The characters Java's regular expressions treat as line terminators. */
  predicate IsLineTerminator(c: char) {
    c == '\n' || c == '\r' || c == '\U{85}' || c == '\U{2028}' || c == '\U{2029}'
  }

  /** What may follow the closing brace: nothing, or one final line terminator. */
  const FinalTerminators: seq<string> := ["", "\r\n", "\n", "\r", "\U{85}", "\U{2028}", "\U{2029}"]

  /** A name the group of the pattern can capture. */
  predicate IsName(n: string) {
    |n| > 0 && forall i :: 0 <= i < |n| ==> !IsLineTerminator(n[i])
  }

  /** Reference definition: `v` is a placeholder whose captured name is `n`. */
  predicate Matches(v: string, n: string) {
    IsName(n) && exists k :: 0 <= k < |FinalTerminators| && v == "${" + n + "}" + FinalTerminators[k]
  }

  /** `v` without its one final line terminator, if it has one. */
  function StripFinalTerminator(v: string): string {
    if |v| >= 2 && v[|v| - 2..] == "\r\n" then v[..|v| - 2]
    else if |v| >= 1 && IsLineTerminator(v[|v| - 1]) then v[..|v| - 1]
    else v
  }

  /** The index in FinalTerminators of the one-character terminator `c`. */
  function TerminatorIndex(c: char): (k: nat)
    requires IsLineTerminator(c)
    ensures 2 <= k < |FinalTerminators| && FinalTerminators[k] == [c]
  {
    if c == '\n' then 2 else if c == '\r' then 3 else if c == '\U{85}' then 4
    else if c == '\U{2028}' then 5 else 6
  }

  predicate EndsWithCrLf(v: string) {
    |v| >= 2 && v[|v| - 2..] == "\r\n"
  }

  predicate EndsWithSingleTerminator(v: string) {
    !EndsWithCrLf(v) && |v| >= 1 && IsLineTerminator(v[|v| - 1])
  }

  lemma SplitCrLf(v: string)
    requires EndsWithCrLf(v)
    ensures v == StripFinalTerminator(v) + FinalTerminators[1]
  {
    assert StripFinalTerminator(v) == v[..|v| - 2];
    assert v == v[..|v| - 2] + v[|v| - 2..];
  }

  lemma SplitSingleTerminator(v: string)
    requires EndsWithSingleTerminator(v)
    ensures v == StripFinalTerminator(v) + FinalTerminators[TerminatorIndex(v[|v| - 1])]
  {
    assert StripFinalTerminator(v) == v[..|v| - 1];
    assert v == v[..|v| - 1] + [v[|v| - 1]];
  }

  lemma SplitNoTerminator(v: string)
    requires !EndsWithCrLf(v) && !EndsWithSingleTerminator(v)
    ensures v == StripFinalTerminator(v) + FinalTerminators[0]
  {
    assert StripFinalTerminator(v) == v;
    assert v + "" == v;
  }

  /** Which final terminator `v` ends with (index 0: none). */
  ghost function FinalTerminatorIndex(v: string): (k: nat)
    ensures k < |FinalTerminators| && v == StripFinalTerminator(v) + FinalTerminators[k]
  {
    if EndsWithCrLf(v) then SplitCrLf(v); 1
    else if EndsWithSingleTerminator(v) then SplitSingleTerminator(v); TerminatorIndex(v[|v| - 1])
    else SplitNoTerminator(v); 0
  }

  /** The name captured from `v`, or None when `v` is not a placeholder; a
      captured name is one `v` matches with. */
  function PlaceholderName(v: string): (name: Option<string>)
    ensures name.Some? ==> Matches(v, name.value)
  {
    var body := StripFinalTerminator(v);
    if |body| >= 3 && body[..2] == "${" && body[|body| - 1] == '}' && IsName(body[2..|body| - 1])
    then
      var n := body[2..|body| - 1];
      assert body == "${" + n + "}";
      assert v == "${" + n + "}" + FinalTerminators[FinalTerminatorIndex(v)];
      Some(n)
    else None
  }

  lemma StripOfPlaceholder(n: string, k: nat)
    requires IsName(n) && k < |FinalTerminators|
    ensures StripFinalTerminator("${" + n + "}" + FinalTerminators[k]) == "${" + n + "}"
  {
    var body := "${" + n + "}";
    var v := body + FinalTerminators[k];
    assert body[|body| - 1] == '}';
    if k == 0 {
      assert v == body;
    } else if k == 1 {
      assert v[|v| - 2..] == "\r\n";
      assert v[..|v| - 2] == body;
    } else {
      assert |FinalTerminators[k]| == 1;
      assert v[|v| - 1] == FinalTerminators[k][0];
      assert v[|v| - 2] == '}';
      assert v[|v| - 2..] != "\r\n";
      assert v[..|v| - 1] == body;
    }
  }

  /** Whenever `v` matches with name `n`, PlaceholderName captures `n`. */
  lemma PlaceholderNameComplete(v: string, n: string)
    requires Matches(v, n)
    ensures PlaceholderName(v) == Some(n)
  {
    var k :| 0 <= k < |FinalTerminators| && v == "${" + n + "}" + FinalTerminators[k];
    StripOfPlaceholder(n, k);
    var body := StripFinalTerminator(v);
    assert body == "${" + n + "}";
    assert body[..2] == "${";
    assert body[2..|body| - 1] == n;
  }

  /** PlaceholderName agrees with the reference definition in both directions:
      what it returns is a name `v` matches with, and whenever `v` matches
      with some name, it returns that name (so the name is unique). The
      first direction is PlaceholderName's own contract, repeated here so
      that both directions stand side by side. */
  lemma PlaceholderNameMatches(v: string)
    ensures PlaceholderName(v).Some? ==> Matches(v, PlaceholderName(v).value)
    ensures forall n :: Matches(v, n) ==> PlaceholderName(v) == Some(n)
  {
    forall n | Matches(v, n) ensures PlaceholderName(v) == Some(n) {
      PlaceholderNameComplete(v, n);
    }
  }
}
