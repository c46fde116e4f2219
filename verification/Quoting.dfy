/** Printing words for the restricted shell grammar: every word in double
    quotes, with the four special characters escaped. */
module Quoting {
  import opened Text

  predicate Special(c: char) {
    c == '"' || c == '\\' || c == '$' || c == '`'
  }

  function EscapedChar(c: char): string {
    if Special(c) then ['\\', c] else [c]
  }

  function Escaped(word: string): string {
    if word == [] then [] else EscapedChar(word[0]) + Escaped(word[1..])
  }

  function Quoted(word: string): string {
    "\"" + Escaped(word) + "\""
  }

  /** The words in order, each quoted, separated by single spaces. */
  function QuotedLine(words: seq<string>): string {
    if words == [] then []
    else if |words| == 1 then Quoted(words[0])
    else Quoted(words[0]) + " " + QuotedLine(words[1..])
  }

  method AppendQuotedArgument(output: string, argument: string) returns (r: string)
    ensures r == output + Quoted(argument)
  {
    r := output + "\"";
    ghost var begun := r;
    for i := 0 to |argument|
      invariant r + Escaped(argument[i..]) == begun + Escaped(argument)
    {
      assert argument[i..][1..] == argument[i + 1..];
      Assoc(r, EscapedChar(argument[i]), Escaped(argument[i + 1..]));
      if Special(argument[i]) {
        Assoc(r, ['\\'], [argument[i]]);
        r := r + ['\\'];
      }
      r := r + [argument[i]];
    }
    assert r == begun + Escaped(argument);
    Assoc(output, "\"", Escaped(argument));
    Assoc(output, "\"" + Escaped(argument), "\"");
    r := r + "\"";
  }

  // ---------- Text at a position ----------

  /** The text `t` stands in `s` at position `i`. */
  predicate At(s: string, i: nat, t: string) {
    i + |t| <= |s| && s[i..i + |t|] == t
  }

  lemma {:induction false} AtConcat(s: string, i: nat, a: string, b: string)
    requires At(s, i, a + b)
    ensures At(s, i, a) && At(s, i + |a|, b)
  {
    var t := s[i..i + |a + b|];
    assert s[i..i + |a|] == t[..|a|] == a;
    assert s[i + |a|..i + |a| + |b|] == t[|a|..] == b;
  }

  lemma {:induction false} AtChar(s: string, i: nat, t: string)
    requires At(s, i, t) && t != []
    ensures i < |s| && s[i] == t[0] && At(s, i + 1, t[1..])
  {
    assert s[i..i + |t|][0] == s[i];
    assert t == [t[0]] + t[1..];
    AtConcat(s, i, [t[0]], t[1..]);
  }

  lemma AtWhole(s: string)
    ensures At(s, 0, s)
  {
    assert s[0..|s|] == s;
  }
}
