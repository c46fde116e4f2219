/** The ways to spell a word for the restricted shells: pieces in double quotes,
    in single quotes, with backslashes, bare, or as a template region. */
module Spelling {
  import opened Text
  import opened Quoting

  datatype Piece =
    | DoubleQuoted(text: string)
    | SingleQuoted(text: string)
    | Backslashed(text: string)
    | Bare(text: string)
    | Region(inner: string)

  function Backslashes(text: string): string {
    if text == [] then [] else ['\\', text[0]] + Backslashes(text[1..])
  }

  function RegionText(inner: string): string {
    "{{" + inner + "}}"
  }

  /** How a piece is written. */
  function Spelled(p: Piece): string {
    match p
    case DoubleQuoted(text) => Quoted(text)
    case SingleQuoted(text) => "'" + text + "'"
    case Backslashed(text) => Backslashes(text)
    case Bare(text) => text
    case Region(inner) => RegionText(inner)
  }

  /** What a piece says. */
  function Said(p: Piece): string {
    if p.Region? then RegionText(p.inner) else p.text
  }

  /** A word is made of pieces, written one after another. */
  type Word = seq<Piece>

  function SpelledFrom(w: Word, k: nat): string
    requires k <= |w|
    decreases |w| - k
  {
    if k == |w| then [] else Spelled(w[k]) + SpelledFrom(w, k + 1)
  }

  function SaidFrom(w: Word, k: nat): string
    requires k <= |w|
    decreases |w| - k
  {
    if k == |w| then [] else Said(w[k]) + SaidFrom(w, k + 1)
  }

  /** The words from `k` on, separated by single spaces. */
  function LineFrom(words: seq<Word>, k: nat): string
    requires k < |words|
    decreases |words| - k
  {
    SpelledFrom(words[k], 0) + if k == |words| - 1 then [] else " " + LineFrom(words, k + 1)
  }

  function WordsFrom(words: seq<Word>, k: nat): (r: seq<string>)
    requires k <= |words|
    ensures |r| == |words| - k
    decreases |words| - k
  {
    if k == |words| then [] else [SaidFrom(words[k], 0)] + WordsFrom(words, k + 1)
  }

  lemma {:induction false} OnlyPiece(w: Word, k: nat)
    requires k == |w| - 1
    ensures SpelledFrom(w, k) == Spelled(w[k]) && SaidFrom(w, k) == Said(w[k])
  {
    assert Spelled(w[k]) + [] == Spelled(w[k]) && Said(w[k]) + [] == Said(w[k]);
  }

  lemma {:induction false} LastWord(words: seq<Word>, k: nat)
    requires k == |words| - 1
    ensures LineFrom(words, k) == SpelledFrom(words[k], 0) && WordsFrom(words, k) == [SaidFrom(words[k], 0)]
  {
    assert SpelledFrom(words[k], 0) + [] == SpelledFrom(words[k], 0);
    assert [SaidFrom(words[k], 0)] + [] == [SaidFrom(words[k], 0)];
  }

  lemma ShiftWord(before: seq<string>, said: string, more: seq<string>)
    requires more != []
    ensures var all := [said] + more;
            before + [said] + more[..|more| - 1] == before + all[..|all| - 1] && all[|all| - 1] == more[|more| - 1]
  {}
}
