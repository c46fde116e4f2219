/** The Rust tokenizer for command fences: a loop over characters with a
    current token, a quote state and template regions outside quotes. */
module Command {
  import opened Text
  import opened Quoting
  import opened Spelling

  datatype Quote = Unquoted | Single | Double

  datatype TokenError = UnclosedTemplate | Newline | TrailingEscape | Expansion | Operator | UnclosedQuote

  /** The position in the source and the loop variables. */
  datatype State = State(i: nat, tokens: seq<string>, token: string, started: bool, quote: Quote)

  predicate IsOperator(c: char) {
    || c == '|' || c == ';' || c == '&' || c == '`' || c == '<' || c == '>' || c == '$' || c == '('
    || c == ')' || c == '{' || c == '}' || c == '*' || c == '?' || c == '[' || c == ']'
  }

  /** Where the template region that is open at `j` ends. */
  function TemplateEnd(s: string, j: nat): (r: Result<nat, TokenError>)
    ensures r.Ok? ==> j < r.value <= |s|
    decreases |s| - j
  {
    if j >= |s| then Err(UnclosedTemplate)
    else if s[j] == '\n' || s[j] == '\r' then Err(Newline)
    else if s[j] == '}' && j + 1 < |s| && s[j + 1] == '}' then Ok(j + 2)
    else TemplateEnd(s, j + 1)
  }

  predicate TemplateAt(s: string, st: State) {
    st.quote == Unquoted && st.i + 1 < |s| && s[st.i] == '{' && s[st.i + 1] == '{'
  }

  function Push(st: State, text: string, next: nat): State {
    st.(i := next, token := st.token + text, started := true)
  }

  /** The escape at `i`: the character after it is taken as it is. */
  function PushEscaped(s: string, st: State): (r: Result<State, TokenError>)
    ensures r.Ok? ==> st.i < r.value.i <= |s|
  {
    if st.i + 1 >= |s| then Err(TrailingEscape) else Ok(Push(st, [s[st.i + 1]], st.i + 2))
  }

  function StepQuoted(s: string, st: State): (r: Result<State, TokenError>)
    requires st.i < |s| && st.quote != Unquoted
    ensures r.Ok? ==> st.i < r.value.i <= |s|
  {
    var c := s[st.i];
    if c == (if st.quote == Single then '\'' else '"') then Ok(st.(i := st.i + 1, quote := Unquoted))
    else if st.quote == Single then Ok(Push(st, [c], st.i + 1))
    else if c == '\\' then PushEscaped(s, st)
    else if c == '$' || c == '`' then Err(Expansion)
    else Ok(Push(st, [c], st.i + 1))
  }

  function EndToken(st: State): State {
    if st.started then st.(tokens := st.tokens + [st.token], token := [], started := false) else st
  }

  function StepUnquoted(s: string, st: State): (r: Result<State, TokenError>)
    requires st.i < |s| && st.quote == Unquoted
    ensures r.Ok? ==> st.i < r.value.i <= |s|
  {
    var c := s[st.i];
    if c == '\'' || c == '"' then
      Ok(st.(i := st.i + 1, quote := if c == '\'' then Single else Double, started := true))
    else if c == '\\' then
      if st.i + 1 < |s| && s[st.i + 1] == '\n' then Ok(st.(i := st.i + 2)) else PushEscaped(s, st)
    else if c == '\n' || c == '\r' then Err(Newline)
    else if IsSpace(c) then Ok(EndToken(st).(i := st.i + 1))
    else if IsOperator(c) then Err(Operator)
    else Ok(Push(st, [c], st.i + 1))
  }

  /** One turn of the loop. */
  function Step(s: string, st: State): (r: Result<State, TokenError>)
    requires st.i < |s|
    ensures r.Ok? ==> st.i < r.value.i <= |s|
  {
    if TemplateAt(s, st) then
      match TemplateEnd(s, st.i + 2)
      case Err(e) => Err(e)
      case Ok(end) => Ok(Push(st, s[st.i..end], end))
    else if st.quote == Unquoted then StepUnquoted(s, st)
    else StepQuoted(s, st)
  }

  function Finish(st: State): Result<seq<string>, TokenError> {
    if st.quote != Unquoted then Err(UnclosedQuote)
    else if st.started then Ok(st.tokens + [st.token])
    else Ok(st.tokens)
  }

  function Run(s: string, st: State): Result<seq<string>, TokenError>
    decreases |s| - st.i
  {
    if st.i >= |s| then Finish(st)
    else match Step(s, st)
         case Err(e) => Err(e)
         case Ok(next) => Run(s, next)
  }

  function TrimNewlines(s: string): string {
    if s != [] && (s[|s| - 1] == '\r' || s[|s| - 1] == '\n') then TrimNewlines(s[..|s| - 1]) else s
  }

  const START := State(0, [], [], false, Unquoted)

  function Tokenize(source: string): Result<seq<string>, TokenError> {
    Run(TrimNewlines(source), START)
  }

  // ---------- The loop ----------

  method ScanTemplate(s: string, from: nat) returns (r: Result<nat, TokenError>)
    ensures r == TemplateEnd(s, from)
  {
    var j := from;
    while j < |s|
      invariant TemplateEnd(s, j) == TemplateEnd(s, from)
    {
      if s[j] == '\n' || s[j] == '\r' {
        return Err(Newline);
      }
      if s[j] == '}' && j + 1 < |s| && s[j + 1] == '}' {
        return Ok(j + 2);
      }
      j := j + 1;
    }
    r := Err(UnclosedTemplate);
  }

  method TokenizeCommand(source: string) returns (r: Result<seq<string>, TokenError>)
    ensures r == Tokenize(source)
  {
    var s := TrimNewlines(source);
    var i := 0;
    var tokens: seq<string> := [];
    var token: string := [];
    var started := false;
    var quote := Unquoted;
    while i < |s|
      invariant 0 <= i <= |s|
      invariant Run(s, State(i, tokens, token, started, quote)) == Tokenize(source)
    {
      ghost var st := State(i, tokens, token, started, quote);
      var c := s[i];
      if quote == Unquoted && c == '{' && i + 1 < |s| && s[i + 1] == '{' {
        var end := ScanTemplate(s, i + 2);
        if end.Err? {
          return Err(end.error);
        }
        token, started, i := token + s[i..end.value], true, end.value;
      } else if quote != Unquoted {
        if c == (if quote == Single then '\'' else '"') {
          quote, i := Unquoted, i + 1;
        } else if quote == Double && c == '\\' {
          if i + 1 >= |s| {
            return Err(TrailingEscape);
          }
          token, started, i := token + [s[i + 1]], true, i + 2;
        } else if quote == Double && (c == '$' || c == '`') {
          return Err(Expansion);
        } else {
          token, started, i := token + [c], true, i + 1;
        }
      } else if c == '\'' || c == '"' {
        quote, started, i := if c == '\'' then Single else Double, true, i + 1;
      } else if c == '\\' {
        if i + 1 < |s| && s[i + 1] == '\n' {
          i := i + 2;
        } else {
          if i + 1 >= |s| {
            return Err(TrailingEscape);
          }
          token, started, i := token + [s[i + 1]], true, i + 2;
        }
      } else if c == '\n' || c == '\r' {
        return Err(Newline);
      } else if IsSpace(c) {
        if started {
          tokens, token, started := tokens + [token], [], false;
        }
        i := i + 1;
      } else if IsOperator(c) {
        return Err(Operator);
      } else {
        token, started, i := token + [c], true, i + 1;
      }
      assert Step(s, st) == Ok(State(i, tokens, token, started, quote));
    }
    r := Finish(State(i, tokens, token, started, quote));
  }

  // ---------- Reading words back ----------

  /** Two states from which the rest of the source reads the same. */
  ghost predicate Leads(s: string, a: State, b: State) {
    Run(s, a) == Run(s, b)
  }

  lemma LeadsTo(s: string, a: State, b: State, c: State)
    requires Leads(s, a, b) && Leads(s, b, c)
    ensures Leads(s, a, c)
  {}

  lemma {:induction false} StepTo(s: string, st: State, next: State)
    requires st.i < |s| && Step(s, st) == Ok(next)
    ensures Leads(s, st, next)
  {}

  lemma {:induction false} ReadEscapedChar(s: string, st: State, c: char)
    requires st.quote == Double && At(s, st.i, EscapedChar(c))
    ensures Leads(s, st, Push(st, [c], st.i + |EscapedChar(c)|))
  {
    AtChar(s, st.i, EscapedChar(c));
    if Special(c) {
      AtChar(s, st.i + 1, [c]);
    }
    StepTo(s, st, Push(st, [c], st.i + |EscapedChar(c)|));
  }

  lemma {:induction false} ReadClosingQuote(s: string, st: State)
    requires st.quote == Double && At(s, st.i, "\"")
    ensures Leads(s, st, st.(i := st.i + 1, quote := Unquoted))
  {
    AtChar(s, st.i, "\"");
    StepTo(s, st, st.(i := st.i + 1, quote := Unquoted));
  }

  lemma {:induction false} UnpackEscaped(s: string, i: nat, word: string)
    requires word != [] && At(s, i, Escaped(word) + "\"")
    ensures At(s, i, EscapedChar(word[0]))
    ensures At(s, i + |EscapedChar(word[0])|, Escaped(word[1..]) + "\"")
    ensures |Escaped(word)| == |EscapedChar(word[0])| + |Escaped(word[1..])|
  {
    Assoc(EscapedChar(word[0]), Escaped(word[1..]), "\"");
    AtConcat(s, i, EscapedChar(word[0]), Escaped(word[1..]) + "\"");
  }

  /** The state after the rest of a quoted word and its closing quote. */
  function Closed(st: State, word: string): State {
    State(st.i + |Escaped(word)| + 1, st.tokens, st.token + word, true, Unquoted)
  }

  lemma {:induction false} ReadFirst(s: string, st: State, word: string) returns (next: State)
    requires st.quote == Double && st.started && word != [] && At(s, st.i, Escaped(word) + "\"")
    ensures Leads(s, st, next) && next.quote == Double && next.started
    ensures At(s, next.i, Escaped(word[1..]) + "\"") && Closed(next, word[1..]) == Closed(st, word)
  {
    next := Push(st, [word[0]], st.i + |EscapedChar(word[0])|);
    UnpackEscaped(s, st.i, word);
    ReadEscapedChar(s, st, word[0]);
    ShiftFirst(st.token, word);
  }

  /** Inside double quotes, escaped text and the closing quote give the text. */
  lemma {:induction false} ReadEscaped(s: string, st: State, word: string)
    requires st.quote == Double && st.started && At(s, st.i, Escaped(word) + "\"")
    ensures Leads(s, st, Closed(st, word))
    decreases word
  {
    if word == [] {
      ReadClosingQuote(s, st);
      assert st.token + word == st.token;
    } else {
      var next := ReadFirst(s, st, word);
      ReadEscaped(s, next, word[1..]);
      LeadsTo(s, st, next, Closed(st, word));
    }
  }

  /** A state between words, after the words in `tokens`. */
  function Between(i: nat, tokens: seq<string>): State {
    State(i, tokens, [], false, Unquoted)
  }

  /** A state right after `word`. */
  function After(i: nat, tokens: seq<string>, word: string): State {
    State(i, tokens, word, true, Unquoted)
  }

  lemma {:induction false} ReadSpace(s: string, i: nat, tokens: seq<string>, word: string)
    requires At(s, i, " ")
    ensures Leads(s, After(i, tokens, word), Between(i + 1, tokens + [word]))
  {
    AtChar(s, i, " ");
    StepTo(s, After(i, tokens, word), Between(i + 1, tokens + [word]));
  }

  // ---------- Template words ----------

  /** Text that the scanner for template regions passes over. */
  predicate Inline(t: string) {
    '}' !in t && '\n' !in t && '\r' !in t
  }

  lemma {:induction false} ScanInline(s: string, j: nat, inner: string)
    requires Inline(inner) && At(s, j, inner + "}}")
    ensures TemplateEnd(s, j) == Ok(j + |inner| + 2)
    decreases inner
  {
    AtChar(s, j, inner + "}}");
    if inner == [] {
      AtChar(s, j + 1, "}");
    } else {
      assert (inner + "}}")[1..] == inner[1..] + "}}";
      ScanInline(s, j + 1, inner[1..]);
    }
  }

  /** The source ends after `word`. */
  lemma {:induction false} ReadEnd(s: string, a: State, tokens: seq<string>, word: string)
    requires Leads(s, a, After(|s|, tokens, word))
    ensures Run(s, a) == Ok(tokens + [word])
  {}

  lemma {:induction false} QuotedLineEnds(words: seq<string>)
    requires words != []
    ensures QuotedLine(words) != [] && QuotedLine(words)[|QuotedLine(words)| - 1] == '"'
  {
    if |words| > 1 {
      QuotedLineEnds(words[1..]);
    }
  }

  // ---------- Every way to spell a word ----------

  /** A character that stands for itself outside quotes. */
  predicate BareChar(c: char) {
    c != '\'' && c != '"' && c != '\\' && c != '\n' && c != '\r' && !IsSpace(c) && !IsOperator(c)
  }

  /** The pieces that this grammar can spell. In single quotes everything is
      literal, templates and escapes included. */
  predicate Valid(p: Piece) {
    match p
    case DoubleQuoted(_) => true
    case SingleQuoted(text) => '\'' !in text
    case Backslashed(text) => text != [] && '\n' !in text
    case Bare(text) => text != [] && forall k :: 0 <= k < |text| ==> BareChar(text[k])
    case Region(inner) => Inline(inner)
  }

  ghost predicate ValidWord(w: Word) {
    w != [] && forall k :: 0 <= k < |w| ==> Valid(w[k])
  }

  lemma {:induction false} ReadSingle(s: string, st: State, text: string)
    requires st.quote == Single && st.started && '\'' !in text && At(s, st.i, text + "'")
    ensures Leads(s, st, State(st.i + |text| + 1, st.tokens, st.token + text, true, Unquoted))
    decreases text
  {
    AtChar(s, st.i, text + "'");
    if text == [] {
      assert st.token + text == st.token;
      StepTo(s, st, st.(i := st.i + 1, quote := Unquoted));
    } else {
      var next := Push(st, [text[0]], st.i + 1);
      assert (text + "'")[1..] == text[1..] + "'";
      StepTo(s, st, next);
      ReadSingle(s, next, text[1..]);
      ShiftFirst(st.token, text);
      LeadsTo(s, st, next, State(st.i + |text| + 1, st.tokens, st.token + text, true, Unquoted));
    }
  }

  lemma {:induction false} ReadBackslashes(s: string, st: State, text: string)
    requires st.quote == Unquoted && '\n' !in text && At(s, st.i, Backslashes(text)) && (text == [] ==> st.started)
    ensures Leads(s, st, Push(st, text, st.i + |Backslashes(text)|))
    decreases text
  {
    if text == [] {
      assert st.token + text == st.token;
    } else {
      var next := Push(st, [text[0]], st.i + 2);
      AtConcat(s, st.i, ['\\', text[0]], Backslashes(text[1..]));
      AtChar(s, st.i, ['\\', text[0]]);
      AtChar(s, st.i + 1, [text[0]]);
      StepTo(s, st, next);
      ReadBackslashes(s, next, text[1..]);
      ShiftFirst(st.token, text);
      LeadsTo(s, st, next, Push(st, text, st.i + |Backslashes(text)|));
    }
  }

  lemma {:induction false} ReadBare(s: string, st: State, text: string)
    requires st.quote == Unquoted && At(s, st.i, text) && (text == [] ==> st.started)
    requires forall k :: 0 <= k < |text| ==> BareChar(text[k])
    ensures Leads(s, st, Push(st, text, st.i + |text|))
    decreases text
  {
    if text == [] {
      assert st.token + text == st.token;
    } else {
      var next := Push(st, [text[0]], st.i + 1);
      AtChar(s, st.i, text);
      StepTo(s, st, next);
      ReadBare(s, next, text[1..]);
      ShiftFirst(st.token, text);
      LeadsTo(s, st, next, Push(st, text, st.i + |text|));
    }
  }

  lemma {:induction false} ReadRegion(s: string, st: State, inner: string)
    requires st.quote == Unquoted && Inline(inner) && At(s, st.i, RegionText(inner))
    ensures Leads(s, st, Push(st, RegionText(inner), st.i + |RegionText(inner)|))
  {
    Assoc("{{", inner, "}}");
    AtConcat(s, st.i, "{{", inner + "}}");
    AtChar(s, st.i, "{{");
    AtChar(s, st.i + 1, "{");
    ScanInline(s, st.i + 2, inner);
    StepTo(s, st, Push(st, RegionText(inner), st.i + |RegionText(inner)|));
  }

  lemma {:induction false} ReadDoubleQuoted(s: string, st: State, text: string)
    requires st.quote == Unquoted && At(s, st.i, Quoted(text))
    ensures Leads(s, st, Push(st, text, st.i + |Quoted(text)|))
  {
    Assoc("\"", Escaped(text), "\"");
    AtConcat(s, st.i, "\"", Escaped(text) + "\"");
    AtChar(s, st.i, "\"");
    var inside := st.(i := st.i + 1, quote := Double, started := true);
    StepTo(s, st, inside);
    ReadEscaped(s, inside, text);
    LeadsTo(s, st, inside, Push(st, text, st.i + |Quoted(text)|));
  }

  lemma {:induction false} ReadSingleQuoted(s: string, st: State, text: string)
    requires st.quote == Unquoted && '\'' !in text && At(s, st.i, "'" + text + "'")
    ensures Leads(s, st, Push(st, text, st.i + |text| + 2))
  {
    Assoc("'", text, "'");
    AtConcat(s, st.i, "'", text + "'");
    AtChar(s, st.i, "'");
    var inside := st.(i := st.i + 1, quote := Single, started := true);
    StepTo(s, st, inside);
    ReadSingle(s, inside, text);
    LeadsTo(s, st, inside, Push(st, text, st.i + |text| + 2));
  }

  /** Every piece reads as what it says, wherever it stands in a word. */
  lemma {:induction false} ReadPiece(s: string, st: State, p: Piece)
    requires st.quote == Unquoted && Valid(p) && At(s, st.i, Spelled(p))
    ensures Leads(s, st, Push(st, Said(p), st.i + |Spelled(p)|))
  {
    match p
    case DoubleQuoted(text) => ReadDoubleQuoted(s, st, text);
    case SingleQuoted(text) => ReadSingleQuoted(s, st, text);
    case Backslashed(text) => ReadBackslashes(s, st, text);
    case Bare(text) => ReadBare(s, st, text);
    case Region(inner) => ReadRegion(s, st, inner);
  }

  /** Wherever `text` stands outside quotes, it adds `said` to the word. */
  ghost predicate ReadsAs(text: string, said: string) {
    forall s: string, st: State :: st.quote == Unquoted && At(s, st.i, text) ==>
                                     Leads(s, st, Push(st, said, st.i + |text|))
  }

  lemma {:induction false} ReadsAt(text: string, said: string, s: string, st: State)
    requires ReadsAs(text, said) && st.quote == Unquoted && At(s, st.i, text)
    ensures Leads(s, st, Push(st, said, st.i + |text|))
  {}

  lemma {:induction false} ReadsBoth(a: string, x: string, b: string, y: string, s: string, st: State)
    requires ReadsAs(a, x) && ReadsAs(b, y) && st.quote == Unquoted && At(s, st.i, a + b)
    ensures Leads(s, st, Push(st, x + y, st.i + |a + b|))
  {
    var next := Push(st, x, st.i + |a|);
    AtConcat(s, st.i, a, b);
    ReadsAt(a, x, s, st);
    ReadsAt(b, y, s, next);
    Assoc(st.token, x, y);
    LeadsTo(s, st, next, Push(st, x + y, st.i + |a + b|));
  }

  lemma {:induction false} ReadsConcat(a: string, x: string, b: string, y: string)
    requires ReadsAs(a, x) && ReadsAs(b, y)
    ensures ReadsAs(a + b, x + y)
  {
    forall s: string, st: State | st.quote == Unquoted && At(s, st.i, a + b)
      ensures Leads(s, st, Push(st, x + y, st.i + |a + b|))
    {
      ReadsBoth(a, x, b, y, s, st);
    }
  }

  lemma {:induction false} PieceReads(p: Piece)
    requires Valid(p)
    ensures ReadsAs(Spelled(p), Said(p))
  {
    forall s: string, st: State | st.quote == Unquoted && At(s, st.i, Spelled(p))
      ensures Leads(s, st, Push(st, Said(p), st.i + |Spelled(p)|))
    {
      ReadPiece(s, st, p);
    }
  }

  lemma {:induction false} PiecesRead(w: Word, k: nat)
    requires k < |w| && forall j :: k <= j < |w| ==> Valid(w[j])
    ensures ReadsAs(SpelledFrom(w, k), SaidFrom(w, k))
    decreases |w| - k
  {
    PieceReads(w[k]);
    if k == |w| - 1 {
      OnlyPiece(w, k);
    } else {
      PiecesRead(w, k + 1);
      ReadsConcat(Spelled(w[k]), Said(w[k]), SpelledFrom(w, k + 1), SaidFrom(w, k + 1));
    }
  }

  /** The text reads as the words: from between two words to the end of the
      last one. */
  ghost predicate ReadsWords(text: string, words: seq<string>) {
    && words != []
    && forall s: string, i: nat, tokens: seq<string> ::
         At(s, i, text) ==> ReadsWordsAt(s, i, tokens, text, words)
  }

  ghost predicate ReadsWordsAt(s: string, i: nat, tokens: seq<string>, text: string, words: seq<string>)
    requires words != []
  {
    Leads(s, Between(i, tokens), After(i + |text|, tokens + words[..|words| - 1], words[|words| - 1]))
  }

  lemma {:induction false} WordReads(text: string, said: string)
    requires ReadsAs(text, said)
    ensures ReadsWords(text, [said])
  {
    forall s: string, i: nat, tokens: seq<string> | At(s, i, text)
      ensures ReadsWordsAt(s, i, tokens, text, [said])
    {
      ReadsAt(text, said, s, Between(i, tokens));
      assert [] + said == said && tokens + [] == tokens;
    }
  }

  lemma {:induction false} ReadsFirst(text: string, said: string, s: string, i: nat, tokens: seq<string>)
    requires ReadsAs(text, said) && At(s, i, text) && At(s, i + |text|, " ")
    ensures Leads(s, Between(i, tokens), Between(i + |text| + 1, tokens + [said]))
  {
    ReadsAt(text, said, s, Between(i, tokens));
    assert [] + said == said;
    ReadSpace(s, i + |text|, tokens, said);
    LeadsTo(s, Between(i, tokens), After(i + |text|, tokens, said), Between(i + |text| + 1, tokens + [said]));
  }

  lemma {:induction false} ReadsRest(s: string, start: State, i: nat, tokens: seq<string>, said: string, rest: string,
                                    more: seq<string>)
    requires more != [] && Leads(s, start, Between(i, tokens + [said]))
    requires ReadsWordsAt(s, i, tokens + [said], rest, more)
    ensures var all := [said] + more;
            Leads(s, start, After(i + |rest|, tokens + all[..|all| - 1], all[|all| - 1]))
  {
    ShiftWord(tokens, said, more);
    LeadsTo(s, start, Between(i, tokens + [said]),
            After(i + |rest|, tokens + [said] + more[..|more| - 1], more[|more| - 1]));
  }

  lemma {:induction false} ReadsWordsHere(text: string, said: seq<string>, s: string, i: nat, tokens: seq<string>)
    requires ReadsWords(text, said) && At(s, i, text)
    ensures ReadsWordsAt(s, i, tokens, text, said)
  {}

  lemma {:induction false} SpaceInside(s: string, i: nat, text: string, rest: string)
    requires At(s, i, text + (" " + rest))
    ensures At(s, i, text) && At(s, i + |text|, " ") && At(s, i + |text| + 1, rest)
  {
    AtConcat(s, i, text, " " + rest);
    AtConcat(s, i + |text|, " ", rest);
  }

  lemma {:induction false} ReadsOneMore(text: string, said: string, rest: string,
                                        more: seq<string>, s: string, i: nat, tokens: seq<string>)
    requires ReadsAs(text, said) && ReadsWords(rest, more) && At(s, i, text + (" " + rest))
    ensures ReadsWordsAt(s, i, tokens, text + (" " + rest), [said] + more)
  {
    SpaceInside(s, i, text, rest);
    ReadsFirst(text, said, s, i, tokens);
    ReadsWordsHere(rest, more, s, i + |text| + 1, tokens + [said]);
    ReadsRest(s, Between(i, tokens), i + |text| + 1, tokens, said, rest, more);
  }

  lemma {:induction false} ReadsNextWord(text: string, said: string, rest: string, more: seq<string>)
    requires ReadsAs(text, said) && ReadsWords(rest, more)
    ensures ReadsWords(text + (" " + rest), [said] + more)
  {
    forall s: string, i: nat, tokens: seq<string>
      | At(s, i, text + (" " + rest))
      ensures ReadsWordsAt(s, i, tokens, text + (" " + rest), [said] + more)
    {
      ReadsOneMore(text, said, rest, more, s, i, tokens);
    }
  }

  lemma {:induction false} LineNext(words: seq<Word>, k: nat)
    requires k < |words| && ReadsAs(SpelledFrom(words[k], 0), SaidFrom(words[k], 0))
    requires k < |words| - 1 ==> ReadsWords(LineFrom(words, k + 1), WordsFrom(words, k + 1))
    ensures ReadsWords(LineFrom(words, k), WordsFrom(words, k))
  {
    var text, said := SpelledFrom(words[k], 0), SaidFrom(words[k], 0);
    if k == |words| - 1 {
      LastWord(words, k);
      WordReads(text, said);
    } else {
      ReadsNextWord(text, said, LineFrom(words, k + 1), WordsFrom(words, k + 1));
    }
  }

  /** A line of spelled words reads as what they say. */
  lemma {:induction false} LineReads(words: seq<Word>, k: nat)
    requires k < |words| && forall j :: k <= j < |words| ==> ValidWord(words[j])
    ensures ReadsWords(LineFrom(words, k), WordsFrom(words, k))
    decreases |words| - k
  {
    PiecesRead(words[k], 0);
    if k < |words| - 1 {
      LineReads(words, k + 1);
    }
    LineNext(words, k);
  }

  lemma {:induction false} ReadLine(s: string, text: string, words: seq<string>)
    requires ReadsWords(text, words) && At(s, 0, text)
    ensures Leads(s, START, After(|text|, words[..|words| - 1], words[|words| - 1]))
  {
    assert ReadsWordsAt(s, 0, [], text, words);
    assert [] + words[..|words| - 1] == words[..|words| - 1];
  }

  predicate NoFinalNewline(s: string) {
    s != [] ==> s[|s| - 1] != '\n' && s[|s| - 1] != '\r'
  }

  /** However its words are spelled, piece by piece, a line reads as what they
      say. */
  lemma {:induction false} TokenizeSpelled(words: seq<Word>)
    requires words != [] && (forall j :: 0 <= j < |words| ==> ValidWord(words[j])) && NoFinalNewline(LineFrom(words, 0))
    ensures Tokenize(LineFrom(words, 0)) == Ok(WordsFrom(words, 0))
  {
    LineReads(words, 0);
    TokenizeWords(LineFrom(words, 0), WordsFrom(words, 0));
  }

  lemma {:induction false} TokenizeWords(line: string, said: seq<string>)
    requires ReadsWords(line, said) && NoFinalNewline(line)
    ensures Tokenize(line) == Ok(said)
  {
    AtWhole(line);
    ReadLine(line, line, said);
    ReadEnd(line, START, said[..|said| - 1], said[|said| - 1]);
    assert said[..|said| - 1] + [said[|said| - 1]] == said;
  }

  // ---------- Quoted lines ----------

  lemma {:induction false} QuotedReads(words: seq<string>)
    requires words != []
    ensures ReadsWords(QuotedLine(words), words)
  {
    PieceReads(DoubleQuoted(words[0]));
    if |words| == 1 {
      WordReads(Quoted(words[0]), words[0]);
      assert words == [words[0]];
    } else {
      QuotedReads(words[1..]);
      ReadsNextWord(Quoted(words[0]), words[0], QuotedLine(words[1..]), words[1..]);
      Assoc(Quoted(words[0]), " ", QuotedLine(words[1..]));
      assert words == [words[0]] + words[1..];
    }
  }

  /** The tokenizer undoes double-quote printing, for every list of words. */
  lemma {:induction false} TokenizeQuotedLine(words: seq<string>)
    ensures Tokenize(QuotedLine(words)) == Ok(words)
  {
    if words != [] {
      QuotedLineEnds(words);
      QuotedReads(words);
      TokenizeWords(QuotedLine(words), words);
    }
  }

  // ---------- A quoted program and template words ----------

  predicate IsTemplate(word: string) {
    |word| >= 4 && word[..2] == "{{" && word[|word| - 2..] == "}}" && Inline(word[2..|word| - 2])
  }

  /** The words from `k` on, each after a space. */
  function Spaced(words: seq<string>, k: nat): string
    requires k <= |words|
    decreases |words| - k
  {
    if k == |words| then [] else " " + words[k] + Spaced(words, k + 1)
  }

  lemma {:induction false} TemplateReads(word: string)
    requires IsTemplate(word)
    ensures ReadsAs(word, word)
  {
    var inner := word[2..|word| - 2];
    assert word == RegionText(inner);
    PieceReads(Region(inner));
  }

  lemma {:induction false} SpacedReads(first: string, said: string, words: seq<string>, k: nat)
    requires ReadsAs(first, said) && k <= |words| && forall j :: k <= j < |words| ==> IsTemplate(words[j])
    ensures ReadsWords(first + Spaced(words, k), [said] + words[k..])
    decreases |words| - k
  {
    if k == |words| {
      WordReads(first, said);
      assert first + [] == first && [said] + words[k..] == [said];
    } else {
      TemplateReads(words[k]);
      SpacedReads(words[k], words[k], words, k + 1);
      ReadsNextWord(first, said, words[k] + Spaced(words, k + 1), [words[k]] + words[k + 1..]);
      Assoc(" ", words[k], Spaced(words, k + 1));
      assert words[k..] == [words[k]] + words[k + 1..];
    }
  }

  lemma {:induction false} SpacedEnds(words: seq<string>, k: nat)
    requires k < |words| && forall j :: k <= j < |words| ==> IsTemplate(words[j])
    ensures Spaced(words, k) != [] && Spaced(words, k)[|Spaced(words, k)| - 1] == '}'
    decreases |words| - k
  {
    if k + 1 < |words| {
      SpacedEnds(words, k + 1);
    } else {
      var last := words[k];
      assert last[|last| - 1] == last[|last| - 2..][1];
    }
  }

  lemma {:induction false} LineKept(line: string)
    requires line != [] && NoFinalNewline(line)
    ensures TrimNewlines(line + "\n") == line && TrimNewlines(line) == line
  {
    assert (line + "\n")[..|line|] == line;
  }

  lemma {:induction false} LineEnds(program: string, words: seq<string>)
    requires forall j :: 0 <= j < |words| ==> IsTemplate(words[j])
    ensures var line := Quoted(program) + Spaced(words, 0);
            line != [] && NoFinalNewline(line)
  {
    if words != [] {
      SpacedEnds(words, 0);
    }
  }

  /** A quoted program followed by template words reads as exactly these
      tokens, whatever the program contains. */
  lemma {:induction false} TokenizeTemplates(program: string, words: seq<string>)
    requires forall j :: 0 <= j < |words| ==> IsTemplate(words[j])
    ensures Tokenize(Quoted(program) + Spaced(words, 0) + "\n") == Ok([program] + words)
  {
    var line := Quoted(program) + Spaced(words, 0);
    PieceReads(DoubleQuoted(program));
    SpacedReads(Quoted(program), program, words, 0);
    assert words[0..] == words;
    LineEnds(program, words);
    LineKept(line);
    TokenizeWords(line, [program] + words);
  }

  /** A backslash before a line break joins the lines, and further spaces
      between words do not matter. */
  lemma {:induction false} Ignored(s: string, st: State)
    requires st.quote == Unquoted
    ensures At(s, st.i, "\\\n") ==> Leads(s, st, st.(i := st.i + 2))
    ensures At(s, st.i, " ") && !st.started ==> Leads(s, st, st.(i := st.i + 1))
  {
    if At(s, st.i, "\\\n") {
      AtChar(s, st.i, "\\\n");
      AtChar(s, st.i + 1, "\n");
      StepTo(s, st, st.(i := st.i + 2));
    }
    if At(s, st.i, " ") && !st.started {
      AtChar(s, st.i, " ");
      StepTo(s, st, st.(i := st.i + 1));
    }
  }

  // ---------- What is refused ----------

  /** The source goes on with `rest` after a line of words and a space. */
  lemma {:induction false} ReadUpTo(s: string, line: string, said: seq<string>, rest: string) returns (st: State)
    requires ReadsWords(line, said) && s == line + (" " + rest)
    ensures st == Between(|line| + 1, said)
    ensures Leads(s, START, st) && At(s, st.i, rest) && st.i + |rest| == |s|
  {
    var before, last := said[..|said| - 1], said[|said| - 1];
    AtWhole(s);
    AtConcat(s, 0, line, " " + rest);
    AtConcat(s, |line|, " ", rest);
    ReadLine(s, line, said);
    assert before + [last] == said;
    ReadSpace(s, |line|, before, last);
    st := Between(|line| + 1, said);
    LeadsTo(s, START, After(|line|, before, last), st);
  }

  lemma {:induction false} RefusedHere(s: string, a: State, st: State, error: TokenError)
    requires Leads(s, a, st) && st.i < |s| && Step(s, st) == Err(error)
    ensures Run(s, a) == Err(error)
  {}

  lemma {:induction false} OpenQuote(s: string, st: State, text: string)
    requires st.quote != Unquoted && At(s, st.i, text) && st.i + |text| == |s|
    requires st.quote == Single ==> '\'' !in text
    requires st.quote == Double ==> '"' !in text && '\\' !in text && '$' !in text && '`' !in text
    ensures Run(s, st) == Err(UnclosedQuote)
    decreases text
  {
    if text != [] {
      AtChar(s, st.i, text);
      StepTo(s, st, Push(st, [text[0]], st.i + 1));
      OpenQuote(s, Push(st, [text[0]], st.i + 1), text[1..]);
    }
  }

  /** A quote that is not closed is refused. */
  lemma {:induction false} UnclosedRefused(line: string, said: seq<string>, quote: Quote, text: string, s: string)
    requires ReadsWords(line, said) && quote != Unquoted
    requires s == line + (" " + ([if quote == Single then '\'' else '"'] + text)) && NoFinalNewline(s)
    requires quote == Single ==> '\'' !in text
    requires quote == Double ==> '"' !in text && '\\' !in text && '$' !in text && '`' !in text
    ensures Tokenize(s) == Err(UnclosedQuote)
  {
    var mark := [if quote == Single then '\'' else '"'];
    var st := ReadUpTo(s, line, said, mark + text);
    AtConcat(s, st.i, mark, text);
    AtChar(s, st.i, mark);
    var inside := st.(i := st.i + 1, quote := quote, started := true);
    StepTo(s, st, inside);
    OpenQuote(s, inside, text);
  }

  /** An operator outside quotes is refused, unless it opens a template. */
  lemma {:induction false} OperatorRefused(line: string, said: seq<string>, c: char, rest: string, s: string)
    requires ReadsWords(line, said)
    requires IsOperator(c) && !(c == '{' && rest != [] && rest[0] == '{')
    requires s == line + (" " + ([c] + rest)) && NoFinalNewline(s)
    ensures Tokenize(s) == Err(Operator)
  {
    var st := ReadUpTo(s, line, said, [c] + rest);
    AtConcat(s, st.i, [c], rest);
    AtChar(s, st.i, [c]);
    if rest != [] {
      AtChar(s, st.i + 1, rest);
    }
    OperatorStep(s, st);
    RefusedHere(s, START, st, Operator);
  }

  lemma {:induction false} OperatorStep(s: string, st: State)
    requires st.i < |s| && st.quote == Unquoted && IsOperator(s[st.i]) && !TemplateAt(s, st)
    ensures Step(s, st) == Err(Operator)
  {}

  /** A line break outside quotes is refused. */
  lemma {:induction false} NewlineRefused(line: string, said: seq<string>, c: char, rest: string, s: string)
    requires ReadsWords(line, said) && (c == '\n' || c == '\r')
    requires s == line + (" " + ([c] + rest)) && NoFinalNewline(s)
    ensures Tokenize(s) == Err(Newline)
  {
    var st := ReadUpTo(s, line, said, [c] + rest);
    AtConcat(s, st.i, [c], rest);
    AtChar(s, st.i, [c]);
    RefusedHere(s, START, st, Newline);
  }

  /** An expansion in double quotes is refused. */
  lemma {:induction false} ExpansionRefused(line: string, said: seq<string>, c: char, rest: string, s: string)
    requires ReadsWords(line, said) && (c == '$' || c == '`')
    requires s == line + (" " + (['"', c] + rest)) && NoFinalNewline(s)
    ensures Tokenize(s) == Err(Expansion)
  {
    var st := ReadUpTo(s, line, said, ['"', c] + rest);
    AtConcat(s, st.i, ['"', c], rest);
    AtChar(s, st.i, ['"', c]);
    AtChar(s, st.i + 1, [c]);
    var inside := st.(i := st.i + 1, quote := Double, started := true);
    StepTo(s, st, inside);
    LeadsTo(s, START, st, inside);
    RefusedHere(s, START, inside, Expansion);
  }
}
