/** The Go tokenizer for curl fences: three quote states, template regions kept
    as literal text in each of them, and exactly one curl command. */
module Shell {
  import opened Text
  import opened Quoting
  import opened Spelling
  import Template

  const MAX_ARGV_ARGUMENTS: nat := 64

  datatype Quote = Unquoted | Single | Double

  /** The diagnostic codes of the tokenizer. */
  datatype ShellError =
    | E200
    | E201
    | E202
    | E405
    | UnclosedTemplate
    | BadTemplate(error: Template.Error)

  /** The loop variables. */
  datatype State = State(i: nat, words: seq<string>, current: string, active: bool, quote: Quote)

  /** The check that each template region must pass; its parts are not used. */
  type TemplateCheck = string -> Result<seq<Template.Part>, Template.Error>

  predicate Forbidden(c: char) {
    || c == ';' || c == '|' || c == '&' || c == '<' || c == '>' || c == '(' || c == ')'
    || c == '`' || c == '$' || c == '{' || c == '}' || c == '*' || c == '?'
  }

  function Write(st: State, text: string, next: nat): State {
    st.(i := next, current := st.current + text, active := true)
  }

  function FinishWord(st: State): State {
    if st.active then st.(words := st.words + [st.current], current := [], active := false) else st
  }

  /** The first newline from `j` on, or the end. */
  function LineEnd(s: string, j: nat): (r: nat)
    requires j <= |s|
    ensures j <= r <= |s|
    decreases |s| - j
  {
    if j < |s| && s[j] != '\n' then LineEnd(s, j + 1) else j
  }

  function StepTemplate(check: TemplateCheck, s: string, st: State): (r: Result<State, ShellError>)
    requires PairAt(s, '{', st.i)
    ensures r.Ok? ==> st.i < r.value.i <= |s|
  {
    match FindPair(s, '}', st.i + 2)
    case None => Err(UnclosedTemplate)
    case Some(end) =>
      var text := s[st.i..end + 2];
      match check(text)
      case Err(e) => Err(BadTemplate(e))
      case Ok(_) => Ok(Write(st, text, end + 2))
  }

  function StepUnquoted(s: string, st: State): (r: Result<State, ShellError>)
    requires st.i < |s|
    ensures r.Ok? ==> st.i < r.value.i <= |s|
  {
    var c := s[st.i];
    if c == ' ' || c == '\t' || c == '\r' then
      if |FinishWord(st).words| > MAX_ARGV_ARGUMENTS then Err(E405) else Ok(FinishWord(st).(i := st.i + 1))
    else if c == '\n' then Err(E201)
    else if c == '#' then
      if st.active then Ok(Write(st, [c], st.i + 1))
      else if LineEnd(s, st.i) < |s| then Err(E201)
      else Ok(st.(i := |s|))
    else if c == '\'' then Ok(st.(i := st.i + 1, active := true, quote := Single))
    else if c == '"' then Ok(st.(i := st.i + 1, active := true, quote := Double))
    else if c == '\\' then
      if st.i + 1 >= |s| then Err(E200)
      else if s[st.i + 1] == '\n' then Ok(st.(i := st.i + 2))
      else Ok(Write(st, [s[st.i + 1]], st.i + 2))
    else if Forbidden(c) then Err(E201)
    else if c == '=' && !st.active then Err(E201)
    else Ok(Write(st, [c], st.i + 1))
  }

  function StepSingle(s: string, st: State): (r: Result<State, ShellError>)
    requires st.i < |s|
    ensures r.Ok? ==> st.i < r.value.i <= |s|
  {
    if s[st.i] == '\'' then Ok(st.(i := st.i + 1, quote := Unquoted)) else Ok(Write(st, [s[st.i]], st.i + 1))
  }

  function StepDouble(s: string, st: State): (r: Result<State, ShellError>)
    requires st.i < |s|
    ensures r.Ok? ==> st.i < r.value.i <= |s|
  {
    var c := s[st.i];
    if c == '"' then Ok(st.(i := st.i + 1, quote := Unquoted))
    else if c == '\\' then
      if st.i + 1 >= |s| then Err(E200)
      else if Special(s[st.i + 1]) then Ok(Write(st, [s[st.i + 1]], st.i + 2))
      else if s[st.i + 1] == '\n' then Ok(st.(i := st.i + 2))
      else Ok(Write(st, [c], st.i + 1))
    else if c == '$' || c == '`' then Err(E201)
    else Ok(Write(st, [c], st.i + 1))
  }

  /** One turn of the loop. */
  function Step(check: TemplateCheck, s: string, st: State): (r: Result<State, ShellError>)
    requires st.i < |s|
    ensures r.Ok? ==> st.i < r.value.i <= |s|
  {
    if PairAt(s, '{', st.i) then StepTemplate(check, s, st)
    else match st.quote
         case Unquoted => StepUnquoted(s, st)
         case Single => StepSingle(s, st)
         case Double => StepDouble(s, st)
  }

  predicate NameChar(c: char, first: bool) {
    c == '_' || 'a' <= c <= 'z' || 'A' <= c <= 'Z' || (!first && '0' <= c <= '9')
  }

  /** A leading NAME=value word. */
  predicate IsAssignment(word: string) {
    match IndexOf(word, '=')
    case None => false
    case Some(eq) => eq > 0 && forall i :: 0 <= i < eq ==> NameChar(word[i], i == 0)
  }

  /** The checks after the last character. */
  function Finish(st: State): Result<seq<string>, ShellError> {
    if st.quote != Unquoted then Err(E201)
    else
      var words := FinishWord(st).words;
      if |words| > MAX_ARGV_ARGUMENTS then Err(E405)
      else if words == [] then Err(E202)
      else if words[0] != "curl" then if IsAssignment(words[0]) then Err(E201) else Err(E202)
      else Ok(words)
  }

  function Run(check: TemplateCheck, s: string, st: State): Result<seq<string>, ShellError>
    decreases |s| - st.i
  {
    if st.i >= |s| then Finish(st)
    else match Step(check, s, st)
         case Err(e) => Err(e)
         case Ok(next) => Run(check, s, next)
  }

  const START := State(0, [], [], false, Unquoted)

  function ParseWith(check: TemplateCheck, source: string): Result<seq<string>, ShellError> {
    var s := Trim(source);
    if ByteLen(s) > Template.MAX_SOURCE_BYTES then Err(E405) else Run(check, s, START)
  }

  function ParseCurlSource(source: string): Result<seq<string>, ShellError> {
    ParseWith(Template.Parse, source)
  }

  /** `ParseCurlSource` as one loop over its variables. */
  method Tokenize(check: TemplateCheck, source: string) returns (r: Result<seq<string>, ShellError>)
    ensures r == ParseWith(check, source)
  {
    var s := Trim(source);
    if ByteLen(s) > Template.MAX_SOURCE_BYTES {
      return Err(E405);
    }
    var words: seq<string> := [];
    var current: string := [];
    var active := false;
    var quote := Unquoted;
    var index := 0;
    while index < |s|
      invariant 0 <= index <= |s|
      invariant Run(check, s, State(index, words, current, active, quote)) == Run(check, s, START)
    {
      var next := NextState(check, s, State(index, words, current, active, quote));
      if next.Err? {
        return Err(next.error);
      }
      index, words, current := next.value.i, next.value.words, next.value.current;
      active, quote := next.value.active, next.value.quote;
    }
    r := Finish(State(index, words, current, active, quote));
  }

  /** The body of the loop. */
  method NextState(check: TemplateCheck, s: string, st: State) returns (r: Result<State, ShellError>)
    requires st.i < |s|
    ensures r == Step(check, s, st)
  {
    var State(index, words, current, active, quote) := st;
    var b := s[index];
    if b == '{' && index + 1 < |s| && s[index + 1] == '{' {
      var relative := FindPair(s, '}', index + 2);
      if relative.None? {
        return Err(UnclosedTemplate);
      }
      var text := s[index..relative.value + 2];
      var parsed := check(text);
      if parsed.Err? {
        return Err(BadTemplate(parsed.error));
      }
      current, active, index := current + text, true, relative.value + 2;
    } else if quote == Single {
      if b == '\'' {
        quote, index := Unquoted, index + 1;
      } else {
        current, active, index := current + [b], true, index + 1;
      }
    } else if quote == Double {
      if b == '"' {
        quote, index := Unquoted, index + 1;
      } else if b == '\\' {
        index := index + 1;
        if index >= |s| {
          return Err(E200);
        }
        if Special(s[index]) {
          current, active, index := current + [s[index]], true, index + 1;
        } else if s[index] == '\n' {
          index := index + 1;
        } else {
          current, active := current + ['\\'], true;
        }
      } else if b == '$' || b == '`' {
        return Err(E201);
      } else {
        current, active, index := current + [b], true, index + 1;
      }
    } else if b == ' ' || b == '\t' || b == '\r' {
      if active {
        words, current, active := words + [current], [], false;
      }
      if |words| > MAX_ARGV_ARGUMENTS {
        return Err(E405);
      }
      index := index + 1;
    } else if b == '\n' {
      return Err(E201);
    } else if b == '#' && !active {
      ghost var from := index;
      while index < |s| && s[index] != '\n'
        invariant from <= index <= |s| && LineEnd(s, index) == LineEnd(s, from)
      {
        index := index + 1;
      }
      if index < |s| {
        return Err(E201);
      }
    } else if b == '\'' {
      active, quote, index := true, Single, index + 1;
    } else if b == '"' {
      active, quote, index := true, Double, index + 1;
    } else if b == '\\' {
      index := index + 1;
      if index >= |s| {
        return Err(E200);
      }
      if s[index] == '\n' {
        index := index + 1;
      } else {
        current, active, index := current + [s[index]], true, index + 1;
      }
    } else if Forbidden(b) || (b == '=' && !active) {
      return Err(E201);
    } else {
      current, active, index := current + [b], true, index + 1;
    }
    r := Ok(State(index, words, current, active, quote));
  }

  // ---------- Reading words back ----------

  /** The word never opens a template. */
  ghost predicate NoTemplate(word: string) {
    forall j :: !PairAt(word, '{', j)
  }

  /** Two states from which the rest of the source reads the same. */
  ghost predicate Leads(check: TemplateCheck, s: string, a: State, b: State) {
    Run(check, s, a) == Run(check, s, b)
  }

  lemma LeadsTo(check: TemplateCheck, s: string, a: State, b: State, c: State)
    requires Leads(check, s, a, b) && Leads(check, s, b, c)
    ensures Leads(check, s, a, c)
  {}

  lemma {:induction false} StepTo(check: TemplateCheck, s: string, st: State, next: State)
    requires st.i < |s| && Step(check, s, st) == Ok(next)
    ensures Leads(check, s, st, next)
  {}

  lemma {:induction false} ReadEscapedChar(check: TemplateCheck, s: string, st: State, c: char, rest: string)
    requires st.quote == Double && At(s, st.i, EscapedChar(c) + rest)
    requires rest != [] && !(c == '{' && rest[0] == '{')
    ensures Leads(check, s, st, Write(st, [c], st.i + |EscapedChar(c)|))
  {
    AtConcat(s, st.i, EscapedChar(c), rest);
    AtChar(s, st.i, EscapedChar(c));
    AtChar(s, st.i + |EscapedChar(c)|, rest);
    if Special(c) {
      AtChar(s, st.i + 1, [c]);
    }
    StepTo(check, s, st, Write(st, [c], st.i + |EscapedChar(c)|));
  }

  lemma {:induction false} ReadClosingQuote(check: TemplateCheck, s: string, st: State)
    requires st.quote == Double && At(s, st.i, "\"")
    ensures Leads(check, s, st, st.(i := st.i + 1, quote := Unquoted))
  {
    AtChar(s, st.i, "\"");
    StepTo(check, s, st, st.(i := st.i + 1, quote := Unquoted));
  }

  /** The first character of an escaped word and what follows it. */
  lemma {:induction false} UnpackEscaped(s: string, i: nat, word: string)
    requires word != [] && NoTemplate(word) && At(s, i, Escaped(word) + "\"")
    ensures var rest := Escaped(word[1..]) + "\"";
            && At(s, i, EscapedChar(word[0]) + rest)
            && At(s, i + |EscapedChar(word[0])|, rest)
            && !(word[0] == '{' && rest[0] == '{')
            && NoTemplate(word[1..])
            && |Escaped(word)| == |EscapedChar(word[0])| + |Escaped(word[1..])|
  {
    var rest := Escaped(word[1..]) + "\"";
    Assoc(EscapedChar(word[0]), Escaped(word[1..]), "\"");
    AtConcat(s, i, EscapedChar(word[0]), rest);
    assert !PairAt(word, '{', 0);
    assert forall j :: PairAt(word[1..], '{', j) ==> PairAt(word, '{', j + 1);
  }

  /** The state after the rest of a quoted word and its closing quote. */
  function Closed(st: State, word: string): State {
    State(st.i + |Escaped(word)| + 1, st.words, st.current + word, true, Unquoted)
  }

  lemma {:induction false} ReadFirst(check: TemplateCheck, s: string, st: State, word: string) returns (next: State)
    requires st.quote == Double && st.active && word != [] && NoTemplate(word) && At(s, st.i, Escaped(word) + "\"")
    ensures Leads(check, s, st, next) && next.quote == Double && next.active && NoTemplate(word[1..])
    ensures At(s, next.i, Escaped(word[1..]) + "\"") && Closed(next, word[1..]) == Closed(st, word)
  {
    next := Write(st, [word[0]], st.i + |EscapedChar(word[0])|);
    UnpackEscaped(s, st.i, word);
    ReadEscapedChar(check, s, st, word[0], Escaped(word[1..]) + "\"");
    ShiftFirst(st.current, word);
  }

  /** Inside double quotes, escaped text and the closing quote give the text. */
  lemma {:induction false} ReadEscaped(check: TemplateCheck, s: string, st: State, word: string)
    requires st.quote == Double && st.active && NoTemplate(word) && At(s, st.i, Escaped(word) + "\"")
    ensures Leads(check, s, st, Closed(st, word))
    decreases word
  {
    if word == [] {
      ReadClosingQuote(check, s, st);
      assert st.current + word == st.current;
    } else {
      var next := ReadFirst(check, s, st, word);
      ReadEscaped(check, s, next, word[1..]);
      LeadsTo(check, s, st, next, Closed(st, word));
    }
  }

  function Between(i: nat, words: seq<string>): State {
    State(i, words, [], false, Unquoted)
  }

  function After(i: nat, words: seq<string>, word: string): State {
    State(i, words, word, true, Unquoted)
  }

  lemma {:induction false} ReadSpace(check: TemplateCheck, s: string, i: nat, words: seq<string>, word: string)
    requires At(s, i, " ") && |words| < MAX_ARGV_ARGUMENTS
    ensures Leads(check, s, After(i, words, word), Between(i + 1, words + [word]))
  {
    AtChar(s, i, " ");
    StepTo(check, s, After(i, words, word), Between(i + 1, words + [word]));
  }

  /** The source ends after `word`. */
  lemma {:induction false} ReadEnd(check: TemplateCheck, s: string, a: State, before: seq<string>, word: string)
    requires Leads(check, s, a, After(|s|, before, word))
    requires |before| < MAX_ARGV_ARGUMENTS && (before + [word])[0] == "curl"
    ensures Run(check, s, a) == Ok(before + [word])
  {}

  lemma {:induction false} QuotedLineShape(words: seq<string>)
    requires words != []
    ensures var line := QuotedLine(words);
            line != [] && line[0] == '"' && line[|line| - 1] == '"'
  {
    if |words| > 1 {
      QuotedLineShape(words[1..]);
    }
  }

  // ---------- Every way to spell a word ----------

  /** A character that stands for itself outside quotes. */
  predicate BareChar(c: char) {
    && c != ' ' && c != '\t' && c != '\r' && c != '\n' && c != '#' && c != '\'' && c != '"' && c != '\\'
    && c != '=' && !Forbidden(c)
  }

  /** Inside a word, `#` and `=` stand for themselves too. */
  predicate InnerChar(c: char) {
    BareChar(c) || c == '#' || c == '='
  }

  predicate BareText(word: string) {
    word != [] && BareChar(word[0]) && forall k :: 0 <= k < |word| ==> InnerChar(word[k])
  }

  /** A template word: braces around text without braces. */
  predicate TemplateWord(word: string) {
    |word| >= 4 && word[..2] == "{{" && word[|word| - 2..] == "}}" && Template.NoBraces(word[2..|word| - 2])
  }

  /** The pieces that this grammar can spell. Templates are recognised in
      quotes too, so quoted text must not open one. */
  ghost predicate Valid(check: TemplateCheck, p: Piece) {
    match p
    case DoubleQuoted(text) => NoTemplate(text)
    case SingleQuoted(text) => '\'' !in text && NoTemplate(text)
    case Backslashed(text) => text != [] && '\n' !in text
    case Bare(text) => BareText(text)
    case Region(inner) => Template.NoBraces(inner) && check(RegionText(inner)).Ok?
  }

  ghost predicate ValidWord(check: TemplateCheck, w: Word) {
    w != [] && forall k :: 0 <= k < |w| ==> Valid(check, w[k])
  }

  lemma {:induction false} NoTemplateRest(text: string)
    requires text != [] && NoTemplate(text)
    ensures NoTemplate(text[1..]) && !(|text| > 1 && text[0] == '{' && text[1] == '{')
  {
    assert !PairAt(text, '{', 0);
    assert forall j :: PairAt(text[1..], '{', j) ==> PairAt(text, '{', j + 1);
  }

  lemma {:induction false} ReadSingle(check: TemplateCheck, s: string, st: State, text: string)
    requires st.quote == Single && st.active && '\'' !in text && NoTemplate(text) && At(s, st.i, text + "'")
    ensures Leads(check, s, st, State(st.i + |text| + 1, st.words, st.current + text, true, Unquoted))
    decreases text
  {
    AtChar(s, st.i, text + "'");
    if text == [] {
      assert st.current + text == st.current;
      StepTo(check, s, st, st.(i := st.i + 1, quote := Unquoted));
    } else {
      var next := Write(st, [text[0]], st.i + 1);
      assert (text + "'")[1..] == text[1..] + "'";
      AtChar(s, st.i + 1, text[1..] + "'");
      NoTemplateRest(text);
      StepTo(check, s, st, next);
      ReadSingle(check, s, next, text[1..]);
      ShiftFirst(st.current, text);
      LeadsTo(check, s, st, next, State(st.i + |text| + 1, st.words, st.current + text, true, Unquoted));
    }
  }

  lemma {:induction false} ReadBackslashes(check: TemplateCheck, s: string, st: State, text: string)
    requires st.quote == Unquoted && '\n' !in text && At(s, st.i, Backslashes(text)) && (text == [] ==> st.active)
    ensures Leads(check, s, st, Write(st, text, st.i + |Backslashes(text)|))
    decreases text
  {
    if text == [] {
      assert st.current + text == st.current;
    } else {
      var next := Write(st, [text[0]], st.i + 2);
      AtConcat(s, st.i, ['\\', text[0]], Backslashes(text[1..]));
      AtChar(s, st.i, ['\\', text[0]]);
      AtChar(s, st.i + 1, [text[0]]);
      StepTo(check, s, st, next);
      ReadBackslashes(check, s, next, text[1..]);
      ShiftFirst(st.current, text);
      LeadsTo(check, s, st, next, Write(st, text, st.i + |Backslashes(text)|));
    }
  }

  lemma {:induction false} ReadBare(check: TemplateCheck, s: string, st: State, text: string)
    requires st.quote == Unquoted && At(s, st.i, text) && (st.active || (text != [] && BareChar(text[0])))
    requires forall k :: 0 <= k < |text| ==> InnerChar(text[k])
    ensures Leads(check, s, st, Write(st, text, st.i + |text|))
    decreases text
  {
    if text == [] {
      assert st.current + text == st.current;
    } else {
      var next := Write(st, [text[0]], st.i + 1);
      AtChar(s, st.i, text);
      StepTo(check, s, st, next);
      ReadBare(check, s, next, text[1..]);
      ShiftFirst(st.current, text);
      LeadsTo(check, s, st, next, Write(st, text, st.i + |text|));
    }
  }

  lemma {:induction false} RegionEnd(s: string, i: nat, inner: string)
    requires Template.NoBraces(inner) && At(s, i, RegionText(inner))
    ensures PairAt(s, '{', i) && FindPair(s, '}', i + 2) == Some(i + 2 + |inner|)
  {
    var word := RegionText(inner);
    assert forall k :: 0 <= k < |word| ==> s[i + k] == s[i..i + |word|][k] == word[k];
    assert forall k :: 2 <= k < |word| - 2 ==> word[k] == inner[k - 2];
    FindPairIs(s, '}', i + 2, i + 2 + |inner|);
  }

  lemma {:induction false} ReadRegion(check: TemplateCheck, s: string, st: State, inner: string)
    requires Template.NoBraces(inner) && At(s, st.i, RegionText(inner)) && check(RegionText(inner)).Ok?
    ensures Leads(check, s, st, Write(st, RegionText(inner), st.i + |RegionText(inner)|))
  {
    RegionEnd(s, st.i, inner);
    StepTo(check, s, st, Write(st, RegionText(inner), st.i + |RegionText(inner)|));
  }

  lemma {:induction false} ReadDoubleQuoted(check: TemplateCheck, s: string, st: State, text: string)
    requires st.quote == Unquoted && NoTemplate(text) && At(s, st.i, Quoted(text))
    ensures Leads(check, s, st, Write(st, text, st.i + |Quoted(text)|))
  {
    Assoc("\"", Escaped(text), "\"");
    AtConcat(s, st.i, "\"", Escaped(text) + "\"");
    AtChar(s, st.i, "\"");
    var inside := st.(i := st.i + 1, quote := Double, active := true);
    StepTo(check, s, st, inside);
    ReadEscaped(check, s, inside, text);
    LeadsTo(check, s, st, inside, Write(st, text, st.i + |Quoted(text)|));
  }

  lemma {:induction false} ReadSingleQuoted(check: TemplateCheck, s: string, st: State, text: string)
    requires st.quote == Unquoted && '\'' !in text && NoTemplate(text) && At(s, st.i, "'" + text + "'")
    ensures Leads(check, s, st, Write(st, text, st.i + |text| + 2))
  {
    Assoc("'", text, "'");
    AtConcat(s, st.i, "'", text + "'");
    AtChar(s, st.i, "'");
    var inside := st.(i := st.i + 1, quote := Single, active := true);
    StepTo(check, s, st, inside);
    ReadSingle(check, s, inside, text);
    LeadsTo(check, s, st, inside, Write(st, text, st.i + |text| + 2));
  }

  /** Every piece reads as what it says, wherever it stands in a word. */
  lemma {:induction false} ReadPiece(check: TemplateCheck, s: string, st: State, p: Piece)
    requires st.quote == Unquoted && Valid(check, p) && At(s, st.i, Spelled(p))
    ensures Leads(check, s, st, Write(st, Said(p), st.i + |Spelled(p)|))
  {
    match p
    case DoubleQuoted(text) => ReadDoubleQuoted(check, s, st, text);
    case SingleQuoted(text) => ReadSingleQuoted(check, s, st, text);
    case Backslashed(text) => ReadBackslashes(check, s, st, text);
    case Bare(text) => ReadBare(check, s, st, text);
    case Region(inner) => ReadRegion(check, s, st, inner);
  }

  /** Wherever `text` stands outside quotes, it adds `said` to the word. */
  ghost predicate ReadsAs(check: TemplateCheck, text: string, said: string) {
    forall s: string, st: State :: st.quote == Unquoted && At(s, st.i, text) ==>
                                     Leads(check, s, st, Write(st, said, st.i + |text|))
  }

  lemma {:induction false} ReadsAt(check: TemplateCheck, text: string, said: string, s: string, st: State)
    requires ReadsAs(check, text, said) && st.quote == Unquoted && At(s, st.i, text)
    ensures Leads(check, s, st, Write(st, said, st.i + |text|))
  {}

  lemma {:induction false} ReadsBoth(check: TemplateCheck, a: string, x: string, b: string, y: string, s: string,
                                     st: State)
    requires ReadsAs(check, a, x) && ReadsAs(check, b, y) && st.quote == Unquoted && At(s, st.i, a + b)
    ensures Leads(check, s, st, Write(st, x + y, st.i + |a + b|))
  {
    var next := Write(st, x, st.i + |a|);
    AtConcat(s, st.i, a, b);
    ReadsAt(check, a, x, s, st);
    ReadsAt(check, b, y, s, next);
    Assoc(st.current, x, y);
    LeadsTo(check, s, st, next, Write(st, x + y, st.i + |a + b|));
  }

  lemma {:induction false} ReadsConcat(check: TemplateCheck, a: string, x: string, b: string, y: string)
    requires ReadsAs(check, a, x) && ReadsAs(check, b, y)
    ensures ReadsAs(check, a + b, x + y)
  {
    forall s: string, st: State | st.quote == Unquoted && At(s, st.i, a + b)
      ensures Leads(check, s, st, Write(st, x + y, st.i + |a + b|))
    {
      ReadsBoth(check, a, x, b, y, s, st);
    }
  }

  lemma {:induction false} PieceReads(check: TemplateCheck, p: Piece)
    requires Valid(check, p)
    ensures ReadsAs(check, Spelled(p), Said(p))
  {
    forall s: string, st: State | st.quote == Unquoted && At(s, st.i, Spelled(p))
      ensures Leads(check, s, st, Write(st, Said(p), st.i + |Spelled(p)|))
    {
      ReadPiece(check, s, st, p);
    }
  }

  lemma {:induction false} PiecesRead(check: TemplateCheck, w: Word, k: nat)
    requires k < |w| && forall j :: k <= j < |w| ==> Valid(check, w[j])
    ensures ReadsAs(check, SpelledFrom(w, k), SaidFrom(w, k))
    decreases |w| - k
  {
    PieceReads(check, w[k]);
    if k == |w| - 1 {
      OnlyPiece(w, k);
    } else {
      PiecesRead(check, w, k + 1);
      ReadsConcat(check, Spelled(w[k]), Said(w[k]), SpelledFrom(w, k + 1), SaidFrom(w, k + 1));
    }
  }

  /** The text reads as the words: from between two words to the end of the
      last one, as long as there are not too many. */
  ghost predicate ReadsWords(check: TemplateCheck, text: string, said: seq<string>) {
    && said != []
    && forall s: string, i: nat, before: seq<string> :: At(s, i, text) && |before| + |said| <= MAX_ARGV_ARGUMENTS ==>
                                                          ReadsWordsAt(check, s, i, before, text, said)
  }

  ghost predicate ReadsWordsAt(check: TemplateCheck, s: string, i: nat, before: seq<string>, text: string,
                               said: seq<string>)
    requires said != []
  {
    Leads(check, s, Between(i, before), After(i + |text|, before + said[..|said| - 1], said[|said| - 1]))
  }

  lemma {:induction false} WordReads(check: TemplateCheck, text: string, said: string)
    requires ReadsAs(check, text, said)
    ensures ReadsWords(check, text, [said])
  {
    forall s: string, i: nat, before: seq<string> | At(s, i, text) && |before| + 1 <= MAX_ARGV_ARGUMENTS
      ensures ReadsWordsAt(check, s, i, before, text, [said])
    {
      ReadsAt(check, text, said, s, Between(i, before));
      assert [] + said == said && before + [] == before;
    }
  }

  lemma {:induction false} ReadsFirst(check: TemplateCheck, text: string, said: string, s: string, i: nat,
                                      before: seq<string>)
    requires ReadsAs(check, text, said) && At(s, i, text) && At(s, i + |text|, " ") && |before| < MAX_ARGV_ARGUMENTS
    ensures Leads(check, s, Between(i, before), Between(i + |text| + 1, before + [said]))
  {
    ReadsAt(check, text, said, s, Between(i, before));
    assert [] + said == said;
    ReadSpace(check, s, i + |text|, before, said);
    LeadsTo(check, s, Between(i, before), After(i + |text|, before, said), Between(i + |text| + 1, before + [said]));
  }

  lemma {:induction false} ReadsRest(check: TemplateCheck, s: string, start: State, i: nat, before: seq<string>,
                                     said: string, rest: string,
                                    more: seq<string>)
    requires more != [] && Leads(check, s, start, Between(i, before + [said]))
    requires ReadsWordsAt(check, s, i, before + [said], rest, more)
    ensures var all := [said] + more;
            Leads(check, s, start, After(i + |rest|, before + all[..|all| - 1], all[|all| - 1]))
  {
    ShiftWord(before, said, more);
    LeadsTo(check, s, start, Between(i, before + [said]),
            After(i + |rest|, before + [said] + more[..|more| - 1], more[|more| - 1]));
  }

  lemma {:induction false} ReadsWordsHere(check: TemplateCheck, text: string, said: seq<string>, s: string, i: nat,
                                          before: seq<string>)
    requires ReadsWords(check, text, said) && At(s, i, text) && |before| + |said| <= MAX_ARGV_ARGUMENTS
    ensures ReadsWordsAt(check, s, i, before, text, said)
  {}

  lemma {:induction false} SpaceInside(s: string, i: nat, text: string, rest: string)
    requires At(s, i, text + (" " + rest))
    ensures At(s, i, text) && At(s, i + |text|, " ") && At(s, i + |text| + 1, rest)
  {
    AtConcat(s, i, text, " " + rest);
    AtConcat(s, i + |text|, " ", rest);
  }

  lemma {:induction false} ReadsOneMore(check: TemplateCheck, text: string, said: string, rest: string,
                                        more: seq<string>, s: string, i: nat, before: seq<string>)
    requires ReadsAs(check, text, said) && ReadsWords(check, rest, more) && At(s, i, text + (" " + rest))
    requires |before| + 1 + |more| <= MAX_ARGV_ARGUMENTS
    ensures ReadsWordsAt(check, s, i, before, text + (" " + rest), [said] + more)
  {
    SpaceInside(s, i, text, rest);
    ReadsFirst(check, text, said, s, i, before);
    ReadsWordsHere(check, rest, more, s, i + |text| + 1, before + [said]);
    ReadsRest(check, s, Between(i, before), i + |text| + 1, before, said, rest, more);
  }

  lemma {:induction false} ReadsNextWord(check: TemplateCheck, text: string, said: string, rest: string,
                                         more: seq<string>)
    requires ReadsAs(check, text, said) && ReadsWords(check, rest, more)
    ensures ReadsWords(check, text + (" " + rest), [said] + more)
  {
    forall s: string, i: nat, before: seq<string>
      | At(s, i, text + (" " + rest)) && |before| + |[said] + more| <= MAX_ARGV_ARGUMENTS
      ensures ReadsWordsAt(check, s, i, before, text + (" " + rest), [said] + more)
    {
      ReadsOneMore(check, text, said, rest, more, s, i, before);
    }
  }

  lemma {:induction false} LineNext(check: TemplateCheck, words: seq<Word>, k: nat)
    requires k < |words| && ReadsAs(check, SpelledFrom(words[k], 0), SaidFrom(words[k], 0))
    requires k < |words| - 1 ==> ReadsWords(check, LineFrom(words, k + 1), WordsFrom(words, k + 1))
    ensures ReadsWords(check, LineFrom(words, k), WordsFrom(words, k))
  {
    var text, said := SpelledFrom(words[k], 0), SaidFrom(words[k], 0);
    if k == |words| - 1 {
      LastWord(words, k);
      WordReads(check, text, said);
    } else {
      ReadsNextWord(check, text, said, LineFrom(words, k + 1), WordsFrom(words, k + 1));
    }
  }

  /** A line of spelled words reads as what they say. */
  lemma {:induction false} LineReads(check: TemplateCheck, words: seq<Word>, k: nat)
    requires k < |words| && forall j :: k <= j < |words| ==> ValidWord(check, words[j])
    ensures ReadsWords(check, LineFrom(words, k), WordsFrom(words, k))
    decreases |words| - k
  {
    PiecesRead(check, words[k], 0);
    if k < |words| - 1 {
      LineReads(check, words, k + 1);
    }
    LineNext(check, words, k);
  }

  predicate NoOuterSpace(s: string) {
    s != [] && !IsSpace(s[0]) && !IsSpace(s[|s| - 1])
  }

  lemma {:induction false} ReadAll(check: TemplateCheck, line: string, said: seq<string>)
    requires ReadsWords(check, line, said) && |said| <= MAX_ARGV_ARGUMENTS && said[0] == "curl"
    ensures Run(check, line, START) == Ok(said)
  {
    var before, last := said[..|said| - 1], said[|said| - 1];
    AtWhole(line);
    assert ReadsWordsAt(check, line, 0, [], line, said);
    assert [] + before == before && before + [last] == said;
    ReadEnd(check, line, START, before, last);
  }

  lemma {:induction false} ParseWords(line: string, said: seq<string>)
    requires ReadsWords(Template.Parse, line, said) && |said| <= MAX_ARGV_ARGUMENTS && said[0] == "curl"
    requires NoOuterSpace(line) && ByteLen(line) <= Template.MAX_SOURCE_BYTES
    ensures ParseCurlSource(line) == Ok(said)
  {
    TrimNothing(line);
    ReadAll(Template.Parse, line, said);
  }

  /** However its words are spelled, piece by piece, a curl command of at most 64
      words within the source limit reads as what they say. */
  lemma {:induction false} ParseSpelled(words: seq<Word>)
    requires 1 <= |words| <= MAX_ARGV_ARGUMENTS
    requires (forall j :: 0 <= j < |words| ==> ValidWord(Template.Parse, words[j])) && SaidFrom(words[0], 0) == "curl"
    requires NoOuterSpace(LineFrom(words, 0)) && ByteLen(LineFrom(words, 0)) <= Template.MAX_SOURCE_BYTES
    ensures ParseCurlSource(LineFrom(words, 0)) == Ok(WordsFrom(words, 0))
  {
    LineReads(Template.Parse, words, 0);
    ParseWords(LineFrom(words, 0), WordsFrom(words, 0));
  }

  lemma {:induction false} QuotedReads(check: TemplateCheck, words: seq<string>)
    requires words != [] && forall k :: 0 <= k < |words| ==> NoTemplate(words[k])
    ensures ReadsWords(check, QuotedLine(words), words)
  {
    PieceReads(check, DoubleQuoted(words[0]));
    if |words| == 1 {
      WordReads(check, Quoted(words[0]), words[0]);
      assert words == [words[0]];
    } else {
      QuotedReads(check, words[1..]);
      ReadsNextWord(check, Quoted(words[0]), words[0], QuotedLine(words[1..]), words[1..]);
      Assoc(Quoted(words[0]), " ", QuotedLine(words[1..]));
      assert words == [words[0]] + words[1..];
    }
  }

  /** The tokenizer undoes double-quote printing of a curl command: at most 64
      words without template text, within the source limit. */
  lemma {:induction false} ParseQuotedLine(words: seq<string>)
    requires 1 <= |words| <= MAX_ARGV_ARGUMENTS && words[0] == "curl"
    requires forall k :: 0 <= k < |words| ==> NoTemplate(words[k])
    requires ByteLen(QuotedLine(words)) <= Template.MAX_SOURCE_BYTES
    ensures ParseCurlSource(QuotedLine(words)) == Ok(words)
  {
    QuotedLineShape(words);
    QuotedReads(Template.Parse, words);
    ParseWords(QuotedLine(words), words);
  }

  lemma {:induction false} SecondReads(second: string)
    requires BareText(second) || (TemplateWord(second) && Template.Parse(second).Ok?)
    ensures ReadsAs(Template.Parse, second, second)
  {
    if BareText(second) {
      PieceReads(Template.Parse, Bare(second));
    } else {
      var inner := second[2..|second| - 2];
      assert second == RegionText(inner);
      PieceReads(Template.Parse, Region(inner));
    }
  }

  /** A curl command with one bare word, or one template, reads as two words. */
  lemma {:induction false} ParseTwoWords(s: string, second: string)
    requires s == "curl" + " " + second && ByteLen(s) <= Template.MAX_SOURCE_BYTES
    requires BareText(second) || (TemplateWord(second) && Template.Parse(second).Ok?)
    requires !IsSpace(second[|second| - 1])
    ensures ParseCurlSource(s) == Ok(["curl", second])
  {
    var curl := "curl";
    assert s[0] == 'c' && s[|s| - 1] == second[|second| - 1];
    assert BareText(curl);
    PieceReads(Template.Parse, Bare(curl));
    SecondReads(second);
    WordReads(Template.Parse, second, second);
    ReadsNextWord(Template.Parse, curl, curl, second, [second]);
    Assoc(curl, " ", second);
    assert [curl] + [second] == [curl, second];
    ParseWords(s, [curl, second]);
  }

  /** A backslash before a line break joins the lines, and further spaces
      between words do not matter. */
  lemma {:induction false} Ignored(check: TemplateCheck, s: string, st: State)
    requires st.quote == Unquoted && |st.words| <= MAX_ARGV_ARGUMENTS
    ensures At(s, st.i, "\\\n") ==> Leads(check, s, st, st.(i := st.i + 2))
    ensures At(s, st.i, " ") && !st.active ==> Leads(check, s, st, st.(i := st.i + 1))
  {
    if At(s, st.i, "\\\n") {
      AtChar(s, st.i, "\\\n");
      AtChar(s, st.i + 1, "\n");
      StepTo(check, s, st, st.(i := st.i + 2));
    }
    if At(s, st.i, " ") && !st.active {
      AtChar(s, st.i, " ");
      StepTo(check, s, st, st.(i := st.i + 1));
    }
  }

  lemma {:induction false} LineEndIs(s: string, j: nat)
    requires j <= |s| && '\n' !in s[j..]
    ensures LineEnd(s, j) == |s|
    decreases |s| - j
  {
    if j < |s| {
      assert s[j..][0] == s[j];
      assert s[j + 1..] == s[j..][1..];
      LineEndIs(s, j + 1);
    }
  }

  /** A comment at the end of the command is left out. */
  lemma {:induction false} CommentIgnored(check: TemplateCheck, line: string, said: seq<string>, comment: string,
                                          s: string)
    requires ReadsWords(check, line, said) && |said| <= MAX_ARGV_ARGUMENTS && said[0] == "curl"
    requires '\n' !in comment && s == line + (" " + ("#" + comment))
    ensures Run(check, s, START) == Ok(said)
  {
    var st := ReadUpTo(check, s, line, said, "#" + comment);
    AtConcat(s, st.i, "#", comment);
    AtChar(s, st.i, "#");
    assert s[st.i..] == "#" + comment;
    LineEndIs(s, st.i);
    StepTo(check, s, st, st.(i := |s|));
    LeadsTo(check, s, START, st, st.(i := |s|));
  }

  // ---------- What is refused ----------

  /** Whatever is accepted is one curl command of at most 64 words, from a source
      within the limit. */
  lemma {:induction false} RunAccepts(check: TemplateCheck, s: string, st: State)
    requires Run(check, s, st).Ok?
    ensures 1 <= |Run(check, s, st).value| <= MAX_ARGV_ARGUMENTS && Run(check, s, st).value[0] == "curl"
    decreases |s| - st.i
  {
    if st.i < |s| {
      RunAccepts(check, s, Step(check, s, st).value);
    }
  }

  lemma {:induction false} AcceptedCommand(source: string)
    requires ParseCurlSource(source).Ok?
    ensures var words := ParseCurlSource(source).value;
            && 1 <= |words| <= MAX_ARGV_ARGUMENTS && words[0] == "curl"
            && ByteLen(Trim(source)) <= Template.MAX_SOURCE_BYTES
  {
    RunAccepts(Template.Parse, Trim(source), START);
  }

  /** The source goes on with `rest` after a line of words and a space. */
  lemma {:induction false} ReadUpTo(check: TemplateCheck, s: string, line: string, said: seq<string>, rest: string)
    returns (st: State)
    requires ReadsWords(check, line, said) && |said| <= MAX_ARGV_ARGUMENTS && s == line + (" " + rest)
    ensures st == Between(|line| + 1, said)
    ensures Leads(check, s, START, st) && At(s, st.i, rest) && st.i + |rest| == |s|
  {
    var before, last := said[..|said| - 1], said[|said| - 1];
    AtWhole(s);
    AtConcat(s, 0, line, " " + rest);
    AtConcat(s, |line|, " ", rest);
    assert ReadsWordsAt(check, s, 0, [], line, said);
    assert [] + before == before && before + [last] == said;
    ReadSpace(check, s, |line|, before, last);
    st := Between(|line| + 1, said);
    LeadsTo(check, s, START, After(|line|, before, last), st);
  }

  lemma {:induction false} RefusedHere(check: TemplateCheck, s: string, a: State, st: State, error: ShellError)
    requires Leads(check, s, a, st) && st.i < |s| && Step(check, s, st) == Err(error)
    ensures Run(check, s, a) == Err(error)
  {}

  lemma {:induction false} OpenSingle(check: TemplateCheck, s: string, st: State, text: string)
    requires st.quote == Single && At(s, st.i, text) && st.i + |text| == |s| && '\'' !in text && NoTemplate(text)
    ensures Run(check, s, st) == Err(E201)
    decreases text
  {
    if text != [] {
      AtChar(s, st.i, text);
      NoTemplateRest(text);
      if |text| > 1 {
        AtChar(s, st.i + 1, text[1..]);
      }
      StepTo(check, s, st, Write(st, [text[0]], st.i + 1));
      OpenSingle(check, s, Write(st, [text[0]], st.i + 1), text[1..]);
    }
  }

  /** A single quote that is not closed is refused. */
  lemma {:induction false} UnclosedRefused(check: TemplateCheck, line: string, said: seq<string>, text: string,
                                           s: string)
    requires ReadsWords(check, line, said) && |said| <= MAX_ARGV_ARGUMENTS && '\'' !in text && NoTemplate(text)
    requires s == line + (" " + ("'" + text)) && NoOuterSpace(s) && ByteLen(s) <= Template.MAX_SOURCE_BYTES
    ensures ParseWith(check, s) == Err(E201)
  {
    TrimNothing(s);
    var st := ReadUpTo(check, s, line, said, "'" + text);
    AtConcat(s, st.i, "'", text);
    AtChar(s, st.i, "'");
    var inside := st.(i := st.i + 1, quote := Single, active := true);
    StepTo(check, s, st, inside);
    OpenSingle(check, s, inside, text);
  }

  /** A forbidden character outside quotes is refused, unless it opens a
      template. */
  lemma {:induction false} OperatorRefused(check: TemplateCheck, line: string, said: seq<string>, c: char, rest: string,
                                           s: string)
    requires ReadsWords(check, line, said) && |said| <= MAX_ARGV_ARGUMENTS
    requires Forbidden(c) && !(c == '{' && rest != [] && rest[0] == '{')
    requires s == line + (" " + ([c] + rest)) && NoOuterSpace(s) && ByteLen(s) <= Template.MAX_SOURCE_BYTES
    ensures ParseWith(check, s) == Err(E201)
  {
    TrimNothing(s);
    var st := ReadUpTo(check, s, line, said, [c] + rest);
    AtConcat(s, st.i, [c], rest);
    AtChar(s, st.i, [c]);
    if rest != [] {
      AtChar(s, st.i + 1, rest);
    }
    OperatorStep(check, s, st);
    RefusedHere(check, s, START, st, E201);
  }

  lemma {:induction false} OperatorStep(check: TemplateCheck, s: string, st: State)
    requires st.i < |s| && st.quote == Unquoted && Forbidden(s[st.i]) && !PairAt(s, '{', st.i)
    ensures Step(check, s, st) == Err(E201)
  {}
}
