/** The run with the tokenizer and the template engine of this project in
    place. */
module GoProgram {
  import opened Text
  import opened Json
  import opened Planner
  import opened Runtime
  import Template
  import Render
  import Shell

  function Succeeded<T, E>(r: Result<T, E>): Option<T> {
    match r
    case Ok(value) => Some(value)
    case Err(_) => None
  }

  function ExpandArgument(arg: string, vars: Vars): Option<string> {
    Succeeded(Render.Expand(arg, vars))
  }

  function TokenizeSource(source: string): Option<seq<string>> {
    Succeeded(Shell.ParseCurlSource(source))
  }

  // ---------- The names that a capture is expected to define ----------

  /** The name of one `name: expression` segment, if it has one. */
  function SegmentKey(segment: string): Option<string> {
    var trimmed := Trim(segment);
    var rest := if trimmed != [] && trimmed[0] == '{' then trimmed[1..] else trimmed;
    match IndexOf(rest, ':')
    case None => None
    case Some(i) => if Trim(rest[..i]) == "" then None else Some(Trim(rest[..i]))
  }

  /** The first `n` segments. */
  function SegmentKeys(segments: seq<string>, n: nat): seq<string>
    requires n <= |segments|
  {
    if n == 0 then []
    else SegmentKeys(segments, n - 1) + match SegmentKey(segments[n - 1]) case Some(key) => [key] case None => []
  }

  function CaptureKeys(expr: string): seq<string> {
    var segments := Split(expr, ',');
    SegmentKeys(segments, |segments|)
  }

  method ExtractKeys(expr: string) returns (keys: seq<string>)
    ensures keys == CaptureKeys(expr)
  {
    var segments := Split(expr, ',');
    keys := [];
    for i := 0 to |segments|
      invariant keys == SegmentKeys(segments, i)
    {
      var key := SegmentKey(segments[i]);
      if key.Some? {
        keys := keys + [key.value];
      }
    }
  }

  /** A segment `name: expression` gives its name; an opening brace before it does
      not matter. */
  lemma {:induction false} NamedSegment(segment: string, name: string, rest: string, brace: bool)
    requires Template.Identifier(name) && rest != [] && !IsSpace(rest[|rest| - 1])
    requires segment == (if brace then "{" else "") + (name + (":" + rest))
    ensures SegmentKey(segment) == Some(name)
  {
    var named := name + (":" + rest);
    assert segment[|segment| - 1] == rest[|rest| - 1];
    TrimNothing(segment);
    assert brace ==> segment[1..] == named;
    assert !brace ==> segment == named && segment[0] == name[0];
    assert named[|name|] == ':' && named[..|name|] == name && ':' !in name;
    IndexOfIs(named, ':', |name|);
    TrimNothing(name);
  }

  /** Neither does a space. */
  lemma {:induction false} LeadingSpace(segment: string)
    ensures SegmentKey(" " + segment) == SegmentKey(segment)
  {
    assert (" " + segment)[1..] == segment;
    assert TrimStart(" " + segment) == TrimStart(segment);
  }

  lemma {:induction false} SegmentsGive(segments: seq<string>, keys: seq<string>, n: nat)
    requires |segments| == |keys| && n <= |keys|
    requires forall i :: 0 <= i < n ==> SegmentKey(segments[i]) == Some(keys[i])
    ensures SegmentKeys(segments, n) == keys[..n]
  {
    if n > 0 {
      SegmentsGive(segments, keys, n - 1);
      assert keys[..n] == keys[..n - 1] + [keys[n - 1]];
    }
  }

  /** A multiselect gives the names of its segments, in order. */
  lemma {:induction false} KeysExact(segments: seq<string>, keys: seq<string>)
    requires segments != [] && |segments| == |keys|
    requires forall i :: 0 <= i < |segments| ==> ',' !in segments[i] && SegmentKey(segments[i]) == Some(keys[i])
    ensures CaptureKeys(Join(segments, ',')) == keys
  {
    SplitJoin(segments, ',');
    SegmentsGive(segments, keys, |keys|);
    assert keys[..|keys|] == keys;
  }

  /** Any expression language, policy and network, with the real tokenizer, the
      real templates and the real placeholders. */
  function Program(t: Tools): Tools {
    t.(shell := TokenizeSource, expand := ExpandArgument, captureKeys := CaptureKeys)
  }

  // ---------- Without captures, preflight decides ----------

  /** In a document without captures that passes preflight, every curl source
      tokenizes and every one of its words expands when the run reaches it. */
  lemma {:induction false} WithoutCaptures(t: Tools, items: seq<Item>, vars: Vars, k: nat)
    requires Preflight(Program(t), items, vars) == None && k < |items| && items[k].Curl?
    requires NoCapture(items, |items|)
    ensures Shell.ParseCurlSource(items[k].source).Ok?
    ensures forall i :: 0 <= i < |Shell.ParseCurlSource(items[k].source).value| ==>
                          Render.Expand(Shell.ParseCurlSource(items[k].source).value[i],
                                        After(Program(t), items, vars, k).vars).Ok?
  {
    var now := After(Program(t), items, vars, k).vars;
    PreflightSound(Program(t), items, vars, k);
    var argv := TokenizeSource(items[k].source).value;
    ExpandsAll(Program(t), argv, 0, now);
    forall i | 0 <= i < |argv|
      ensures Render.Expand(argv[i], now).Ok?
    {
      assert Program(t).expand(argv[i], now).Some?;
    }
  }

  // ---------- With captures, exactly the templated items can fail ----------

  /** The word is more than literal text. */
  ghost predicate TemplatedWord(word: string) {
    && Template.Parse(word).Ok?
    && exists i :: 0 <= i < |Template.Parse(word).value| && Template.Parse(word).value[i].Expr?
  }

  ghost predicate Templated(source: string) {
    && TokenizeSource(source).Some?
    && exists i :: 0 <= i < |TokenizeSource(source).value| && TemplatedWord(TokenizeSource(source).value[i])
  }

  /** A word of literal text expands with all variables or with none. */
  lemma {:induction false} LiteralWord(word: string, a: Vars, b: Vars)
    requires !TemplatedWord(word)
    ensures ExpandArgument(word, a).Some? <==> ExpandArgument(word, b).Some?
  {
    if Template.Parse(word).Ok? {
      var parts := Template.Parse(word).value;
      forall k | 0 <= k < |parts|
        ensures parts[k].Literal?
      {
        assert !parts[k].Expr?;
      }
      Render.LiteralsIgnoreVars(parts, 0, a, b, "");
    }
  }

  lemma {:induction false} LongText() returns (text: string)
    ensures |text| > Render.MAX_RENDERED_BYTES
  {
    text := seq(Render.MAX_RENDERED_BYTES + 1, _ => 'x');
  }

  /** For every templated word there are variables with which it fails,
      whatever the other variables are. */
  lemma {:induction false} WordCanFail(word: string, vars: Vars) returns (captured: Vars)
    requires TemplatedWord(word)
    ensures ExpandArgument(word, vars + captured).None?
  {
    var parts := Template.Parse(word).value;
    var i :| 0 <= i < |parts| && parts[i].Expr?;
    Template.AcceptedParts(word, i);
    var text := LongText();
    captured := map[parts[i].expr.path[0].name := Str(text)];
    Render.LongTextBreaks(parts[i].expr, vars + captured, text);
    Render.BrokenFails(parts, 0, i, vars + captured, "");
  }

  ghost predicate TemplateFails(t: Tools, items: seq<Item>, vars: Vars, k: nat)
    requires k < |items| && items[k].Curl?
  {
    PerformCurl(t, k, items[k].source, After(t, items, vars, k).vars) == TemplateError
  }

  /** Item `k` fails with a template error in no world that passes preflight. */
  ghost predicate Safe(items: seq<Item>, vars: Vars, k: nat)
    requires k < |items| && items[k].Curl?
  {
    forall t: Tools :: Preflight(Program(t), items, vars) == None ==> !TemplateFails(Program(t), items, vars, k)
  }

  lemma {:induction false} LiteralItemSafe(t: Tools, items: seq<Item>, vars: Vars, k: nat)
    requires Preflight(Program(t), items, vars) == None && k < |items| && items[k].Curl?
    requires !Templated(items[k].source)
    ensures !TemplateFails(Program(t), items, vars, k)
  {
    var known := Validated(Program(t), items, vars, k).known;
    var now := After(Program(t), items, vars, k).vars;
    NoFinding(Program(t), items, vars, k);
    LiteralWords(items[k].source, known, now);
    ExpandsStill(Program(t), k, items[k].source, known, now);
  }

  lemma {:induction false} LiteralWords(source: string, a: Vars, b: Vars)
    requires TokenizeSource(source).Some? && !Templated(source)
    ensures var argv := TokenizeSource(source).value;
            forall i :: 0 <= i < |argv| && ExpandArgument(argv[i], a).Some? ==> ExpandArgument(argv[i], b).Some?
  {
    var argv := TokenizeSource(source).value;
    forall i | 0 <= i < |argv|
      ensures ExpandArgument(argv[i], a).Some? ==> ExpandArgument(argv[i], b).Some?
    {
      LiteralWord(argv[i], a, b);
    }
  }

  /** A world in which a templated item after a capture fails. */
  lemma {:induction false} UnsafeWorld(t: Tools, items: seq<Item>, vars: Vars, k: nat) returns (u: Tools)
    requires Ordered(items) && Preflight(Program(t), items, vars) == None
    requires k < |items| && items[k].Curl? && !NoCapture(items, k) && Templated(items[k].source)
    ensures u == Program(u) && Preflight(u, items, vars) == None
    ensures TemplateFails(u, items, vars, k)
  {
    var argv := TokenizeSource(items[k].source).value;
    var i :| 0 <= i < |argv| && TemplatedWord(argv[i]);
    var captured := WordCanFail(argv[i], vars);
    u := CaptureBreaks(Program(t), items, vars, k, i, captured);
  }

  /** For every planned document that passes some preflight, item `k` is safe
      from template errors exactly when no capture stands before it or none of
      its words has an expression. */
  lemma {:induction false} TemplateSafetyExact(t: Tools, items: seq<Item>, vars: Vars, k: nat)
    requires Ordered(items) && Preflight(Program(t), items, vars) == None
    requires k < |items| && items[k].Curl?
    ensures Safe(items, vars, k) <==> NoCapture(items, k) || !Templated(items[k].source)
  {
    if NoCapture(items, k) || !Templated(items[k].source) {
      forall u: Tools | Preflight(Program(u), items, vars) == None
        ensures !TemplateFails(Program(u), items, vars, k)
      {
        if NoCapture(items, k) {
          PreflightSound(Program(u), items, vars, k);
        } else {
          LiteralItemSafe(u, items, vars, k);
        }
      }
    } else {
      var u := UnsafeWorld(t, items, vars, k);
      assert Preflight(Program(u), items, vars) == None;
    }
  }

  // ---------- A document ----------

  /** Nothing is denied, and every expression is valid. */
  function Lenient(): Tools {
    Tools(
      TokenizeSource,
      source => Failed,
      argv => false,
      argv => Some(CurlPlan("GET", "")),
      argv => Failed,
      ExpandArgument,
      argv => Failed,
      plan => None,
      url => false,
      expression => true,
      CaptureKeys,
      (index, plan) => None,
      (line, transfer, vars) => None,
      (expression, transfer, vars) => None)
  }

  lemma {:induction false} LenientAccepts(source: string, known: Vars)
    requires TokenizeSource(source).Some?
    requires var argv := TokenizeSource(source).value;
             forall i :: 0 <= i < |argv| ==> ExpandArgument(argv[i], known).Some?
    ensures ValidateCurl(Lenient(), source, known) == None
  {}

  lemma {:induction false} LiteralExpands(word: string, known: Vars)
    requires word != "" && Ascii(word) && |word| <= 64 && FindPair(word, '{', 0).None? && FindPair(word, '}', 0).None?
    ensures ExpandArgument(word, known).Some?
  {
    AsciiByteLen(word);
    var parts := [Template.Literal(word)];
    assert Template.Parse(word) == Ok(parts);
    assert "" + word == word;
    assert Render.AppendPart(parts[0], known, "") == Ok(word);
    assert Render.RenderParts(parts, 1, known, word) == Ok(word);
  }

  function Variable(name: string): Template.Expression {
    Template.Expression([Template.Key(name)], Template.FString)
  }

  lemma {:induction false} VariableText(name: string)
    ensures Template.PrintExpression(Variable(name)) == "{{" + name + "}}"
  {
    assert Variable(name).path[1..] == [];
    assert name + "" == name;
    assert Template.PrintPath([Template.Key(name)]) == name;
  }

  lemma {:induction false} VariableParses(name: string, word: string)
    requires Template.Identifier(name) && |name| <= 64 && word == "{{" + name + "}}"
    ensures Template.Parse(word) == Ok([Template.Expr(Variable(name))])
    ensures Shell.TemplateWord(word) && Ascii(word)
  {
    VariableText(name);
    Template.InnerPlain(Variable(name));
    VariableAscii(name, word);
    AsciiByteLen(word);
    Template.ParsePrinted(Variable(name));
  }

  lemma {:induction false} VariableAscii(name: string, word: string)
    requires Template.Identifier(name) && word == "{{" + name + "}}"
    ensures Shell.TemplateWord(word) && Ascii(word)
  {
    assert word[2..|word| - 2] == name;
    forall i | 0 <= i < |word|
      ensures word[i] as int < 0x80
    {
      if 2 <= i < |word| - 2 {
        assert word[i] == name[i - 2];
      }
    }
  }

  lemma {:induction false} VariableExpands(name: string, word: string, text: string, known: Vars)
    requires Template.Parse(word) == Ok([Template.Expr(Variable(name))])
    requires name in known && known[name] == Str(text) && ByteLen(text) <= Render.MAX_RENDERED_BYTES
    ensures ExpandArgument(word, known).Some?
  {
    var parts := [Template.Expr(Variable(name))];
    assert Variable(name).path[1..] == [];
    assert "" + text == text;
    assert Render.AppendPart(parts[0], known, "") == Ok(text);
    assert Render.RenderParts(parts, 1, known, text) == Ok(text);
  }

  lemma {:induction false} NameKey(name: string, expr: string)
    requires Template.Identifier(name) && expr == "{" + name + ": body}"
    ensures CaptureKeys(expr) == [name]
  {
    SplitWhole(expr, ',');
    TrimNothing(expr);
    var rest := expr[1..];
    assert rest[|name|] == ':' && rest[..|name|] == name;
    assert ':' !in name;
    IndexOfIs(rest, ':', |name|);
    TrimNothing(name);
    assert SegmentKey(expr) == Some(name);
    assert SegmentKeys([expr], 0) == [];
  }

  /** A word that the tokenizer takes as it stands. */
  predicate PlainWord(word: string) {
    && Shell.BareText(word) && Ascii(word) && |word| <= 64 && !IsSpace(word[|word| - 1])
    && FindPair(word, '{', 0).None? && FindPair(word, '}', 0).None?
  }

  lemma {:induction false} SourceReads(source: string, word: string)
    requires source == "curl" + " " + word && Ascii(word) && 0 < |word| <= 68 && !IsSpace(word[|word| - 1])
    requires Shell.BareText(word) || (Shell.TemplateWord(word) && Template.Parse(word).Ok?)
    ensures TokenizeSource(source) == Some(["curl", word])
  {
    AsciiByteLen(source);
    Shell.ParseTwoWords(source, word);
  }

  lemma {:induction false} CurlWord()
    ensures PlainWord("curl")
  {
    FindPairFirst("curl", '{', 0);
    FindPairFirst("curl", '}', 0);
  }

  /** A request, a capture of its body, and a request that uses it. */
  function CapturingDocument(host: string, name: string): seq<Item> {
    [Curl("first", "curl" + " " + host), Capture("first", "{" + name + ": body}"),
     Curl("second", "curl" + " " + ("{{" + name + "}}"))]
  }

  lemma {:induction false} DocumentOrdered(host: string, name: string)
    ensures Ordered(CapturingDocument(host, name)) && !NoCapture(CapturingDocument(host, name), 2)
  {
    var items := CapturingDocument(host, name);
    assert items[0].Curl? && items[0].name == "first";
    assert Defined(items, 1, "first");
    assert items[1].Capture?;
  }

  lemma {:induction false} FirstRequest(host: string, source: string)
    requires PlainWord(host) && source == "curl" + " " + host
    ensures ValidateCurl(Lenient(), source, map[]) == None
  {
    CurlWord();
    SourceReads(source, host);
    LiteralExpands("curl", map[]);
    LiteralExpands(host, map[]);
    LenientAccepts(source, map[]);
  }

  lemma {:induction false} PlaceholderExpands(name: string, word: string, known: Vars)
    requires Template.Parse(word) == Ok([Template.Expr(Variable(name))])
    requires known == map[name := Str("captured")]
    ensures ExpandArgument(word, known).Some?
  {
    AsciiByteLen("captured");
    VariableExpands(name, word, "captured", known);
  }

  lemma {:induction false} SecondRequest(name: string, source: string, known: Vars)
    requires Template.Identifier(name) && |name| <= 64 && source == "curl" + " " + ("{{" + name + "}}")
    requires known == map[name := Str("captured")]
    ensures ValidateCurl(Lenient(), source, known) == None && Templated(source)
  {
    var word := "{{" + name + "}}";
    VariableParses(name, word);
    assert word[|word| - 1] == '}';
    SourceReads(source, word);
    CurlWord();
    LiteralExpands("curl", known);
    PlaceholderExpands(name, word, known);
    LenientAccepts(source, known);
    assert TokenizeSource(source).value[1] == word;
    assert Template.Parse(word).value[0].Expr?;
  }

  lemma {:induction false} DocumentAccepted(host: string, name: string, items: seq<Item>)
    requires PlainWord(host) && Template.Identifier(name) && |name| <= 64 && items == CapturingDocument(host, name)
    ensures Preflight(Lenient(), items, map[]) == None && Templated(items[2].source)
  {
    var t := Lenient();
    var known: Vars := map[name := Str("captured")];
    FirstRequest(host, items[0].source);
    SecondRequest(name, items[2].source, known);
    NameKey(name, items[1].expr);
    assert Validated(t, items, map[], 0) == Validation(map[], []);
    assert Validated(t, items, map[], 1) == Validation(map[], []);
    assert Placeholders(map[], [name], 0) == map[];
    assert Placeholders(map[], [name], 1) == known;
    assert Validated(t, items, map[], 2) == Validation(known, []);
    assert Validated(t, items, map[], 3) == Validation(known, []);
  }

  /** With the real tokenizer and the real templates, a document that uses what
      it captured passes preflight and fails with a template error. */
  lemma {:induction false} CaptureBreaksTemplate(host: string, name: string) returns (t: Tools)
    requires PlainWord(host) && Template.Identifier(name) && |name| <= 64
    ensures var items := CapturingDocument(host, name);
            && t == Program(t) && Ordered(items) && Preflight(t, items, map[]) == None
            && TemplateFails(t, items, map[], 2)
  {
    var items := CapturingDocument(host, name);
    DocumentOrdered(host, name);
    DocumentAccepted(host, name, items);
    assert Program(Lenient()) == Lenient();
    t := UnsafeWorld(Lenient(), items, map[], 2);
  }

  lemma {:induction false} HostWord(host: string)
    requires host == "http://localhost"
    ensures PlainWord(host)
  {
    FindPairFirst(host, '{', 0);
    FindPairFirst(host, '}', 0);
    assert |host| == 16 && host[15] == 't';
  }

  lemma {:induction false} ExampleItems(host: string, name: string)
    requires host == "http://localhost" && name == "v"
    ensures CapturingDocument(host, name) ==
            [Curl("first", "curl http://localhost"), Capture("first", "{v: body}"), Curl("second", "curl {{v}}")]
  {
    assert "curl" + " " + host == "curl http://localhost";
    assert "{" + name + ": body}" == "{v: body}";
    assert "curl" + " " + ("{{" + name + "}}") == "curl {{v}}";
  }

  /** The document with the sources `curl http://localhost` and `curl {{v}}`. */
  lemma {:induction false} ExampleDocument(items: seq<Item>) returns (t: Tools)
    requires items == [Curl("first", "curl http://localhost"), Capture("first", "{v: body}"),
                       Curl("second", "curl {{v}}")]
    ensures t == Program(t) && Preflight(t, items, map[]) == None
    ensures TemplateFails(t, items, map[], 2)
  {
    var host, name := "http://localhost", "v";
    HostWord(host);
    ExampleItems(host, name);
    t := CaptureBreaksTemplate(host, name);
  }

  // ---------- From fences to the verdict ----------

  /** Item `j` is the step that item `k` names, and item `k` sees its transfer. */
  ghost predicate StepAt(t: Tools, items: seq<Item>, vars: Vars, k: nat, j: nat)
    requires k < |items| && !items[k].Curl?
  {
    && j < k && items[j].Curl? && items[j].name == items[k].step
    && items[k].step in After(t, items, vars, k).transfers
    && PerformCurl(t, j, items[j].source, After(t, items, vars, j).vars)
       == Transferred(After(t, items, vars, k).transfers[items[k].step])
  }

  ghost predicate SeesOwnStep(t: Tools, items: seq<Item>, vars: Vars, k: nat)
    requires k < |items| && !items[k].Curl?
  {
    exists j :: StepAt(t, items, vars, k, j)
  }

  /** Every line of the check that is not blank, trimmed, is true against the
      transfer of the step. */
  ghost predicate CheckHolds(t: Tools, st: State, step: string, body: string) {
    && step in st.transfers
    && forall i, text :: 0 <= i < |Split(body, '\n')| && LineText(Split(body, '\n')[i], text) ==>
                           t.check(text, st.transfers[step], st.vars) == Some(true)
  }

  /** The line is not blank, and `text` is what it says. */
  ghost predicate LineText(line: string, text: string) {
    HasText(line) && TrimsTo(line, text)
  }

  /** The lines of the capture that are not blank, trimmed and joined, give an
      object that is merged. */
  ghost predicate CaptureHolds(t: Tools, st: State, after: State, step: string, body: string) {
    && step in st.transfers
    && exists at, texts :: Selects(Split(body, '\n'), at, texts) && Merges(t, st, after, step, Join(texts, '\n'))
  }

  ghost predicate Merges(t: Tools, st: State, after: State, step: string, expr: string)
    requires step in st.transfers
  {
    && t.capture(expr, st.transfers[step], st.vars).Some?
    && after.vars == st.vars + t.capture(expr, st.transfers[step], st.vars).value
  }

  /** Everything that the fence asks for held, in the state that the run was in
      when it reached the item of the fence. */
  ghost predicate FenceHolds(t: Tools, f: Fence, k: nat, st: State, after: State) {
    || (f.language == "curl" && "name" in f.attributes
        && PerformCurl(t, k, f.body, st.vars).Transferred?
        && after.transfers == st.transfers[f.attributes["name"] := PerformCurl(t, k, f.body, st.vars).transfer])
    || (f.language == "jmespath" && "check" in f.attributes && CheckHolds(t, st, f.attributes["check"], f.body))
    || (f.language == "jmespath" && "capture" in f.attributes
        && CaptureHolds(t, st, after, f.attributes["capture"], f.body))
  }

  lemma {:induction false} LineIsChecked(lines: seq<string>, at: seq<nat>, texts: seq<string>, i: nat, text: string)
    returns (k: nat)
    requires Selects(lines, at, texts) && i < |lines| && LineText(lines[i], text)
    ensures k < |texts| && texts[k] == text
  {
    assert i in at;
    k :| k < |at| && at[k] == i;
    TrimUnique(lines[i], text);
    TrimUnique(lines[i], texts[k]);
  }

  lemma {:induction false} CheckFenceHolds(t: Tools, f: Fence, k: nat, st: State, item: Item, after: State,
                                           at: seq<nat>)
    requires f.language == "jmespath" && "check" in f.attributes && item.Check? && item.step == f.attributes["check"]
    requires Selects(Split(f.body, '\n'), at, item.lines) && Succeeds(t, st, k, item, after)
    ensures CheckHolds(t, st, f.attributes["check"], f.body)
  {
    var lines := Split(f.body, '\n');
    forall i, text | 0 <= i < |lines| && LineText(lines[i], text)
      ensures t.check(text, st.transfers[item.step], st.vars) == Some(true)
    {
      var m := LineIsChecked(lines, at, item.lines, i, text);
    }
  }

  lemma {:induction false} ItemFenceHolds(t: Tools, f: Fence, k: nat, st: State, item: Item, after: State)
    requires ItemOf(f, item) && Succeeds(t, st, k, item, after)
    ensures FenceHolds(t, f, k, st, after)
  {
    match item
    case Curl(_, _) =>
    case Check(_, _) =>
      var at :| Selects(Split(f.body, '\n'), at, item.lines);
      CheckFenceHolds(t, f, k, st, item, after, at);
    case Capture(_, _) =>
      var at, texts :| Selects(Split(f.body, '\n'), at, texts) && item.expr == Join(texts, '\n');
      assert Merges(t, st, after, item.step, Join(texts, '\n'));
  }

  /** In a document that is planned from its fences and passes its test, every
      fence held, each in its place: every request was transferred, every line
      of every check that is not blank was true, and every capture was merged;
      and each check and capture saw the transfer of the step that it names. */
  lemma {:induction false} FencesToVerdict(decode: Decoder, fences: seq<Fence>, t: Tools, cliVars: Vars, f: nat)
    requires PlanFences(decode, fences, |fences|).Ok? && f < |fences| && IsItemFence(fences[f])
    requires var p := PlanFences(decode, fences, |fences|).value;
             Test(t, p.items, p.vars + cliVars).status == Passed
    ensures var p := PlanFences(decode, fences, |fences|).value;
            HeldAt(t, p.items, p.vars + cliVars, fences[f], Rank(fences, f))
  {
    var p := PlanFences(decode, fences, |fences|).value;
    PlanWell(decode, fences, |fences|);
    PlanItems(decode, fences, |fences|);
    PassedFence(t, p.items, p.vars + cliVars, fences[f], Rank(fences, f));
  }

  /** The fence held when the run reached its item `k`, against its own step. */
  ghost predicate HeldAt(t: Tools, items: seq<Item>, vars: Vars, f: Fence, k: nat) {
    && k < |items|
    && FenceHolds(t, f, k, After(t, items, vars, k), After(t, items, vars, k + 1))
    && (!items[k].Curl? ==> SeesOwnStep(t, items, vars, k))
  }

  lemma {:induction false} PassedFence(t: Tools, items: seq<Item>, vars: Vars, f: Fence, k: nat)
    requires Ordered(items) && Test(t, items, vars).status == Passed && k < |items| && ItemOf(f, items[k])
    ensures HeldAt(t, items, vars, f, k)
  {
    PassedExact(t, items, vars);
    SucceedPrefix(t, items, vars, |items|, k);
    ItemFenceHolds(t, f, k, After(t, items, vars, k), items[k], After(t, items, vars, k + 1));
    if !items[k].Curl? {
      OwnStep(t, items, vars, k);
    }
  }

  lemma {:induction false} OwnStep(t: Tools, items: seq<Item>, vars: Vars, k: nat)
    requires Ordered(items) && Test(t, items, vars).status == Passed && k < |items| && !items[k].Curl?
    ensures SeesOwnStep(t, items, vars, k)
  {
    assert Defined(items, k, items[k].step);
    var j :| 0 <= j < k && j < |items| && items[j].Curl? && items[j].name == items[k].step;
    OwnTransfer(t, items, vars, j, k);
    assert StepAt(t, items, vars, k, j);
  }
}
