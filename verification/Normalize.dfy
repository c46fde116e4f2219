/** Rendering the tokens of a command into an argv: the loop of the Rust tool,
    with its placeholders for what cannot be rendered, its diagnostics and its
    limits, once for execution and once for display. */
module Normalize {
  import opened Text
  import opened Json
  import opened Template
  import opened Render
  import opened Quoting

  const MAX_RENDERED_ARG_COUNT: nat := 256
  const MAX_RENDERED_ARGUMENT_BYTES: nat := 8388608
  const MAX_RENDERED_ARGV_BYTES: nat := 8388608

  datatype Problem = MissingVariable(name: string) | TemplateProblem(error: Error) | LimitExceeded

  /** What is hidden, and whether an unknown variable keeps its template. */
  datatype Mode = Mode(redact: Expression -> bool, preserve: bool)

  const EXECUTE: Mode := Mode(expr => false, false)

  datatype Rendered = Rendered(text: string, problems: seq<Problem>)

  // ---------- One token ----------

  function Root(expr: Expression): string {
    if expr.path != [] && expr.path[0].Key? then expr.path[0].name else ""
  }

  /** The text of one part when `out` is already written. */
  function PartText(part: Part, values: Vars, mode: Mode, out: string): Rendered {
    match part
    case Literal(text) => Rendered(text, [])
    case Expr(expr) =>
      if Root(expr) !in values then
        if mode.preserve then Rendered(PrintExpression(expr), [])
        else Rendered("[MISSING_VARIABLE]", [MissingVariable(Root(expr))])
      else
        match RenderExpression(expr, values, MAX_RENDERED_BYTES - ByteLen(out))
        case Ok(rendered) => Rendered(if mode.redact(expr) then "[REDACTED]" else rendered, [])
        case Err(error) => Rendered("[INVALID_TEMPLATE]", [TemplateProblem(error)])
  }

  /** The parts from `i` on, after `out`. */
  function RenderFrom(parts: seq<Part>, i: nat, values: Vars, mode: Mode, out: string, problems: seq<Problem>): Rendered
    requires i <= |parts|
    decreases |parts| - i
  {
    if i == |parts| then Rendered(out, problems)
    else
      var r := PartText(parts[i], values, mode, out);
      if ByteLen(out) + ByteLen(r.text) > MAX_RENDERED_BYTES
      then Rendered("[TEMPLATE_LIMIT]", problems + r.problems + [LimitExceeded])
      else RenderFrom(parts, i + 1, values, mode, out + r.text, problems + r.problems)
  }

  /** Text without a template is taken as it is. */
  function RenderToken(token: string, values: Vars, mode: Mode): Rendered {
    if FindPair(token, '{', 0).None? then
      if ByteLen(token) <= MAX_RENDERED_ARGUMENT_BYTES then Rendered(token, [])
      else Rendered("[TEMPLATE_LIMIT]", [LimitExceeded])
    else match Parse(token)
         case Err(error) => Rendered("[INVALID_TEMPLATE]", [TemplateProblem(error)])
         case Ok(parts) => RenderFrom(parts, 0, values, mode, "", [])
  }

  method RenderParsedTemplate(parts: seq<Part>, values: Vars, mode: Mode) returns (r: Rendered)
    ensures r == RenderFrom(parts, 0, values, mode, "", [])
  {
    var output := "";
    var problems: seq<Problem> := [];
    for i := 0 to |parts|
      invariant RenderFrom(parts, i, values, mode, output, problems) == RenderFrom(parts, 0, values, mode, "", [])
    {
      var piece := PartText(parts[i], values, mode, output);
      problems := problems + piece.problems;
      if ByteLen(output) + ByteLen(piece.text) > MAX_RENDERED_BYTES {
        return Rendered("[TEMPLATE_LIMIT]", problems + [LimitExceeded]);
      }
      output := output + piece.text;
    }
    r := Rendered(output, problems);
  }

  // ---------- Rendering for execution is expansion ----------

  lemma {:induction false} ProblemsStay(parts: seq<Part>, i: nat, values: Vars, mode: Mode, out: string,
                                        problems: seq<Problem>)
    requires i <= |parts| && problems != []
    ensures RenderFrom(parts, i, values, mode, out, problems).problems != []
    decreases |parts| - i
  {
    if i < |parts| {
      var r := PartText(parts[i], values, mode, out);
      ProblemsStay(parts, i + 1, values, mode, out + r.text, problems + r.problems);
    }
  }

  lemma {:induction false} UnknownRoot(expr: Expression, values: Vars, max: int)
    requires Root(expr) !in values
    ensures RenderExpression(expr, values, max).Err?
  {}

  /** What expansion does with the result of rendering one expression. */
  lemma {:induction false} ExpressionAppends(expr: Expression, values: Vars, out: string, result: Result<string, Error>)
    requires result == RenderExpression(expr, values, MAX_RENDERED_BYTES - ByteLen(out))
    ensures AppendPart(Expr(expr), values, out) == if result.Ok? then Ok(out + result.value) else Err(result.error)
    ensures Root(expr) in values && result.Ok? ==>
              PartText(Expr(expr), values, EXECUTE, out) == Rendered(result.value, [])
    ensures Root(expr) in values && result.Err? ==> PartText(Expr(expr), values, EXECUTE, out).problems != []
    ensures Root(expr) !in values ==> PartText(Expr(expr), values, EXECUTE, out).problems != []
  {}

  /** One part is free of problems exactly when expansion can append it. */
  lemma {:induction false} PartExpands(part: Part, values: Vars, out: string)
    returns (r: Rendered, appended: Result<string, Error>)
    requires ByteLen(out) <= MAX_RENDERED_BYTES
    ensures r == PartText(part, values, EXECUTE, out) && appended == AppendPart(part, values, out)
    ensures appended.Ok? <==> r.problems == [] && ByteLen(out) + ByteLen(r.text) <= MAX_RENDERED_BYTES
    ensures appended.Ok? ==> appended.value == out + r.text
  {
    r, appended := PartText(part, values, EXECUTE, out), AppendPart(part, values, out);
    if part.Expr? {
      var result := RenderExpression(part.expr, values, MAX_RENDERED_BYTES - ByteLen(out));
      ExpressionAppends(part.expr, values, out, result);
      if Root(part.expr) !in values {
        UnknownRoot(part.expr, values, MAX_RENDERED_BYTES - ByteLen(out));
      } else if result.Ok? {
        RenderWithinBudget(part.expr, values, MAX_RENDERED_BYTES - ByteLen(out));
      }
    }
  }

  lemma {:induction false} PartsExpand(parts: seq<Part>, i: nat, values: Vars, out: string)
    requires i <= |parts| && ByteLen(out) <= MAX_RENDERED_BYTES
    ensures RenderFrom(parts, i, values, EXECUTE, out, []).problems == [] <==> RenderParts(parts, i, values, out).Ok?
    ensures RenderParts(parts, i, values, out).Ok? ==>
              RenderFrom(parts, i, values, EXECUTE, out, []).text == RenderParts(parts, i, values, out).value
    decreases |parts| - i
  {
    if i < |parts| {
      var r, appended := PartExpands(parts[i], values, out);
      if appended.Ok? {
        Utf8Concat(out, r.text);
        assert [] + r.problems == [];
        PartsExpand(parts, i + 1, values, out + r.text);
      } else if ByteLen(out) + ByteLen(r.text) <= MAX_RENDERED_BYTES {
        ProblemsStay(parts, i + 1, values, EXECUTE, out + r.text, [] + r.problems);
      }
    }
  }

  /** For execution, a template renders without a diagnostic exactly when it
      expands, and then to the expanded text. */
  lemma {:induction false} TokenExpands(token: string, values: Vars)
    requires FindPair(token, '{', 0).Some?
    ensures RenderToken(token, values, EXECUTE).problems == [] <==> Expand(token, values).Ok?
    ensures Expand(token, values).Ok? ==> RenderToken(token, values, EXECUTE).text == Expand(token, values).value
  {
    if Parse(token).Ok? {
      PartsExpand(Parse(token).value, 0, values, "");
    }
  }

  // ---------- The whole command ----------

  /** The loop over the tokens works with any way of rendering one of them. */
  type Renderer = string -> Rendered

  datatype Command = Command(argv: seq<string>, problems: seq<Problem>)

  function TokenRenderer(values: Vars, mode: Mode): Renderer {
    token => RenderToken(token, values, mode)
  }

  /** The tokens from `i` on, after `argv` with `total` bytes. */
  function Gather(render: Renderer, tokens: seq<string>, i: nat, argv: seq<string>, total: nat,
                  problems: seq<Problem>): Command
    requires i <= |tokens|
    decreases |tokens| - i
  {
    if i == |tokens| then Command(argv, problems)
    else
      var r := render(tokens[i]);
      if ByteLen(r.text) > MAX_RENDERED_ARGUMENT_BYTES || total + ByteLen(r.text) > MAX_RENDERED_ARGV_BYTES
      then Command([], problems + r.problems + [LimitExceeded])
      else Gather(render, tokens, i + 1, argv + [r.text], total + ByteLen(r.text), problems + r.problems)
  }

  function NormalizeWith(render: Renderer, tokens: seq<string>): Command {
    if |tokens| > MAX_RENDERED_ARG_COUNT then Command([], [LimitExceeded]) else Gather(render, tokens, 0, [], 0, [])
  }

  function NormalizeCommand(tokens: seq<string>, values: Vars, mode: Mode): Command {
    NormalizeWith(TokenRenderer(values, mode), tokens)
  }

  /** `normalize_command` as the program runs it: it renders on after a
      diagnostic and gives up only at a limit. */
  method RenderCommand(render: Renderer, tokens: seq<string>) returns (r: Command)
    ensures r == NormalizeWith(render, tokens)
  {
    if |tokens| > MAX_RENDERED_ARG_COUNT {
      return Command([], [LimitExceeded]);
    }
    var argv: seq<string> := [];
    var problems: seq<Problem> := [];
    var total: nat := 0;
    for i := 0 to |tokens|
      invariant Gather(render, tokens, i, argv, total, problems) == Gather(render, tokens, 0, [], 0, [])
    {
      var rendered := render(tokens[i]);
      problems := problems + rendered.problems;
      if ByteLen(rendered.text) > MAX_RENDERED_ARGUMENT_BYTES {
        return Command([], problems + [LimitExceeded]);
      }
      if total + ByteLen(rendered.text) > MAX_RENDERED_ARGV_BYTES {
        return Command([], problems + [LimitExceeded]);
      }
      total := total + ByteLen(rendered.text);
      argv := argv + [rendered.text];
    }
    r := Command(argv, problems);
  }

  /** The bytes of the arguments from `i` on. */
  function TotalBytes(argv: seq<string>, i: nat): nat
    requires i <= |argv|
    decreases |argv| - i
  {
    if i == |argv| then 0 else ByteLen(argv[i]) + TotalBytes(argv, i + 1)
  }

  /** Every token renders as the argument it stands for. */
  ghost predicate Faithful(render: Renderer, tokens: seq<string>, argv: seq<string>) {
    |tokens| == |argv| && forall k :: 0 <= k < |argv| ==> render(tokens[k]) == Rendered(argv[k], [])
  }

  lemma ShiftArgument(argv: seq<string>, i: nat)
    requires i < |argv|
    ensures argv[..i] + [argv[i]] == argv[..i + 1]
  {}

  lemma {:induction false} GatherFaithful(render: Renderer, tokens: seq<string>, argv: seq<string>, i: nat, total: nat)
    requires Faithful(render, tokens, argv) && i <= |argv|
    requires total + TotalBytes(argv, i) <= MAX_RENDERED_ARGV_BYTES
    ensures Gather(render, tokens, i, argv[..i], total, []) == Command(argv, [])
    decreases |argv| - i
  {
    if i == |argv| {
      assert argv[..i] == argv;
    } else {
      ShiftArgument(argv, i);
      assert [] + render(tokens[i]).problems == [];
      GatherFaithful(render, tokens, argv, i + 1, total + ByteLen(argv[i]));
    }
  }

  /** A faithful rendering within the limits gives the argv. */
  lemma {:induction false} FaithfulNormalizes(render: Renderer, tokens: seq<string>, argv: seq<string>)
    requires Faithful(render, tokens, argv) && |argv| <= MAX_RENDERED_ARG_COUNT
    requires TotalBytes(argv, 0) <= MAX_RENDERED_ARGV_BYTES
    ensures NormalizeWith(render, tokens) == Command(argv, [])
  {
    assert argv[..0] == [];
    GatherFaithful(render, tokens, argv, 0, 0);
  }

  lemma {:induction false} GatherProblems(render: Renderer, tokens: seq<string>, i: nat, argv: seq<string>,
                                          total: nat, problems: seq<Problem>)
    requires i <= |tokens| && problems != []
    ensures Gather(render, tokens, i, argv, total, problems).problems != []
    decreases |tokens| - i
  {
    if i < |tokens| {
      var r := render(tokens[i]);
      GatherProblems(render, tokens, i + 1, argv + [r.text], total + ByteLen(r.text), problems + r.problems);
    }
  }

  lemma {:induction false} GatherClean(render: Renderer, tokens: seq<string>, i: nat, argv: seq<string>,
                                       total: nat, result: seq<string>)
    requires i <= |tokens| && |argv| == i && Gather(render, tokens, i, argv, total, []) == Command(result, [])
    ensures |result| == |tokens| && result[..i] == argv
    ensures forall k :: i <= k < |tokens| ==> render(tokens[k]) == Rendered(result[k], [])
    decreases |tokens| - i
  {
    if i < |tokens| {
      var r := render(tokens[i]);
      if r.problems != [] {
        GatherProblems(render, tokens, i + 1, argv + [r.text], total + ByteLen(r.text), [] + r.problems);
      } else {
        assert [] + r.problems == [];
        GatherClean(render, tokens, i + 1, argv + [r.text], total + ByteLen(r.text), result);
        assert result[..i] == result[..i + 1][..i] == argv;
        assert result[i] == result[..i + 1][i];
      }
    }
  }

  /** Without a diagnostic, every token was rendered as its argument. */
  lemma {:induction false} CleanIsFaithful(render: Renderer, tokens: seq<string>, argv: seq<string>)
    requires NormalizeWith(render, tokens) == Command(argv, [])
    ensures Faithful(render, tokens, argv)
  {
    GatherClean(render, tokens, 0, [], 0, argv);
  }

  lemma {:induction false} GatherWithin(render: Renderer, tokens: seq<string>, i: nat, argv: seq<string>, total: nat,
                                        result: seq<string>)
    requires i <= |tokens| && |argv| == i && total == BytesUpTo(argv, i) <= MAX_RENDERED_ARGV_BYTES
    requires Gather(render, tokens, i, argv, total, []) == Command(result, [])
    ensures |result| == |tokens| && BytesUpTo(result, |result|) <= MAX_RENDERED_ARGV_BYTES
    decreases |tokens| - i
  {
    if i < |tokens| {
      var r := render(tokens[i]);
      if r.problems != [] {
        GatherProblems(render, tokens, i + 1, argv + [r.text], total + ByteLen(r.text), [] + r.problems);
      } else {
        assert [] + r.problems == [];
        SameBytes(argv, argv + [r.text], i);
        GatherWithin(render, tokens, i + 1, argv + [r.text], total + ByteLen(r.text), result);
      }
    }
  }

  /** The bytes of the first `n` arguments. */
  function BytesUpTo(argv: seq<string>, n: nat): nat
    requires n <= |argv|
  {
    if n == 0 then 0 else BytesUpTo(argv, n - 1) + ByteLen(argv[n - 1])
  }

  lemma {:induction false} SameBytes(a: seq<string>, b: seq<string>, n: nat)
    requires n <= |a| && n <= |b| && forall k :: 0 <= k < n ==> a[k] == b[k]
    ensures BytesUpTo(a, n) == BytesUpTo(b, n)
  {
    if n > 0 {
      SameBytes(a, b, n - 1);
    }
  }

  /** A command that renders without a diagnostic is within the limits. */
  lemma {:induction false} NormalizedWithin(render: Renderer, tokens: seq<string>, argv: seq<string>)
    requires NormalizeWith(render, tokens) == Command(argv, [])
    ensures |argv| == |tokens| <= MAX_RENDERED_ARG_COUNT && BytesUpTo(argv, |argv|) <= MAX_RENDERED_ARGV_BYTES
  {
    GatherWithin(render, tokens, 0, [], 0, argv);
  }

  // ---------- Templates that are kept ----------

  /** None of the expressions has its variable. */
  ghost predicate AllUnknown(parts: seq<Part>, values: Vars) {
    forall k :: 0 <= k < |parts| && parts[k].Expr? ==> Root(parts[k].expr) !in values
  }

  /** The parts from `i` on, printed. */
  function PrintFrom(parts: seq<Part>, i: nat): string
    requires i <= |parts|
    decreases |parts| - i
  {
    if i == |parts| then [] else PrintPart(parts[i]) + PrintFrom(parts, i + 1)
  }

  lemma {:induction false} PrintFromIs(parts: seq<Part>, i: nat)
    requires i <= |parts|
    ensures PrintFrom(parts, i) == Print(parts[i..])
    decreases |parts| - i
  {
    if i < |parts| {
      PrintFromIs(parts, i + 1);
      assert parts[i..][1..] == parts[i + 1..];
    }
  }

  /** A display form without its variables is the template itself. */
  lemma {:induction false} UnknownKept(parts: seq<Part>, i: nat, values: Vars, mode: Mode, out: string,
                                       problems: seq<Problem>)
    requires i <= |parts| && mode.preserve && AllUnknown(parts, values)
    requires ByteLen(out + PrintFrom(parts, i)) <= MAX_RENDERED_BYTES
    ensures RenderFrom(parts, i, values, mode, out, problems) == Rendered(out + PrintFrom(parts, i), problems)
    decreases |parts| - i
  {
    if i == |parts| {
      assert out + [] == out;
    } else {
      var text := PrintPart(parts[i]);
      Assoc(out, text, PrintFrom(parts, i + 1));
      Utf8Concat(out + text, PrintFrom(parts, i + 1));
      Utf8Concat(out, text);
      assert problems + [] == problems;
      UnknownKept(parts, i + 1, values, mode, out + text, problems);
    }
  }

  /** What is displayed of a template whose variables are unknown parses to the
      same template. */
  lemma {:induction false} DisplayReparses(token: string, values: Vars, mode: Mode)
    requires FindPair(token, '{', 0).Some? && Parse(token).Ok?
    requires mode.preserve && AllUnknown(Parse(token).value, values)
    requires ByteLen(Print(Parse(token).value)) <= MAX_RENDERED_BYTES
    ensures var shown := RenderToken(token, values, mode);
            shown.problems == [] && shown.text == Print(Parse(token).value) && Parse(shown.text) == Parse(token)
  {
    var parts := Parse(token).value;
    PrintFromIs(parts, 0);
    assert parts[0..] == parts && "" + Print(parts) == Print(parts);
    UnknownKept(parts, 0, values, mode, "", []);
    Reparse(token);
  }

  // ---------- Secrets ----------

  datatype Variable = Variable(value: Json, secret: bool)

  type Variables = map<string, Variable>

  function Values(variables: Variables): Vars {
    map k | k in variables :: variables[k].value
  }

  /** Lower case, without `-` and `_`. */
  function Squeeze(name: string): string {
    if name == [] then []
    else (if name[0] == '-' || name[0] == '_' then [] else [Lower(name[0])]) + Squeeze(name[1..])
  }

  predicate Contains(s: string, word: string) {
    exists i :: 0 <= i <= |s| && At(s, i, word)
  }

  predicate IsSecretName(name: string) {
    var squeezed := Squeeze(name);
    || Contains(squeezed, "password") || Contains(squeezed, "secret")
    || Contains(squeezed, "token") || Contains(squeezed, "apikey")
  }

  /** Some object inside the value has a field with a secret name. */
  predicate SecretField(v: Json) {
    match v
    case Arr(items) => exists i :: 0 <= i < |items| && SecretField(items[i])
    case Obj(members) => exists k :: k in members && (IsSecretName(k) || SecretField(members[k]))
    case _ => false
  }

  predicate PathSecret(value: Json, path: seq<PathPart>) {
    if path == [] then SecretField(value)
    else if path[0].Key? && IsSecretName(path[0].name) then true
    else match Child(value, path[0])
         case None => false
         case Some(next) => PathSecret(next, path[1..])
  }

  predicate ExpressionSecret(expr: Expression, variables: Variables) {
    && expr.path != [] && expr.path[0].Key? && expr.path[0].name in variables
    && var variable := variables[expr.path[0].name];
    variable.secret || PathSecret(variable.value, expr.path[1..])
  }

  /** Somewhere below the value, at the end of a path, an object has a field with
      a secret name. */
  ghost predicate SecretBelow(v: Json, path: seq<PathPart>, k: string) {
    Walk(v, path).Ok? && Walk(v, path).value.Obj? && k in Walk(v, path).value.members && IsSecretName(k)
  }

  lemma {:induction false} SecretFieldFound(v: Json) returns (path: seq<PathPart>, k: string)
    requires SecretField(v)
    ensures SecretBelow(v, path, k)
  {
    match v
    case Arr(items) =>
      var i :| 0 <= i < |items| && SecretField(items[i]);
      var rest;
      rest, k := SecretFieldFound(items[i]);
      path := [Index(i)] + rest;
      assert path[1..] == rest;
    case Obj(members) =>
      var m :| m in members && (IsSecretName(m) || SecretField(members[m]));
      if IsSecretName(m) {
        path, k := [], m;
      } else {
        var rest;
        rest, k := SecretFieldFound(members[m]);
        path := [Key(m)] + rest;
        assert path[1..] == rest;
      }
  }

  lemma {:induction false} SecretFieldHolds(v: Json, path: seq<PathPart>, k: string)
    requires SecretBelow(v, path, k)
    ensures SecretField(v)
    decreases path
  {
    if path != [] {
      SecretFieldHolds(Child(v, path[0]).value, path[1..], k);
    }
  }

  /** A value holds a secret field exactly when some path leads to an object
      with one. */
  lemma {:induction false} SecretFieldExact(v: Json)
    ensures SecretField(v) <==> exists path, k :: SecretBelow(v, path, k)
  {
    if SecretField(v) {
      var path, k := SecretFieldFound(v);
    }
    if exists path, k :: SecretBelow(v, path, k) {
      var path, k :| SecretBelow(v, path, k);
      SecretFieldHolds(v, path, k);
    }
  }

  /** A path touches a secret exactly when one of its keys, reached in the value,
      has a secret name, or the value at its end holds a secret field. */
  lemma {:induction false} PathSecretExact(value: Json, path: seq<PathPart>)
    ensures PathSecret(value, path) <==>
              || (exists j :: 0 <= j < |path| && SecretKeyAt(value, path, j))
              || (Walk(value, path).Ok? && SecretField(Walk(value, path).value))
  {
    if path != [] {
      var next := Child(value, path[0]);
      assert path[..0] == [];
      assert SecretKeyAt(value, path, 0) <==> path[0].Key? && IsSecretName(path[0].name);
      if next.Some? {
        PathSecretExact(next.value, path[1..]);
      }
      forall j | 0 < j < |path|
        ensures SecretKeyAt(value, path, j) <==> next.Some? && SecretKeyAt(next.value, path[1..], j - 1)
      {
        assert path[..j][1..] == path[1..][..j - 1];
      }
      if next.Some? {
        forall j | 0 <= j < |path| - 1
          ensures SecretKeyAt(next.value, path[1..], j) <==> SecretKeyAt(value, path, j + 1)
        {
          assert path[..j + 1][1..] == path[1..][..j];
        }
      }
    }
  }

  ghost predicate SecretKeyAt(value: Json, path: seq<PathPart>, j: nat)
    requires j < |path|
  {
    Walk(value, path[..j]).Ok? && path[j].Key? && IsSecretName(path[j].name)
  }

  lemma {:induction false} SqueezeConcat(a: string, b: string)
    ensures Squeeze(a + b) == Squeeze(a) + Squeeze(b)
  {
    if a == [] {
      assert a + b == b;
    } else {
      assert (a + b)[1..] == a[1..] + b;
      SqueezeConcat(a[1..], b);
    }
  }

  predicate SecretWord(word: string) {
    word == "password" || word == "secret" || word == "token" || word == "apikey"
  }

  /** A secret word is found anywhere in a name, in any case and with `-` and
      `_` anywhere inside it. */
  lemma {:induction false} SecretWordFound(a: string, spelled: string, b: string)
    requires SecretWord(Squeeze(spelled))
    ensures IsSecretName(a + spelled + b)
  {
    var word, squeezed := Squeeze(spelled), Squeeze(a + spelled + b);
    SqueezeConcat(a + spelled, b);
    SqueezeConcat(a, spelled);
    var i := |Squeeze(a)|;
    assert squeezed[i..i + |word|] == word;
    assert At(squeezed, i, word);
    assert Contains(squeezed, word);
  }

  /** The display form hides secrets and keeps unknown templates. */
  function Display(variables: Variables): Mode {
    Mode(expr => ExpressionSecret(expr, variables), true)
  }

  lemma {:induction false} SqueezeChars(name: string, c: char)
    requires c in Squeeze(name)
    ensures exists d :: d in name && Lower(d) == c
  {
    if c in Squeeze(name[1..]) {
      SqueezeChars(name[1..], c);
      var d :| d in name[1..] && Lower(d) == c;
      assert d in name;
    } else {
      assert name[0] in name;
    }
  }

  lemma {:induction false} ContainsChar(s: string, word: string, c: char)
    requires Contains(s, word) && c in word
    ensures c in s
  {
    var i :| 0 <= i <= |s| && At(s, i, word);
    var k :| 0 <= k < |word| && word[k] == c;
    assert s[i + k] == s[i..i + |word|][k];
  }

  /** A name without the letters `p`, `s` and `t` is not secret. */
  lemma {:induction false} NotSecretName(name: string)
    requires forall d :: d in name ==> Lower(d) != 'p' && Lower(d) != 's' && Lower(d) != 't'
    ensures !IsSecretName(name)
  {
    var squeezed := Squeeze(name);
    forall c | c == 'p' || c == 's' || c == 't'
      ensures c !in squeezed
    {
      if c in squeezed {
        SqueezeChars(name, c);
      }
    }
    if Contains(squeezed, "password") { ContainsChar(squeezed, "password", "password"[0]); }
    if Contains(squeezed, "secret") { ContainsChar(squeezed, "secret", "secret"[0]); }
    if Contains(squeezed, "token") { ContainsChar(squeezed, "token", "token"[0]); }
    if Contains(squeezed, "apikey") { ContainsChar(squeezed, "apikey", "apikey"[1]); }
  }
}
