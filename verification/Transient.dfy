/** Direct command lines: an argv is written as a quoted program and one
    template per argument, which tokenize and render to the same argv. */
module Transient {
  import opened Text
  import opened Json
  import opened Template
  import opened Render
  import opened Quoting
  import opened Normalize
  import Command

  const MAX_ARGUMENTS: nat := 64
  const MAX_ARGUMENT_BYTES: nat := 65536
  const MAX_ARGV_BYTES: nat := 1048576

  datatype Kind = Curl | Exec

  // ---------- Which argv are accepted ----------

  datatype ArgvError =
    | EmptyArgv
    | TooManyArguments
    | InvalidCurlProgram
    | EmptyProgram
    | ArgumentTooLarge(argument: nat)
    | NulByte(argument: nat)
    | CarriageReturn(argument: nat)
    | ArgvTooLarge

  /** The loop over the arguments from `i` on, after `total` bytes. */
  function CheckArguments(argv: seq<string>, i: nat, total: nat): Option<ArgvError>
    requires i <= |argv|
    decreases |argv| - i
  {
    if i == |argv| then if total > MAX_ARGV_BYTES then Some(ArgvTooLarge) else None
    else if ByteLen(argv[i]) > MAX_ARGUMENT_BYTES then Some(ArgumentTooLarge(i))
    else if 0 as char in argv[i] then Some(NulByte(i))
    else if '\r' in argv[i] then Some(CarriageReturn(i))
    else CheckArguments(argv, i + 1, total + ByteLen(argv[i]))
  }

  function Rejection(kind: Kind, argv: seq<string>): Option<ArgvError> {
    if argv == [] then Some(EmptyArgv)
    else if |argv| > MAX_ARGUMENTS then Some(TooManyArguments)
    else if kind == Curl && argv[0] != "curl" then Some(InvalidCurlProgram)
    else if kind == Exec && argv[0] == "" then Some(EmptyProgram)
    else CheckArguments(argv, 0, 0)
  }

  method ValidateArgv(kind: Kind, argv: seq<string>) returns (r: Option<ArgvError>)
    ensures r == Rejection(kind, argv)
  {
    if argv == [] {
      return Some(EmptyArgv);
    }
    if |argv| > MAX_ARGUMENTS {
      return Some(TooManyArguments);
    }
    if kind == Curl && argv[0] != "curl" {
      return Some(InvalidCurlProgram);
    }
    if kind == Exec && argv[0] == "" {
      return Some(EmptyProgram);
    }
    var total: nat := 0;
    for i := 0 to |argv|
      invariant CheckArguments(argv, i, total) == CheckArguments(argv, 0, 0)
    {
      if ByteLen(argv[i]) > MAX_ARGUMENT_BYTES {
        return Some(ArgumentTooLarge(i));
      }
      if 0 as char in argv[i] {
        return Some(NulByte(i));
      }
      if '\r' in argv[i] {
        return Some(CarriageReturn(i));
      }
      total := total + ByteLen(argv[i]);
    }
    r := if total > MAX_ARGV_BYTES then Some(ArgvTooLarge) else None;
  }

  predicate Accepted(kind: Kind, argv: seq<string>) {
    Rejection(kind, argv).None?
  }

  lemma {:induction false} CheckedArguments(argv: seq<string>, i: nat, total: nat)
    requires i <= |argv| && CheckArguments(argv, i, total).None?
    ensures total + TotalBytes(argv, i) <= MAX_ARGV_BYTES
    ensures forall k :: i <= k < |argv| ==> ByteLen(argv[k]) <= MAX_ARGUMENT_BYTES && '\r' !in argv[k]
    decreases |argv| - i
  {
    if i < |argv| {
      CheckedArguments(argv, i + 1, total + ByteLen(argv[i]));
    }
  }

  predicate ArgumentFits(argument: string) {
    ByteLen(argument) <= MAX_ARGUMENT_BYTES && 0 as char !in argument && '\r' !in argument
  }

  lemma {:induction false} ArgumentsExact(argv: seq<string>, i: nat, total: nat)
    requires i <= |argv|
    ensures CheckArguments(argv, i, total) == None <==>
              (forall k :: i <= k < |argv| ==> ArgumentFits(argv[k])) && total + TotalBytes(argv, i) <= MAX_ARGV_BYTES
    decreases |argv| - i
  {
    if i < |argv| {
      ArgumentsExact(argv, i + 1, total + ByteLen(argv[i]));
    }
  }

  /** An argv is accepted exactly when it has 1 to 64 arguments, its program is
      `curl` or not empty, every argument is within 64 KiB and without NUL and
      carriage return, and all of them are within 1 MiB. */
  lemma {:induction false} AcceptedExact(kind: Kind, argv: seq<string>)
    ensures Accepted(kind, argv) <==>
              && 1 <= |argv| <= MAX_ARGUMENTS
              && (kind == Curl ==> argv[0] == "curl") && argv[0] != ""
              && (forall k :: 0 <= k < |argv| ==> ArgumentFits(argv[k]))
              && TotalBytes(argv, 0) <= MAX_ARGV_BYTES
  {
    ArgumentsExact(argv, 0, 0);
  }

  // ---------- The generated command line ----------

  function VarName(index: nat): string {
    "mdok_arg_" + Decimal(index)
  }

  function RawVariable(name: string): Expression {
    Expression([Key(name)], FRaw)
  }

  function ArgExpression(index: nat): Expression {
    RawVariable(VarName(index))
  }

  function Placeholder(index: nat): string {
    PrintExpression(ArgExpression(index))
  }

  /** One template for every argument after the program. */
  function TemplateWords(n: nat): seq<string>
    requires n > 0
  {
    seq(n - 1, i requires 0 <= i < n - 1 => Placeholder(i + 1))
  }

  /** The program in quotes, then one template for every further argument. */
  function CommandLine(argv: seq<string>): string
    requires argv != []
  {
    Quoted(argv[0]) + Command.Spaced(TemplateWords(|argv|), 0)
  }

  method WriteCommandLine(argv: seq<string>) returns (command: string)
    requires argv != []
    ensures command == CommandLine(argv)
  {
    command := AppendQuotedArgument("", argv[0]);
    assert "" + Quoted(argv[0]) == Quoted(argv[0]);
    for index := 1 to |argv|
      invariant command + Command.Spaced(TemplateWords(|argv|), index - 1) == CommandLine(argv)
    {
      Assoc(command, " ", Placeholder(index));
      Assoc(command, " " + Placeholder(index), Command.Spaced(TemplateWords(|argv|), index));
      command := command + " ";
      command := command + Placeholder(index);
    }
    assert command + [] == command;
  }

  /** The variables block: each further argument under its own name. */
  function ArgVariables(argv: seq<string>, n: nat): Variables
    requires n <= |argv|
  {
    if n <= 1 then map[]
    else
      var name := VarName(n - 1);
      ArgVariables(argv, n - 1)[name := Variable(Str(argv[n - 1]), IsSecretName(name))]
  }

  function ArgValues(argv: seq<string>): Vars {
    Values(ArgVariables(argv, |argv|))
  }

  /** The command line, tokenized and rendered for execution. */
  function Reread(argv: seq<string>): Option<seq<string>>
    requires argv != []
  {
    match Command.Tokenize(CommandLine(argv) + "\n")
    case Err(_) => None
    case Ok(tokens) =>
      var command := NormalizeCommand(tokens, ArgValues(argv), EXECUTE);
      if command.problems == [] then Some(command.argv) else None
  }

  // ---------- The command line is read as the program and the templates ----------

  lemma {:induction false} VarNameIdentifier(index: nat)
    ensures WellFormed(ArgExpression(index))
  {
    DecimalDigits(index);
    var digits := Decimal(index);
    assert forall i :: 0 <= i < |digits| ==> IsDigit(digits[i]);
    assert forall i :: 9 <= i < |VarName(index)| ==> VarName(index)[i] == digits[i - 9];
  }

  lemma {:induction false} RawText(name: string)
    ensures PrintExpression(RawVariable(name)) == "{{" + (name + "|raw") + "}}"
  {
    assert RawVariable(name).path[1..] == [];
    assert PrintPath([Key(name)]) == name;
    assert "|" + "raw" == "|raw";
  }

  lemma {:induction false} PlaceholderText(index: nat)
    ensures var inner := VarName(index) + "|raw";
            Placeholder(index) == "{{" + inner + "}}" && Command.Inline(inner)
  {
    RawText(VarName(index));
    DecimalDigits(index);
    assert forall c :: c in Decimal(index) ==> IsDigit(c);
  }

  lemma {:induction false} PlaceholderParses(index: nat)
    requires index < MAX_ARGUMENTS
    ensures Parse(Placeholder(index)) == Ok([Expr(ArgExpression(index))])
    ensures FindPair(Placeholder(index), '{', 0).Some?
  {
    VarNameIdentifier(index);
    PlaceholderText(index);
    PlaceholderLength(index);
    ParsePrinted(ArgExpression(index));
    FindPairFirst(Placeholder(index), '{', 0);
    assert PairAt(Placeholder(index), '{', 0);
  }

  lemma {:induction false} PlaceholderLength(index: nat)
    requires index < MAX_ARGUMENTS
    ensures ByteLen(Placeholder(index)) <= 20
  {
    VarNameIdentifier(index);
    PlaceholderText(index);
    InnerPlain(ArgExpression(index));
    assert |Decimal(index)| <= 2;
    Utf8Concat("{{", PrintInner(ArgExpression(index)));
    Utf8Concat("{{" + PrintInner(ArgExpression(index)), "}}");
    AsciiByteLen("{{");
    AsciiByteLen("}}");
  }

  function Tokens(argv: seq<string>): (r: seq<string>)
    requires argv != []
    ensures |r| == |argv|
  {
    [argv[0]] + TemplateWords(|argv|)
  }

  lemma {:induction false} TokenAt(argv: seq<string>, k: nat)
    requires k < |argv|
    ensures Tokens(argv)[k] == if k == 0 then argv[0] else Placeholder(k)
  {
    if k > 0 {
      assert Tokens(argv)[k] == TemplateWords(|argv|)[k - 1];
    }
  }

  lemma {:induction false} PlaceholderIsTemplate(index: nat)
    ensures Command.IsTemplate(Placeholder(index))
  {
    var inner := VarName(index) + "|raw";
    PlaceholderText(index);
    assert ("{{" + inner + "}}")[2..|inner| + 2] == inner;
  }

  /** The generated line gives back the program, quotes and escapes undone,
      and every template as one word. */
  lemma {:induction false} TokenizeCommandLine(argv: seq<string>)
    requires argv != []
    ensures Command.Tokenize(CommandLine(argv) + "\n") == Ok(Tokens(argv))
  {
    var words := TemplateWords(|argv|);
    forall j | 0 <= j < |words|
      ensures Command.IsTemplate(words[j])
    {
      PlaceholderIsTemplate(j + 1);
    }
    Command.TokenizeTemplates(argv[0], words);
  }

  // ---------- Every template renders as its argument ----------

  lemma {:induction false} VarNamesDistinct(i: nat, j: nat)
    requires VarName(i) == VarName(j)
    ensures i == j
  {
    assert VarName(i)[9..] == Decimal(i) && VarName(j)[9..] == Decimal(j);
    DecimalInverse(i);
    DecimalInverse(j);
  }

  lemma {:induction false} VarNameNotSecret(index: nat)
    ensures !IsSecretName(VarName(index))
  {
    DecimalDigits(index);
    assert forall d :: d in Decimal(index) ==> IsDigit(d);
    NotSecretName(VarName(index));
  }

  lemma {:induction false} ArgBound(argv: seq<string>, n: nat, k: nat)
    requires 1 <= k < n <= |argv|
    ensures VarName(k) in ArgVariables(argv, n)
    ensures ArgVariables(argv, n)[VarName(k)] == Variable(Str(argv[k]), false)
    decreases n
  {
    VarNameNotSecret(k);
    if k < n - 1 {
      ArgBound(argv, n - 1, k);
      if VarName(k) == VarName(n - 1) {
        VarNamesDistinct(k, n - 1);
      }
    }
  }

  /** A template that is one expression renders as that expression. */
  lemma {:induction false} OnePart(token: string, expr: Expression, values: Vars, mode: Mode, piece: Rendered)
    requires FindPair(token, '{', 0).Some? && Parse(token) == Ok([Expr(expr)])
    requires piece == PartText(Expr(expr), values, mode, "")
    ensures RenderToken(token, values, mode) ==
            if ByteLen(piece.text) > MAX_RENDERED_BYTES
            then Rendered("[TEMPLATE_LIMIT]", piece.problems + [LimitExceeded])
            else piece
  {
    OneExpression([Expr(expr)], values, mode, piece);
  }

  lemma {:induction false} OneExpression(parts: seq<Part>, values: Vars, mode: Mode, piece: Rendered)
    requires |parts| == 1 && piece == PartText(parts[0], values, mode, "")
    ensures RenderFrom(parts, 0, values, mode, "", []) ==
            if ByteLen(piece.text) > MAX_RENDERED_BYTES
            then Rendered("[TEMPLATE_LIMIT]", piece.problems + [LimitExceeded])
            else piece
  {
    assert "" + piece.text == piece.text && [] + piece.problems == piece.problems;
    assert RenderFrom(parts, 1, values, mode, piece.text, piece.problems) == piece;
  }

  lemma {:induction false} MarkerFits()
    ensures ByteLen("[REDACTED]") <= MAX_RENDERED_BYTES
  {
    AsciiByteLen("[REDACTED]");
  }

  function ScalarPiece(scalar: Result<string, Error>, hidden: bool): Rendered {
    match scalar
    case Ok(text) => Rendered(if hidden then "[REDACTED]" else text, [])
    case Err(error) => Rendered("[INVALID_TEMPLATE]", [TemplateProblem(error)])
  }

  lemma {:induction false} VariableText(name: string, values: Vars, mode: Mode)
    requires name in values
    ensures PartText(Expr(RawVariable(name)), values, mode, "") ==
            ScalarPiece(RenderScalar(values[name], MAX_RENDERED_BYTES), mode.redact(RawVariable(name)))
  {
    assert RawVariable(name).path[1..] == [];
  }

  lemma {:induction false} ScalarFits(value: Json, hidden: bool, piece: Rendered)
    requires piece == ScalarPiece(RenderScalar(value, MAX_RENDERED_BYTES), hidden)
    ensures RenderScalar(value, MAX_RENDERED_BYTES).Ok? ==> ByteLen(piece.text) <= MAX_RENDERED_BYTES
    ensures RenderScalar(value, MAX_RENDERED_BYTES).Err? <==> piece.problems != []
  {
    MarkerFits();
  }

  lemma {:induction false} VariableToken(token: string, name: string, values: Vars, mode: Mode, piece: Rendered)
    requires FindPair(token, '{', 0).Some? && Parse(token) == Ok([Expr(RawVariable(name))]) && name in values
    requires piece == ScalarPiece(RenderScalar(values[name], MAX_RENDERED_BYTES), mode.redact(RawVariable(name)))
    ensures piece.problems == [] ==> RenderToken(token, values, mode) == piece
    ensures piece.problems != [] ==> RenderToken(token, values, mode).problems != []
  {
    VariableText(name, values, mode);
    ScalarFits(values[name], mode.redact(RawVariable(name)), piece);
    OnePart(token, RawVariable(name), values, mode, piece);
  }

  /** A placeholder renders as the text of the scalar that its variable has,
      whatever that text contains: it is not parsed again. Anything but a scalar
      within the limit is a problem. */
  lemma {:induction false} RenderPlaceholder(k: nat, values: Vars, mode: Mode)
    requires k < MAX_ARGUMENTS && VarName(k) in values
    ensures var scalar := RenderScalar(values[VarName(k)], MAX_RENDERED_BYTES);
            && (RenderToken(Placeholder(k), values, mode).problems == [] <==> scalar.Ok?)
            && (scalar.Ok? ==> RenderToken(Placeholder(k), values, mode).text ==
                                 if mode.redact(ArgExpression(k)) then "[REDACTED]" else scalar.value)
  {
    var value := values[VarName(k)];
    var hidden := mode.redact(ArgExpression(k));
    var piece := ScalarPiece(RenderScalar(value, MAX_RENDERED_BYTES), hidden);
    PlaceholderParses(k);
    ScalarFits(value, hidden, piece);
    VariableToken(Placeholder(k), VarName(k), values, mode, piece);
  }

  lemma {:induction false} RenderArgument(argv: seq<string>, k: nat)
    requires 1 <= k < |argv| <= MAX_ARGUMENTS && ByteLen(argv[k]) <= MAX_ARGUMENT_BYTES
    ensures RenderToken(Placeholder(k), ArgValues(argv), EXECUTE) == Rendered(argv[k], [])
  {
    ArgBound(argv, |argv|, k);
    RenderPlaceholder(k, ArgValues(argv), EXECUTE);
  }

  // ---------- There and back ----------

  lemma {:induction false} TokensFaithful(kind: Kind, argv: seq<string>)
    requires Accepted(kind, argv) && FindPair(argv[0], '{', 0).None?
    ensures Faithful(TokenRenderer(ArgValues(argv), EXECUTE), Tokens(argv), argv)
  {
    CheckedArguments(argv, 0, 0);
    forall k | 0 <= k < |argv|
      ensures RenderToken(Tokens(argv)[k], ArgValues(argv), EXECUTE) == Rendered(argv[k], [])
    {
      TokenAt(argv, k);
      if k > 0 {
        RenderArgument(argv, k);
      }
    }
  }

  /** For every accepted argv whose program name opens no template, tokenizing
      and rendering the generated line returns exactly that argv, even when its
      arguments contain template text, quotes or newlines, and no render limit
      fires. */
  lemma {:induction false} RoundTrip(kind: Kind, argv: seq<string>)
    requires Accepted(kind, argv) && FindPair(argv[0], '{', 0).None?
    ensures Reread(argv) == Some(argv)
  {
    TokenizeCommandLine(argv);
    TokensFaithful(kind, argv);
    CheckedArguments(argv, 0, 0);
    FaithfulNormalizes(TokenRenderer(ArgValues(argv), EXECUTE), Tokens(argv), argv);
  }

  /** An accepted template contains an expression. */
  lemma {:induction false} TemplateHasExpression(s: string) returns (k: nat)
    requires FindPair(s, '{', 0).Some? && Parse(s).Ok?
    ensures k < |Parse(s).value| && Parse(s).value[k].Expr?
  {
    var parts := Parse(s).value;
    var lit, inner, tail := AcceptedScan(ParseExpression, s, 0, parts);
    var expr, rest := AcceptedRegion(ParseExpression, s, 0, parts, lit, inner, tail);
    k := |Before(lit)|;
    assert parts[k] == Expr(expr);
  }

  lemma {:induction false} NothingExpands(s: string)
    requires FindPair(s, '{', 0).Some?
    ensures Expand(s, map[]).Err?
  {
    if Parse(s).Ok? {
      var k := TemplateHasExpression(s);
      assert Broken(Parse(s).value[k], map[]);
      BrokenFails(Parse(s).value, 0, k, map[], "");
    }
  }

  lemma {:induction false} TemplateNotReread(program: string)
    requires FindPair(program, '{', 0).Some?
    ensures Reread([program]) != Some([program])
  {
    TokenizeCommandLine([program]);
    TokenAt([program], 0);
    NothingExpands(program);
    TokenExpands(program, map[]);
    assert ArgValues([program]) == map[];
    NotFaithful(TokenRenderer(map[], EXECUTE), Tokens([program]), [program]);
  }

  lemma {:induction false} NotFaithful(render: Renderer, tokens: seq<string>, argv: seq<string>)
    requires |tokens| == |argv| == 1 && render(tokens[0]).problems != []
    ensures NormalizeWith(render, tokens) != Normalize.Command(argv, [])
  {
    if NormalizeWith(render, tokens) == Normalize.Command(argv, []) {
      CleanIsFaithful(render, tokens, argv);
    }
  }

  /** Exactly the program names that open no template come back with all the
      arguments that the printer accepts. */
  lemma {:induction false} RoundTripExact(kind: Kind, program: string)
    requires Accepted(kind, [program])
    ensures FindPair(program, '{', 0).None?
       <==> (forall rest :: Accepted(kind, [program] + rest) ==>
                              Reread([program] + rest) == Some([program] + rest))
  {
    if FindPair(program, '{', 0).None? {
      forall rest | Accepted(kind, [program] + rest)
        ensures Reread([program] + rest) == Some([program] + rest)
      {
        RoundTrip(kind, [program] + rest);
      }
    } else {
      TemplateNotReread(program);
      assert [program] + [] == [program];
    }
  }
}
