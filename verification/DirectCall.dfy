/** Direct commands from argv to argv: the generated step is planned with the
    configuration's variables and policy, and then rendered and executed. */
module DirectCall {
  import opened Text
  import opened Json
  import opened Template
  import opened Render
  import opened Normalize
  import opened CommandPolicy
  import opened Transient
  import Command

  /** The configuration: its variables, which win over those of a document, and
      what it allows. Reading a curl command and judging a URL are arbitrary. */
  datatype Settings = Settings(
    vars: Variables,
    allowProxy: bool,
    trusted: string -> bool,
    curlPlans: seq<string> -> bool,
    urlAllowed: string -> bool)

  function PlanVariables(settings: Settings, argv: seq<string>): Variables {
    ArgVariables(argv, |argv|) + settings.vars
  }

  // ---------- Planning ----------

  /** Each expression of a token has its variable and renders. */
  predicate PartValid(part: Part, values: Vars) {
    part.Expr? ==> Root(part.expr) in values && RenderExpression(part.expr, values, MAX_RENDERED_BYTES).Ok?
  }

  ghost predicate TokenValid(token: string, values: Vars) {
    && Parse(token).Ok?
    && forall k :: 0 <= k < |Parse(token).value| ==> PartValid(Parse(token).value[k], values)
  }

  /** The first checks on the raw tokens. */
  ghost predicate OneCommand(kind: Kind, tokens: seq<string>) {
    && !(kind == Curl && exists k :: 1 <= k < |tokens| && tokens[k] == "curl")
    && !(tokens != [] && '=' in tokens[0])
    && !(kind == Curl && (tokens == [] || tokens[0] != "curl"))
  }

  predicate RawAllowed(settings: Settings, kind: Kind, tokens: seq<string>) {
    match kind
    case Curl => CommandDenials(tokens, settings.allowProxy) == []
    case Exec => ExecDenials(tokens, settings.trusted) == []
  }

  ghost predicate HasTemplateText(argv: seq<string>) {
    exists k :: 0 <= k < |argv| && FindPair(argv[k], '{', 0).Some?
  }

  /** The checks on the display form of the command. */
  ghost predicate DisplayAllowed(settings: Settings, kind: Kind, display: seq<string>) {
    match kind
    case Curl =>
      && !UrlGlob(display)
      && (HasTemplateText(display) || settings.curlPlans(display))
      && forall u :: u in Positional(display, 1) ==> settings.urlAllowed(u)
    case Exec => HasTemplateText(display) || ExecDenials(display, settings.trusted) == []
  }

  /** A plan exists only when no check reports an error. */
  ghost predicate Planned(settings: Settings, kind: Kind, tokens: seq<string>, variables: Variables) {
    && OneCommand(kind, tokens)
    && RawAllowed(settings, kind, tokens)
    && (forall k :: 0 <= k < |tokens| ==> TokenValid(tokens[k], Values(variables)))
    && DisplayAllowed(settings, kind, NormalizeCommand(tokens, Values(variables), Display(variables)).argv)
  }

  /** A secret in the templates of a command. */
  ghost predicate SecretTemplate(tokens: seq<string>, variables: Variables) {
    exists k :: 0 <= k < |tokens| && SecretToken(tokens[k], variables)
  }

  ghost predicate SecretToken(token: string, variables: Variables) {
    && FindPair(token, '{', 0).Some? && Parse(token).Ok?
    && exists i :: 0 <= i < |Parse(token).value| && SecretPart(Parse(token).value[i], variables)
  }

  predicate SecretPart(part: Part, variables: Variables) {
    part.Expr? && ExpressionSecret(part.expr, variables)
  }

  /** The argv that is executed, or nothing when planning or rendering reports
      an error. */
  ghost function Executed(settings: Settings, kind: Kind, argv: seq<string>): Option<seq<string>>
    requires argv != []
  {
    var variables := PlanVariables(settings, argv);
    match Command.Tokenize(CommandLine(argv) + "\n")
    case Err(_) => None
    case Ok(tokens) =>
      if !Planned(settings, kind, tokens, variables) then None
      else if kind == Exec && SecretTemplate(tokens, variables) then None
      else
        var command := NormalizeCommand(tokens, Values(variables), EXECUTE);
        if command.problems == [] then Some(command.argv) else None
  }

  // ---------- What a caller has to know ----------

  /** The configuration has no variable of its own in place of an argument, or
      one that is no secret and has the very same text. */
  ghost predicate Unshadowed(settings: Settings, argv: seq<string>) {
    forall i :: 1 <= i < |argv| ==> SameArgument(settings, argv, i)
  }

  predicate SameArgument(settings: Settings, argv: seq<string>, i: nat)
    requires i < |argv|
  {
    VarName(i) in settings.vars ==>
      !settings.vars[VarName(i)].secret && ScalarText(settings.vars[VarName(i)].value) == Some(argv[i])
  }

  /** The argv that are executed: curl with one argument at most, and a trusted
      program with a literal name. */
  ghost predicate Permitted(settings: Settings, kind: Kind, argv: seq<string>) {
    && Unshadowed(settings, argv)
    && match kind
       case Curl => |argv| <= 2 && CurlAllowed(settings, argv)
       case Exec => argv != [] && Plain(argv[0]) && ProgramAllowed(settings, argv[0])
  }

  /** The argument, if it counts as a URL, has no brackets and is allowed; and
      the command reads, unless the argument looks like a template. */
  ghost predicate CurlAllowed(settings: Settings, argv: seq<string>) {
    && (|argv| == 2 && IsPositional(argv[1]) ==>
          '[' !in argv[1] && ']' !in argv[1] && settings.urlAllowed(argv[1]))
    && ((|argv| == 2 && exists k :: PairAt(argv[1], '{', k)) || settings.curlPlans(argv))
  }

  /** A trusted name that is neither an option nor a shell. */
  predicate ProgramAllowed(settings: Settings, program: string) {
    && settings.trusted(program) && !IsShellInterpreter(program)
    && (program != "" ==> program[0] != '-') && 0 as char !in program
  }

  lemma {:induction false} CurlDisplay(settings: Settings, argv: seq<string>)
    requires 1 <= |argv| <= 2 && Plain(argv[0])
    ensures DisplayAllowed(settings, Curl, argv) <==> CurlAllowed(settings, argv)
  {
    FindPairFirst(argv[0], '{', 0);
    if |argv| == 2 {
      FindPairFirst(argv[1], '{', 0);
      assert Positional(argv, 2) == [] && Positional(argv, 3) == [];
      assert Positional(argv, 1) == if IsPositional(argv[1]) then [argv[1]] else [];
      if IsPositional(argv[1]) {
        assert Positional(argv, 1)[0] == argv[1];
      }
    } else {
      assert Positional(argv, 1) == [];
    }
  }

  lemma {:induction false} ProgramDenials(settings: Settings, argv: seq<string>)
    requires argv != [] && Plain(argv[0])
    ensures ExecDenials(argv, settings.trusted) == [] <==> ProgramAllowed(settings, argv[0])
  {}

  /** No assignment, no template. */
  predicate Plain(program: string) {
    '=' !in program && FindPair(program, '{', 0).None? && FindPair(program, '}', 0).None?
  }

  // ---------- The placeholders ----------

  lemma {:induction false} PlaceholderBraced(k: nat)
    ensures Braced(Placeholder(k)) && Placeholder(k) != "curl"
  {
    PlaceholderText(k);
    DecimalDigits(k);
    assert forall c :: c in Decimal(k) ==> IsDigit(c);
    assert Placeholder(k)[0] == '{';
  }

  lemma {:induction false} TokensBraced(argv: seq<string>)
    requires argv != []
    ensures AllBraced(Tokens(argv))
    ensures forall k :: 1 <= k < |argv| ==> Tokens(argv)[k] != "curl"
  {
    forall k | 1 <= k < |argv|
      ensures Braced(Tokens(argv)[k]) && Tokens(argv)[k] != "curl"
    {
      TokenAt(argv, k);
      PlaceholderBraced(k);
    }
  }

  /** The variable of an argument, whoever defines it. */
  lemma {:induction false} ArgumentVariable(settings: Settings, argv: seq<string>, k: nat)
    requires 1 <= k < |argv|
    ensures var variables := PlanVariables(settings, argv);
            && VarName(k) in variables
            && variables[VarName(k)] == (if VarName(k) in settings.vars then settings.vars[VarName(k)]
                                         else Variable(Str(argv[k]), false))
  {
    ArgBound(argv, |argv|, k);
  }

  lemma {:induction false} PlaceholderSecret(k: nat, variables: Variables)
    requires VarName(k) in variables
    ensures ExpressionSecret(ArgExpression(k), variables) <==>
              variables[VarName(k)].secret || SecretField(variables[VarName(k)].value)
  {
    assert ArgExpression(k).path[1..] == [];
  }

  lemma {:induction false} ScalarHasNoField(value: Json)
    requires ScalarText(value).Some?
    ensures !SecretField(value)
  {}

  /** An argument that nothing shadows is valid, not secret, and renders as
      itself in both forms. */
  lemma {:induction false} ArgumentKept(settings: Settings, argv: seq<string>, k: nat)
    requires 1 <= k < |argv| <= MAX_ARGUMENTS && ByteLen(argv[k]) <= MAX_ARGUMENT_BYTES
    requires SameArgument(settings, argv, k)
    ensures var variables := PlanVariables(settings, argv);
            && VarName(k) in variables && ScalarText(variables[VarName(k)].value) == Some(argv[k])
            && !ExpressionSecret(ArgExpression(k), variables)
            && RenderToken(Placeholder(k), Values(variables), EXECUTE) == Rendered(argv[k], [])
            && RenderToken(Placeholder(k), Values(variables), Display(variables)) == Rendered(argv[k], [])
  {
    var variables := PlanVariables(settings, argv);
    ArgumentVariable(settings, argv, k);
    ScalarHasNoField(variables[VarName(k)].value);
    PlaceholderSecret(k, variables);
    RenderPlaceholder(k, Values(variables), EXECUTE);
    RenderPlaceholder(k, Values(variables), Display(variables));
  }

  lemma {:induction false} PlaceholderValid(k: nat, values: Vars)
    requires k < MAX_ARGUMENTS && VarName(k) in values && RenderScalar(values[VarName(k)], MAX_RENDERED_BYTES).Ok?
    ensures TokenValid(Placeholder(k), values)
  {
    PlaceholderParses(k);
    assert ArgExpression(k).path[1..] == [];
  }

  lemma {:induction false} PlaceholderSecretToken(k: nat, variables: Variables)
    requires k < MAX_ARGUMENTS
    ensures SecretToken(Placeholder(k), variables) <==> ExpressionSecret(ArgExpression(k), variables)
  {
    PlaceholderParses(k);
    var parts := Parse(Placeholder(k)).value;
    assert SecretPart(parts[0], variables) <==> ExpressionSecret(ArgExpression(k), variables);
  }

  /** Text without a doubled brace is one literal, and no other text without an
      opening one parses. */
  lemma {:induction false} LiteralValid(program: string, values: Vars)
    requires program != "" && ByteLen(program) <= MAX_SOURCE_BYTES && FindPair(program, '{', 0).None?
    ensures TokenValid(program, values) <==> FindPair(program, '}', 0).None?
  {
    if FindPair(program, '}', 0).None? {
      assert Parse(program) == Ok([Literal(program)]);
    }
  }

  // ---------- Permitted commands are executed ----------

  /** What holds of every token when nothing is shadowed. */
  ghost predicate TokenKept(token: string, argument: string, variables: Variables) {
    && RenderToken(token, Values(variables), EXECUTE) == Rendered(argument, [])
    && RenderToken(token, Values(variables), Display(variables)) == Rendered(argument, [])
    && TokenValid(token, Values(variables))
    && !SecretToken(token, variables)
  }

  lemma {:induction false} ArgumentTokenKept(settings: Settings, argv: seq<string>, k: nat)
    requires 1 <= k < |argv| <= MAX_ARGUMENTS && ByteLen(argv[k]) <= MAX_ARGUMENT_BYTES
    requires SameArgument(settings, argv, k)
    ensures TokenKept(Placeholder(k), argv[k], PlanVariables(settings, argv))
  {
    var variables := PlanVariables(settings, argv);
    ArgumentKept(settings, argv, k);
    PlaceholderValid(k, Values(variables));
    PlaceholderSecretToken(k, variables);
  }

  lemma {:induction false} ProgramTokenKept(program: string, variables: Variables)
    requires program != "" && ByteLen(program) <= MAX_ARGUMENT_BYTES && Plain(program)
    ensures TokenKept(program, program, variables)
  {
    LiteralValid(program, Values(variables));
  }

  lemma {:induction false} TokensKept(settings: Settings, kind: Kind, argv: seq<string>)
    requires Accepted(kind, argv) && Plain(argv[0]) && Unshadowed(settings, argv)
    ensures forall k :: 0 <= k < |argv| ==> TokenKept(Tokens(argv)[k], argv[k], PlanVariables(settings, argv))
  {
    CheckedArguments(argv, 0, 0);
    forall k | 0 <= k < |argv|
      ensures TokenKept(Tokens(argv)[k], argv[k], PlanVariables(settings, argv))
    {
      TokenAt(argv, k);
      if k == 0 {
        ProgramTokenKept(argv[0], PlanVariables(settings, argv));
      } else {
        assert SameArgument(settings, argv, k);
        ArgumentTokenKept(settings, argv, k);
      }
    }
  }

  /** Without a shadow, both forms of the command are the argv. */
  lemma {:induction false} BothForms(settings: Settings, kind: Kind, argv: seq<string>)
    requires Accepted(kind, argv) && Plain(argv[0]) && Unshadowed(settings, argv)
    ensures var variables := PlanVariables(settings, argv);
            && NormalizeCommand(Tokens(argv), Values(variables), EXECUTE) == Normalize.Command(argv, [])
            && NormalizeCommand(Tokens(argv), Values(variables), Display(variables)) == Normalize.Command(argv, [])
            && !SecretTemplate(Tokens(argv), variables)
            && forall k :: 0 <= k < |argv| ==> TokenValid(Tokens(argv)[k], Values(variables))
  {
    var variables := PlanVariables(settings, argv);
    TokensKept(settings, kind, argv);
    CheckedArguments(argv, 0, 0);
    FaithfulNormalizes(TokenRenderer(Values(variables), EXECUTE), Tokens(argv), argv);
    FaithfulNormalizes(TokenRenderer(Values(variables), Display(variables)), Tokens(argv), argv);
  }

  /** The checks that see only the raw tokens. */
  lemma {:induction false} RawChecks(settings: Settings, kind: Kind, argv: seq<string>)
    requires Accepted(kind, argv)
    ensures OneCommand(kind, Tokens(argv)) <==> '=' !in argv[0]
    ensures kind == Curl ==> (RawAllowed(settings, kind, Tokens(argv)) <==> |argv| <= 2)
    ensures kind == Exec ==> (RawAllowed(settings, kind, Tokens(argv)) <==> ExecDenials(argv, settings.trusted) == [])
  {
    TokensBraced(argv);
    TokenAt(argv, 0);
    BracedDenials(Tokens(argv), settings.allowProxy);
  }

  lemma {:induction false} CurlIsPlain()
    ensures Plain("curl")
  {
    FindPairFirst("curl", '{', 0);
    FindPairFirst("curl", '}', 0);
  }

  lemma {:induction false} PermittedExecuted(settings: Settings, kind: Kind, argv: seq<string>)
    requires Accepted(kind, argv) && Permitted(settings, kind, argv)
    ensures Executed(settings, kind, argv) == Some(argv)
  {
    TokenizeCommandLine(argv);
    PermittedPlanned(settings, kind, argv);
  }

  lemma {:induction false} PermittedPlanned(settings: Settings, kind: Kind, argv: seq<string>)
    requires Accepted(kind, argv) && Permitted(settings, kind, argv)
    ensures var variables := PlanVariables(settings, argv);
            && Planned(settings, kind, Tokens(argv), variables)
            && !SecretTemplate(Tokens(argv), variables)
            && NormalizeCommand(Tokens(argv), Values(variables), EXECUTE) == Normalize.Command(argv, [])
  {
    CurlIsPlain();
    RawChecks(settings, kind, argv);
    BothForms(settings, kind, argv);
    if kind == Curl {
      CurlDisplay(settings, argv);
    } else {
      ProgramDenials(settings, argv);
    }
  }

  // ---------- Executed commands are permitted ----------

  /** A rendering that gives back the argv found every argument under its name. */
  lemma {:induction false} ArgumentFound(settings: Settings, argv: seq<string>, k: nat)
    requires 1 <= k < |argv| <= MAX_ARGUMENTS
    requires RenderToken(Placeholder(k), Values(PlanVariables(settings, argv)), EXECUTE) == Rendered(argv[k], [])
    ensures var variables := PlanVariables(settings, argv);
            VarName(k) in variables && RenderScalar(variables[VarName(k)].value, MAX_RENDERED_BYTES) == Ok(argv[k])
  {
    ArgumentVariable(settings, argv, k);
    RenderPlaceholder(k, Values(PlanVariables(settings, argv)), EXECUTE);
  }

  lemma {:induction false} ArgumentSame(settings: Settings, argv: seq<string>, k: nat)
    requires 1 <= k < |argv| <= MAX_ARGUMENTS
    requires RenderToken(Placeholder(k), Values(PlanVariables(settings, argv)), EXECUTE) == Rendered(argv[k], [])
    requires !ExpressionSecret(ArgExpression(k), PlanVariables(settings, argv))
    ensures SameArgument(settings, argv, k)
  {
    var variables := PlanVariables(settings, argv);
    ArgumentFound(settings, argv, k);
    ArgumentVariable(settings, argv, k);
    PlaceholderSecret(k, variables);
  }

  /** The token list of an executed command, rendered token by token. */
  lemma {:induction false} ExecutedTokens(settings: Settings, kind: Kind, argv: seq<string>)
    requires Accepted(kind, argv) && Executed(settings, kind, argv) == Some(argv)
    ensures Planned(settings, kind, Tokens(argv), PlanVariables(settings, argv))
    ensures kind == Exec ==> !SecretTemplate(Tokens(argv), PlanVariables(settings, argv))
    ensures Faithful(TokenRenderer(Values(PlanVariables(settings, argv)), EXECUTE), Tokens(argv), argv)
  {
    TokenizeCommandLine(argv);
    CleanIsFaithful(TokenRenderer(Values(PlanVariables(settings, argv)), EXECUTE), Tokens(argv), argv);
  }

  lemma {:induction false} ExecUnshadowed(settings: Settings, argv: seq<string>)
    requires Accepted(Exec, argv) && Executed(settings, Exec, argv) == Some(argv)
    ensures Unshadowed(settings, argv)
  {
    var variables := PlanVariables(settings, argv);
    ExecutedTokens(settings, Exec, argv);
    forall k | 1 <= k < |argv|
      ensures SameArgument(settings, argv, k)
    {
      TokenAt(argv, k);
      PlaceholderSecretToken(k, variables);
      assert !SecretToken(Tokens(argv)[k], variables);
      assert TokenRenderer(Values(variables), EXECUTE)(Tokens(argv)[k]) == Rendered(argv[k], []);
      ArgumentSame(settings, argv, k);
    }
  }

  /** An argument shown in brackets looks like a URL glob. */
  lemma {:induction false} BracketsAreGlob(program: string, shown: string)
    requires shown != [] && shown[0] == '[' && '=' !in shown
    ensures UrlGlob([program, shown])
  {
    var display := [program, shown];
    assert Positional(display, 2) == [];
    assert Positional(display, 1) == [shown];
    assert '[' in Positional(display, 1)[0];
  }

  lemma {:induction false} TwoTokens(render: Renderer, tokens: seq<string>, shown: seq<string>)
    requires |tokens| == |shown| == 2
    requires render(tokens[0]) == Rendered(shown[0], []) && render(tokens[1]) == Rendered(shown[1], [])
    requires ByteLen(shown[0]) + ByteLen(shown[1]) <= MAX_RENDERED_ARGV_BYTES
    ensures NormalizeWith(render, tokens) == Normalize.Command(shown, [])
  {
    assert TotalBytes(shown, 2) == 0;
    assert TotalBytes(shown, 1) == ByteLen(shown[1]);
    FaithfulNormalizes(render, tokens, shown);
  }

  /** A hidden argument, as the display form writes it. */
  lemma {:induction false} HiddenToken(k: nat, variables: Variables) returns (shown: string)
    requires k < MAX_ARGUMENTS && VarName(k) in variables
    requires RenderScalar(variables[VarName(k)].value, MAX_RENDERED_BYTES).Ok?
    requires ExpressionSecret(ArgExpression(k), variables)
    ensures RenderToken(Placeholder(k), Values(variables), Display(variables)) == Rendered(shown, [])
    ensures shown != [] && shown[0] == '[' && '=' !in shown && ByteLen(shown) == 10
  {
    RenderPlaceholder(k, Values(variables), Display(variables));
    shown := RenderToken(Placeholder(k), Values(variables), Display(variables)).text;
    MarkerShape(shown);
  }

  lemma {:induction false} MarkerShape(shown: string)
    requires shown == "[REDACTED]"
    ensures shown != [] && shown[0] == '[' && '=' !in shown && ByteLen(shown) == 10
  {
    AsciiByteLen(shown);
  }

  /** A secret in the place of the one argument of a curl call is refused. */
  lemma {:induction false} HiddenRefused(settings: Settings, argv: seq<string>, k: nat, variables: Variables)
    requires Accepted(Curl, argv) && |argv| == k + 1 && k == 1 && variables == PlanVariables(settings, argv)
    requires VarName(k) in variables && RenderScalar(variables[VarName(k)].value, MAX_RENDERED_BYTES).Ok?
    requires ExpressionSecret(ArgExpression(k), variables)
    ensures UrlGlob(NormalizeCommand(Tokens(argv), Values(variables), Display(variables)).argv)
  {
    var shown := HiddenToken(k, variables);
    CurlIsPlain();
    CheckedArguments(argv, 0, 0);
    ProgramTokenKept(argv[0], variables);
    TokenAt(argv, 0);
    TokenAt(argv, k);
    TwoTokens(TokenRenderer(Values(variables), Display(variables)), Tokens(argv), [argv[0], shown]);
    BracketsAreGlob(argv[0], shown);
  }

  lemma {:induction false} OneArgument(settings: Settings, argv: seq<string>, k: nat)
    requires Accepted(Curl, argv) && Executed(settings, Curl, argv) == Some(argv)
    requires |argv| == k + 1 && k == 1
    ensures SameArgument(settings, argv, k)
  {
    var variables := PlanVariables(settings, argv);
    ExecutedTokens(settings, Curl, argv);
    TokenAt(argv, k);
    assert TokenRenderer(Values(variables), EXECUTE)(Tokens(argv)[k]) == Rendered(argv[k], []);
    ArgumentFound(settings, argv, k);
    if ExpressionSecret(ArgExpression(k), variables) {
      HiddenRefused(settings, argv, k, variables);
    } else {
      ArgumentSame(settings, argv, k);
    }
  }

  lemma {:induction false} CurlUnshadowed(settings: Settings, argv: seq<string>)
    requires Accepted(Curl, argv) && Executed(settings, Curl, argv) == Some(argv)
    ensures |argv| <= 2 && Unshadowed(settings, argv)
  {
    ExecutedTokens(settings, Curl, argv);
    RawChecks(settings, Curl, argv);
    forall k | 1 <= k < |argv|
      ensures SameArgument(settings, argv, k)
    {
      OneArgument(settings, argv, k);
    }
  }

  lemma {:induction false} ExecPlain(settings: Settings, argv: seq<string>)
    requires Accepted(Exec, argv) && Executed(settings, Exec, argv) == Some(argv)
    ensures Plain(argv[0]) && ExecDenials(argv, settings.trusted) == []
  {
    ExecutedTokens(settings, Exec, argv);
    RawChecks(settings, Exec, argv);
    CheckedArguments(argv, 0, 0);
    TokenAt(argv, 0);
    assert TokenValid(Tokens(argv)[0], Values(PlanVariables(settings, argv)));
    LiteralValid(argv[0], Values(PlanVariables(settings, argv)));
  }

  lemma {:induction false} ExecutedPermitted(settings: Settings, kind: Kind, argv: seq<string>)
    requires Accepted(kind, argv) && Executed(settings, kind, argv) == Some(argv)
    ensures Permitted(settings, kind, argv)
  {
    match kind {
      case Curl =>
        CurlUnshadowed(settings, argv);
        CurlIsPlain();
        ExecutedTokens(settings, kind, argv);
        BothForms(settings, kind, argv);
        CurlDisplay(settings, argv);
      case Exec =>
        ExecUnshadowed(settings, argv);
        ExecPlain(settings, argv);
        ProgramDenials(settings, argv);
    }
  }

  // ---------- The exact result ----------

  /** For every configuration, an accepted argv is executed as itself if and
      only if it is permitted: for curl, at most one argument, which the policy
      allows; for another program, a literal trusted name that is no shell; and
      no variable of the configuration in the place of an argument. */
  lemma {:induction false} ExecutedExact(settings: Settings, kind: Kind, argv: seq<string>)
    requires Accepted(kind, argv)
    ensures Executed(settings, kind, argv) == Some(argv) <==> Permitted(settings, kind, argv)
  {
    if Permitted(settings, kind, argv) {
      PermittedExecuted(settings, kind, argv);
    }
    if Executed(settings, kind, argv) == Some(argv) {
      ExecutedPermitted(settings, kind, argv);
    }
  }

  /** A direct curl call with two or more arguments is never executed, because
      every generated template is counted as a URL. */
  lemma {:induction false} CurlArgumentsRefused(settings: Settings, argv: seq<string>)
    requires Accepted(Curl, argv) && |argv| > 2
    ensures Executed(settings, Curl, argv) == None
  {
    TokenizeCommandLine(argv);
    RawChecks(settings, Curl, argv);
  }

  predicate ShortText(s: string) {
    |s| <= 64 && Ascii(s) && 0 as char !in s && '\r' !in s
  }

  lemma {:induction false} ExampleShape(argv: seq<string>)
    requires argv == ["curl", "--fail", "https://api.example.com/health"]
    ensures ShortText(argv[0]) && ShortText(argv[1]) && ShortText(argv[2])
  {}

  lemma {:induction false} ShortAccepted(argv: seq<string>)
    requires |argv| == 3 && argv[0] == "curl" && ShortText(argv[0]) && ShortText(argv[1]) && ShortText(argv[2])
    ensures Accepted(Curl, argv)
  {
    AsciiByteLen(argv[0]);
    AsciiByteLen(argv[1]);
    AsciiByteLen(argv[2]);
    var total := |argv[0]| + |argv[1]| + |argv[2]|;
    assert CheckArguments(argv, 3, total) == None;
    assert CheckArguments(argv, 2, |argv[0]| + |argv[1]|) == None;
    assert CheckArguments(argv, 1, |argv[0]|) == None;
  }

  /** The call that the documentation gives as its example is one of them. */
  lemma {:induction false} DocumentedCallRefused(settings: Settings, argv: seq<string>)
    requires argv == ["curl", "--fail", "https://api.example.com/health"]
    ensures Accepted(Curl, argv) && Executed(settings, Curl, argv) == None
  {
    ExampleShape(argv);
    ShortAccepted(argv);
    CurlArgumentsRefused(settings, argv);
  }
}
