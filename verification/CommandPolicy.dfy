/** The planner's checks on the tokens of a command: denied curl options, the
    count of URLs, and the executable of an external command. */
module CommandPolicy {
  import opened Text

  // ---------- Positional arguments of curl ----------

  predicate Dashed(token: string) {
    token != [] && token[0] == '-'
  }

  /** The options that take a value; all of them start with a dash. */
  predicate TakesValue(option: string) {
    Dashed(option) && option in [
      "-X", "--request", "-H", "--header", "-d", "--data", "--data-raw", "--data-binary", "--data-urlencode",
      "--json", "--proxy", "-x", "--output", "-o", "--trace", "--write-out", "--libcurl", "--unix-socket",
      "--upload-file", "--form", "-F", "--user", "-u", "--oauth2-bearer", "--max-redirs", "--retry",
      "--retry-delay", "--retry-max-time", "--connect-timeout", "--max-time", "-m", "--cookie", "-b",
      "--cookie-jar", "-c", "--cacert", "--cert", "--key", "--resolve", "--connect-to", "--user-agent", "-A",
      "--referer", "-e", "--range", "-r", "--config", "-K", "--url"]
  }

  /** The token up to its first equals sign. */
  function OptionName(token: string): string {
    match IndexOf(token, '=')
    case None => token
    case Some(i) => token[..i]
  }

  /** Whether the token itself is counted as a URL. */
  predicate IsPositional(token: string) {
    if TakesValue(OptionName(token)) then OptionName(token) == "--url" && '=' in token else !Dashed(token)
  }

  /** How many tokens are used up: an option takes the next one as its value,
      unless it carries its value itself. */
  function Width(token: string): nat {
    if TakesValue(OptionName(token)) && '=' !in token then 2 else 1
  }

  /** The positional arguments from `i` on. */
  function Positional(tokens: seq<string>, i: nat): seq<string>
    decreases |tokens| - i
  {
    if i >= |tokens| then []
    else (if IsPositional(tokens[i]) then [tokens[i]] else []) + Positional(tokens, i + Width(tokens[i]))
  }

  method PositionalArgs(tokens: seq<string>) returns (values: seq<string>)
    ensures values == Positional(tokens, 1)
  {
    values := [];
    var index := 1;
    while index < |tokens|
      invariant values + Positional(tokens, index) == Positional(tokens, 1)
      decreases |tokens| - index
    {
      var token := tokens[index];
      var option := OptionName(token);
      ghost var rest := Positional(tokens, index + Width(token));
      Assoc(values, if IsPositional(token) then [token] else [], rest);
      if TakesValue(option) {
        if option == "--url" && '=' in token {
          values := values + [token];
          index := index + 1;
        } else {
          assert values + [] == values;
          index := index + (if '=' in token then 0 else 1) + 1;
        }
      } else if Dashed(token) {
        assert values + [] == values;
        index := index + 1;
      } else {
        values := values + [token];
        index := index + 1;
      }
    }
    assert values + [] == values;
  }

  /** The arguments of a curl command, as they are written. */
  datatype Argument =
    | Flag(token: string)
    | Option(option: string, value: string)
    | Inline(token: string)
    | UrlOption(token: string)
    | Url(token: string)

  predicate ValidArgument(a: Argument) {
    match a
    case Flag(token) => Dashed(token) && !TakesValue(OptionName(token))
    case Option(option, _) => TakesValue(option) && '=' !in option
    case Inline(token) => '=' in token && TakesValue(OptionName(token)) && OptionName(token) != "--url"
    case UrlOption(token) => '=' in token && OptionName(token) == "--url"
    case Url(token) => !Dashed(token)
  }

  function Written(a: Argument): seq<string> {
    if a.Option? then [a.option, a.value] else [a.token]
  }

  function AllWritten(args: seq<Argument>, k: nat): seq<string>
    requires k <= |args|
    decreases |args| - k
  {
    if k == |args| then [] else Written(args[k]) + AllWritten(args, k + 1)
  }

  function Urls(args: seq<Argument>, k: nat): seq<string>
    requires k <= |args|
    decreases |args| - k
  {
    if k == |args| then []
    else (if args[k].Url? || args[k].UrlOption? then [args[k].token] else []) + Urls(args, k + 1)
  }

  lemma {:induction false} ArgumentCounted(a: Argument)
    requires ValidArgument(a)
    ensures Width(Written(a)[0]) == |Written(a)|
    ensures IsPositional(Written(a)[0]) <==> a.Url? || a.UrlOption?
  {
    assert TakesValue("--url");
  }

  lemma {:induction false} PositionalFrom(tokens: seq<string>, i: nat, args: seq<Argument>, k: nat)
    requires i <= |tokens| && k <= |args| && tokens[i..] == AllWritten(args, k)
    requires forall j :: k <= j < |args| ==> ValidArgument(args[j])
    ensures Positional(tokens, i) == Urls(args, k)
    decreases |args| - k
  {
    if k < |args| {
      var written := Written(args[k]);
      ArgumentCounted(args[k]);
      assert tokens[i] == tokens[i..][0] == written[0];
      assert tokens[i + |written|..] == tokens[i..][|written|..] == AllWritten(args, k + 1);
      PositionalFrom(tokens, i + |written|, args, k + 1);
    }
  }

  /** Of a command that is written as options and URLs, exactly the URLs are
      counted, in order: an option that takes a value takes the next token. */
  lemma {:induction false} PositionalExact(program: string, args: seq<Argument>)
    requires forall j :: 0 <= j < |args| ==> ValidArgument(args[j])
    ensures Positional([program] + AllWritten(args, 0), 1) == Urls(args, 0)
  {
    var tokens := [program] + AllWritten(args, 0);
    assert tokens[1..] == AllWritten(args, 0);
    PositionalFrom(tokens, 1, args, 0);
  }

  /** A positional argument that curl would expand. */
  predicate UrlGlob(tokens: seq<string>) {
    var values := Positional(tokens, 1);
    exists i :: 0 <= i < |values| && ('[' in values[i] || ']' in values[i])
  }

  // ---------- Denied curl commands ----------

  datatype Denial =
    | OptionDenied
    | ProxyDenied
    | UnixSocketDenied
    | ConfigDenied
    | StdinDenied
    | HeaderFileDenied
    | MultipleTransfers

  predicate ForbiddenOption(token: string) {
    token in ["--parallel", "--output", "-o", "--remote-name", "-O", "--trace", "--write-out", "--libcurl"]
  }

  function If(condition: bool, denial: Denial): seq<Denial> {
    if condition then [denial] else []
  }

  /** What is denied about the token at `i`. */
  function TokenDenials(tokens: seq<string>, i: nat, allowProxy: bool): seq<Denial>
    requires i < |tokens|
  {
    var token := tokens[i];
    var next := if i + 1 < |tokens| then tokens[i + 1] else "";
    If(ForbiddenOption(token), OptionDenied)
    + If(token in ["--proxy", "-x"] && !allowProxy, ProxyDenied)
    + If(token == "--unix-socket", UnixSocketDenied)
    + If(token in ["--config", "-K"], ConfigDenied)
    + If(token in ["-d", "--data", "--data-raw", "--data-binary"] && next == "@-", StdinDenied)
    + If(token in ["-H", "--header"] && next != [] && next[0] == '@', HeaderFileDenied)
  }

  /** The first `n` tokens; the program itself is not looked at. */
  function DenialsUpTo(tokens: seq<string>, n: nat, allowProxy: bool): seq<Denial>
    requires n <= |tokens|
  {
    if n <= 1 then [] else DenialsUpTo(tokens, n - 1, allowProxy) + TokenDenials(tokens, n - 1, allowProxy)
  }

  function CommandDenials(tokens: seq<string>, allowProxy: bool): seq<Denial> {
    DenialsUpTo(tokens, |tokens|, allowProxy) + If(|Positional(tokens, 1)| > 1, MultipleTransfers)
  }

  method ValidateCommand(tokens: seq<string>, allowProxy: bool) returns (denials: seq<Denial>)
    ensures denials == CommandDenials(tokens, allowProxy)
  {
    denials := [];
    var index := 1;
    while index < |tokens|
      invariant 1 <= index && (tokens == [] || index <= |tokens|)
      invariant denials == DenialsUpTo(tokens, if tokens == [] then 0 else index, allowProxy)
    {
      denials := denials + TokenDenials(tokens, index, allowProxy);
      index := index + 1;
    }
    var urls := PositionalArgs(tokens);
    if |urls| > 1 {
      denials := denials + [MultipleTransfers];
    } else {
      assert denials + [] == denials;
    }
  }

  /** Nothing is wrong with the token at `i`, whatever comes before it. */
  predicate TokenAllowed(tokens: seq<string>, i: nat, allowProxy: bool)
    requires i < |tokens|
  {
    && tokens[i] !in ["--parallel", "--output", "-o", "--remote-name", "-O", "--trace", "--write-out", "--libcurl"]
    && (tokens[i] in ["--proxy", "-x"] ==> allowProxy)
    && tokens[i] !in ["--unix-socket", "--config", "-K"]
    && (i + 1 < |tokens| && tokens[i] in ["-d", "--data", "--data-raw", "--data-binary"] ==> tokens[i + 1] != "@-")
    && (i + 1 < |tokens| && tokens[i] in ["-H", "--header"] ==> tokens[i + 1] == [] || tokens[i + 1][0] != '@')
  }

  lemma {:induction false} TokenExact(tokens: seq<string>, i: nat, allowProxy: bool)
    requires i < |tokens|
    ensures TokenDenials(tokens, i, allowProxy) == [] <==> TokenAllowed(tokens, i, allowProxy)
  {}

  lemma {:induction false} DenialsExact(tokens: seq<string>, n: nat, allowProxy: bool)
    requires n <= |tokens|
    ensures DenialsUpTo(tokens, n, allowProxy) == [] <==> forall i :: 1 <= i < n ==> TokenAllowed(tokens, i, allowProxy)
  {
    if n > 1 {
      DenialsExact(tokens, n - 1, allowProxy);
      TokenExact(tokens, n - 1, allowProxy);
    }
  }

  /** A command passes exactly when every token after the program is allowed and
      at most one of them counts as a URL. */
  lemma {:induction false} CommandExact(tokens: seq<string>, allowProxy: bool)
    ensures CommandDenials(tokens, allowProxy) == [] <==>
              (forall i :: 1 <= i < |tokens| ==> TokenAllowed(tokens, i, allowProxy)) && |Positional(tokens, 1)| <= 1
  {
    DenialsExact(tokens, |tokens|, allowProxy);
  }

  /** A token that starts with `{` and has no equals sign is no option, so it is
      counted as a URL, whatever it stands for. */
  predicate Braced(token: string) {
    token != [] && token[0] == '{' && '=' !in token
  }

  lemma {:induction false} BracedPositional(token: string)
    requires Braced(token)
    ensures IsPositional(token) && Width(token) == 1
  {}

  ghost predicate AllBraced(tokens: seq<string>) {
    forall k :: 1 <= k < |tokens| ==> Braced(tokens[k])
  }

  lemma {:induction false} BracedTokens(tokens: seq<string>, i: nat)
    requires AllBraced(tokens) && 1 <= i <= |tokens|
    ensures Positional(tokens, i) == tokens[i..]
    decreases |tokens| - i
  {
    if i < |tokens| {
      BracedPositional(tokens[i]);
      BracedTokens(tokens, i + 1);
      assert tokens[i..] == [tokens[i]] + tokens[i + 1..];
    }
  }

  lemma {:induction false} BracedAllowed(tokens: seq<string>, i: nat, allowProxy: bool)
    requires AllBraced(tokens) && 1 <= i < |tokens|
    ensures TokenDenials(tokens, i, allowProxy) == []
  {
    assert Braced(tokens[i]);
  }

  lemma {:induction false} BracedUpTo(tokens: seq<string>, n: nat, allowProxy: bool)
    requires AllBraced(tokens) && n <= |tokens|
    ensures DenialsUpTo(tokens, n, allowProxy) == []
  {
    if n > 1 {
      BracedUpTo(tokens, n - 1, allowProxy);
      BracedAllowed(tokens, n - 1, allowProxy);
    }
  }

  /** With nothing but templates after the program, the only thing that can be
      denied is that there is more than one of them. */
  lemma {:induction false} BracedDenials(tokens: seq<string>, allowProxy: bool)
    requires AllBraced(tokens) && tokens != []
    ensures CommandDenials(tokens, allowProxy) == If(|tokens| > 2, MultipleTransfers)
  {
    BracedTokens(tokens, 1);
    BracedUpTo(tokens, |tokens|, allowProxy);
  }

  // ---------- Denied executables ----------

  datatype ExecDenial = NoExecutable | NotLiteral | LeadingDash | ShellInterpreter | NotTrusted

  function LowerCase(s: string): string {
    if s == [] then [] else [Lower(s[0])] + LowerCase(s[1..])
  }

  /** The last of the first `n` components that is neither empty nor `.`; a
      path that ends in `..` has no file name. */
  function FileName(components: seq<string>, n: nat): Option<string>
    requires n <= |components|
  {
    if n == 0 then None
    else if components[n - 1] == "" || components[n - 1] == "." then FileName(components, n - 1)
    else if components[n - 1] == ".." then None
    else Some(components[n - 1])
  }

  function BaseName(executable: string): string {
    var components := Split(executable, '/');
    match FileName(components, |components|)
    case Some(name) => LowerCase(name)
    case None => LowerCase(executable)
  }

  predicate IsShellInterpreter(executable: string) {
    BaseName(executable) in ["sh", "bash", "dash", "zsh", "fish", "cmd", "cmd.exe", "powershell", "powershell.exe",
                             "pwsh", "pwsh.exe"]
  }

  function IfExec(condition: bool, denial: ExecDenial): seq<ExecDenial> {
    if condition then [denial] else []
  }

  /** `trusted` says whether commands are enabled and a profile exists. */
  function ExecDenials(tokens: seq<string>, trusted: string -> bool): seq<ExecDenial> {
    if tokens == [] then [NoExecutable]
    else
      var executable := tokens[0];
      IfExec(FindPair(executable, '{', 0).Some? || 0 as char in executable, NotLiteral)
      + IfExec(Dashed(executable), LeadingDash)
      + IfExec(IsShellInterpreter(executable), ShellInterpreter)
      + IfExec(!trusted(executable), NotTrusted)
  }

  /** A slash in front of a name, or behind it, does not hide the interpreter. */
  lemma {:induction false} ShellsAreFound(directory: string, trusted: string -> bool, arguments: seq<string>)
    ensures ShellInterpreter in ExecDenials([directory + "/sh"] + arguments, trusted)
  {
    var executable := directory + "/sh";
    assert executable == directory + ("/" + "sh");
    SplitLast(directory, "sh");
    var components := Split(executable, '/');
    assert FileName(components, |components|) == Some("sh");
    assert LowerCase("sh") == "sh" by {
      assert "sh"[1..] == "h" && "h"[1..] == "";
      assert LowerCase("h") == "h";
    }
    assert BaseName(executable) == "sh";
  }

  lemma {:induction false} SplitLast(front: string, last: string)
    requires '/' !in last
    ensures var s := front + ("/" + last);
            |Split(s, '/')| >= 2 && Split(s, '/')[|Split(s, '/')| - 1] == last
    decreases front
  {
    var s := front + ("/" + last);
    if front == [] {
      assert s == [] + ['/'] + last;
      SplitHead([], last, '/');
      SplitWhole(last, '/');
    } else {
      assert s[1..] == front[1..] + ("/" + last);
      SplitLast(front[1..], last);
    }
  }
}
