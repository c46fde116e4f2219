/** Testing a planned document: everything is validated first, then the items
    run in order; the verdict and the exit code. */
module Runtime {
  import opened Text
  import opened Json
  import opened Planner

  datatype Status = Passed | Failed | Error

  /** A parsed curl command; its URL may still contain templates. */
  datatype CurlPlan = CurlPlan(verb: string, url: string)

  datatype Transfer = Transfer(status: int, body: string, redirectCount: nat, attempt: nat)

  /** The parts that the run is built from. `shell` tokenizes, `expand` expands
      one argument, `parse` reads curl options; the `…Status` members say
      whether a finding also breaks the policy. Expressions are evaluated by
      `check` and `capture`, transfers made by `execute`. */
  datatype Tools = Tools(
    shell: string -> Option<seq<string>>,
    shellStatus: string -> Status,
    optionsDenied: seq<string> -> bool,
    parse: seq<string> -> Option<CurlPlan>,
    parseStatus: seq<string> -> Status,
    expand: (string, Vars) -> Option<string>,
    expandStatus: seq<string> -> Status,
    policy: CurlPlan -> Option<Status>,
    hostDenied: string -> bool,
    validExpression: string -> bool,
    captureKeys: string -> seq<string>,
    execute: (nat, CurlPlan) -> Option<Transfer>,
    check: (string, Transfer, Vars) -> Option<bool>,
    capture: (string, Transfer, Vars) -> Option<Vars>)

  // ---------- Before the run ----------

  predicate AllExpand(t: Tools, argv: seq<string>, known: Vars) {
    forall i :: 0 <= i < |argv| ==> t.expand(argv[i], known).Some?
  }

  /** What is wrong with a curl item, if anything. */
  function ValidateCurl(t: Tools, source: string, known: Vars): Option<Status> {
    match t.shell(source)
    case None => Some(t.shellStatus(source))
    case Some(argv) =>
      if t.optionsDenied(argv) then Some(Error)
      else match t.parse(argv)
           case None => Some(t.parseStatus(argv))
           case Some(plan) =>
             if !AllExpand(t, argv, known) then Some(t.expandStatus(argv))
             else if FindPair(plan.url, '{', 0).None? then t.policy(plan)
             else if t.hostDenied(plan.url) then Some(Error)
             else None
  }

  /** The variables known so far, and the findings. */
  datatype Validation = Validation(known: Vars, findings: seq<Status>)

  /** Names that a capture will define get a placeholder. */
  function Placeholders(known: Vars, keys: seq<string>, n: nat): Vars
    requires n <= |keys|
  {
    if n == 0 then known
    else
      var before := Placeholders(known, keys, n - 1);
      if keys[n - 1] in before then before else before[keys[n - 1] := Str("captured")]
  }

  function InvalidLines(t: Tools, lines: seq<string>, n: nat): seq<Status>
    requires n <= |lines|
  {
    if n == 0 then []
    else InvalidLines(t, lines, n - 1) + (if t.validExpression(lines[n - 1]) then [] else [Failed])
  }

  function ValidateItem(t: Tools, item: Item, v: Validation): Validation {
    match item
    case Curl(_, source) =>
      (match ValidateCurl(t, source, v.known)
       case None => v
       case Some(status) => v.(findings := v.findings + [status]))
    case Check(_, lines) => v.(findings := v.findings + InvalidLines(t, lines, |lines|))
    case Capture(_, expr) =>
      if !t.validExpression(expr) then v.(findings := v.findings + [Failed])
      else v.(known := Placeholders(v.known, t.captureKeys(expr), |t.captureKeys(expr)|))
  }

  /** The first `n` items. */
  function Validated(t: Tools, items: seq<Item>, vars: Vars, n: nat): Validation
    requires n <= |items|
  {
    if n == 0 then Validation(vars, []) else ValidateItem(t, items[n - 1], Validated(t, items, vars, n - 1))
  }

  function Preflight(t: Tools, items: seq<Item>, vars: Vars): Option<Status> {
    var findings := Validated(t, items, vars, |items|).findings;
    if findings == [] then None else Some(if Error in findings then Error else Failed)
  }

  // ---------- The run ----------

  datatype State = State(vars: Vars, transfers: map<string, Transfer>, status: Status, exitClass: nat,
                         diagnostics: nat, aborted: bool)

  /** A failure that does not stop the run. */
  function Fail(st: State, exitClass: nat): State {
    st.(status := Failed, exitClass := if st.exitClass < exitClass then exitClass else st.exitClass)
  }

  /** The arguments from `i` on. */
  function ExpandArgv(t: Tools, argv: seq<string>, i: nat, vars: Vars): Option<seq<string>>
    requires i <= |argv|
    decreases |argv| - i
  {
    if i == |argv| then Some([])
    else match (t.expand(argv[i], vars), ExpandArgv(t, argv, i + 1, vars))
         case (Some(value), Some(rest)) => Some([value] + rest)
         case _ => None
  }

  /** How far a curl item comes. */
  datatype CurlOutcome =
    | ShellError
    | TemplateError
    | ParseError
    | Denied
    | NotTransferred
    | Transferred(transfer: Transfer)

  function PerformCurl(t: Tools, index: nat, source: string, vars: Vars): CurlOutcome {
    match t.shell(source)
    case None => ShellError
    case Some(argv) =>
      match ExpandArgv(t, argv, 0, vars)
      case None => TemplateError
      case Some(expanded) =>
        match t.parse(expanded)
        case None => ParseError
        case Some(plan) =>
          if t.policy(plan).Some? then Denied
          else match t.execute(index, plan)
               case None => NotTransferred
               case Some(transfer) => Transferred(transfer)
  }

  /** A shell error leaves the document's verdict alone. */
  function RunCurl(st: State, name: string, outcome: CurlOutcome): State {
    match outcome
    case ShellError => st
    case TemplateError => Fail(st, 2)
    case ParseError => Fail(st, 2)
    case Denied => st.(status := Error, exitClass := 3, diagnostics := st.diagnostics + 1, aborted := true)
    case NotTransferred => Fail(st, 3)
    case Transferred(transfer) => st.(transfers := st.transfers[name := transfer])
  }

  /** The first `n` lines of a check, against one transfer. */
  function RunLines(t: Tools, st: State, lines: seq<string>, n: nat, transfer: Transfer): State
    requires n <= |lines|
  {
    if n == 0 then st
    else
      var before := RunLines(t, st, lines, n - 1, transfer);
      if t.check(lines[n - 1], transfer, st.vars) == Some(true) then before else Fail(before, 1)
  }

  function RunItem(t: Tools, st: State, index: nat, item: Item): State {
    match item
    case Curl(name, source) => RunCurl(st, name, PerformCurl(t, index, source, st.vars))
    case Check(step, lines) =>
      if step !in st.transfers then st else RunLines(t, st, lines, |lines|, st.transfers[step])
    case Capture(step, expr) =>
      if step !in st.transfers then st
      else match t.capture(expr, st.transfers[step], st.vars)
           case None => Fail(st, 1)
           case Some(captured) => st.(vars := st.vars + captured)
  }

  /** The state after the first `n` items. */
  function After(t: Tools, items: seq<Item>, vars: Vars, n: nat): State
    requires n <= |items|
  {
    if n == 0 then State(vars, map[], Passed, 0, 0, false)
    else
      var before := After(t, items, vars, n - 1);
      if before.aborted then before else RunItem(t, before, n - 1, items[n - 1])
  }

  datatype DocumentResult = DocumentResult(status: Status, exitClass: nat, diagnostics: nat)

  function Finalize(st: State): DocumentResult {
    if st.status == Passed && st.diagnostics > 0
    then DocumentResult(Failed, if st.exitClass < 2 then 2 else st.exitClass, st.diagnostics)
    else DocumentResult(st.status, st.exitClass, st.diagnostics)
  }

  function Test(t: Tools, items: seq<Item>, vars: Vars): DocumentResult {
    match Preflight(t, items, vars)
    case Some(status) =>
      DocumentResult(status, if status == Error then 3 else 2, |Validated(t, items, vars, |items|).findings|)
    case None => Finalize(After(t, items, vars, |items|))
  }

  // ---------- Preflight is sound ----------

  lemma {:induction false} ItemFindings(t: Tools, item: Item, v: Validation)
    requires ValidateItem(t, item, v).findings == []
    ensures v.findings == []
  {}

  lemma {:induction false} FindingsStay(t: Tools, items: seq<Item>, vars: Vars, k: nat, n: nat)
    requires k <= n <= |items| && Validated(t, items, vars, n).findings == []
    ensures Validated(t, items, vars, k).findings == []
    decreases n
  {
    if k < n {
      ItemFindings(t, items[n - 1], Validated(t, items, vars, n - 1));
      FindingsStay(t, items, vars, k, n - 1);
    }
  }

  /** No capture stands before position `k`. */
  ghost predicate NoCapture(items: seq<Item>, k: nat) {
    forall i :: 0 <= i < k && i < |items| ==> !items[i].Capture?
  }

  lemma {:induction false} KnownUnchanged(t: Tools, items: seq<Item>, vars: Vars, k: nat)
    requires k <= |items| && NoCapture(items, k)
    ensures Validated(t, items, vars, k).known == vars
  {
    if k > 0 {
      KnownUnchanged(t, items, vars, k - 1);
    }
  }

  lemma {:induction false} LinesKeepVars(t: Tools, st: State, lines: seq<string>, n: nat, transfer: Transfer)
    requires n <= |lines|
    ensures var after := RunLines(t, st, lines, n, transfer);
            after.vars == st.vars && after.transfers == st.transfers && after.aborted == st.aborted
  {
    if n > 0 {
      LinesKeepVars(t, st, lines, n - 1, transfer);
    }
  }

  lemma {:induction false} VarsUnchanged(t: Tools, items: seq<Item>, vars: Vars, k: nat)
    requires k <= |items| && NoCapture(items, k)
    ensures After(t, items, vars, k).vars == vars
  {
    if k > 0 {
      VarsUnchanged(t, items, vars, k - 1);
      var before := After(t, items, vars, k - 1);
      var item := items[k - 1];
      if item.Check? && item.step in before.transfers {
        LinesKeepVars(t, before, item.lines, |item.lines|, before.transfers[item.step]);
      }
    }
  }

  lemma {:induction false} ExpandsAll(t: Tools, argv: seq<string>, i: nat, vars: Vars)
    requires i <= |argv|
    ensures ExpandArgv(t, argv, i, vars).Some? <==> forall k :: i <= k < |argv| ==> t.expand(argv[k], vars).Some?
    decreases |argv| - i
  {
    if i < |argv| {
      ExpandsAll(t, argv, i + 1, vars);
    }
  }

  /** The arguments expand one by one, each in its place. */
  lemma {:induction false} ExpandsEach(t: Tools, argv: seq<string>, i: nat, vars: Vars)
    requires i <= |argv| && ExpandArgv(t, argv, i, vars).Some?
    ensures var expanded := ExpandArgv(t, argv, i, vars).value;
            |expanded| == |argv| - i && forall k :: i <= k < |argv| ==> t.expand(argv[k], vars) == Some(expanded[k - i])
    decreases |argv| - i
  {
    if i < |argv| {
      ExpandsEach(t, argv, i + 1, vars);
    }
  }

  /** A transfer is made only of a source that tokenizes, whose words all expand,
      each in its place, to a command that reads and that the policy allows. */
  lemma {:induction false} TransferredMeans(t: Tools, index: nat, source: string, vars: Vars)
    returns (argv: seq<string>, expanded: seq<string>, plan: CurlPlan)
    requires PerformCurl(t, index, source, vars).Transferred?
    ensures t.shell(source) == Some(argv) && |expanded| == |argv|
    ensures forall k :: 0 <= k < |argv| ==> t.expand(argv[k], vars) == Some(expanded[k])
    ensures t.parse(expanded) == Some(plan) && t.policy(plan) == None
    ensures t.execute(index, plan) == Some(PerformCurl(t, index, source, vars).transfer)
  {
    argv := t.shell(source).value;
    expanded := ExpandArgv(t, argv, 0, vars).value;
    plan := t.parse(expanded).value;
    ExpandsEach(t, argv, 0, vars);
  }

  /** An item without a finding has no shell error with any variables, and no
      template error with the variables it was validated with. */
  lemma {:induction false} CurlSound(t: Tools, index: nat, source: string, known: Vars, vars: Vars)
    requires ValidateCurl(t, source, known).None?
    ensures PerformCurl(t, index, source, vars) != ShellError
    ensures vars == known ==> PerformCurl(t, index, source, vars) != TemplateError
  {
    ExpandsAll(t, t.shell(source).value, 0, known);
  }

  lemma {:induction false} NoFinding(t: Tools, items: seq<Item>, vars: Vars, k: nat)
    requires Preflight(t, items, vars) == None && k < |items| && items[k].Curl?
    ensures ValidateCurl(t, items[k].source, Validated(t, items, vars, k).known).None?
  {
    FindingsStay(t, items, vars, k + 1, |items|);
    CurlFinding(t, items[k], Validated(t, items, vars, k));
  }

  lemma {:induction false} CurlFinding(t: Tools, item: Item, v: Validation)
    requires item.Curl? && ValidateItem(t, item, v).findings == []
    ensures ValidateCurl(t, item.source, v.known).None?
  {}

  /** The same holds with other variables, if they expand what was validated. */
  lemma {:induction false} ExpandsStill(t: Tools, index: nat, source: string, known: Vars, vars: Vars)
    requires ValidateCurl(t, source, known).None?
    requires forall i :: 0 <= i < |t.shell(source).value| && t.expand(t.shell(source).value[i], known).Some? ==>
                           t.expand(t.shell(source).value[i], vars).Some?
    ensures PerformCurl(t, index, source, vars) != TemplateError
  {
    ExpandsAll(t, t.shell(source).value, 0, vars);
  }

  /** After a preflight without findings, no curl item meets a shell error, and
      none before the first capture meets a template error. */
  lemma {:induction false} PreflightSound(t: Tools, items: seq<Item>, vars: Vars, k: nat)
    requires Preflight(t, items, vars) == None && k < |items| && items[k].Curl?
    ensures var outcome := PerformCurl(t, k, items[k].source, After(t, items, vars, k).vars);
            outcome != ShellError && (NoCapture(items, k) ==> outcome != TemplateError)
  {
    NoFinding(t, items, vars, k);
    if NoCapture(items, k) {
      KnownUnchanged(t, items, vars, k);
      VarsUnchanged(t, items, vars, k);
    }
    CurlSound(t, k, items[k].source, Validated(t, items, vars, k).known, After(t, items, vars, k).vars);
  }

  // ---------- What preflight finds ----------

  /** Nothing is wrong with the item when these variables are known. */
  ghost predicate ItemValid(t: Tools, item: Item, known: Vars) {
    match item
    case Curl(_, source) => ValidateCurl(t, source, known).None?
    case Check(_, lines) => forall i :: 0 <= i < |lines| ==> t.validExpression(lines[i])
    case Capture(_, expr) => t.validExpression(expr)
  }

  /** A curl item is valid exactly when its source tokenizes to allowed options
      that read as a command, all its words expand, and the policy allows its
      URL, or as much of it as is written out. */
  lemma {:induction false} ValidateCurlExact(t: Tools, source: string, known: Vars)
    ensures ValidateCurl(t, source, known) == None <==>
              && t.shell(source).Some?
              && var argv := t.shell(source).value;
              && !t.optionsDenied(argv) && t.parse(argv).Some?
              && (forall i :: 0 <= i < |argv| ==> t.expand(argv[i], known).Some?)
              && var url := t.parse(argv).value.url;
              if exists k :: PairAt(url, '{', k) then !t.hostDenied(url) else t.policy(t.parse(argv).value) == None
  {
    if t.shell(source).Some? && t.parse(t.shell(source).value).Some? {
      FindPairFirst(t.parse(t.shell(source).value).value.url, '{', 0);
    }
  }

  lemma {:induction false} InvalidLinesExact(t: Tools, lines: seq<string>, n: nat)
    requires n <= |lines|
    ensures InvalidLines(t, lines, n) == [] <==> forall i :: 0 <= i < n ==> t.validExpression(lines[i])
  {
    if n > 0 {
      InvalidLinesExact(t, lines, n - 1);
    }
  }

  lemma {:induction false} ItemExactlyValid(t: Tools, item: Item, v: Validation)
    ensures ValidateItem(t, item, v).findings == [] <==> v.findings == [] && ItemValid(t, item, v.known)
  {
    if item.Check? {
      InvalidLinesExact(t, item.lines, |item.lines|);
    }
  }

  ghost predicate ValidAt(t: Tools, items: seq<Item>, vars: Vars, k: nat)
    requires k < |items|
  {
    ItemValid(t, items[k], Validated(t, items, vars, k).known)
  }

  lemma {:induction false} ValidatedExact(t: Tools, items: seq<Item>, vars: Vars, n: nat)
    requires n <= |items|
    ensures Validated(t, items, vars, n).findings == [] <==>
              forall k :: 0 <= k < n ==> ValidAt(t, items, vars, k)
  {
    if n > 0 {
      ValidatedExact(t, items, vars, n - 1);
      ItemExactlyValid(t, items[n - 1], Validated(t, items, vars, n - 1));
      if Validated(t, items, vars, n).findings == [] {
        assert ValidAt(t, items, vars, n - 1);
      } else if Validated(t, items, vars, n - 1).findings == [] {
        assert !ValidAt(t, items, vars, n - 1);
      }
    }
  }

  /** Preflight finds nothing exactly when every curl item is valid with what is
      known at its place, and every line of every check and every capture is a
      valid expression. */
  lemma {:induction false} PreflightExact(t: Tools, items: seq<Item>, vars: Vars)
    ensures Preflight(t, items, vars) == None <==>
              forall k :: 0 <= k < |items| ==> ValidAt(t, items, vars, k)
  {
    ValidatedExact(t, items, vars, |items|);
  }

  /** Item `k` breaks the policy. */
  ghost predicate FindsError(t: Tools, items: seq<Item>, vars: Vars, k: nat)
    requires k < |items|
  {
    items[k].Curl? && ValidateCurl(t, items[k].source, Validated(t, items, vars, k).known) == Some(Error)
  }

  lemma {:induction false} LinesOnlyFail(t: Tools, lines: seq<string>, n: nat)
    requires n <= |lines|
    ensures Error !in InvalidLines(t, lines, n)
  {
    if n > 0 {
      LinesOnlyFail(t, lines, n - 1);
    }
  }

  lemma {:induction false} FindingsError(t: Tools, items: seq<Item>, vars: Vars, n: nat)
    requires n <= |items|
    ensures Error in Validated(t, items, vars, n).findings <==> exists k :: 0 <= k < n && FindsError(t, items, vars, k)
  {
    if n > 0 {
      var before, item := Validated(t, items, vars, n - 1), items[n - 1];
      FindingsError(t, items, vars, n - 1);
      if item.Check? {
        LinesOnlyFail(t, item.lines, |item.lines|);
      }
      NextError(t, item, before);
      assert FindsError(t, items, vars, n - 1) <==>
             item.Curl? && ValidateCurl(t, item.source, before.known) == Some(Error);
    }
  }

  lemma {:induction false} NextError(t: Tools, item: Item, v: Validation)
    requires item.Check? ==> Error !in InvalidLines(t, item.lines, |item.lines|)
    ensures Error in ValidateItem(t, item, v).findings <==>
              Error in v.findings || (item.Curl? && ValidateCurl(t, item.source, v.known) == Some(Error))
  {}

  /** The document is an error exactly when an item breaks the policy. */
  lemma {:induction false} PreflightError(t: Tools, items: seq<Item>, vars: Vars)
    ensures Preflight(t, items, vars) == Some(Error) <==> exists k :: 0 <= k < |items| && FindsError(t, items, vars, k)
  {
    FindingsError(t, items, vars, |items|);
  }

  /** Placeholders are added for the names that are not known yet. */
  lemma {:induction false} PlaceholdersExact(known: Vars, keys: seq<string>, n: nat, name: string)
    requires n <= |keys|
    ensures var after := Placeholders(known, keys, n);
            && (name in after <==> name in known || exists i :: 0 <= i < n && keys[i] == name)
            && (name in after ==> after[name] == if name in known then known[name] else Str("captured"))
  {
    if n > 0 {
      PlaceholdersExact(known, keys, n - 1, name);
    }
  }

  /** What is known at an item: the given variables, and a placeholder for every
      name that an earlier capture is expected to define. */
  lemma {:induction false} KnownExact(t: Tools, items: seq<Item>, vars: Vars, n: nat, name: string)
    requires n <= |items| && forall k :: 0 <= k < n && items[k].Capture? ==> t.validExpression(items[k].expr)
    ensures var known := Validated(t, items, vars, n).known;
            && (name in known <==> name in vars || Expected(t, items, n, name))
            && (name in known ==> known[name] == if name in vars then vars[name] else Str("captured"))
  {
    if n > 0 {
      KnownExact(t, items, vars, n - 1, name);
      ExpectedNext(t, items, n - 1, name);
      if items[n - 1].Capture? {
        var keys := t.captureKeys(items[n - 1].expr);
        PlaceholdersExact(Validated(t, items, vars, n - 1).known, keys, |keys|, name);
      }
    }
  }

  /** A capture before position `n` is expected to define the name. */
  ghost predicate Expected(t: Tools, items: seq<Item>, n: nat, name: string)
    requires n <= |items|
  {
    exists k :: 0 <= k < n && items[k].Capture? && name in t.captureKeys(items[k].expr)
  }

  lemma {:induction false} ExpectedNext(t: Tools, items: seq<Item>, n: nat, name: string)
    requires n < |items|
    ensures Expected(t, items, n + 1, name) <==>
              Expected(t, items, n, name) || (items[n].Capture? && name in t.captureKeys(items[n].expr))
  {}

  // ---------- After a capture, templates can fail ----------

  /** A world in which nothing is denied, every transfer succeeds and every
      capture gives the same variables. */
  function Capturing(t: Tools, captured: Vars): Tools {
    t.(optionsDenied := argv => false,
       parse := argv => Some(CurlPlan("GET", "")),
       policy := plan => None,
       hostDenied := url => false,
       validExpression := expression => true,
       execute := (index, plan) => Some(Transfer(200, "", 0, 1)),
       capture := (expression, transfer, vars) => Some(captured))
  }

  lemma {:induction false} AllLinesValid(t: Tools, lines: seq<string>, n: nat)
    requires n <= |lines| && forall k :: 0 <= k < n ==> t.validExpression(lines[k])
    ensures InvalidLines(t, lines, n) == []
  {
    if n > 0 {
      AllLinesValid(t, lines, n - 1);
    }
  }

  lemma {:induction false} CapturingItem(t: Tools, captured: Vars, item: Item, v: Validation)
    requires v.findings == [] && ValidateItem(t, item, v).findings == []
    ensures ValidateItem(Capturing(t, captured), item, v) == ValidateItem(t, item, v)
  {
    var u := Capturing(t, captured);
    match item
    case Curl(_, source) =>
      assert ValidateCurl(t, source, v.known).None?;
      assert AllExpand(u, u.shell(source).value, v.known);
    case Check(_, lines) =>
      AllLinesValid(u, lines, |lines|);
    case Capture(_, expr) =>
  }

  /** What validates with some tools validates in the capturing world. */
  lemma {:induction false} CapturingValidated(t: Tools, captured: Vars, items: seq<Item>, vars: Vars, n: nat)
    requires n <= |items| && Validated(t, items, vars, n).findings == []
    ensures Validated(Capturing(t, captured), items, vars, n) == Validated(t, items, vars, n)
  {
    if n > 0 {
      var before := Validated(t, items, vars, n - 1);
      ItemFindings(t, items[n - 1], before);
      CapturingValidated(t, captured, items, vars, n - 1);
      CapturingItem(t, captured, items[n - 1], before);
    }
  }

  /** A run of the capturing world: until the first capture every step is
      transferred, after it the captured variables are bound. */
  ghost predicate Captured(st: State, items: seq<Item>, vars: Vars, captured: Vars, n: nat) {
    && !st.aborted
    && (NoCapture(items, n) ==>
          st.vars == vars && forall name :: Defined(items, n, name) ==> name in st.transfers)
    && (!NoCapture(items, n) ==> st.vars == vars + captured)
  }

  lemma {:induction false} NoCaptureNext(items: seq<Item>, n: nat)
    requires n < |items|
    ensures NoCapture(items, n + 1) <==> NoCapture(items, n) && !items[n].Capture?
  {}

  lemma {:induction false} DefinedNext(items: seq<Item>, n: nat, name: string)
    requires n < |items|
    ensures Defined(items, n + 1, name) <==> Defined(items, n, name) || (items[n].Curl? && items[n].name == name)
  {}

  /** Nothing but an error in the source or in a template stops a transfer. */
  lemma {:induction false} CapturingCurl(t: Tools, captured: Vars, index: nat, source: string, vars: Vars)
    ensures PerformCurl(Capturing(t, captured), index, source, vars) in
              {ShellError, TemplateError, Transferred(Transfer(200, "", 0, 1))}
  {}

  lemma {:induction false} CapturingStep(t: Tools, captured: Vars, items: seq<Item>, vars: Vars, n: nat, st: State)
    requires n < |items| && Ordered(items) && Captured(st, items, vars, captured, n)
    requires items[n].Curl? ==>
               var outcome := PerformCurl(Capturing(t, captured), n, items[n].source, st.vars);
               outcome != ShellError && (NoCapture(items, n) ==> outcome != TemplateError)
    ensures Captured(RunItem(Capturing(t, captured), st, n, items[n]), items, vars, captured, n + 1)
  {
    var u := Capturing(t, captured);
    NoCaptureNext(items, n);
    forall name
      ensures Defined(items, n + 1, name) <==> Defined(items, n, name) || (items[n].Curl? && items[n].name == name)
    {
      DefinedNext(items, n, name);
    }
    match items[n]
    case Curl(name, source) =>
      CapturingCurl(t, captured, n, source, st.vars);
    case Check(step, lines) =>
      if step in st.transfers {
        LinesKeepVars(u, st, lines, |lines|, st.transfers[step]);
      }
    case Capture(step, expr) =>
      assert Defined(items, n, step);
      assert vars + captured + captured == vars + captured;
  }

  lemma {:induction false} CapturingRun(t: Tools, captured: Vars, items: seq<Item>, vars: Vars, n: nat)
    requires n <= |items| && Ordered(items) && Preflight(Capturing(t, captured), items, vars) == None
    ensures Captured(After(Capturing(t, captured), items, vars, n), items, vars, captured, n)
  {
    if n > 0 {
      var u := Capturing(t, captured);
      CapturingRun(t, captured, items, vars, n - 1);
      if items[n - 1].Curl? {
        PreflightSound(u, items, vars, n - 1);
      }
      CapturingStep(t, captured, items, vars, n - 1, After(u, items, vars, n - 1));
    }
  }

  /** If a word of item `k` does not expand with some captured variables, and a
      capture stands before it, then there is a world that passes preflight and
      in which the item fails with a template error. */
  lemma {:induction false} CaptureBreaks(t: Tools, items: seq<Item>, vars: Vars, k: nat, word: nat, captured: Vars)
    returns (u: Tools)
    requires Ordered(items) && Preflight(t, items, vars) == None
    requires k < |items| && items[k].Curl? && !NoCapture(items, k)
    requires t.shell(items[k].source).Some? && word < |t.shell(items[k].source).value|
    requires t.expand(t.shell(items[k].source).value[word], vars + captured).None?
    ensures u.shell == t.shell && u.expand == t.expand && u.captureKeys == t.captureKeys
    ensures Preflight(u, items, vars) == None
    ensures PerformCurl(u, k, items[k].source, After(u, items, vars, k).vars) == TemplateError
  {
    u := Capturing(t, captured);
    CapturingValidated(t, captured, items, vars, |items|);
    CapturingRun(t, captured, items, vars, k);
    ExpandsAll(u, u.shell(items[k].source).value, 0, vars + captured);
  }

  // ---------- What a passed document means ----------

  /** A check is evaluated against the transfer of its step, every line is
      true; a capture of a performed step is evaluated and merged. */
  ghost predicate Succeeds(t: Tools, st: State, index: nat, item: Item, after: State) {
    match item
    case Curl(name, source) =>
      var outcome := PerformCurl(t, index, source, st.vars);
      outcome.Transferred? && after.transfers == st.transfers[name := outcome.transfer]
    case Check(step, lines) =>
      && step in st.transfers
      && forall k :: 0 <= k < |lines| ==> t.check(lines[k], st.transfers[step], st.vars) == Some(true)
    case Capture(step, expr) =>
      && step in st.transfers
      && t.capture(expr, st.transfers[step], st.vars).Some?
      && after.vars == st.vars + t.capture(expr, st.transfers[step], st.vars).value
  }

  ghost predicate SucceedsAt(t: Tools, items: seq<Item>, vars: Vars, k: nat)
    requires k < |items|
  {
    Succeeds(t, After(t, items, vars, k), k, items[k], After(t, items, vars, k + 1))
  }

  ghost predicate AllSucceed(t: Tools, items: seq<Item>, vars: Vars, n: nat)
    requires n <= |items|
  {
    n > 0 ==> AllSucceed(t, items, vars, n - 1) && SucceedsAt(t, items, vars, n - 1)
  }

  lemma {:induction false} SucceedPrefix(t: Tools, items: seq<Item>, vars: Vars, n: nat, k: nat)
    requires k <= n <= |items| && AllSucceed(t, items, vars, n)
    ensures AllSucceed(t, items, vars, k) && (k < n ==> SucceedsAt(t, items, vars, k))
    decreases n
  {
    if k < n - 1 {
      SucceedPrefix(t, items, vars, n - 1, k);
    }
  }

  /** The verdict, the exit class and the diagnostics fit together. */
  ghost predicate Consistent(status: Status, exitClass: nat, diagnostics: nat) {
    && exitClass <= 3
    && (status == Passed <==> exitClass == 0)
    && (status == Error ==> exitClass == 3)
    && (status == Passed ==> diagnostics == 0)
  }

  ghost predicate Settled(st: State) {
    Consistent(st.status, st.exitClass, st.diagnostics) && (st.status == Error <==> st.aborted)
  }

  lemma {:induction false} LinesExact(t: Tools, st: State, lines: seq<string>, n: nat, transfer: Transfer)
    requires n <= |lines| && Settled(st) && !st.aborted
    ensures var after := RunLines(t, st, lines, n, transfer);
            && Settled(after)
            && (after.status == Passed <==>
                  st.status == Passed && forall k :: 0 <= k < n ==> t.check(lines[k], transfer, st.vars) == Some(true))
            && after.vars == st.vars && after.transfers == st.transfers && after.aborted == st.aborted
  {
    if n > 0 {
      LinesExact(t, st, lines, n - 1, transfer);
    }
  }

  /** One item keeps the state settled; it leaves a passing document passing
      exactly when it succeeds, unless it is skipped. */
  lemma {:induction false} ItemExact(t: Tools, st: State, index: nat, item: Item)
    requires Settled(st) && !st.aborted
    requires !item.Curl? ==> item.step in st.transfers
    requires item.Curl? ==> PerformCurl(t, index, item.source, st.vars) != ShellError
    ensures var after := RunItem(t, st, index, item);
            && Settled(after)
            && (after.status == Passed <==> st.status == Passed && Succeeds(t, st, index, item, after))
  {
    if item.Check? {
      LinesExact(t, st, item.lines, |item.lines|, st.transfers[item.step]);
    }
  }

  lemma {:induction false} ItemSettled(t: Tools, st: State, index: nat, item: Item)
    requires Settled(st) && !st.aborted
    ensures Settled(RunItem(t, st, index, item))
    ensures st.status != Passed ==> RunItem(t, st, index, item).status != Passed
  {
    if item.Check? && item.step in st.transfers {
      LinesExact(t, st, item.lines, |item.lines|, st.transfers[item.step]);
    }
  }

  lemma {:induction false} RunSettled(t: Tools, items: seq<Item>, vars: Vars, n: nat)
    requires n <= |items|
    ensures Settled(After(t, items, vars, n))
  {
    if n > 0 {
      RunSettled(t, items, vars, n - 1);
      if !After(t, items, vars, n - 1).aborted {
        ItemSettled(t, After(t, items, vars, n - 1), n - 1, items[n - 1]);
      }
    }
  }

  /** A transfer is never taken away. */
  lemma {:induction false} ItemKeepsTransfers(t: Tools, st: State, index: nat, item: Item, name: string)
    requires name in st.transfers
    ensures name in RunItem(t, st, index, item).transfers
  {
    if item.Check? && item.step in st.transfers {
      LinesKeepVars(t, st, item.lines, |item.lines|, st.transfers[item.step]);
    }
  }

  /** As long as everything succeeds, every step so far has its transfer. */
  lemma {:induction false} TransfersKept(t: Tools, items: seq<Item>, vars: Vars, n: nat, name: string)
    requires n <= |items| && AllSucceed(t, items, vars, n)
    requires After(t, items, vars, n).status == Passed
    requires Defined(items, n, name)
    ensures name in After(t, items, vars, n).transfers
  {
    assert SucceedsAt(t, items, vars, n - 1);
    if items[n - 1].Curl? && items[n - 1].name == name {
    } else {
      PassedBefore(t, items, vars, n - 1, n);
      TransfersKept(t, items, vars, n - 1, name);
      ItemKeepsTransfers(t, After(t, items, vars, n - 1), n - 1, items[n - 1], name);
    }
  }

  lemma {:induction false} PassedBefore(t: Tools, items: seq<Item>, vars: Vars, k: nat, n: nat)
    requires k <= n <= |items| && After(t, items, vars, n).status == Passed
    ensures After(t, items, vars, k).status == Passed && !After(t, items, vars, k).aborted
    decreases n
  {
    RunSettled(t, items, vars, n);
    if k < n {
      RunSettled(t, items, vars, n - 1);
      if !After(t, items, vars, n - 1).aborted {
        ItemSettled(t, After(t, items, vars, n - 1), n - 1, items[n - 1]);
      }
      PassedBefore(t, items, vars, k, n - 1);
    }
  }

  /** In a planned document, nothing is skipped while everything succeeds. */
  lemma {:induction false} NextExact(t: Tools, items: seq<Item>, vars: Vars, n: nat)
    requires n < |items| && Ordered(items) && Preflight(t, items, vars) == None
    requires After(t, items, vars, n).status == Passed && AllSucceed(t, items, vars, n)
    ensures After(t, items, vars, n + 1).status == Passed <==> SucceedsAt(t, items, vars, n)
  {
    var before := After(t, items, vars, n);
    RunSettled(t, items, vars, n);
    if items[n].Curl? {
      PreflightSound(t, items, vars, n);
    } else {
      assert Defined(items, n, items[n].step);
      TransfersKept(t, items, vars, n, items[n].step);
    }
    ItemExact(t, before, n, items[n]);
  }

  lemma {:induction false} RunExact(t: Tools, items: seq<Item>, vars: Vars, n: nat)
    requires n <= |items| && Ordered(items) && Preflight(t, items, vars) == None
    ensures After(t, items, vars, n).status == Passed <==> AllSucceed(t, items, vars, n)
  {
    if n > 0 {
      RunExact(t, items, vars, n - 1);
      if After(t, items, vars, n).status == Passed {
        PassedBefore(t, items, vars, n - 1, n);
      }
      if AllSucceed(t, items, vars, n - 1) {
        NextExact(t, items, vars, n - 1);
      }
    }
  }

  /** A planned document passes exactly when preflight finds nothing, every
      step is transferred, every line of every check is evaluated to true with
      none skipped, and every capture is evaluated and merged. */
  lemma {:induction false} PassedExact(t: Tools, items: seq<Item>, vars: Vars)
    requires Ordered(items)
    ensures Test(t, items, vars).status == Passed <==>
              Preflight(t, items, vars) == None && AllSucceed(t, items, vars, |items|)
  {
    if Preflight(t, items, vars) == None {
      RunExact(t, items, vars, |items|);
      RunSettled(t, items, vars, |items|);
    }
  }

  lemma {:induction false} TransferStays(t: Tools, items: seq<Item>, vars: Vars, j: nat, k: nat)
    requires j < k <= |items| && Ordered(items) && items[j].Curl?
    requires AllSucceed(t, items, vars, k) && After(t, items, vars, k).status == Passed
    ensures items[j].name in After(t, items, vars, k).transfers
    ensures items[j].name in After(t, items, vars, j + 1).transfers
    ensures After(t, items, vars, k).transfers[items[j].name] == After(t, items, vars, j + 1).transfers[items[j].name]
    decreases k
  {
    assert SucceedsAt(t, items, vars, k - 1);
    if j + 1 < k {
      PassedBefore(t, items, vars, k - 1, k);
      TransferStays(t, items, vars, j, k - 1);
      var before, item := After(t, items, vars, k - 1), items[k - 1];
      assert !SameStep(items[j], item);
      if item.Check? {
        LinesKeepVars(t, before, item.lines, |item.lines|, before.transfers[item.step]);
      }
    }
  }

  /** Step names being unique, a check or capture in a passing document is
      evaluated against the transfer of the very step that it names. */
  lemma {:induction false} OwnTransfer(t: Tools, items: seq<Item>, vars: Vars, j: nat, k: nat)
    requires Ordered(items) && Test(t, items, vars).status == Passed
    requires j < k < |items| && items[j].Curl? && !items[k].Curl? && items[k].step == items[j].name
    ensures var st := After(t, items, vars, k);
            var outcome := PerformCurl(t, j, items[j].source, After(t, items, vars, j).vars);
            outcome.Transferred? && items[k].step in st.transfers && st.transfers[items[k].step] == outcome.transfer
  {
    PassedExact(t, items, vars);
    RunSettled(t, items, vars, |items|);
    PassedBefore(t, items, vars, k, |items|);
    SucceedPrefix(t, items, vars, |items|, j);
    SucceedPrefix(t, items, vars, |items|, k);
    TransferStays(t, items, vars, j, k);
  }

  /** The planner's order is needed: a check of a step that is nowhere defined
      is skipped, and the document passes. */
  lemma {:induction false} SkippedCheckPasses(t: Tools, line: string)
    requires t.validExpression(line)
    ensures var items := [Check("missing", [line])];
            !Ordered(items) && Test(t, items, map[]).status == Passed
  {
    var items := [Check("missing", [line])];
    assert !Defined(items, 0, "missing");
    assert InvalidLines(t, [line], 1) == InvalidLines(t, [line], 0) == [];
    assert Validated(t, items, map[], 1) == ValidateItem(t, items[0], Validated(t, items, map[], 0));
    assert After(t, items, map[], 1) == After(t, items, map[], 0);
  }

  // ---------- The exit class ----------

  /** How bad the item is, reached in the state `st`: 1 for a check or a capture
      that fails, 2 for a command that cannot be expanded or read, 3 for a
      transfer that fails or is denied. */
  ghost function Damage(t: Tools, st: State, index: nat, item: Item): nat {
    match item
    case Curl(_, source) =>
      (match PerformCurl(t, index, source, st.vars)
       case TemplateError => 2
       case ParseError => 2
       case Denied => 3
       case NotTransferred => 3
       case _ => 0)
    case Check(step, lines) =>
      if step in st.transfers
         && exists k :: 0 <= k < |lines| && t.check(lines[k], st.transfers[step], st.vars) != Some(true)
      then 1 else 0
    case Capture(step, expr) =>
      if step in st.transfers && t.capture(expr, st.transfers[step], st.vars).None? then 1 else 0
  }

  function Worse(a: nat, b: nat): nat {
    if a < b then b else a
  }

  lemma {:induction false} LinesClass(t: Tools, st: State, lines: seq<string>, n: nat, transfer: Transfer)
    requires n <= |lines|
    ensures RunLines(t, st, lines, n, transfer).exitClass ==
            Worse(st.exitClass,
                  if exists k :: 0 <= k < n && t.check(lines[k], transfer, st.vars) != Some(true) then 1 else 0)
  {
    if n > 0 {
      LinesClass(t, st, lines, n - 1, transfer);
    }
  }

  lemma {:induction false} ItemClass(t: Tools, st: State, index: nat, item: Item)
    requires st.exitClass <= 3
    ensures RunItem(t, st, index, item).exitClass == Worse(st.exitClass, Damage(t, st, index, item))
  {
    if item.Check? && item.step in st.transfers {
      LinesClass(t, st, item.lines, |item.lines|, st.transfers[item.step]);
    }
  }

  /** Item `k` is reached: no item before it is denied. */
  ghost predicate Reaches(t: Tools, items: seq<Item>, vars: Vars, k: nat)
    requires k < |items|
  {
    !After(t, items, vars, k).aborted
  }

  /** What item `k` does to the exit class: nothing if it is not reached. */
  ghost function DamageAt(t: Tools, items: seq<Item>, vars: Vars, k: nat): nat
    requires k < |items|
  {
    if Reaches(t, items, vars, k) then Damage(t, After(t, items, vars, k), k, items[k]) else 0
  }

  ghost function Worst(t: Tools, items: seq<Item>, vars: Vars, n: nat): nat
    requires n <= |items|
  {
    if n == 0 then 0 else Worse(Worst(t, items, vars, n - 1), DamageAt(t, items, vars, n - 1))
  }

  lemma {:induction false} ExitClassIs(t: Tools, items: seq<Item>, vars: Vars, n: nat)
    requires n <= |items|
    ensures After(t, items, vars, n).exitClass == Worst(t, items, vars, n)
  {
    if n > 0 {
      var before := After(t, items, vars, n - 1);
      ExitClassIs(t, items, vars, n - 1);
      RunSettled(t, items, vars, n - 1);
      if !before.aborted {
        ItemClass(t, before, n - 1, items[n - 1]);
      }
    }
  }

  lemma {:induction false} WorstBounds(t: Tools, items: seq<Item>, vars: Vars, n: nat, k: nat)
    requires k < n <= |items|
    ensures DamageAt(t, items, vars, k) <= Worst(t, items, vars, n)
  {
    if k < n - 1 {
      WorstBounds(t, items, vars, n - 1, k);
    }
  }

  lemma {:induction false} WorstFound(t: Tools, items: seq<Item>, vars: Vars, n: nat) returns (k: nat)
    requires n <= |items| && Worst(t, items, vars, n) > 0
    ensures k < n && DamageAt(t, items, vars, k) == Worst(t, items, vars, n)
  {
    if DamageAt(t, items, vars, n - 1) == Worst(t, items, vars, n) {
      k := n - 1;
    } else {
      k := WorstFound(t, items, vars, n - 1);
    }
  }

  /** The exit class of a run is the worst of the items that it reaches. */
  lemma {:induction false} ExitClassExact(t: Tools, items: seq<Item>, vars: Vars, n: nat)
    requires n <= |items|
    ensures var exit := After(t, items, vars, n).exitClass;
            && (forall k :: 0 <= k < n ==> DamageAt(t, items, vars, k) <= exit)
            && (exit == 0 || exists k :: 0 <= k < n && DamageAt(t, items, vars, k) == exit)
  {
    ExitClassIs(t, items, vars, n);
    forall k | 0 <= k < n
      ensures DamageAt(t, items, vars, k) <= Worst(t, items, vars, n)
    {
      WorstBounds(t, items, vars, n, k);
    }
    if Worst(t, items, vars, n) > 0 {
      var k := WorstFound(t, items, vars, n);
    }
  }

  /** A run goes on exactly until an item is denied. */
  lemma {:induction false} AbortsExactly(t: Tools, items: seq<Item>, vars: Vars, n: nat)
    requires n <= |items|
    ensures After(t, items, vars, n).aborted <==>
              exists k :: 0 <= k < n && Reaches(t, items, vars, k) && IsDenied(t, items, vars, k)
  {
    if n > 0 {
      var before, item := After(t, items, vars, n - 1), items[n - 1];
      AbortsExactly(t, items, vars, n - 1);
      if !before.aborted {
        assert Reaches(t, items, vars, n - 1);
        if item.Check? && item.step in before.transfers {
          LinesKeepVars(t, before, item.lines, |item.lines|, before.transfers[item.step]);
        }
      }
    }
  }

  ghost predicate IsDenied(t: Tools, items: seq<Item>, vars: Vars, k: nat)
    requires k < |items|
  {
    items[k].Curl? && PerformCurl(t, k, items[k].source, After(t, items, vars, k).vars) == Denied
  }

  // ---------- The exit code ----------

  function ClassOf(r: DocumentResult): nat {
    if r.status == Error then 3
    else if r.exitClass == 0 && r.diagnostics > 0 then 2
    else if r.exitClass == 0 && r.status == Failed then 1
    else r.exitClass
  }

  /** `ExitCode`: the largest class of all documents. */
  method ExitCode(results: seq<DocumentResult>) returns (exit: nat)
    ensures forall i :: 0 <= i < |results| ==> ClassOf(results[i]) <= exit
    ensures exit == 0 || exists i :: 0 <= i < |results| && ClassOf(results[i]) == exit
    ensures (forall i :: 0 <= i < |results| ==>
                           Consistent(results[i].status, results[i].exitClass, results[i].diagnostics)) ==>
              (exit == 0 <==> forall i :: 0 <= i < |results| ==> results[i].status == Passed)
  {
    exit := 0;
    for i := 0 to |results|
      invariant forall k :: 0 <= k < i ==> ClassOf(results[k]) <= exit
      invariant exit == 0 || exists k :: 0 <= k < i && ClassOf(results[k]) == exit
    {
      var exitClass := results[i].exitClass;
      if results[i].status == Error {
        exitClass := 3;
      } else if exitClass == 0 && results[i].diagnostics > 0 {
        exitClass := 2;
      } else if exitClass == 0 && results[i].status == Failed {
        exitClass := 1;
      }
      if exitClass > exit {
        exit := exitClass;
      }
    }
  }

  /** Every result of a test is one that the exit code is exact for. */
  lemma {:induction false} TestConsistent(t: Tools, items: seq<Item>, vars: Vars)
    ensures var r := Test(t, items, vars);
            Consistent(r.status, r.exitClass, r.diagnostics) && ClassOf(r) == r.exitClass
  {
    RunSettled(t, items, vars, |items|);
  }

  // ---------- The program ----------

  lemma {:induction false} AbortedStays(t: Tools, items: seq<Item>, vars: Vars, i: nat, n: nat)
    requires i <= n <= |items| && After(t, items, vars, i).aborted
    ensures After(t, items, vars, n) == After(t, items, vars, i)
    decreases n
  {
    if i < n {
      AbortedStays(t, items, vars, i, n - 1);
    }
  }

  method KnownKeys(known: Vars, keys: seq<string>) returns (r: Vars)
    ensures r == Placeholders(known, keys, |keys|)
  {
    r := known;
    for i := 0 to |keys|
      invariant r == Placeholders(known, keys, i)
    {
      if keys[i] !in r {
        r := r[keys[i] := Str("captured")];
      }
    }
  }

  method ValidateLines(t: Tools, lines: seq<string>) returns (r: seq<Status>)
    ensures r == InvalidLines(t, lines, |lines|)
  {
    r := [];
    for i := 0 to |lines|
      invariant r == InvalidLines(t, lines, i)
    {
      if !t.validExpression(lines[i]) {
        r := r + [Failed];
      }
    }
  }

  /** `preflight`: all items are looked at, and the worst finding wins. */
  method PreflightDocument(t: Tools, items: seq<Item>, vars: Vars)
    returns (status: Option<Status>, findings: seq<Status>)
    ensures status == Preflight(t, items, vars)
    ensures findings == Validated(t, items, vars, |items|).findings
  {
    var known := vars;
    findings := [];
    for i := 0 to |items|
      invariant Validation(known, findings) == Validated(t, items, vars, i)
    {
      match items[i] {
        case Curl(_, source) =>
          var finding := ValidateCurl(t, source, known);
          if finding.Some? {
            findings := findings + [finding.value];
          }
        case Check(_, lines) =>
          var invalid := ValidateLines(t, lines);
          findings := findings + invalid;
        case Capture(_, expr) =>
          if !t.validExpression(expr) {
            findings := findings + [Failed];
          } else {
            known := KnownKeys(known, t.captureKeys(expr));
          }
      }
    }
    status := if findings == [] then None else Some(if Error in findings then Error else Failed);
  }

  method CheckLines(t: Tools, st: State, lines: seq<string>, transfer: Transfer) returns (r: State)
    ensures r == RunLines(t, st, lines, |lines|, transfer)
  {
    r := st;
    for i := 0 to |lines|
      invariant r == RunLines(t, st, lines, i, transfer)
    {
      if t.check(lines[i], transfer, st.vars) != Some(true) {
        r := Fail(r, 1);
      }
    }
  }

  /** The loop over the items, which a policy error ends. */
  method RunItems(t: Tools, items: seq<Item>, initial: Vars) returns (st: State)
    ensures st == After(t, items, initial, |items|)
  {
    st := State(initial, map[], Passed, 0, 0, false);
    var i := 0;
    while i < |items| && !st.aborted
      invariant 0 <= i <= |items| && st == After(t, items, initial, i)
    {
      match items[i] {
        case Curl(name, source) => st := RunCurl(st, name, PerformCurl(t, i, source, st.vars));
        case Check(step, lines) =>
          if step in st.transfers {
            st := CheckLines(t, st, lines, st.transfers[step]);
          }
        case Capture(step, expr) =>
          if step in st.transfers {
            var captured := t.capture(expr, st.transfers[step], st.vars);
            st := if captured.None? then Fail(st, 1) else st.(vars := st.vars + captured.value);
          }
      }
      i := i + 1;
    }
    if st.aborted {
      AbortedStays(t, items, initial, i, |items|);
    }
  }

  /** `Test` on a planned document: a passing result means that everything in
      the document held. */
  method TestDocument(t: Tools, items: seq<Item>, docVars: Vars, cliVars: Vars) returns (r: DocumentResult)
    ensures r == Test(t, items, docVars + cliVars)
    ensures Consistent(r.status, r.exitClass, r.diagnostics)
    ensures Ordered(items) && r.status == Passed ==> AllSucceed(t, items, docVars + cliVars, |items|)
  {
    var vars := docVars + cliVars;
    TestConsistent(t, items, vars);
    var status, findings := PreflightDocument(t, items, vars);
    if status.Some? {
      return DocumentResult(status.value, if status.value == Error then 3 else 2, |findings|);
    }
    var st := RunItems(t, items, vars);
    r := Finalize(st);
    if Ordered(items) {
      PassedExact(t, items, vars);
    }
  }
}
