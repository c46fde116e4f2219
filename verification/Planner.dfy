/** Planning a document: executable fences become an ordered list of items, in
    which step names are unique and every reference points backwards. */
module Planner {
  import opened Text
  import opened Json

  const MAX_FENCES: nat := 1024
  const MAX_FENCE_BODY_BYTES: nat := 524288
  const MAX_EXECUTABLE_BLOCKS: nat := 256
  const MAX_STEPS: nat := 128
  const MAX_CHECKS_PER_STEP: nat := 512
  const MAX_CAPTURES_PER_STEP: nat := 128
  const MAX_STEP_NAME_BYTES: nat := 64

  type Vars = map<string, Json>

  /** A fence with its info string read; only those with the marker are
      executable. */
  datatype Fence =
    Fence(marked: bool, language: string, flags: seq<string>, attributes: map<string, string>, body: string)

  datatype Item =
    | Curl(name: string, source: string)
    | Check(step: string, lines: seq<string>)
    | Capture(step: string, expr: string)

  /** The codes E100, E101, E102, E110 and E700. */
  datatype PlanError = FenceMetadata | StepName | UnknownStep | Variables | ResourceLimit

  datatype Budget = Budget(checks: nat, captures: nat)

  datatype Plan = Plan(items: seq<Item>, steps: map<string, Budget>, count: nat, vars: Vars)

  const EMPTY := Plan([], map[], 0, map[])

  /** Reads a variables block. */
  type Decoder = string -> Option<Vars>

  predicate Reserved(name: string) {
    || name == "variables" || name == "steps" || name == "environment"
    || name == "request" || name == "response" || name == "mdok"
  }

  predicate ValidStepName(name: string) {
    && name != "" && ByteLen(name) <= MAX_STEP_NAME_BYTES && !Reserved(name) && Letter(name[0])
    && forall i :: 1 <= i < |name| ==> Letter(name[i]) || IsDigit(name[i]) || name[i] == '_' || name[i] == '-'
  }

  /** The first `n` lines, trimmed, without the blank ones. */
  function NonBlank(lines: seq<string>, n: nat): seq<string>
    requires n <= |lines|
  {
    if n == 0 then []
    else
      var trimmed := Trim(lines[n - 1]);
      NonBlank(lines, n - 1) + (if trimmed != "" then [trimmed] else [])
  }

  function BodyLines(body: string): seq<string> {
    var lines := Split(body, '\n');
    NonBlank(lines, |lines|)
  }

  function Expression(body: string): string {
    Join(BodyLines(body), '\n')
  }

  method CollectLines(body: string) returns (r: seq<string>)
    ensures r == BodyLines(body)
  {
    var lines := Split(body, '\n');
    r := [];
    for i := 0 to |lines|
      invariant r == NonBlank(lines, i)
    {
      var trimmed := Trim(lines[i]);
      if trimmed != "" {
        r := r + [trimmed];
      }
    }
  }

  method CollectExpression(body: string) returns (r: string)
    ensures r == Expression(body)
  {
    var parts := CollectLines(body);
    r := Join(parts, '\n');
  }

  // ---------- Adding items ----------

  function AddVariables(decode: Decoder, p: Plan, body: string): Result<Plan, PlanError> {
    match decode(body)
    case None => Err(Variables)
    case Some(table) => if table.Keys !! p.vars.Keys then Ok(p.(vars := p.vars + table)) else Err(Variables)
  }

  function AddRequest(p: Plan, name: string, body: string): Result<Plan, PlanError> {
    if !ValidStepName(name) then Err(StepName)
    else if p.count >= MAX_STEPS then Err(ResourceLimit)
    else if name in p.steps then Err(StepName)
    else Ok(p.(items := p.items + [Curl(name, body)], steps := p.steps[name := Budget(0, 0)], count := p.count + 1))
  }

  function AddCheck(p: Plan, step: string, body: string): Result<Plan, PlanError> {
    if !ValidStepName(step) then Err(StepName)
    else if step !in p.steps then Err(UnknownStep)
    else
      var lines := BodyLines(body);
      var budget := p.steps[step];
      if budget.checks + |lines| > MAX_CHECKS_PER_STEP then Err(ResourceLimit)
      else Ok(p.(items := p.items + [Check(step, lines)],
                 steps := p.steps[step := budget.(checks := budget.checks + |lines|)]))
  }

  function AddCapture(p: Plan, step: string, body: string): Result<Plan, PlanError> {
    if !ValidStepName(step) then Err(StepName)
    else if step !in p.steps then Err(UnknownStep)
    else
      var budget := p.steps[step];
      if budget.captures >= MAX_CAPTURES_PER_STEP then Err(ResourceLimit)
      else
        var expr := Expression(body);
        if expr == "" then Err(Variables)
        else Ok(p.(items := p.items + [Capture(step, expr)],
                   steps := p.steps[step := budget.(captures := budget.captures + 1)]))
  }

  /** One executable fence. */
  function Classify(decode: Decoder, p: Plan, f: Fence): Result<Plan, PlanError> {
    if f.language == "toml" && f.flags == ["vars"] && |f.attributes| == 0 then AddVariables(decode, p, f.body)
    else if f.language == "curl" && f.flags == [] then
      if "name" !in f.attributes || |f.attributes| != 1 then Err(FenceMetadata)
      else AddRequest(p, f.attributes["name"], f.body)
    else if f.language == "jmespath" && f.flags == [] then
      var hasCheck, hasCapture := "check" in f.attributes, "capture" in f.attributes;
      if hasCheck == hasCapture || |f.attributes| != 1 then Err(FenceMetadata)
      else if hasCheck then AddCheck(p, f.attributes["check"], f.body)
      else AddCapture(p, f.attributes["capture"], f.body)
    else Err(FenceMetadata)
  }

  /** How many of the first `n` fences are executable. */
  function Executable(fences: seq<Fence>, n: nat): nat
    requires n <= |fences|
  {
    if n == 0 then 0 else Executable(fences, n - 1) + (if fences[n - 1].marked then 1 else 0)
  }

  /** The fence that is closed as number `n`, the `blocks`th executable one. */
  function CloseFence(decode: Decoder, p: Plan, f: Fence, n: nat, blocks: nat): Result<Plan, PlanError> {
    if n > MAX_FENCES || ByteLen(f.body) > MAX_FENCE_BODY_BYTES then Err(ResourceLimit)
    else if !f.marked then Ok(p)
    else if blocks > MAX_EXECUTABLE_BLOCKS then Err(ResourceLimit)
    else Classify(decode, p, f)
  }

  /** The first `n` fences. */
  function PlanFences(decode: Decoder, fences: seq<Fence>, n: nat): Result<Plan, PlanError>
    requires n <= |fences|
  {
    if n == 0 then Ok(EMPTY)
    else match PlanFences(decode, fences, n - 1)
         case Err(e) => Err(e)
         case Ok(p) => CloseFence(decode, p, fences[n - 1], n, Executable(fences, n))
  }

  // ---------- What every plan satisfies ----------

  /** Step `name` is defined before position `i`. */
  ghost predicate Defined(items: seq<Item>, i: nat, name: string) {
    exists j :: 0 <= j < i && j < |items| && items[j].Curl? && items[j].name == name
  }

  predicate SameStep(a: Item, b: Item) {
    a.Curl? && b.Curl? && a.name == b.name
  }

  /** Step names are unique, and checks and captures refer to a step that is
      defined before them. */
  ghost predicate Ordered(items: seq<Item>) {
    && (forall i, j :: 0 <= i < j < |items| ==> !SameStep(items[i], items[j]))
    && (forall i :: 0 <= i < |items| && !items[i].Curl? ==> Defined(items, i, items[i].step))
  }

  function CheckCount(items: seq<Item>, name: string): nat {
    if items == [] then 0
    else
      var last := items[|items| - 1];
      CheckCount(items[..|items| - 1], name) + (if last.Check? && last.step == name then |last.lines| else 0)
  }

  function CaptureCount(items: seq<Item>, name: string): nat {
    if items == [] then 0
    else
      var last := items[|items| - 1];
      CaptureCount(items[..|items| - 1], name) + (if last.Capture? && last.step == name then 1 else 0)
  }

  /** The table's entry for a step is what the items contain, within limits. */
  ghost predicate Tracks(p: Plan, name: string) {
    && (name in p.steps <==> Defined(p.items, |p.items|, name))
    && (name in p.steps ==>
          && p.steps[name].checks == CheckCount(p.items, name) <= MAX_CHECKS_PER_STEP
          && p.steps[name].captures == CaptureCount(p.items, name) <= MAX_CAPTURES_PER_STEP)
  }

  ghost predicate Accounted(p: Plan) {
    && (forall name :: Tracks(p, name))
    && p.count == |p.steps| <= MAX_STEPS
  }

  ghost predicate WellPlanned(p: Plan) {
    Ordered(p.items) && Accounted(p)
  }

  lemma {:induction false} DefinedSnoc(items: seq<Item>, last: Item, name: string)
    ensures Defined(items + [last], |items| + 1, name)
       <==> Defined(items, |items|, name) || (last.Curl? && last.name == name)
  {
    var all := items + [last];
    if Defined(items, |items|, name) {
      var j :| 0 <= j < |items| && items[j].Curl? && items[j].name == name;
      assert all[j] == items[j];
    }
    assert all[|items|] == last;
  }

  lemma {:induction false} CountsSnoc(items: seq<Item>, last: Item, name: string)
    ensures CheckCount(items + [last], name) ==
            CheckCount(items, name) + (if last.Check? && last.step == name then |last.lines| else 0)
    ensures CaptureCount(items + [last], name) ==
            CaptureCount(items, name) + (if last.Capture? && last.step == name then 1 else 0)
  {
    assert (items + [last])[..|items|] == items;
  }

  lemma {:induction false} OrderedSnoc(items: seq<Item>, last: Item)
    requires Ordered(items)
    requires last.Curl? ==> !Defined(items, |items|, last.name)
    requires !last.Curl? ==> Defined(items, |items|, last.step)
    ensures Ordered(items + [last])
  {
    var all := items + [last];
    forall i | 0 <= i < |all| && !all[i].Curl?
      ensures Defined(all, i, all[i].step)
    {
      assert Defined(items, i, all[i].step);
      var j :| 0 <= j < i && j < |items| && items[j].Curl? && items[j].name == all[i].step;
      assert all[j] == items[j];
    }
  }

  /** A step that is not defined has no checks and no captures. */
  lemma {:induction false} NothingCounted(items: seq<Item>, name: string)
    requires Ordered(items) && !Defined(items, |items|, name)
    ensures CheckCount(items, name) == 0 && CaptureCount(items, name) == 0
  {
    if items != [] {
      var front, last := items[..|items| - 1], items[|items| - 1];
      assert items == front + [last];
      DefinedSnoc(front, last, name);
      if !last.Curl? && last.step == name {
        DefinedFront(items, name);
        assert false;
      }
      OrderedFront(items);
      NothingCounted(front, name);
    }
  }

  lemma {:induction false} DefinedFront(items: seq<Item>, name: string)
    requires Ordered(items) && items != [] && !items[|items| - 1].Curl? && items[|items| - 1].step == name
    ensures Defined(items, |items|, name)
  {}

  lemma {:induction false} OrderedFront(items: seq<Item>)
    requires Ordered(items) && items != []
    ensures Ordered(items[..|items| - 1])
  {
    var front := items[..|items| - 1];
    forall i | 0 <= i < |front| && !front[i].Curl?
      ensures Defined(front, i, front[i].step)
    {
      assert Defined(items, i, items[i].step);
      var j :| 0 <= j < i && j < |items| && items[j].Curl? && items[j].name == front[i].step;
      assert front[j] == items[j];
    }
  }

  function StepOf(item: Item): string {
    if item.Curl? then item.name else item.step
  }

  /** What a new item adds to the budget of its step. */
  function Charged(item: Item, before: Budget): Budget {
    match item
    case Curl(_, _) => Budget(0, 0)
    case Check(_, lines) => before.(checks := before.checks + |lines|)
    case Capture(_, _) => before.(captures := before.captures + 1)
  }

  /** `q` is `p` with one more item and its budget. */
  ghost predicate Adds(p: Plan, q: Plan, last: Item, budget: Budget) {
    && q.items == p.items + [last]
    && q.steps == p.steps[StepOf(last) := budget]
    && (last.Curl? <==> StepOf(last) !in p.steps)
    && budget == Charged(last, if last.Curl? then Budget(0, 0) else p.steps[StepOf(last)])
    && budget.checks <= MAX_CHECKS_PER_STEP && budget.captures <= MAX_CAPTURES_PER_STEP
    && q.count == p.count + (if last.Curl? then 1 else 0) <= MAX_STEPS
  }

  lemma {:induction false} TracksSnoc(p: Plan, q: Plan, last: Item, budget: Budget, name: string)
    requires Ordered(p.items) && Tracks(p, name) && Adds(p, q, last, budget)
    ensures Tracks(q, name)
  {
    DefinedSnoc(p.items, last, name);
    CountsSnoc(p.items, last, name);
    if last.Curl? && last.name == name {
      NothingCounted(p.items, name);
    }
  }

  lemma {:induction false} AddsKeeps(p: Plan, q: Plan, last: Item, budget: Budget)
    requires WellPlanned(p) && Adds(p, q, last, budget)
    ensures WellPlanned(q)
  {
    assert Tracks(p, StepOf(last));
    OrderedSnoc(p.items, last);
    forall name
      ensures Tracks(q, name)
    {
      assert Tracks(p, name);
      TracksSnoc(p, q, last, budget, name);
    }
  }

  lemma {:induction false} RequestKeeps(p: Plan, name: string, body: string)
    requires WellPlanned(p) && AddRequest(p, name, body).Ok?
    ensures WellPlanned(AddRequest(p, name, body).value)
  {
    AddsKeeps(p, AddRequest(p, name, body).value, Curl(name, body), Budget(0, 0));
  }

  lemma {:induction false} CheckKeeps(p: Plan, step: string, body: string)
    requires WellPlanned(p) && AddCheck(p, step, body).Ok?
    ensures WellPlanned(AddCheck(p, step, body).value)
  {
    var item := Check(step, BodyLines(body));
    assert Tracks(p, step);
    AddsKeeps(p, AddCheck(p, step, body).value, item, Charged(item, p.steps[step]));
  }

  lemma {:induction false} CaptureKeeps(p: Plan, step: string, body: string)
    requires WellPlanned(p) && AddCapture(p, step, body).Ok?
    ensures WellPlanned(AddCapture(p, step, body).value)
  {
    var item := Capture(step, Expression(body));
    assert Tracks(p, step);
    AddsKeeps(p, AddCapture(p, step, body).value, item, Charged(item, p.steps[step]));
  }

  lemma {:induction false} VariablesKeep(p: Plan, vars: Vars)
    requires WellPlanned(p)
    ensures WellPlanned(p.(vars := vars))
  {
    var q := p.(vars := vars);
    forall name
      ensures Tracks(q, name)
    {
      assert Tracks(p, name);
    }
  }

  /** Every fence that is accepted keeps the plan well planned. */
  lemma {:induction false} ClassifyKeeps(decode: Decoder, p: Plan, f: Fence)
    requires WellPlanned(p) && Classify(decode, p, f).Ok?
    ensures WellPlanned(Classify(decode, p, f).value)
  {
    if f.language == "toml" {
      VariablesKeep(p, Classify(decode, p, f).value.vars);
    } else if f.language == "curl" {
      RequestKeeps(p, f.attributes["name"], f.body);
    } else if "check" in f.attributes {
      CheckKeeps(p, f.attributes["check"], f.body);
    } else {
      CaptureKeeps(p, f.attributes["capture"], f.body);
    }
  }

  lemma {:induction false} CloseKeeps(decode: Decoder, p: Plan, f: Fence, n: nat, blocks: nat)
    requires WellPlanned(p) && CloseFence(decode, p, f, n, blocks).Ok?
    ensures WellPlanned(CloseFence(decode, p, f, n, blocks).value)
  {
    if f.marked {
      ClassifyKeeps(decode, p, f);
    }
  }

  /** For every list of fences, an accepted plan has unique step names, only
      backward references, and no step over its limits. */
  lemma {:induction false} PlanWell(decode: Decoder, fences: seq<Fence>, n: nat)
    requires n <= |fences| && PlanFences(decode, fences, n).Ok?
    ensures WellPlanned(PlanFences(decode, fences, n).value)
  {
    if n > 0 {
      PlanWell(decode, fences, n - 1);
      CloseKeeps(decode, PlanFences(decode, fences, n - 1).value, fences[n - 1], n, Executable(fences, n));
    }
  }

  // ---------- What the fences say ----------

  predicate Increasing(s: seq<nat>) {
    forall i, j :: 0 <= i < j < |s| ==> s[i] < s[j]
  }

  predicate HasText(line: string) {
    !Blank(line)
  }

  /** `at` are the places of all lines that are wanted, and of no other. */
  ghost predicate Picks(wanted: string -> bool, lines: seq<string>, at: seq<nat>) {
    && Increasing(at)
    && (forall k :: 0 <= k < |at| ==> at[k] < |lines|)
    && (forall i :: 0 <= i < |lines| ==> (i in at <==> wanted(lines[i])))
  }

  /** Each text is what its line shows. */
  ghost predicate Shows(shown: (string, string) -> bool, lines: seq<string>, at: seq<nat>, texts: seq<string>) {
    |at| == |texts| && forall k :: 0 <= k < |at| ==> at[k] < |lines| && shown(lines[at[k]], texts[k])
  }

  /** `texts` are the lines at `at`, trimmed: all that are not blank, and no
      other, in their order. */
  ghost predicate Selects(lines: seq<string>, at: seq<nat>, texts: seq<string>) {
    SelectsBy(HasText, TrimsTo, lines, at, texts)
  }

  lemma {:induction false} PicksNext(wanted: string -> bool, lines: seq<string>, last: string, before: seq<nat>)
    requires Picks(wanted, lines, before)
    ensures Picks(wanted, lines + [last], if wanted(last) then before + [|lines|] else before)
  {
    var all := lines + [last];
    assert forall i :: 0 <= i < |lines| ==> all[i] == lines[i];
    assert forall i :: i in before ==> i < |lines|;
  }

  lemma {:induction false} ShowsNext(shown: (string, string) -> bool, lines: seq<string>, last: string, at: seq<nat>,
                                     texts: seq<string>, text: string)
    requires Shows(shown, lines, at, texts)
    ensures Shows(shown, lines + [last], at, texts)
    ensures shown(last, text) ==> Shows(shown, lines + [last], at + [|lines|], texts + [text])
  {
    var all := lines + [last];
    assert forall i :: 0 <= i < |lines| ==> all[i] == lines[i];
  }

  ghost predicate SelectsBy(wanted: string -> bool, shown: (string, string) -> bool, lines: seq<string>,
                            at: seq<nat>, texts: seq<string>)
  {
    Picks(wanted, lines, at) && Shows(shown, lines, at, texts)
  }

  lemma {:induction false} SelectsNext(wanted: string -> bool, shown: (string, string) -> bool, lines: seq<string>,
                                       last: string, at: seq<nat>, texts: seq<string>, text: string, all: seq<string>)
    requires SelectsBy(wanted, shown, lines, at, texts) && all == lines + [last]
    requires wanted(last) ==> shown(last, text)
    ensures wanted(last) ==> SelectsBy(wanted, shown, all, at + [|lines|], texts + [text])
    ensures !wanted(last) ==> SelectsBy(wanted, shown, all, at, texts)
  {
    PicksNext(wanted, lines, last, at);
    ShowsNext(shown, lines, last, at, texts, text);
  }

  /** The first `n` lines that are wanted, changed. */
  function Filtered(wanted: string -> bool, change: string -> string, lines: seq<string>, n: nat): seq<string>
    requires n <= |lines|
  {
    if n == 0 then []
    else if wanted(lines[n - 1]) then Filtered(wanted, change, lines, n - 1) + [change(lines[n - 1])]
    else Filtered(wanted, change, lines, n - 1)
  }

  lemma {:induction false} FilteredSelects(wanted: string -> bool, shown: (string, string) -> bool,
                                           change: string -> string, lines: seq<string>, n: nat)
    returns (at: seq<nat>)
    requires n <= |lines| && forall i :: 0 <= i < n && wanted(lines[i]) ==> shown(lines[i], change(lines[i]))
    ensures SelectsBy(wanted, shown, lines[..n], at, Filtered(wanted, change, lines, n))
  {
    if n == 0 {
      at := [];
    } else {
      var before := FilteredSelects(wanted, shown, change, lines, n - 1);
      var last := lines[n - 1];
      var texts := Filtered(wanted, change, lines, n - 1);
      SelectsNext(wanted, shown, lines[..n - 1], last, before, texts, change(last), lines[..n]);
      at := if wanted(last) then before + [n - 1] else before;
    }
  }

  lemma {:induction false} NonBlankFiltered(lines: seq<string>, n: nat)
    requires n <= |lines|
    ensures NonBlank(lines, n) == Filtered(HasText, Trim, lines, n)
  {
    if n > 0 {
      NonBlankFiltered(lines, n - 1);
      TrimExact(lines[n - 1]);
      assert NonBlank(lines, n - 1) + [] == NonBlank(lines, n - 1);
    }
  }

  /** The lines of a body: all that are not blank, trimmed, in their order. */
  lemma {:induction false} BodyLinesExact(body: string) returns (at: seq<nat>)
    ensures Selects(Split(body, '\n'), at, BodyLines(body))
  {
    var lines := Split(body, '\n');
    forall i | 0 <= i < |lines|
      ensures TrimsTo(lines[i], Trim(lines[i]))
    {
      TrimExact(lines[i]);
    }
    at := FilteredSelects(HasText, TrimsTo, Trim, lines, |lines|);
    NonBlankFiltered(lines, |lines|);
    assert lines[..|lines|] == lines;
  }

  /** A fence that becomes an item. */
  predicate IsItemFence(f: Fence) {
    f.marked && f.language != "toml"
  }

  /** The item says what the fence says. */
  ghost predicate ItemOf(f: Fence, item: Item) {
    || (f.language == "curl" && "name" in f.attributes && item == Curl(f.attributes["name"], f.body))
    || (f.language == "jmespath" && "check" in f.attributes && item.Check? && item.step == f.attributes["check"]
        && exists at :: Selects(Split(f.body, '\n'), at, item.lines))
    || (f.language == "jmespath" && "capture" in f.attributes && item.Capture? && item.step == f.attributes["capture"]
        && exists at, texts :: Selects(Split(f.body, '\n'), at, texts) && item.expr == Join(texts, '\n'))
  }

  /** The items of the first `n` fences are as many as the fences that become
      items: fence `f` becomes item number `Rank(fences, f)`. */
  function Rank(fences: seq<Fence>, n: nat): nat
    requires n <= |fences|
  {
    if n == 0 then 0 else Rank(fences, n - 1) + (if IsItemFence(fences[n - 1]) then 1 else 0)
  }

  /** `q` is `p` with one more item, the one of fence `f`. */
  ghost predicate AddsItem(p: Plan, q: Plan, f: Fence) {
    |q.items| == |p.items| + 1 && q.items[..|p.items|] == p.items && ItemOf(f, q.items[|p.items|])
  }

  lemma {:induction false} CheckItem(p: Plan, f: Fence)
    requires f.language == "jmespath" && "check" in f.attributes && AddCheck(p, f.attributes["check"], f.body).Ok?
    ensures AddsItem(p, AddCheck(p, f.attributes["check"], f.body).value, f)
  {
    var at := BodyLinesExact(f.body);
  }

  lemma {:induction false} CaptureItem(p: Plan, f: Fence)
    requires f.language == "jmespath" && "capture" in f.attributes
    requires AddCapture(p, f.attributes["capture"], f.body).Ok?
    ensures AddsItem(p, AddCapture(p, f.attributes["capture"], f.body).value, f)
  {
    var at := BodyLinesExact(f.body);
    assert Selects(Split(f.body, '\n'), at, BodyLines(f.body));
  }

  lemma {:induction false} ClassifyItem(decode: Decoder, p: Plan, f: Fence)
    requires Classify(decode, p, f).Ok?
    ensures var q := Classify(decode, p, f).value;
            if f.language == "toml" then q.items == p.items else AddsItem(p, q, f)
  {
    if f.language == "jmespath" {
      if "check" in f.attributes {
        CheckItem(p, f);
      } else {
        CaptureItem(p, f);
      }
    }
  }

  lemma {:induction false} CloseItem(decode: Decoder, p: Plan, f: Fence, n: nat, blocks: nat)
    requires CloseFence(decode, p, f, n, blocks).Ok?
    ensures var q := CloseFence(decode, p, f, n, blocks).value;
            if !IsItemFence(f) then q.items == p.items else AddsItem(p, q, f)
  {
    if f.marked {
      ClassifyItem(decode, p, f);
    }
  }

  lemma {:induction false} RankBounds(fences: seq<Fence>, f: nat, n: nat)
    requires f < n <= |fences| && IsItemFence(fences[f])
    ensures Rank(fences, f) < Rank(fences, n)
  {
    if f < n - 1 {
      RankBounds(fences, f, n - 1);
    }
  }

  /** Every fence that becomes an item becomes its own item, in order, and there
      are no other items. */
  lemma {:induction false} PlanItems(decode: Decoder, fences: seq<Fence>, n: nat)
    requires n <= |fences| && PlanFences(decode, fences, n).Ok?
    ensures var items := PlanFences(decode, fences, n).value.items;
            && |items| == Rank(fences, n)
            && forall f :: 0 <= f < n && IsItemFence(fences[f]) ==>
                             Rank(fences, f) < |items| && ItemOf(fences[f], items[Rank(fences, f)])
  {
    if n > 0 {
      var p := PlanFences(decode, fences, n - 1).value;
      var q := PlanFences(decode, fences, n).value;
      PlanItems(decode, fences, n - 1);
      CloseItem(decode, p, fences[n - 1], n, Executable(fences, n));
      forall f | 0 <= f < n && IsItemFence(fences[f])
        ensures Rank(fences, f) < |q.items| && ItemOf(fences[f], q.items[Rank(fences, f)])
      {
        if f < n - 1 {
          assert q.items[Rank(fences, f)] == q.items[..|p.items|][Rank(fences, f)];
        }
      }
    }
  }

  /** A variables block among the first `n` fences defines the key. */
  ghost predicate Defines(decode: Decoder, fences: seq<Fence>, n: nat, key: string, value: Json)
    requires n <= |fences|
  {
    exists f :: 0 <= f < n && BlockDefines(decode, fences[f], key, value)
  }

  predicate BlockDefines(decode: Decoder, f: Fence, key: string, value: Json) {
    && f.marked && f.language == "toml"
    && decode(f.body).Some? && key in decode(f.body).value && decode(f.body).value[key] == value
  }

  lemma {:induction false} CloseVars(decode: Decoder, p: Plan, f: Fence, n: nat, blocks: nat, key: string, value: Json)
    requires CloseFence(decode, p, f, n, blocks).Ok?
    ensures var q := CloseFence(decode, p, f, n, blocks).value;
            (key in q.vars && q.vars[key] == value) <==>
              ((key in p.vars && p.vars[key] == value) || BlockDefines(decode, f, key, value))
  {}

  /** The variables of a plan are exactly those that its blocks define. */
  lemma {:induction false} PlanVars(decode: Decoder, fences: seq<Fence>, n: nat, key: string, value: Json)
    requires n <= |fences| && PlanFences(decode, fences, n).Ok?
    ensures var vars := PlanFences(decode, fences, n).value.vars;
            key in vars && vars[key] == value <==> Defines(decode, fences, n, key, value)
  {
    if n > 0 {
      var p := PlanFences(decode, fences, n - 1).value;
      PlanVars(decode, fences, n - 1, key, value);
      CloseVars(decode, p, fences[n - 1], n, Executable(fences, n), key, value);
    }
  }

  // ---------- The program ----------

  class DocumentPlanner {
    var items: seq<Item>
    var steps: map<string, Budget>
    var count: nat
    var vars: Vars

    constructor ()
      ensures State() == EMPTY
    {
      items, steps, count, vars := [], map[], 0, map[];
    }

    ghost function State(): Plan
      reads this
    {
      Plan(items, steps, count, vars)
    }

    /** An accepted call changes the planner as specified; a refused one names
        the error, and planning ends. */
    ghost predicate Became(error: Option<PlanError>, wanted: Result<Plan, PlanError>)
      reads this
    {
      match wanted
      case Ok(p) => error == None && State() == p
      case Err(e) => error == Some(e)
    }

    method Request(name: string, body: string) returns (error: Option<PlanError>)
      modifies this
      ensures Became(error, AddRequest(old(State()), name, body))
    {
      if !ValidStepName(name) {
        return Some(StepName);
      }
      if count >= MAX_STEPS {
        return Some(ResourceLimit);
      }
      if name in steps {
        return Some(StepName);
      }
      steps := steps[name := Budget(0, 0)];
      count := count + 1;
      items := items + [Curl(name, body)];
      error := None;
    }

    method CheckFence(step: string, body: string) returns (error: Option<PlanError>)
      modifies this
      ensures Became(error, AddCheck(old(State()), step, body))
    {
      if !ValidStepName(step) {
        return Some(StepName);
      }
      if step !in steps {
        return Some(UnknownStep);
      }
      var lines := CollectLines(body);
      if steps[step].checks + |lines| > MAX_CHECKS_PER_STEP {
        return Some(ResourceLimit);
      }
      steps := steps[step := steps[step].(checks := steps[step].checks + |lines|)];
      items := items + [Check(step, lines)];
      error := None;
    }

    method CaptureFence(step: string, body: string) returns (error: Option<PlanError>)
      modifies this
      ensures Became(error, AddCapture(old(State()), step, body))
    {
      if !ValidStepName(step) {
        return Some(StepName);
      }
      if step !in steps {
        return Some(UnknownStep);
      }
      if steps[step].captures >= MAX_CAPTURES_PER_STEP {
        return Some(ResourceLimit);
      }
      var expr := CollectExpression(body);
      if expr == "" {
        return Some(Variables);
      }
      steps := steps[step := steps[step].(captures := steps[step].captures + 1)];
      items := items + [Capture(step, expr)];
      error := None;
    }

    method ClassifyFence(decode: Decoder, f: Fence) returns (error: Option<PlanError>)
      modifies this
      ensures Became(error, Classify(decode, old(State()), f))
    {
      if f.language == "toml" && f.flags == ["vars"] && |f.attributes| == 0 {
        var table := decode(f.body);
        if table.None? || !(table.value.Keys !! vars.Keys) {
          return Some(Variables);
        }
        vars := vars + table.value;
        error := None;
      } else if f.language == "curl" && f.flags == [] {
        if "name" !in f.attributes || |f.attributes| != 1 {
          return Some(FenceMetadata);
        }
        error := Request(f.attributes["name"], f.body);
      } else if f.language == "jmespath" && f.flags == [] {
        var hasCheck, hasCapture := "check" in f.attributes, "capture" in f.attributes;
        if hasCheck == hasCapture || |f.attributes| != 1 {
          return Some(FenceMetadata);
        }
        if hasCheck {
          error := CheckFence(f.attributes["check"], f.body);
        } else {
          error := CaptureFence(f.attributes["capture"], f.body);
        }
      } else {
        error := Some(FenceMetadata);
      }
    }

    method AddFence(decode: Decoder, f: Fence, n: nat, blocks: nat) returns (error: Option<PlanError>)
      modifies this
      ensures Became(error, CloseFence(decode, old(State()), f, n, blocks))
    {
      if n > MAX_FENCES || ByteLen(f.body) > MAX_FENCE_BODY_BYTES {
        return Some(ResourceLimit);
      }
      if !f.marked {
        return None;
      }
      if blocks > MAX_EXECUTABLE_BLOCKS {
        return Some(ResourceLimit);
      }
      error := ClassifyFence(decode, f);
    }
  }

  /** Planning all fences of a document. */
  method PlanDocument(decode: Decoder, fences: seq<Fence>) returns (r: Result<Plan, PlanError>)
    ensures r == PlanFences(decode, fences, |fences|)
    ensures r.Ok? ==> WellPlanned(r.value)
  {
    var planner := new DocumentPlanner();
    var fenceCount, executableBlocks := 0, 0;
    for i := 0 to |fences|
      invariant fresh(planner)
      invariant fenceCount == i && executableBlocks == Executable(fences, i)
      invariant PlanFences(decode, fences, i) == Ok(planner.State())
    {
      fenceCount := fenceCount + 1;
      if fences[i].marked {
        executableBlocks := executableBlocks + 1;
      }
      var error := planner.AddFence(decode, fences[i], fenceCount, executableBlocks);
      if error.Some? {
        PlanFailure(decode, fences, i + 1, |fences|);
        return Err(error.value);
      }
    }
    r := Ok(Plan(planner.items, planner.steps, planner.count, planner.vars));
    PlanWell(decode, fences, |fences|);
  }

  lemma {:induction false} PlanFailure(decode: Decoder, fences: seq<Fence>, i: nat, n: nat)
    requires i <= n <= |fences| && PlanFences(decode, fences, i).Err?
    ensures PlanFences(decode, fences, n) == PlanFences(decode, fences, i)
    decreases n
  {
    if i < n {
      PlanFailure(decode, fences, i, n - 1);
    }
  }
}
