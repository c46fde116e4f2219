/** Running the steps of a planned document in order: rendering, transfer or
    command, checks, captures, and the verdict on the document. */
module Workflow {
  import opened Text
  import opened Json
  import Captures

  type Vars = Captures.Vars

  datatype Kind = Curl | Exec

  datatype Step = Step(name: string, kind: Kind, tokens: seq<string>, checks: seq<string>, captures: seq<string>)

  datatype Status = Passed | Failed | Error | Skipped

  datatype Problem =
    | SecretArgv
    | NotRendered
    | NotPerformed
    | CommandFailed
    | CheckFalse(expression: string)
    | CheckNotEvaluated(expression: string)
    | TaintedCapture
    | CaptureProblem(problem: Captures.Problem)
    | Offline

  datatype StepReport =
    StepReport(name: string, status: Status, checks: seq<(string, bool)>, problems: seq<Problem>, context: Option<Json>)

  /** Rendering the command, secrets, transfers and commands, and the
      expression language: all of them may be anything. */
  datatype World = World(
    render: (seq<string>, Vars) -> Option<seq<string>>,
    secretArgv: (Step, Vars) -> bool,
    perform: (Step, seq<string>, Vars, seq<StepReport>) -> Option<Json>,
    check: (string, Json) -> Option<bool>,
    search: Json -> Captures.Search)

  predicate IsFailure(status: Status) {
    status == Failed || status == Error
  }

  // ---------- One step ----------

  function Fail(r: StepReport, problem: Problem): StepReport {
    r.(status := Failed, problems := r.problems + [problem])
  }

  function AddCheck(r: StepReport, expression: string, result: Option<bool>): StepReport {
    match result
    case Some(true) => r.(checks := r.checks + [(expression, true)])
    case Some(false) => Fail(r.(checks := r.checks + [(expression, false)]), CheckFalse(expression))
    case None => Fail(r, CheckNotEvaluated(expression))
  }

  /** The checks from `i` on. */
  function Check(w: World, failFast: bool, checks: seq<string>, i: nat, context: Json, r: StepReport): StepReport
    requires i <= |checks|
    decreases |checks| - i
  {
    if i == |checks| then r
    else
      var result := w.check(checks[i], context);
      var next := AddCheck(r, checks[i], result);
      if result != Some(true) && failFast then next else Check(w, failFast, checks, i + 1, context, next)
  }

  predicate Flag(context: Json, name: string, value: bool) {
    context.Obj? && name in context.members && context.members[name] == Bool(value)
  }

  predicate CommandFails(step: Step, context: Json) {
    step.kind == Exec && Flag(context, "success", false)
  }

  predicate Tainted(step: Step, context: Json) {
    step.kind == Exec && Flag(context, "secret_tainted", true) && step.captures != []
  }

  function Begin(step: Step, context: Json): StepReport {
    var r := StepReport(step.name, Passed, [], [], Some(context));
    if CommandFails(step, context) then Fail(r, CommandFailed) else r
  }

  function CaptureProblems(problems: seq<Captures.Problem>): (r: seq<Problem>)
    ensures |r| == |problems|
  {
    if problems == [] then [] else [CaptureProblem(problems[0])] + CaptureProblems(problems[1..])
  }

  /** The checks and captures of a step that has a context. */
  function Judge(w: World, failFast: bool, step: Step, context: Json, vars: Vars): (StepReport, Vars) {
    var checked := Check(w, failFast, step.checks, 0, context, Begin(step, context));
    if checked.status != Passed then (checked, vars)
    else if Tainted(step, context) then (Fail(checked, TaintedCapture), vars)
    else
      var (after, problems) := Captures.Publish(vars, w.search(context), step.captures);
      var all := checked.problems + CaptureProblems(problems);
      (checked.(problems := all, status := if all == [] then Passed else Failed), after)
  }

  function RenderProblems(w: World, step: Step, vars: Vars): seq<Problem> {
    (if step.kind == Exec && w.secretArgv(step, vars) then [SecretArgv] else [])
    + (if w.render(step.tokens, vars).None? then [NotRendered] else [])
  }

  function RunStep(w: World, failFast: bool, step: Step, vars: Vars, reports: seq<StepReport>): (StepReport, Vars) {
    var problems := RenderProblems(w, step, vars);
    if problems != [] then (StepReport(step.name, Failed, [], problems, None), vars)
    else match w.perform(step, w.render(step.tokens, vars).value, vars, reports)
         case None => (StepReport(step.name, Failed, [], [NotPerformed], None), vars)
         case Some(context) => Judge(w, failFast, step, context, vars)
  }

  // ---------- The run ----------

  datatype Run = Run(vars: Vars, reports: seq<StepReport>, stopped: bool)

  /** The run after one more step gave `report` and `vars`. */
  function Extend(before: Run, failFast: bool, report: StepReport, vars: Vars): Run {
    Run(vars, before.reports + [report], IsFailure(report.status) && failFast)
  }

  /** The loop over the steps does not look inside them: it works with any way
      of running one step. */
  type StepRunner = (Step, Vars, seq<StepReport>) -> (StepReport, Vars)

  function Runner(w: World, failFast: bool): StepRunner {
    (step, vars, reports) => RunStep(w, failFast, step, vars, reports)
  }

  /** The run after the first `n` steps. */
  function After(run: StepRunner, failFast: bool, steps: seq<Step>, initial: Vars, n: nat): Run
    requires n <= |steps|
  {
    if n == 0 then Run(initial, [], false)
    else
      var before := After(run, failFast, steps, initial, n - 1);
      if before.stopped then before
      else
        var (report, vars) := run(steps[n - 1], before.vars, before.reports);
        Extend(before, failFast, report, vars)
  }

  predicate AnyFailure(reports: seq<StepReport>) {
    exists i :: 0 <= i < |reports| && IsFailure(reports[i].status)
  }

  function Verdict(reports: seq<StepReport>): Status {
    if AnyFailure(reports) then Failed else Passed
  }

  // ---------- What a passed step means ----------

  predicate AllTrue(w: World, checks: seq<string>, i: nat, context: Json)
    requires i <= |checks|
  {
    forall k :: i <= k < |checks| ==> w.check(checks[k], context) == Some(true)
  }

  lemma {:induction false} CheckFailedStays(w: World, failFast: bool, checks: seq<string>, i: nat, context: Json,
                                            r: StepReport)
    requires i <= |checks| && r.status == Failed
    ensures Check(w, failFast, checks, i, context, r).status == Failed
    decreases |checks| - i
  {
    if i < |checks| {
      CheckFailedStays(w, failFast, checks, i + 1, context, AddCheck(r, checks[i], w.check(checks[i], context)));
    }
  }

  /** All checks pass exactly when each of them evaluates to true: none is
      skipped, and nothing else about the report changes. */
  lemma {:induction false} CheckExact(w: World, failFast: bool, checks: seq<string>, i: nat, context: Json,
                                      r: StepReport)
    requires i <= |checks| && r.status == Passed
    ensures Check(w, failFast, checks, i, context, r).status == Passed <==> AllTrue(w, checks, i, context)
    ensures Check(w, failFast, checks, i, context, r).status in {Passed, Failed}
    ensures AllTrue(w, checks, i, context) ==>
              Check(w, failFast, checks, i, context, r).problems == r.problems
              && |Check(w, failFast, checks, i, context, r).checks| == |r.checks| + |checks| - i
              && Check(w, failFast, checks, i, context, r).context == r.context
    decreases |checks| - i
  {
    if i < |checks| {
      var next := AddCheck(r, checks[i], w.check(checks[i], context));
      if w.check(checks[i], context) == Some(true) {
        CheckExact(w, failFast, checks, i + 1, context, next);
      } else {
        CheckFailedStays(w, failFast, checks, i + 1, context, next);
      }
    }
  }

  /** A member of the context, if it has one of this name. */
  function Field(context: Json, name: string): Option<Json> {
    match context
    case Obj(members) => if name in members then Some(members[name]) else None
    case _ => None
  }

  /** A step with this context passes. */
  ghost predicate Holds(w: World, step: Step, context: Json, vars: Vars) {
    && (step.kind == Exec ==> Field(context, "success") != Some(Bool(false)))
    && AllTrue(w, step.checks, 0, context)
    && (step.kind == Exec && step.captures != [] ==> Field(context, "secret_tainted") != Some(Bool(true)))
    && Captures.AllAcceptable(vars, w.search(context), step.captures, |step.captures|)
  }

  /** The checks of a step pass exactly when it does not fail and each is true. */
  lemma {:induction false} CheckedExact(w: World, failFast: bool, step: Step, context: Json)
    returns (checked: StepReport)
    ensures checked == Check(w, failFast, step.checks, 0, context, Begin(step, context))
    ensures checked.status == Passed <==> !CommandFails(step, context) && AllTrue(w, step.checks, 0, context)
    ensures checked.status in {Passed, Failed}
    ensures checked.status == Passed ==>
              checked.problems == [] && checked.context == Some(context) && |checked.checks| == |step.checks|
  {
    var begun := Begin(step, context);
    checked := Check(w, failFast, step.checks, 0, context, begun);
    if CommandFails(step, context) {
      CheckFailedStays(w, failFast, step.checks, 0, context, begun);
    } else {
      CheckExact(w, failFast, step.checks, 0, context, begun);
    }
  }

  lemma {:induction false} CapturesDecide(checked: StepReport, problems: seq<Captures.Problem>)
    requires checked.problems == []
    ensures checked.problems + CaptureProblems(problems) == [] <==> problems == []
  {}

  /** `Holds`, in the terms of the program. */
  ghost predicate JudgedFit(w: World, step: Step, context: Json, vars: Vars) {
    && !CommandFails(step, context) && !Tainted(step, context)
    && AllTrue(w, step.checks, 0, context)
    && Captures.AllAcceptable(vars, w.search(context), step.captures, |step.captures|)
  }

  lemma {:induction false} FlagField(context: Json, name: string, value: bool)
    ensures Flag(context, name, value) <==> Field(context, name) == Some(Bool(value))
  {}

  lemma {:induction false} HoldsIs(w: World, step: Step, context: Json, vars: Vars)
    ensures Holds(w, step, context, vars) <==> JudgedFit(w, step, context, vars)
  {
    FlagField(context, "success", false);
    FlagField(context, "secret_tainted", true);
  }

  lemma {:induction false} JudgeDecides(w: World, failFast: bool, step: Step, context: Json, vars: Vars)
    ensures var (report, after) := Judge(w, failFast, step, context, vars);
            && (report.status == Passed <==> JudgedFit(w, step, context, vars))
            && report.status in {Passed, Failed}
            && (report.status == Passed ==> report.context == Some(context) && |report.checks| == |step.checks|)
            && after == if report.status == Passed
                        then Captures.Publish(vars, w.search(context), step.captures).0
                        else vars
  {
    var checked := CheckedExact(w, failFast, step, context);
    var search := w.search(context);
    if checked.status == Passed && !Tainted(step, context) {
      Captures.PublishExact(vars, search, step.captures);
      CapturesDecide(checked, Captures.Publish(vars, search, step.captures).1);
    }
  }

  lemma {:induction false} JudgeExact(w: World, failFast: bool, step: Step, context: Json, vars: Vars)
    ensures var (report, after) := Judge(w, failFast, step, context, vars);
            && (report.status == Passed <==> Holds(w, step, context, vars))
            && report.status in {Passed, Failed}
            && (report.status == Passed ==> report.context == Some(context) && |report.checks| == |step.checks|)
            && after == if report.status == Passed
                        then Captures.Publish(vars, w.search(context), step.captures).0
                        else vars
  {
    JudgeDecides(w, failFast, step, context, vars);
    HoldsIs(w, step, context, vars);
  }

  /** The context that a step is performed with, if it is performed. */
  function ContextOf(w: World, step: Step, vars: Vars, reports: seq<StepReport>): Option<Json> {
    if RenderProblems(w, step, vars) != [] then None
    else w.perform(step, w.render(step.tokens, vars).value, vars, reports)
  }

  /** A step is performed exactly when no secret would enter the arguments of a
      command, and its command renders; then it is performed with what was
      rendered. */
  lemma {:induction false} PerformedExact(w: World, step: Step, vars: Vars, reports: seq<StepReport>, context: Json)
    ensures ContextOf(w, step, vars, reports) == Some(context) <==>
              && (step.kind == Exec ==> !w.secretArgv(step, vars))
              && w.render(step.tokens, vars).Some?
              && w.perform(step, w.render(step.tokens, vars).value, vars, reports) == Some(context)
  {}

  ghost predicate Done(w: World, step: Step, vars: Vars, reports: seq<StepReport>) {
    var context := ContextOf(w, step, vars, reports);
    context.Some? && Holds(w, step, context.value, vars)
  }

  /** A step passes exactly when its command renders and is performed, it
      succeeds, every check is true and every capture is acceptable. Then it
      has published; otherwise it has changed no variable. */
  lemma {:induction false} RunStepExact(w: World, failFast: bool, step: Step, vars: Vars, reports: seq<StepReport>)
    ensures var (report, after) := RunStep(w, failFast, step, vars, reports);
            && (report.status == Passed <==> Done(w, step, vars, reports))
            && (IsFailure(report.status) <==> report.status != Passed)
            && (report.status == Passed ==>
                  report.context == ContextOf(w, step, vars, reports) && |report.checks| == |step.checks|)
            && after == if report.status == Passed
                        then Captures.Publish(vars, w.search(report.context.value), step.captures).0
                        else vars
  {
    var context := ContextOf(w, step, vars, reports);
    if context.Some? {
      JudgeExact(w, failFast, step, context.value, vars);
    }
  }

  // ---------- Whole runs ----------

  lemma {:induction false} RunStepKeeps(w: World, failFast: bool, step: Step, vars: Vars, reports: seq<StepReport>)
    ensures Captures.Bound(vars, RunStep(w, failFast, step, vars, reports).1)
  {
    RunStepExact(w, failFast, step, vars, reports);
    var report := RunStep(w, failFast, step, vars, reports).0;
    if report.status == Passed {
      Captures.PublishKeeps(vars, w.search(report.context.value), step.captures);
    }
  }

  lemma BoundTransitive(a: Vars, b: Vars, c: Vars)
    requires Captures.Bound(a, b) && Captures.Bound(b, c)
    ensures Captures.Bound(a, c)
  {}

  ghost predicate Keeps(run: StepRunner) {
    forall step, vars, reports :: Captures.Bound(vars, run(step, vars, reports).1)
  }

  lemma {:induction false} LoopKeeps(run: StepRunner, failFast: bool, steps: seq<Step>, initial: Vars, m: nat, n: nat)
    requires m <= n <= |steps| && Keeps(run)
    ensures Captures.Bound(After(run, failFast, steps, initial, m).vars, After(run, failFast, steps, initial, n).vars)
    decreases n
  {
    if m < n {
      var before := After(run, failFast, steps, initial, n - 1);
      LoopKeeps(run, failFast, steps, initial, m, n - 1);
      if !before.stopped {
        BoundTransitive(After(run, failFast, steps, initial, m).vars, before.vars,
                        run(steps[n - 1], before.vars, before.reports).1);
      }
    }
  }

  lemma {:induction false} RunnerKeeps(w: World, failFast: bool)
    ensures Keeps(Runner(w, failFast))
  {
    forall step, vars, reports
      ensures Captures.Bound(vars, Runner(w, failFast)(step, vars, reports).1)
    {
      RunStepKeeps(w, failFast, step, vars, reports);
    }
  }

  /** Over the whole run, no variable is ever bound again. */
  lemma {:induction false} RunKeeps(w: World, failFast: bool, steps: seq<Step>, initial: Vars, m: nat, n: nat)
    requires m <= n <= |steps|
    ensures Captures.Bound(After(Runner(w, failFast), failFast, steps, initial, m).vars,
                           After(Runner(w, failFast), failFast, steps, initial, n).vars)
  {
    RunnerKeeps(w, failFast);
    LoopKeeps(Runner(w, failFast), failFast, steps, initial, m, n);
  }

  /** A step that publishes leaves all variables together within the limit. */
  lemma {:induction false} RunStepSize(w: World, failFast: bool, step: Step, vars: Vars, reports: seq<StepReport>)
    requires step.captures != []
    ensures var (report, after) := RunStep(w, failFast, step, vars, reports);
            after != vars || report.status == Passed ==>
              Captures.TotalSize(after) <= Captures.MAX_CAPTURE_TOTAL_BYTES
  {
    RunStepExact(w, failFast, step, vars, reports);
    var report := RunStep(w, failFast, step, vars, reports).0;
    if report.status == Passed {
      Captures.PublishExact(vars, w.search(report.context.value), step.captures);
      Captures.PublishSize(vars, w.search(report.context.value), step.captures);
    }
  }

  /** Nothing changed, or everything together is within the limit. */
  predicate Fits(before: Vars, after: Vars) {
    after == before || Captures.TotalSize(after) <= Captures.MAX_CAPTURE_TOTAL_BYTES
  }

  ghost predicate Bounded(run: StepRunner) {
    forall step, vars, reports ::
      Fits(vars, run(step, vars, reports).1)
  }

  lemma {:induction false} LoopBounded(run: StepRunner, failFast: bool, steps: seq<Step>, initial: Vars, n: nat)
    requires n <= |steps| && Bounded(run)
    ensures var vars := After(run, failFast, steps, initial, n).vars;
            vars == initial || Captures.TotalSize(vars) <= Captures.MAX_CAPTURE_TOTAL_BYTES
  {
    if n > 0 {
      LoopBounded(run, failFast, steps, initial, n - 1);
    }
  }

  lemma {:induction false} NoCaptures(w: World, failFast: bool, step: Step, vars: Vars, reports: seq<StepReport>)
    requires step.captures == []
    ensures RunStep(w, failFast, step, vars, reports).1 == vars
  {
    RunStepExact(w, failFast, step, vars, reports);
    assert vars + map[] == vars;
  }

  /** Wherever a run stands, its variables are the initial ones or all of them
      together are within the limit. */
  lemma {:induction false} RunBounded(w: World, failFast: bool, steps: seq<Step>, initial: Vars, n: nat)
    requires n <= |steps|
    ensures var vars := After(Runner(w, failFast), failFast, steps, initial, n).vars;
            vars == initial || Captures.TotalSize(vars) <= Captures.MAX_CAPTURE_TOTAL_BYTES
  {
    var run := Runner(w, failFast);
    forall step, vars, reports
      ensures Fits(vars, run(step, vars, reports).1)
    {
      if step.captures == [] {
        NoCaptures(w, failFast, step, vars, reports);
      } else {
        RunStepSize(w, failFast, step, vars, reports);
      }
    }
    LoopBounded(run, failFast, steps, initial, n);
  }

  /** Step `k` passes, in the state that the run reaches it in. */
  ghost predicate PassesAt(run: StepRunner, failFast: bool, steps: seq<Step>, initial: Vars, k: nat)
    requires k < |steps|
  {
    var before := After(run, failFast, steps, initial, k);
    run(steps[k], before.vars, before.reports).0.status == Passed
  }

  ghost predicate AllPass(run: StepRunner, failFast: bool, steps: seq<Step>, initial: Vars, n: nat)
    requires n <= |steps|
  {
    forall k :: 0 <= k < n ==> PassesAt(run, failFast, steps, initial, k)
  }

  lemma {:induction false} FailureSnoc(reports: seq<StepReport>, last: StepReport)
    ensures AnyFailure(reports + [last]) <==> AnyFailure(reports) || IsFailure(last.status)
  {
    var all := reports + [last];
    if AnyFailure(reports) {
      var i :| 0 <= i < |reports| && IsFailure(reports[i].status);
      assert all[i] == reports[i];
    }
    assert all[|reports|] == last;
  }

  /** `r` is a run of `n` steps, all of which passed if `done`, or one of
      which failed. */
  ghost predicate Reached(r: Run, n: nat, done: bool) {
    if done then !AnyFailure(r.reports) && !r.stopped && |r.reports| == n else AnyFailure(r.reports)
  }

  /** Steps pass or fail. */
  ghost predicate Decides(run: StepRunner) {
    forall step, vars, reports ::
      IsFailure(run(step, vars, reports).0.status) <==> run(step, vars, reports).0.status != Passed
  }

  lemma {:induction false} LoopExact(run: StepRunner, failFast: bool, steps: seq<Step>, initial: Vars, n: nat)
    requires n <= |steps| && Decides(run)
    ensures Reached(After(run, failFast, steps, initial, n), n, AllPass(run, failFast, steps, initial, n))
  {
    if n > 0 {
      var before := After(run, failFast, steps, initial, n - 1);
      LoopExact(run, failFast, steps, initial, n - 1);
      assert AllPass(run, failFast, steps, initial, n) <==>
             AllPass(run, failFast, steps, initial, n - 1) && PassesAt(run, failFast, steps, initial, n - 1);
      if !before.stopped {
        FailureSnoc(before.reports, run(steps[n - 1], before.vars, before.reports).0);
      }
    }
  }

  /** Step `k` is done, in the state that the run reaches it in. */
  ghost predicate DoneAt(w: World, failFast: bool, steps: seq<Step>, initial: Vars, k: nat)
    requires k < |steps|
  {
    var before := After(Runner(w, failFast), failFast, steps, initial, k);
    Done(w, steps[k], before.vars, before.reports)
  }

  lemma {:induction false} PassesExact(w: World, failFast: bool, steps: seq<Step>, initial: Vars, k: nat)
    requires k < |steps|
    ensures PassesAt(Runner(w, failFast), failFast, steps, initial, k) <==> DoneAt(w, failFast, steps, initial, k)
  {
    var before := After(Runner(w, failFast), failFast, steps, initial, k);
    RunStepExact(w, failFast, steps[k], before.vars, before.reports);
  }

  lemma {:induction false} RunnerDecides(w: World, failFast: bool)
    ensures Decides(Runner(w, failFast))
  {
    forall step, vars, reports
      ensures IsFailure(Runner(w, failFast)(step, vars, reports).0.status)
         <==> Runner(w, failFast)(step, vars, reports).0.status != Passed
    {
      RunStepExact(w, failFast, step, vars, reports);
    }
  }

  /** A document passes exactly when every one of its steps is done, whether or
      not the run stops at the first failure; then there is a report on each. */
  lemma {:induction false} VerdictExact(w: World, failFast: bool, steps: seq<Step>, initial: Vars)
    ensures var r := After(Runner(w, failFast), failFast, steps, initial, |steps|);
            && (Verdict(r.reports) == Passed <==>
                  forall k :: 0 <= k < |steps| ==> DoneAt(w, failFast, steps, initial, k))
            && (Verdict(r.reports) == Passed ==> |r.reports| == |steps|)
  {
    RunnerDecides(w, failFast);
    LoopExact(Runner(w, failFast), failFast, steps, initial, |steps|);
    forall k | 0 <= k < |steps|
      ensures PassesAt(Runner(w, failFast), failFast, steps, initial, k) <==> DoneAt(w, failFast, steps, initial, k)
    {
      PassesExact(w, failFast, steps, initial, k);
    }
  }

  /** Every capture of a step gave an object, and all its members are bound. */
  ghost predicate CapturesBound(w: World, step: Step, context: Json, final: Vars) {
    forall i :: 0 <= i < |step.captures| ==>
                  && Captures.GivesObject(w.search(context), step.captures[i])
                  && Captures.Bound(Captures.Object(w.search(context), step.captures[i]), final)
  }

  /** The step was performed, all its checks are true, all captures bound. */
  ghost predicate Fulfilled(w: World, step: Step, vars: Vars, reports: seq<StepReport>, final: Vars) {
    var context := ContextOf(w, step, vars, reports);
    && context.Some?
    && AllTrue(w, step.checks, 0, context.value)
    && CapturesBound(w, step, context.value, final)
  }

  lemma {:induction false} DoneFulfilled(w: World, failFast: bool, step: Step, vars: Vars,
                                         reports: seq<StepReport>, final: Vars)
    requires Runner(w, failFast)(step, vars, reports).0.status == Passed
    requires Captures.Bound(Runner(w, failFast)(step, vars, reports).1, final)
    ensures Fulfilled(w, step, vars, reports, final)
  {
    RunStepExact(w, failFast, step, vars, reports);
    var context := ContextOf(w, step, vars, reports).value;
    var search := w.search(context);
    Captures.PublishExact(vars, search, step.captures);
    Captures.PublishKeeps(vars, search, step.captures);
    forall i | 0 <= i < |step.captures|
      ensures Captures.GivesObject(search, step.captures[i])
      ensures Captures.Bound(Captures.Object(search, step.captures[i]), final)
    {
      Captures.AcceptableObject(vars, search, step.captures, |step.captures|, i);
      BoundTransitive(Captures.Object(search, step.captures[i]),
                      Captures.Publish(vars, search, step.captures).0, final);
    }
  }

  lemma {:induction false} LoopPassed(run: StepRunner, failFast: bool, steps: seq<Step>, initial: Vars, k: nat)
    requires k < |steps| && Keeps(run) && Decides(run)
    requires Verdict(After(run, failFast, steps, initial, |steps|).reports) == Passed
    ensures var before := After(run, failFast, steps, initial, k);
            && run(steps[k], before.vars, before.reports).0.status == Passed
            && Captures.Bound(run(steps[k], before.vars, before.reports).1,
                              After(run, failFast, steps, initial, |steps|).vars)
  {
    LoopExact(run, failFast, steps, initial, |steps|);
    assert PassesAt(run, failFast, steps, initial, k);
    LoopExact(run, failFast, steps, initial, k);
    LoopKeeps(run, failFast, steps, initial, k + 1, |steps|);
  }

  /** In a document that passes, every step was performed, every one of its
      checks is true in its context, and every member of every capture still
      has its captured value at the end of the run. */
  lemma {:induction false} PassedMeans(w: World, failFast: bool, steps: seq<Step>, initial: Vars, k: nat)
    requires k < |steps|
    requires Verdict(After(Runner(w, failFast), failFast, steps, initial, |steps|).reports) == Passed
    ensures var before := After(Runner(w, failFast), failFast, steps, initial, k);
            var end := After(Runner(w, failFast), failFast, steps, initial, |steps|);
            Fulfilled(w, steps[k], before.vars, before.reports, end.vars)
  {
    RunnerDecides(w, failFast);
    RunnerKeeps(w, failFast);
    LoopPassed(Runner(w, failFast), failFast, steps, initial, k);
    var before := After(Runner(w, failFast), failFast, steps, initial, k);
    var end := After(Runner(w, failFast), failFast, steps, initial, |steps|);
    DoneFulfilled(w, failFast, steps[k], before.vars, before.reports, end.vars);
  }

  // ---------- Which steps are run, and which checks ----------

  /** Report `i` is the one of step `i`, made in the state in which the run
      reaches it and with the reports before it. */
  ghost predicate ReportsStep(run: StepRunner, failFast: bool, steps: seq<Step>, initial: Vars, r: Run, i: nat)
    requires i < |r.reports| <= |steps|
  {
    && After(run, failFast, steps, initial, i).reports == r.reports[..i]
    && r.reports[i] == run(steps[i], After(run, failFast, steps, initial, i).vars, r.reports[..i]).0
  }

  /** Only a failure stops a run, and only with fail-fast, and then it does. */
  ghost predicate StopsRightly(failFast: bool, r: Run, n: nat) {
    && |r.reports| <= n
    && (!failFast ==> |r.reports| == n)
    && (failFast ==> forall i :: 0 <= i < |r.reports| - 1 ==> !IsFailure(r.reports[i].status))
    && (|r.reports| < n ==> r.reports != [] && IsFailure(r.reports[|r.reports| - 1].status))
    && (r.stopped <==> failFast && r.reports != [] && IsFailure(r.reports[|r.reports| - 1].status))
  }

  lemma {:induction false} StopsNext(failFast: bool, before: Run, n: nat, report: StepReport, vars: Vars)
    requires StopsRightly(failFast, before, n) && !before.stopped && |before.reports| == n
    ensures StopsRightly(failFast, Extend(before, failFast, report, vars), n + 1)
  {}

  lemma {:induction false} LoopStops(run: StepRunner, failFast: bool, steps: seq<Step>, initial: Vars, n: nat)
    requires n <= |steps|
    ensures var r := After(run, failFast, steps, initial, n);
            StopsRightly(failFast, r, n) && (!r.stopped ==> |r.reports| == n)
  {
    if n > 0 {
      var before := After(run, failFast, steps, initial, n - 1);
      LoopStops(run, failFast, steps, initial, n - 1);
      if !before.stopped {
        var result := run(steps[n - 1], before.vars, before.reports);
        StopsNext(failFast, before, n - 1, result.0, result.1);
      }
    }
  }

  lemma {:induction false} LoopReports(run: StepRunner, failFast: bool, steps: seq<Step>, initial: Vars, n: nat, i: nat)
    requires n <= |steps| && i < |After(run, failFast, steps, initial, n).reports|
    ensures |After(run, failFast, steps, initial, n).reports| <= |steps|
    ensures ReportsStep(run, failFast, steps, initial, After(run, failFast, steps, initial, n), i)
    decreases n
  {
    var before := After(run, failFast, steps, initial, n - 1);
    LoopStops(run, failFast, steps, initial, n);
    LoopStops(run, failFast, steps, initial, n - 1);
    if before.stopped || i < |before.reports| {
      LoopReports(run, failFast, steps, initial, n - 1, i);
      assert !before.stopped ==> After(run, failFast, steps, initial, n).reports[..i] == before.reports[..i];
    } else {
      assert i == n - 1;
      assert After(run, failFast, steps, initial, n).reports[..i] == before.reports;
    }
  }

  /** The results of the first `n` checks that have one. */
  function Results(w: World, checks: seq<string>, n: nat, context: Json): seq<(string, bool)>
    requires n <= |checks|
  {
    if n == 0 then []
    else Results(w, checks, n - 1, context) +
         match w.check(checks[n - 1], context) case Some(b) => [(checks[n - 1], b)] case None => []
  }

  /** `n` checks are evaluated: all of them, or with fail-fast all up to the
      first that is not true. */
  ghost predicate Evaluated(w: World, failFast: bool, checks: seq<string>, context: Json, n: nat) {
    && n <= |checks|
    && (failFast ==> forall k :: 0 <= k < n - 1 ==> w.check(checks[k], context) == Some(true))
    && (n < |checks| ==> failFast && n > 0 && w.check(checks[n - 1], context) != Some(true))
  }

  lemma {:induction false} CheckReports(w: World, failFast: bool, checks: seq<string>, i: nat, context: Json,
                                        r: StepReport)
    returns (n: nat)
    requires i <= |checks| && r.checks == Results(w, checks, i, context)
    requires failFast ==> forall k :: 0 <= k < i ==> w.check(checks[k], context) == Some(true)
    ensures Evaluated(w, failFast, checks, context, n)
    ensures Check(w, failFast, checks, i, context, r).checks == Results(w, checks, n, context)
    ensures Check(w, failFast, checks, i, context, r).name == r.name
    decreases |checks| - i
  {
    if i == |checks| {
      n := i;
    } else {
      var result := w.check(checks[i], context);
      var next := AddCheck(r, checks[i], result);
      assert next.checks == Results(w, checks, i + 1, context);
      if result != Some(true) && failFast {
        n := i + 1;
      } else {
        n := CheckReports(w, failFast, checks, i + 1, context, next);
      }
    }
  }

  /** The report of a performed step has its name and the results of exactly the
      checks that are evaluated, in their order. */
  lemma {:induction false} ReportExact(w: World, failFast: bool, step: Step, vars: Vars, reports: seq<StepReport>)
    ensures var report := RunStep(w, failFast, step, vars, reports).0;
            && report.name == step.name
            && report.context == ContextOf(w, step, vars, reports)
            && (report.context.None? ==> report.checks == [])
            && (report.context.Some? ==>
                  exists n :: Evaluated(w, failFast, step.checks, report.context.value, n)
                              && report.checks == Results(w, step.checks, n, report.context.value))
  {
    var context := ContextOf(w, step, vars, reports);
    if context.Some? {
      var begun := Begin(step, context.value);
      var n := CheckReports(w, failFast, step.checks, 0, context.value, begun);
      KeepsContext(w, failFast, step.checks, 0, context.value, begun);
    }
  }

  lemma {:induction false} KeepsContext(w: World, failFast: bool, checks: seq<string>, i: nat, context: Json,
                                        r: StepReport)
    requires i <= |checks|
    ensures Check(w, failFast, checks, i, context, r).context == r.context
    decreases |checks| - i
  {
    if i < |checks| {
      KeepsContext(w, failFast, checks, i + 1, context, AddCheck(r, checks[i], w.check(checks[i], context)));
    }
  }

  /** What a run reports, over the whole plan. */
  lemma {:induction false} RunReports(w: World, failFast: bool, steps: seq<Step>, initial: Vars)
    ensures var r := After(Runner(w, failFast), failFast, steps, initial, |steps|);
            && StopsRightly(failFast, r, |steps|)
            && forall i :: 0 <= i < |r.reports| ==> ReportsStep(Runner(w, failFast), failFast, steps, initial, r, i)
  {
    var run := Runner(w, failFast);
    var r := After(run, failFast, steps, initial, |steps|);
    LoopStops(run, failFast, steps, initial, |steps|);
    forall i | 0 <= i < |r.reports|
      ensures ReportsStep(run, failFast, steps, initial, r, i)
    {
      LoopReports(run, failFast, steps, initial, |steps|, i);
    }
  }

  // ---------- The program ----------

  lemma {:induction false} StoppedStays(run: StepRunner, failFast: bool, steps: seq<Step>, initial: Vars, i: nat,
                                        n: nat)
    requires i <= n <= |steps| && After(run, failFast, steps, initial, i).stopped
    ensures After(run, failFast, steps, initial, n) == After(run, failFast, steps, initial, i)
    decreases n
  {
    if i < n {
      StoppedStays(run, failFast, steps, initial, i, n - 1);
    }
  }

  method EvaluateChecks(w: World, failFast: bool, checks: seq<string>, context: Json, begun: StepReport)
    returns (report: StepReport)
    ensures report == Check(w, failFast, checks, 0, context, begun)
  {
    report := begun;
    for i := 0 to |checks|
      invariant Check(w, failFast, checks, i, context, report) == Check(w, failFast, checks, 0, context, begun)
    {
      var result := w.check(checks[i], context);
      match result {
        case Some(true) => report := report.(checks := report.checks + [(checks[i], true)]);
        case Some(false) =>
          report := report.(status := Failed, checks := report.checks + [(checks[i], false)],
                            problems := report.problems + [CheckFalse(checks[i])]);
          if failFast {
            return;
          }
        case None =>
          report := report.(status := Failed, problems := report.problems + [CheckNotEvaluated(checks[i])]);
          if failFast {
            return;
          }
      }
    }
  }

  method JudgeStep(w: World, failFast: bool, step: Step, context: Json, variables: Captures.Variables)
    returns (report: StepReport)
    modifies variables
    ensures (report, variables.values) == Judge(w, failFast, step, context, old(variables.values))
  {
    report := EvaluateChecks(w, failFast, step.checks, context, Begin(step, context));
    if report.status == Passed {
      if Tainted(step, context) {
        report := report.(status := Failed, problems := report.problems + [TaintedCapture]);
      } else {
        var problems := variables.PublishCaptures(w.search(context), step.captures);
        report := report.(problems := report.problems + CaptureProblems(problems));
        report := report.(status := if report.problems == [] then Passed else Failed);
      }
    }
  }

  method ExecuteStep(w: World, failFast: bool, step: Step, variables: Captures.Variables, reports: seq<StepReport>)
    returns (report: StepReport)
    modifies variables
    ensures (report, variables.values) == RunStep(w, failFast, step, old(variables.values), reports)
  {
    var problems := RenderProblems(w, step, variables.values);
    if problems != [] {
      return StepReport(step.name, Failed, [], problems, None);
    }
    var context := w.perform(step, w.render(step.tokens, variables.values).value, variables.values, reports);
    if context.None? {
      return StepReport(step.name, Failed, [], [NotPerformed], None);
    }
    report := JudgeStep(w, failFast, step, context.value, variables);
  }

  /** The whole run of a document; an offline run performs nothing and is an
      error. */
  method ExecutePlan(w: World, offline: bool, failFast: bool, steps: seq<Step>, initial: Vars)
    returns (status: Status, run: Run)
    ensures offline ==> status == Error && run.vars == initial && |run.reports| == |steps|
    ensures offline ==> forall k :: 0 <= k < |steps| ==>
                                      run.reports[k] == StepReport(steps[k].name, Skipped, [], [Offline], None)
    ensures !offline ==> StopsRightly(failFast, run, |steps|)
    ensures !offline ==> forall i :: 0 <= i < |run.reports| ==>
                                       ReportsStep(Runner(w, failFast), failFast, steps, initial, run, i)
    ensures !offline ==> run == After(Runner(w, failFast), failFast, steps, initial, |steps|)
    ensures !offline ==> status == Verdict(run.reports)
  {
    var reports: seq<StepReport> := [];
    if offline {
      for i := 0 to |steps|
        invariant |reports| == i
        invariant forall k :: 0 <= k < i ==> reports[k] == StepReport(steps[k].name, Skipped, [], [Offline], None)
      {
        reports := reports + [StepReport(steps[i].name, Skipped, [], [Offline], None)];
      }
      return Error, Run(initial, reports, true);
    }
    run := ExecuteSteps(w, failFast, steps, initial);
    status := Verdict(run.reports);
    RunReports(w, failFast, steps, initial);
  }

  /** The loop over the steps. */
  method ExecuteSteps(w: World, failFast: bool, steps: seq<Step>, initial: Vars) returns (run: Run)
    ensures run == After(Runner(w, failFast), failFast, steps, initial, |steps|)
  {
    ghost var runner := Runner(w, failFast);
    var variables := new Captures.Variables(initial);
    var reports: seq<StepReport> := [];
    var stopped := false;
    var i := 0;
    while i < |steps| && !stopped
      invariant 0 <= i <= |steps|
      invariant fresh(variables)
      invariant After(runner, failFast, steps, initial, i) == Run(variables.values, reports, stopped)
    {
      var report := ExecuteStep(w, failFast, steps[i], variables, reports);
      reports := reports + [report];
      stopped := IsFailure(report.status) && failFast;
      i := i + 1;
    }
    if stopped {
      StoppedStays(runner, failFast, steps, initial, i, |steps|);
    }
    run := Run(variables.values, reports, stopped);
  }
}
