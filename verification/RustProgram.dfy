/** The Rust run with the planning and rendering of direct commands in place. */
module RustProgram {
  import opened Text
  import opened Workflow
  import Command
  import DirectCall
  import Normalize
  import Transient

  function RenderCommand(tokens: seq<string>, vars: Vars): Option<seq<string>> {
    var command := Normalize.NormalizeCommand(tokens, vars, Normalize.EXECUTE);
    if command.problems == [] then Some(command.argv) else None
  }

  /** Any secrets, network, commands and expressions, with the real rendering. */
  function Program(w: World): World {
    w.(render := RenderCommand)
  }

  /** The generated document has one step, without checks and captures. */
  function DirectStep(kind: Transient.Kind, tokens: seq<string>): Step {
    Step("call", if kind == Transient.Curl then Curl else Exec, tokens, [], [])
  }

  function DirectValues(settings: DirectCall.Settings, argv: seq<string>): Vars {
    Normalize.Values(DirectCall.PlanVariables(settings, argv))
  }

  /** The run judges secrets as the planner's variables say. */
  ghost predicate SecretsAgree(settings: DirectCall.Settings, w: World, argv: seq<string>, step: Step) {
    w.secretArgv(step, DirectValues(settings, argv)) <==>
      DirectCall.SecretTemplate(step.tokens, DirectCall.PlanVariables(settings, argv))
  }

  /** The run of a direct command; nothing runs when planning refuses it. */
  ghost function DirectRun(settings: DirectCall.Settings, w: World, failFast: bool, kind: Transient.Kind,
                           argv: seq<string>): Option<Run>
    requires argv != []
  {
    match Command.Tokenize(Transient.CommandLine(argv) + "\n")
    case Err(_) => None
    case Ok(tokens) =>
      if DirectCall.Planned(settings, kind, tokens, DirectCall.PlanVariables(settings, argv))
      then Some(After(Runner(Program(w), failFast), failFast, [DirectStep(kind, tokens)],
                      DirectValues(settings, argv), 1))
      else None
  }

  /** Whatever is executed is what the run performs. */
  lemma {:induction false} ExecutedPerformed(settings: DirectCall.Settings, w: World, kind: Transient.Kind,
                                             argv: seq<string>, step: Step)
    requires Transient.Accepted(kind, argv) && step == DirectStep(kind, Transient.Tokens(argv))
    requires SecretsAgree(settings, w, argv, step)
    requires DirectCall.Executed(settings, kind, argv) == Some(argv)
    ensures RenderProblems(Program(w), step, DirectValues(settings, argv)) == []
    ensures ContextOf(Program(w), step, DirectValues(settings, argv), [])
         == w.perform(step, argv, DirectValues(settings, argv), [])
  {
    Transient.TokenizeCommandLine(argv);
  }

  /** A permitted direct command is performed with exactly its own argv, and the
      whole run passes exactly when it is performed and does not fail. */
  lemma {:induction false} DirectVerdict(settings: DirectCall.Settings, w: World, failFast: bool, kind: Transient.Kind,
                                         argv: seq<string>, step: Step)
    requires Transient.Accepted(kind, argv) && step == DirectStep(kind, Transient.Tokens(argv))
    requires SecretsAgree(settings, w, argv, step)
    requires DirectCall.Permitted(settings, kind, argv)
    ensures var run := DirectRun(settings, w, failFast, kind, argv);
            var context := w.perform(step, argv, DirectValues(settings, argv), []);
            && run.Some?
            && (Verdict(run.value.reports) == Passed <==> context.Some? && !CommandFails(step, context.value))
  {
    DirectCall.PermittedExecuted(settings, kind, argv);
    ExecutedPerformed(settings, w, kind, argv, step);
    Transient.TokenizeCommandLine(argv);
    OneStep(Program(w), failFast, step, DirectValues(settings, argv));
  }

  lemma {:induction false} OneStep(w: World, failFast: bool, step: Step, vars: Vars)
    requires step.checks == [] && step.captures == []
    ensures var context := ContextOf(w, step, vars, []);
            var run := After(Runner(w, failFast), failFast, [step], vars, 1);
            Verdict(run.reports) == Passed <==> context.Some? && !CommandFails(step, context.value)
  {
    VerdictExact(w, failFast, [step], vars);
    assert After(Runner(w, failFast), failFast, [step], vars, 0) == Run(vars, [], false);
    assert DoneAt(w, failFast, [step], vars, 0) <==> Done(w, step, vars, []);
  }

  /** A direct curl call with two or more arguments does not run at all. */
  lemma {:induction false} DirectRefused(settings: DirectCall.Settings, w: World, failFast: bool, argv: seq<string>)
    requires Transient.Accepted(Transient.Curl, argv) && |argv| > 2
    ensures DirectRun(settings, w, failFast, Transient.Curl, argv) == None
  {
    Transient.TokenizeCommandLine(argv);
    DirectCall.RawChecks(settings, Transient.Curl, argv);
  }
}
