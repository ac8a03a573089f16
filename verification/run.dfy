/** The `create <projectName>` action as a linear state machine over an
    abstract trace of effects: prompt, compose, prompt the registry questions,
    generate, change directory, write `.npmrc`, optionally install, exit. */
module Run {
  import opened Results
  import opened Text
  import opened Catalogue
  import opened Npmrc
  import opened Answers
  import opened Commands

  /** The two question forms. */
  datatype Form = ProjectForm | RegistryForm

  /** One observable effect of a run. */
  datatype Event =
    | Answered(form: Form)
    | Exec(command: string)
    | ChangeDir(dir: string)
    | WriteFile(path: string, content: string)
    | Exit(status: int)

  /** What the outside world supplies: the answers to each form (`None` when
      that prompt threw) and whether writing the configuration file succeeds. */
  datatype Environment = Environment(
    project: Option<ProjectAnswers>,
    registry: Option<RegistryAnswers>,
    writable: bool)

  const ConfigFile := ".npmrc"

  /** Where the run stands, with the configuration gathered so far. */
  datatype Stage =
    | Prompting
    | Composing(answers: ProjectAnswers)
    | Configuring(answers: ProjectAnswers)
    | Generating(answers: ProjectAnswers, config: RegistryAnswers)
    | Entering(answers: ProjectAnswers, config: RegistryAnswers)
    | Writing(answers: ProjectAnswers, config: RegistryAnswers)
    | Installing(answers: ProjectAnswers, config: RegistryAnswers)
    | Succeeded
    | Failed
    | Stopped

  /** Steps left before the run stops; every transition lowers it. */
  function Rank(st: Stage): nat
  {
    match st
    case Prompting => 9
    case Composing(_) => 8
    case Configuring(_) => 7
    case Generating(_, _) => 6
    case Entering(_, _) => 5
    case Writing(_, _) => 4
    case Installing(_, _) => 3
    case Succeeded => 1
    case Failed => 1
    case Stopped => 0
  }

  /** One transition: the next stage and the effects emitted on the way. */
  datatype Transition = Transition(next: Stage, events: seq<Event>)

  /** The transition out of a stage. A thrown error at any stage leads to
      `Failed`, which exits with status 1; the normal end exits with 0. */
  function Step(name: string, env: Environment, st: Stage): (t: Transition)
    requires !st.Stopped?
    ensures Rank(t.next) < Rank(st)
    ensures t.next.Failed? ==> t.events == []
    ensures t.next.Stopped? <==> st.Succeeded? || st.Failed?
  {
    match st
    case Prompting =>
      if env.project.None? then Transition(Failed, [])
      else Transition(Composing(env.project.value), [Answered(ProjectForm)])
    case Composing(p) =>
      if Dependencies(p).Thrown? then Transition(Failed, [])
      else Transition(Configuring(p), [])
    case Configuring(p) =>
      if env.registry.None? then Transition(Failed, [])
      else Transition(Generating(p, env.registry.value), [Answered(RegistryForm)])
    case Generating(p, r) =>
      Transition(Entering(p, r), [Exec(GenerateCommand(name, p.styling))])
    case Entering(p, r) =>
      Transition(Writing(p, r), [ChangeDir(name)])
    case Writing(p, r) =>
      if !env.writable then Transition(Failed, [])
      else Transition(Installing(p, r), [WriteFile(ConfigFile, Content(r))])
    case Installing(p, r) =>
      (match InstallPlan(p)
       case Thrown(_) => Transition(Failed, [])
       case Ok(None) => Transition(Succeeded, [])
       case Ok(Some(extras)) => Transition(Succeeded, [Exec(InstallCommand(extras))]))
    case Succeeded => Transition(Stopped, [Exit(0)])
    case Failed => Transition(Stopped, [Exit(1)])
  }

  /** The effects of the installer decision: one install command or none. */
  function InstallEffects(p: ProjectAnswers): (e: seq<Event>)
    ensures |e| <= 1
  {
    match InstallPlan(p)
    case Ok(Some(extras)) => [Exec(InstallCommand(extras))]
    case _ => []
  }

  /** The effects of a run up to the configuration write, in order. */
  function Preamble(name: string, p: ProjectAnswers): (e: seq<Event>)
    ensures |e| == 4
  {
    [Answered(ProjectForm), Answered(RegistryForm), Exec(GenerateCommand(name, p.styling)), ChangeDir(name)]
  }

  /** Every effect of a run that gets through both forms and the write, in
      order, before the exit. */
  function Effects(name: string, p: ProjectAnswers, r: RegistryAnswers): (e: seq<Event>)
    ensures 5 <= |e| <= 6
    ensures e[..4] == Preamble(name, p)
  {
    var e := Preamble(name, p) + [WriteFile(ConfigFile, Content(r))] + InstallEffects(p);
    assert e[..4] == Preamble(name, p);
    e
  }

  /** The trace of a run, stated directly: the effects up to the first thrown
      error, then the exit status. */
  function Expected(name: string, env: Environment): (t: seq<Event>)
    ensures |t| > 0
  {
    match env.project
    case None => [Exit(1)]
    case Some(p) =>
      if Dependencies(p).Thrown? || env.registry.None? then [Answered(ProjectForm), Exit(1)]
      else if !env.writable then Preamble(name, p) + [Exit(1)]
      else Effects(name, p, env.registry.value) + [Exit(0)]
  }

  /** How much of the expected trace has been emitted on reaching a stage. */
  function Emitted(name: string, env: Environment, st: Stage): nat
  {
    match st
    case Prompting => 0
    case Composing(_) => 1
    case Configuring(_) => 1
    case Generating(_, _) => 2
    case Entering(_, _) => 3
    case Writing(_, _) => 4
    case Installing(_, _) => 5
    case Succeeded => |Expected(name, env)| - 1
    case Failed => |Expected(name, env)| - 1
    case Stopped => |Expected(name, env)|
  }

  /** The stage agrees with the environment: the configuration it carries is
      what the forms answered, and each check it has passed did pass. */
  predicate Consistent(name: string, env: Environment, st: Stage)
  {
    match st
    case Prompting => true
    case Composing(p) => env.project == Some(p)
    case Configuring(p) => env.project == Some(p) && Dependencies(p).Ok?
    case Generating(p, r) => env.project == Some(p) && Dependencies(p).Ok? && env.registry == Some(r)
    case Entering(p, r) => env.project == Some(p) && Dependencies(p).Ok? && env.registry == Some(r)
    case Writing(p, r) => env.project == Some(p) && Dependencies(p).Ok? && env.registry == Some(r)
    case Installing(p, r) => env.project == Some(p) && Dependencies(p).Ok? && env.registry == Some(r) && env.writable
    case Succeeded => Expected(name, env)[|Expected(name, env)| - 1] == Exit(0)
    case Failed => Expected(name, env)[|Expected(name, env)| - 1] == Exit(1)
    case Stopped => true
  }

  /** The step property below, for the stages up to the registry form. */
  lemma StepThroughForms(name: string, env: Environment, st: Stage)
    requires (st.Prompting? || st.Composing? || st.Configuring?) && Consistent(name, env, st)
    ensures var t := Step(name, env, st);
      && Consistent(name, env, t.next)
      && Emitted(name, env, st) <= Emitted(name, env, t.next) <= |Expected(name, env)|
      && t.events == Expected(name, env)[Emitted(name, env, st)..Emitted(name, env, t.next)]
  {
    if st.Configuring? && env.registry.Some? {
      assert Expected(name, env)[1] == Answered(RegistryForm);
    }
  }

  /** The step property below, for the generator, the directory change and the write. */
  lemma StepThroughEffects(name: string, env: Environment, st: Stage)
    requires (st.Generating? || st.Entering? || st.Writing?) && Consistent(name, env, st)
    ensures var t := Step(name, env, st);
      && Consistent(name, env, t.next)
      && Emitted(name, env, st) <= Emitted(name, env, t.next) <= |Expected(name, env)|
      && t.events == Expected(name, env)[Emitted(name, env, st)..Emitted(name, env, t.next)]
  {
    var x := Expected(name, env);
    var p, r := st.answers, st.config;
    assert x[..4] == Preamble(name, p);
    if st.Writing? && env.writable {
      assert x[4] == WriteFile(ConfigFile, Content(r));
    }
  }

  /** The step property below, for the install and the exit. */
  lemma StepThroughExit(name: string, env: Environment, st: Stage)
    requires (st.Installing? || st.Succeeded? || st.Failed?) && Consistent(name, env, st)
    ensures var t := Step(name, env, st);
      && Consistent(name, env, t.next)
      && Emitted(name, env, st) <= Emitted(name, env, t.next) <= |Expected(name, env)|
      && t.events == Expected(name, env)[Emitted(name, env, st)..Emitted(name, env, t.next)]
  {
    if st.Installing? {
      var p, r := st.answers, st.config;
      InstallPlanIff(p);
      var e := Effects(name, p, r);
      var x := Expected(name, env);
      assert x == e + [Exit(0)];
      if InstallPlan(p).value.Some? {
        assert x[5] == e[5] == Exec(InstallCommand(InstallPlan(p).value.value));
      }
    }
  }

  /** Each transition from a consistent stage emits exactly the next stretch
      of the expected trace and reaches a consistent stage. */
  lemma StepFollowsExpected(name: string, env: Environment, st: Stage)
    requires !st.Stopped? && Consistent(name, env, st)
    ensures var t := Step(name, env, st);
      && Consistent(name, env, t.next)
      && Emitted(name, env, st) <= Emitted(name, env, t.next) <= |Expected(name, env)|
      && t.events == Expected(name, env)[Emitted(name, env, st)..Emitted(name, env, t.next)]
  {
    if st.Prompting? || st.Composing? || st.Configuring? {
      StepThroughForms(name, env, st);
    } else if st.Generating? || st.Entering? || st.Writing? {
      StepThroughEffects(name, env, st);
    } else {
      StepThroughExit(name, env, st);
    }
  }

  /** Runs the `create` action and returns its trace of effects. */
  method Create(name: string, env: Environment) returns (trace: seq<Event>)
    ensures trace == Expected(name, env)
  {
    var st := Prompting;
    trace := [];
    while !st.Stopped?
      invariant Consistent(name, env, st)
      invariant Emitted(name, env, st) <= |Expected(name, env)|
      invariant trace == Expected(name, env)[..Emitted(name, env, st)]
      decreases Rank(st)
    {
      var t := Step(name, env, st);
      StepFollowsExpected(name, env, st);
      PrefixExtend(Expected(name, env), Emitted(name, env, st), Emitted(name, env, t.next));
      trace := trace + t.events;
      st := t.next;
    }
  }

  /** Every run ends with exactly one exit event, status 0 exactly when both
      forms were answered, the composition did not throw and the write
      succeeded, and 1 otherwise. */
  lemma ExitStatus(name: string, env: Environment)
    ensures var t := Expected(name, env);
      && |t| > 0
      && (forall i :: 0 <= i < |t| - 1 ==> !t[i].Exit?)
      && t[|t| - 1] == Exit(if env.project.Some? && Dependencies(env.project.value).Ok?
                              && env.registry.Some? && env.writable then 0 else 1)
  {
  }

  /** An error at any step skips every later step: the trace is the
      successful run's effects cut short, then the exit. `p` and `r` are the
      answers of the forms that were answered; for a form whose prompt threw
      they are arbitrary, since nothing of the run depends on them. */
  lemma FailureSkipsLaterSteps(name: string, env: Environment, p: ProjectAnswers, r: RegistryAnswers)
    requires env.project.Some? ==> env.project == Some(p)
    requires env.registry.Some? ==> env.registry == Some(r)
    ensures var t := Expected(name, env);
      var k := |t| - 1;
      && 0 <= k <= |Effects(name, p, r)|
      && t[..k] == Effects(name, p, r)[..k]
      && (t[k] == Exit(0) <==> k == |Effects(name, p, r)|)
      && (env.project.None? ==> k == 0)
      && (env.project.Some? && (Dependencies(p).Thrown? || env.registry.None?) ==> k == 1)
      && (env.project.Some? && Dependencies(p).Ok? && env.registry.Some? && !env.writable ==> k == 4)
  {
  }

  /** The trace contains an install command. */
  predicate Installs(trace: seq<Event>)
  {
    exists i :: 0 <= i < |trace| && trace[i].Exec? && HasPrefix(trace[i].command, InstallPrefix)
  }

  /** A run that throws before the generator runs executes nothing. */
  lemma NoExecBeforeRegistry(name: string, env: Environment)
    requires env.project.None? || Dependencies(env.project.value).Thrown? || env.registry.None?
    ensures forall i :: 0 <= i < |Expected(name, env)| ==> !Expected(name, env)[i].Exec?
  {
  }

  /** Past both forms, the only command executed besides the install is the generator. */
  lemma InstallAfterWrite(name: string, env: Environment, p: ProjectAnswers, r: RegistryAnswers)
    requires env.project == Some(p) && env.registry == Some(r) && Dependencies(p).Ok?
    ensures Installs(Expected(name, env)) <==> env.writable && InstallPlan(p).value.Some?
    ensures env.writable && InstallPlan(p).value.Some? ==>
      Expected(name, env)[4].WriteFile? &&
      Expected(name, env)[5] == Exec(InstallCommand(InstallPlan(p).value.value))
  {
    var t := Expected(name, env);
    var e := Effects(name, p, r);
    CommandsDistinct(name, p.styling, []);
    if env.writable && InstallPlan(p).value.Some? {
      assert t[5] == e[5] == Exec(InstallCommand(InstallPlan(p).value.value));
      assert HasPrefix(t[5].command, InstallPrefix);
    } else {
      assert forall i :: 0 <= i < |t| && t[i].Exec? ==> t[i] == e[2];
    }
  }

  /** The installer runs if and only if the run gets through the write, the
      defaults were declined and at least one extra was ticked; it then comes
      right after the write, with the extras space-joined in order. */
  lemma InstallIff(name: string, env: Environment)
    ensures Installs(Expected(name, env))
      <==> && env.project.Some? && env.registry.Some? && env.writable
           && !env.project.value.useDefaultDeps
           && env.project.value.additionalDeps.Some?
           && |env.project.value.additionalDeps.value| > 0
    ensures Installs(Expected(name, env)) ==>
      Expected(name, env)[4].WriteFile? &&
      Expected(name, env)[5] == Exec("npm install " + Join(env.project.value.additionalDeps.value, ' '))
  {
    if env.project.None? || Dependencies(env.project.value).Thrown? || env.registry.None? {
      NoExecBeforeRegistry(name, env);
      if env.project.Some? {
        InstallPlanIff(env.project.value);
      }
    } else {
      InstallPlanIff(env.project.value);
      InstallAfterWrite(name, env, env.project.value, env.registry.value);
    }
  }

  /** The generator command for `demo-app` with CSS styling. */
  lemma DemoGenerateCommand()
    ensures GenerateCommand("demo-app", CSS) == "npx @angular/cli@latest new demo-app --style=css --routing=true"
  {
    var middle := "demo-app" + StyleOption(CSS);
    assert middle == "demo-app --style=css";
    assert GeneratorPrefix + middle == "npx @angular/cli@latest new demo-app --style=css";
  }

  /** `create demo-app` with every default accepted: the generator with CSS
      styling, the seven-line file, no install, exit status 0. */
  lemma DefaultScenario()
    ensures Expected("demo-app", Environment(Some(Ask(true, [], CSS)), Some(DefaultRegistryAnswers), true))
         == [Answered(ProjectForm), Answered(RegistryForm),
             Exec("npx @angular/cli@latest new demo-app --style=css --routing=true"),
             ChangeDir("demo-app"),
             WriteFile(".npmrc", Join(DefaultLines, '\n')),
             Exit(0)]
  {
    DemoGenerateCommand();
    DefaultRegistryLines();
    var p := Ask(true, [], CSS);
    assert InstallEffects(p) == [];
  }

  /** A read-only directory: the write throws, the installer never runs, exit status 1. */
  lemma WriteFailureScenario(name: string, p: ProjectAnswers, r: RegistryAnswers)
    requires WellFormed(p)
    ensures var t := Expected(name, Environment(Some(p), Some(r), false));
      && !Installs(t)
      && t == [Answered(ProjectForm), Answered(RegistryForm), Exec(GenerateCommand(name, p.styling)),
               ChangeDir(name), Exit(1)]
  {
    InstallIff(name, Environment(Some(p), Some(r), false));
  }
}
