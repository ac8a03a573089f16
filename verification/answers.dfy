/** The project questions' answers and what the `create` action derives from
    them: the final dependency list and the decision to run the installer. */
module Answers {
  import opened Results
  import opened Text
  import opened Catalogue

  /** The answers to the three project questions. `additionalDeps` is `None`
      when the checklist was not shown, so that the answer key is absent. */
  datatype ProjectAnswers = ProjectAnswers(
    useDefaultDeps: bool,
    additionalDeps: Option<seq<string>>,
    styling: Styling)

  /** The package identifiers of the ticked checklist entries, in the order reported. */
  function Names(ticked: seq<Extra>): (names: seq<string>)
    ensures |names| == |ticked|
    ensures forall i :: 0 <= i < |ticked| ==> names[i] == PackageName(ticked[i])
  {
    if |ticked| == 0 then [] else [PackageName(ticked[0])] + Names(ticked[1..])
  }

  /** The catalogue entries named by identifiers taken from the catalogue. */
  function Entries(names: seq<string>): (ticked: seq<Extra>)
    requires forall i :: 0 <= i < |names| ==> names[i] in OptionalDependencies
    ensures Names(ticked) == names
  {
    if |names| == 0 then []
    else
      var e := ExtraNamed(names[0]).value;
      var rest := Entries(names[1..]);
      assert Names([e] + rest) == [names[0]] + names[1..];
      [e] + rest
  }

  /** The project question flow: the confirmation, the checklist only when the
      defaults were declined, then the styling list. */
  function Ask(useDefaults: bool, ticked: seq<Extra>, styling: Styling): (a: ProjectAnswers)
    ensures a.useDefaultDeps == useDefaults && a.styling == styling
    ensures a.additionalDeps.Some? <==> !useDefaults
    ensures !useDefaults ==> a.additionalDeps.value == Names(ticked)
  {
    ProjectAnswers(useDefaults, if useDefaults then None else Some(Names(ticked)), styling)
  }

  /** Answers the question flow can produce: extras are present exactly when
      the defaults were declined, and every extra comes from the catalogue. */
  predicate WellFormed(a: ProjectAnswers)
  {
    && (a.additionalDeps.Some? <==> !a.useDefaultDeps)
    && (a.additionalDeps.Some? ==>
          forall i :: 0 <= i < |a.additionalDeps.value| ==> a.additionalDeps.value[i] in OptionalDependencies)
  }

  /** The checklist's ticks are ignored when the defaults are accepted, and
      the flow only ever yields well-formed answers. */
  lemma AskIsWellFormed(useDefaults: bool, ticked: seq<Extra>, other: seq<Extra>, styling: Styling)
    ensures WellFormed(Ask(useDefaults, ticked, styling))
    ensures useDefaults ==> Ask(useDefaults, ticked, styling) == Ask(useDefaults, other, styling)
  {
  }

  /** Every well-formed answer set is what the flow yields for some ticks. */
  lemma WellFormedIsAsked(a: ProjectAnswers)
    requires WellFormed(a)
    ensures exists ticked: seq<Extra> :: Ask(a.useDefaultDeps, ticked, a.styling) == a
  {
    if a.useDefaultDeps {
      assert Ask(a.useDefaultDeps, [], a.styling) == a;
    } else {
      var ticked := Entries(a.additionalDeps.value);
      assert Ask(a.useDefaultDeps, ticked, a.styling) == a;
    }
  }

  /** The final dependency list: the defaults, or the defaults followed by the
      extras. Spreading absent extras throws a TypeError. */
  function Dependencies(a: ProjectAnswers): (r: Result<seq<string>>)
    ensures r.Thrown? <==> !a.useDefaultDeps && a.additionalDeps.None?
  {
    if a.useDefaultDeps then Ok(DefaultDependencies)
    else match a.additionalDeps
      case None => Thrown("TypeError: additionalDeps is not iterable")
      case Some(extras) => Ok(DefaultDependencies + extras)
  }

  /** The list keeps the defaults first, in order, then exactly the extras in
      the order given: nothing is sorted, dropped or de-duplicated. */
  lemma DependenciesLayout(a: ProjectAnswers)
    requires Dependencies(a).Ok?
    ensures var deps := Dependencies(a).value;
      && |deps| == |DefaultDependencies| + (if a.useDefaultDeps then 0 else |a.additionalDeps.value|)
      && deps[..|DefaultDependencies|] == DefaultDependencies
      && deps[|DefaultDependencies|..] == (if a.useDefaultDeps then [] else a.additionalDeps.value)
      && multiset(deps) == multiset(DefaultDependencies) + multiset(if a.useDefaultDeps then [] else a.additionalDeps.value)
  {
    var deps := Dependencies(a).value;
    if !a.useDefaultDeps {
      assert deps == DefaultDependencies + a.additionalDeps.value;
      assert deps[..|DefaultDependencies|] == DefaultDependencies;
      assert deps[|DefaultDependencies|..] == a.additionalDeps.value;
    }
  }

  /** Answers from the question flow never make the composition throw. */
  lemma WellFormedDependencies(a: ProjectAnswers)
    requires WellFormed(a)
    ensures Dependencies(a).Ok?
  {
  }

  /** The installer decision: `Some(extras)` when the installer runs and with
      which packages, `None` when it is skipped. Reading the length of absent
      extras throws a TypeError. */
  function InstallPlan(a: ProjectAnswers): (r: Result<Option<seq<string>>>)
    ensures r.Ok? && r.value.Some? ==> a.additionalDeps == Some(r.value.value) && |r.value.value| > 0
  {
    if a.useDefaultDeps then Ok(None)
    else match a.additionalDeps
      case None => Thrown("TypeError: cannot read length of undefined")
      case Some(extras) => if |extras| > 0 then Ok(Some(extras)) else Ok(None)
  }

  /** The installer runs if and only if the defaults were declined and at
      least one extra was ticked, and it never throws once the dependency list
      was composed. */
  lemma InstallPlanIff(a: ProjectAnswers)
    ensures InstallPlan(a).Thrown? <==> Dependencies(a).Thrown?
    ensures InstallPlan(a).Ok? && InstallPlan(a).value.Some?
      <==> !a.useDefaultDeps && a.additionalDeps.Some? && |a.additionalDeps.value| > 0
  {
  }
}
