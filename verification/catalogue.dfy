/** The constant tables of the scaffolder: the npm defaults, the default and
    optional dependency lists, and the four styling choices. */
module Catalogue {
  import opened Results
  import opened Text

  /** The defaults table for the registry configuration. */
  datatype NpmDefaults = NpmDefaults(
    registry: string,
    strictSsl: bool,
    saveExact: bool,
    packageLock: bool,
    audit: bool,
    fund: bool,
    progress: bool)

  const DefaultNpmConfig := NpmDefaults("https://registry.npmjs.org/", true, true, true, true, false, false)

  /** The dependencies every generated project is meant to have, in order. */
  const DefaultDependencies: seq<string> :=
    ["angular/core", "angular/forms", "angular/router", "angular/common", "rxjs"]

  /** The catalogue offered by the additional-dependencies checklist, in order. */
  const OptionalDependencies: seq<string> :=
    ["angular/material", "ngrx/store", "angular/animations", "angular/http", "bootstrap", "tailwindcss"]

  /** One entry of the optional catalogue: the only things the checklist can yield. */
  datatype Extra = AngularMaterial | NgrxStore | AngularAnimations | AngularHttp | Bootstrap | Tailwindcss

  /** The catalogue entry's position in `OptionalDependencies`. */
  function Position(e: Extra): (i: nat)
    ensures i < |OptionalDependencies|
  {
    match e
    case AngularMaterial => 0
    case NgrxStore => 1
    case AngularAnimations => 2
    case AngularHttp => 3
    case Bootstrap => 4
    case Tailwindcss => 5
  }

  /** The package identifier the checklist reports for a ticked entry. */
  function PackageName(e: Extra): (name: string)
    ensures name in OptionalDependencies
    ensures name == OptionalDependencies[Position(e)]
  {
    OptionalDependencies[Position(e)]
  }

  /** The catalogue entry with the given package identifier, if there is one. */
  function ExtraNamed(name: string): (r: Option<Extra>)
    ensures r.Some? <==> name in OptionalDependencies
    ensures r.Some? ==> PackageName(r.value) == name
  {
    if name == "angular/material" then Some(AngularMaterial)
    else if name == "ngrx/store" then Some(NgrxStore)
    else if name == "angular/animations" then Some(AngularAnimations)
    else if name == "angular/http" then Some(AngularHttp)
    else if name == "bootstrap" then Some(Bootstrap)
    else if name == "tailwindcss" then Some(Tailwindcss)
    else None
  }

  /** Distinct catalogue entries have distinct package identifiers, and the
      identifier leads back to the entry. */
  lemma PackageNameInjective(e: Extra, f: Extra)
    ensures ExtraNamed(PackageName(e)) == Some(e)
    ensures PackageName(e) == PackageName(f) ==> e == f
  {
  }

  /** No catalogue identifier contains a space or a line break, so the
      install command's space-joined list can be split back apart. */
  lemma PackageNameHasNoBlank(e: Extra)
    ensures ' ' !in PackageName(e) && '\n' !in PackageName(e)
  {
  }

  /** The styling preprocessor picked from the four-choice list. */
  datatype Styling = CSS | SCSS | SASS | Less

  /** The choice as the list shows it. */
  function Label(s: Styling): string
  {
    match s
    case CSS => "CSS"
    case SCSS => "SCSS"
    case SASS => "SASS"
    case Less => "Less"
  }

  /** The choice as passed to the generator's `--style` option. */
  function StyleFlag(s: Styling): string
  {
    match s
    case CSS => "css"
    case SCSS => "scss"
    case SASS => "sass"
    case Less => "less"
  }

  /** The option value is the list label lower-cased, as `toLowerCase` makes it. */
  lemma StyleFlagIsLowerCase(s: Styling)
    ensures StyleFlag(s) == ToLower(Label(s))
  {
    var l, f := Label(s), ToLower(Label(s));
    assert forall i :: 0 <= i < |l| ==> f[i] == LowerChar(l[i]);
  }
}
