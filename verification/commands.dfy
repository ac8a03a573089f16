/** The two shell command lines the `create` action builds: the project
    generator invocation and the install of the ticked extras. */
module Commands {
  import opened Results
  import opened Text
  import opened Catalogue

  const GeneratorPrefix := "npx @angular/cli@latest new "
  const RoutingOption := " --routing=true"
  const InstallPrefix := "npm install "

  /** The `--style` option for a styling choice. */
  function StyleOption(s: Styling): string
  {
    " --style=" + StyleFlag(s)
  }

  /** The generator command for a project name and styling choice. */
  function GenerateCommand(name: string, s: Styling): string
  {
    GeneratorPrefix + (name + StyleOption(s)) + RoutingOption
  }

  /** The generator command is the fixed head, the name, the style option and
      the routing option, and the part between head and routing option can be
      cut back out. */
  lemma GenerateCommandShape(name: string, s: Styling)
    ensures HasPrefix(GenerateCommand(name, s), GeneratorPrefix)
    ensures HasSuffix(GenerateCommand(name, s), RoutingOption)
    ensures |GeneratorPrefix| + |RoutingOption| <= |GenerateCommand(name, s)|
    ensures GenerateCommand(name, s)[|GeneratorPrefix|..|GenerateCommand(name, s)| - |RoutingOption|] == name + StyleOption(s)
  {
    Framed(GeneratorPrefix, name + StyleOption(s), RoutingOption);
  }

  /** The styling whose option ends `middle`, tried in list order, and the name before it. */
  function SplitStyle(middle: string): (r: Option<(string, Styling)>)
    ensures r.Some? ==> middle == r.value.0 + StyleOption(r.value.1)
  {
    if HasSuffix(middle, StyleOption(CSS)) then Some((DropSuffix(middle, StyleOption(CSS)), CSS))
    else if HasSuffix(middle, StyleOption(SCSS)) then Some((DropSuffix(middle, StyleOption(SCSS)), SCSS))
    else if HasSuffix(middle, StyleOption(SASS)) then Some((DropSuffix(middle, StyleOption(SASS)), SASS))
    else if HasSuffix(middle, StyleOption(Less)) then Some((DropSuffix(middle, StyleOption(Less)), Less))
    else None
  }

  /** Recovers the project name and styling from a generator command. */
  function ParseGenerateCommand(cmd: string): (r: Option<(string, Styling)>)
    ensures r.Some? ==> GenerateCommand(r.value.0, r.value.1) == cmd
  {
    if |cmd| < |GeneratorPrefix| + |RoutingOption| || !HasPrefix(cmd, GeneratorPrefix) || !HasSuffix(cmd, RoutingOption) then None
    else
      var middle := cmd[|GeneratorPrefix|..|cmd| - |RoutingOption|];
      var r := SplitStyle(middle);
      if r.None? then None
      else
        Recompose(cmd, |GeneratorPrefix|, |cmd| - |RoutingOption|);
        assert cmd == GeneratorPrefix + middle + RoutingOption;
        r
  }

  /** The four style options differ in their last characters, so none is a
      suffix of another's. */
  lemma StyleOptionsDistinct(s: Styling, t: Styling)
    requires s != t
    ensures !HasSuffix(StyleOption(s), StyleOption(t))
  {
    var a, b := StyleOption(s), StyleOption(t);
    if |b| == |a| {
      assert a[9..] == StyleFlag(s) && b[9..] == StyleFlag(t);
      assert a[|a| - |b|..] == a != b;
    } else if |b| < |a| {
      assert a[|a| - |b|..][0] == a[1] == '-' != b[0];
    }
  }

  /** A name followed by a style option splits back into that name and style. */
  lemma SplitStyleRoundTrip(name: string, s: Styling)
    ensures SplitStyle(name + StyleOption(s)) == Some((name, s))
  {
    var middle := name + StyleOption(s);
    forall t: Styling | t != s
      ensures !HasSuffix(middle, StyleOption(t))
    {
      SuffixOfConcat(name, StyleOption(s), StyleOption(s));
      if HasSuffix(middle, StyleOption(t)) {
        if |StyleOption(t)| <= |StyleOption(s)| {
          SuffixesNest(middle, StyleOption(s), StyleOption(t));
          StyleOptionsDistinct(s, t);
        } else {
          SuffixesNest(middle, StyleOption(t), StyleOption(s));
          StyleOptionsDistinct(t, s);
        }
      }
    }
    SuffixOfConcat(name, StyleOption(s), StyleOption(s));
  }

  /** The generator command reads back as the name and styling that built it. */
  lemma GenerateRoundTrip(name: string, s: Styling)
    ensures ParseGenerateCommand(GenerateCommand(name, s)) == Some((name, s))
  {
    GenerateCommandShape(name, s);
    SplitStyleRoundTrip(name, s);
  }

  /** Different names or stylings give different generator commands. */
  lemma GenerateInjective(n1: string, s1: Styling, n2: string, s2: Styling)
    ensures GenerateCommand(n1, s1) == GenerateCommand(n2, s2) ==> n1 == n2 && s1 == s2
  {
    GenerateRoundTrip(n1, s1);
    GenerateRoundTrip(n2, s2);
  }

  /** The install command for the extras, space-joined in the order given. */
  function InstallCommand(extras: seq<string>): string
  {
    InstallPrefix + Join(extras, ' ')
  }

  /** Recovers the package list from an install command. */
  function ParseInstallCommand(cmd: string): (r: Option<seq<string>>)
    ensures r.Some? ==> |r.value| > 0 && InstallCommand(r.value) == cmd
  {
    if !HasPrefix(cmd, InstallPrefix) then None
    else
      var pieces := Split(cmd[|InstallPrefix|..], ' ');
      SplitJoinRoundTrip(cmd[|InstallPrefix|..], ' ');
      assert cmd == cmd[..|InstallPrefix|] + cmd[|InstallPrefix|..];
      Some(pieces)
  }

  /** The install command reads back as the same packages in the same order,
      provided there is at least one and none contains a space. */
  lemma InstallRoundTrip(extras: seq<string>)
    requires |extras| > 0
    requires forall i :: 0 <= i < |extras| ==> ' ' !in extras[i]
    ensures ParseInstallCommand(InstallCommand(extras)) == Some(extras)
  {
    PrefixOfConcat(InstallPrefix, Join(extras, ' '));
    JoinSplitRoundTrip(extras, ' ');
  }

  /** The generator command and the install command can never be confused. */
  lemma CommandsDistinct(name: string, s: Styling, extras: seq<string>)
    ensures GenerateCommand(name, s) != InstallCommand(extras)
    ensures !HasPrefix(GenerateCommand(name, s), InstallPrefix)
  {
    var g := GenerateCommand(name, s);
    assert g[..|GeneratorPrefix|] == GeneratorPrefix;
    assert g[2] == 'x';
    assert InstallCommand(extras)[2] == 'm';
  }

  /** Two ticked extras give one install command listing both, in order. */
  lemma InstallExample()
    ensures InstallCommand(["bootstrap", "tailwindcss"]) == "npm install bootstrap tailwindcss"
  {
    assert Join(["bootstrap", "tailwindcss"], ' ') == "bootstrap" + [' '] + "tailwindcss";
  }
}
