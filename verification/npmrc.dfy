/** The `.npmrc` builder: registry answers in, ordered `key=value` lines out,
    and the file content those lines make once joined with line breaks. */
module Npmrc {
  import opened Results
  import opened Text
  import opened Catalogue

  /** The answers to the four registry questions. */
  datatype RegistryAnswers = RegistryAnswers(registry: string, saveExact: bool, audit: bool, scope: string)

  /** What the registry questions yield when every default is accepted. */
  const DefaultRegistryAnswers :=
    RegistryAnswers(DefaultNpmConfig.registry, DefaultNpmConfig.saveExact, DefaultNpmConfig.audit, "")

  /** The four settings written with constant values. */
  const FixedLines: seq<string> := ["strict-ssl=true", "package-lock=true", "fund=false", "progress=false"]

  /** The line routing the organisation scope to the chosen registry. */
  function ScopeLine(scope: string, url: string): string
  {
    "@" + scope + (":registry=" + url)
  }

  /** The configuration lines, in file order: seven settings, then the scope
      line when a scope was given. An empty scope is falsy and adds nothing. */
  function Lines(a: RegistryAnswers): seq<string>
  {
    var settings := [
      "registry=" + a.registry,
      "save-exact=" + BoolText(a.saveExact),
      "audit=" + BoolText(a.audit)
    ] + FixedLines;
    if a.scope != "" then settings + [ScopeLine(a.scope, a.registry)] else settings
  }

  /** The file has seven lines without a scope and eight with one: the
      registry URL, the two booleans rendered verbatim, the four constant
      settings, then the scope line pointing at the same URL. */
  lemma LinesLayout(a: RegistryAnswers)
    ensures |Lines(a)| == (if a.scope == "" then 7 else 8)
    ensures Lines(a)[0] == "registry=" + a.registry
    ensures Lines(a)[1] == "save-exact=" + BoolText(a.saveExact)
    ensures Lines(a)[2] == "audit=" + BoolText(a.audit)
    ensures Lines(a)[3..7] == FixedLines
    ensures a.scope != "" ==> Lines(a)[7] == ScopeLine(a.scope, a.registry)
  {
  }

  /** The written file's content. */
  function Content(a: RegistryAnswers): string
  {
    Join(Lines(a), '\n')
  }

  /** The scope named by a scope line for the given registry URL, if the line is one. */
  function ReadScope(line: string, url: string): (scope: Option<string>)
    ensures scope.Some? ==> scope.value != "" && line == ScopeLine(scope.value, url)
  {
    var tail := ":registry=" + url;
    if |line| > 1 + |tail| && line[0] == '@' && HasSuffix(line, tail) then
      var s := line[1..|line| - |tail|];
      Recompose(line, 1, |line| - |tail|);
      assert line[..1] == "@";
      Some(s)
    else None
  }

  /** A scope line reads back as its scope. */
  lemma ReadScopeLine(scope: string, url: string)
    requires scope != ""
    ensures ReadScope(ScopeLine(scope, url), url) == Some(scope)
  {
    var tail := ":registry=" + url;
    var line := ScopeLine(scope, url);
    Framed("@", scope, tail);
    assert line[0] == '@';
  }

  /** The boolean set by a `key=true` or `key=false` line. */
  function ReadFlag(line: string, key: string): (b: Option<bool>)
    ensures b.Some? ==> line == key + BoolText(b.value)
  {
    match ValueAfter(line, key)
    case None => None
    case Some(t) => ReadBool(t)
  }

  /** Reads configuration lines back into the answers that produce them. */
  function ReadLines(lines: seq<string>): (r: Option<RegistryAnswers>)
    ensures r.Some? ==> Lines(r.value) == lines
  {
    if |lines| != 7 && |lines| != 8 then None
    else
      var url := ValueAfter(lines[0], "registry=");
      var saveExact := ReadFlag(lines[1], "save-exact=");
      var audit := ReadFlag(lines[2], "audit=");
      var scope := if |lines| == 7 then Some("") else if url.Some? then ReadScope(lines[7], url.value) else None;
      if url.None? || saveExact.None? || audit.None? || lines[3..7] != FixedLines || scope.None? then None
      else
        var a := RegistryAnswers(url.value, saveExact.value, audit.value, scope.value);
        assert Lines(a) == lines by {
          LinesLayout(a);
          var l := Lines(a);
          assert l[..3] == lines[..3];
          assert l[7..] == lines[7..];
          Recompose(l, 3, 7);
          Recompose(lines, 3, 7);
        }
        Some(a)
  }

  /** Reads a configuration file's content back into answers. */
  function Parse(content: string): Option<RegistryAnswers>
  {
    ReadLines(Split(content, '\n'))
  }

  /** Reading the lines back yields the answers that produced them. */
  lemma LinesRoundTrip(a: RegistryAnswers)
    ensures ReadLines(Lines(a)) == Some(a)
  {
    ValueAfterConcat("registry=", a.registry);
    ValueAfterConcat("save-exact=", BoolText(a.saveExact));
    ValueAfterConcat("audit=", BoolText(a.audit));
    if a.scope != "" {
      ReadScopeLine(a.scope, a.registry);
    }
  }

  /** When neither the URL nor the scope contains a line break, no configuration line does. */
  lemma {:induction false} NoLineBreakInLines(a: RegistryAnswers)
    requires '\n' !in a.registry && '\n' !in a.scope
    ensures forall i :: 0 <= i < |Lines(a)| ==> '\n' !in Lines(a)[i]
  {
    var lines := Lines(a);
    assert '\n' !in "true" && '\n' !in "false";
    assert '\n' !in BoolText(a.saveExact) && '\n' !in BoolText(a.audit);
    assert forall j :: 0 <= j < |FixedLines| ==> '\n' !in FixedLines[j];
    forall i | 0 <= i < |lines|
      ensures '\n' !in lines[i]
    {
      if 3 <= i < 7 {
        assert lines[i] == lines[3..7][i - 3];
      }
    }
  }

  /** The written file reads back as the answers that produced it, as long as
      neither the URL nor the scope contains a line break. */
  lemma ContentRoundTrip(a: RegistryAnswers)
    requires '\n' !in a.registry && '\n' !in a.scope
    ensures Parse(Content(a)) == Some(a)
  {
    NoLineBreakInLines(a);
    JoinSplitRoundTrip(Lines(a), '\n');
    LinesRoundTrip(a);
  }

  /** Different answers give different lines. */
  lemma LinesInjective(a: RegistryAnswers, b: RegistryAnswers)
    ensures Lines(a) == Lines(b) ==> a == b
  {
    LinesRoundTrip(a);
    LinesRoundTrip(b);
  }

  /** The four constant settings do not depend on the answers, and their
      values agree with the defaults table. */
  lemma FixedLinesIndependent(a: RegistryAnswers, b: RegistryAnswers)
    ensures Lines(a)[3..7] == Lines(b)[3..7]
    ensures Lines(a)[3..7] == [
      "strict-ssl=" + BoolText(DefaultNpmConfig.strictSsl),
      "package-lock=" + BoolText(DefaultNpmConfig.packageLock),
      "fund=" + BoolText(DefaultNpmConfig.fund),
      "progress=" + BoolText(DefaultNpmConfig.progress)]
  {
    assert "strict-ssl=" + "true" == "strict-ssl=true";
    assert "package-lock=" + "true" == "package-lock=true";
    assert "fund=" + "false" == "fund=false";
    assert "progress=" + "false" == "progress=false";
  }

  /** The scope setting only ever adds one last line, using the first line's URL,
      and leaves the seven settings as they are without it. */
  lemma ScopeAppendsOneLine(a: RegistryAnswers)
    requires a.scope != ""
    ensures Lines(a) == Lines(a.(scope := "")) + [ScopeLine(a.scope, a.registry)]
    ensures Lines(a)[0] == "registry=" + a.registry && Lines(a)[7] == "@" + a.scope + ":registry=" + a.registry
  {
  }

  /** The file written when every registry default is accepted. */
  const DefaultLines: seq<string> := ["registry=https://registry.npmjs.org/", "save-exact=true", "audit=true",
                                      "strict-ssl=true", "package-lock=true", "fund=false", "progress=false"]

  /** Accepting every registry default yields exactly the seven default lines. */
  lemma DefaultRegistryLines()
    ensures Lines(DefaultRegistryAnswers) == DefaultLines
  {
    assert "registry=" + "https://registry.npmjs.org/" == "registry=https://registry.npmjs.org/";
    assert "save-exact=" + "true" == "save-exact=true";
    assert "audit=" + "true" == "audit=true";
  }
}
