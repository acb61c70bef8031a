/**
 Graph references of the form graph@branch#version: parsing, printing, and the suggestion made
 for a reference that carries an account name.
 */
module GraphRef {
  import opened Common

  datatype Result = Ok(value: Ref) | Err(message: string)

  datatype Ref =
    | LatestProductionVersion(graphSlug: string)
    | LatestVersion(graphSlug: string, branchName: string)
    | Id(graphSlug: string, branchName: string, versionName: string)
  {
    function Slug(): string {
      graphSlug
    }

    function Branch(): Option<string> {
      match this
      case LatestProductionVersion(_) => None
      case LatestVersion(_, branch) => Some(branch)
      case Id(_, branch, _) => Some(branch)
    }

    function Version(): Option<string> {
      match this
      case Id(_, _, version) => Some(version)
      case _ => None
    }
  }

  /** The parts before and after the first separator. */
  function SplitOnce(s: string, separator: char): Option<(string, string)> {
    if s == "" then None
    else if s[0] == separator then Some(("", s[1..]))
    else
      var rest := SplitOnce(s[1..], separator);
      if rest.None? then None else Some(([s[0]] + rest.value.0, rest.value.1))
  }

  lemma {:induction false} SplitOnceSplits(s: string, separator: char)
    ensures SplitOnce(s, separator).Some? <==> separator in s
    ensures SplitOnce(s, separator).Some? ==>
              var (before, after) := SplitOnce(s, separator).value;
              separator !in before && s == before + [separator] + after
  {
    if s != "" && s[0] != separator {
      SplitOnceSplits(s[1..], separator);
      assert s == [s[0]] + s[1..];
    }
  }

  lemma {:induction false} SplitOnceJoins(before: string, separator: char, after: string)
    requires separator !in before
    ensures SplitOnce(before + [separator] + after, separator) == Some((before, after))
  {
    var s := before + [separator] + after;
    if before == "" {
      assert s[0] == separator && s[1..] == after;
    } else {
      SplitOnceJoins(before[1..], separator, after);
      assert s[0] == before[0] && s[1..] == before[1..] + [separator] + after;
      assert before == [before[0]] + before[1..];
    }
  }

  function Parts(s: string): Ref {
    match SplitOnce(s, '@')
    case None => LatestProductionVersion(s)
    case Some((slug, rest)) =>
      match SplitOnce(rest, '#')
      case None => LatestVersion(slug, rest)
      case Some((branch, version)) => Id(slug, branch, version)
  }

  const MISSING := "The graph name is missing."
  const ACCOUNT := "Graph ref should not contain an account name."
  const DID_YOU_MEAN := " Did you mean: \""

  /** The slug behind the account name, with the branch and version that were given. */
  function Suggestion(graph: Ref): Option<string> {
    var split := SplitOnce(graph.Slug(), '/');
    if split.None? || split.value.1 == "" then None
    else Some(split.value.1 + Suffix(graph))
  }

  function Suffix(graph: Ref): string {
    (match graph.Branch() case Some(branch) => "@" + branch case None => "") +
    (match graph.Version() case Some(version) => "#" + version case None => "")
  }

  function FromStr(s: string): Result {
    var graph := Parts(s);
    if graph.Slug() == "" then Err(MISSING)
    else if '/' in graph.Slug() then
      Err(ACCOUNT + match Suggestion(graph) case Some(text) => DID_YOU_MEAN + text + "\"" case None => "")
    else Ok(graph)
  }

  function Display(graph: Ref): string {
    graph.Slug() + Suffix(graph)
  }

  // ----- Round trips -----

  lemma DisplayShapes(slug: string, branch: string, version: string)
    ensures Display(LatestProductionVersion(slug)) == slug
    ensures Display(LatestVersion(slug, branch)) == slug + ['@'] + branch
    ensures Display(Id(slug, branch, version)) == slug + ['@'] + (branch + ['#'] + version)
  {
  }

  /** The parts of a string, put together again, are the string. */
  lemma PartsRejoin(s: string)
    ensures Display(Parts(s)) == s
  {
    SplitOnceSplits(s, '@');
    if SplitOnce(s, '@').None? {
      DisplayShapes(s, "", "");
    } else {
      var (slug, rest) := SplitOnce(s, '@').value;
      SplitOnceSplits(rest, '#');
      if SplitOnce(rest, '#').None? {
        DisplayShapes(slug, rest, "");
      } else {
        var (branch, version) := SplitOnce(rest, '#').value;
        DisplayShapes(slug, branch, version);
      }
    }
  }

  /** Every accepted string prints back to itself. */
  lemma ParseThenPrint(s: string)
    requires FromStr(s).Ok?
    ensures Display(FromStr(s).value) == s
  {
    PartsRejoin(s);
  }

  /** The references that can be written down. */
  predicate Printable(graph: Ref) {
    && graph.Slug() != "" && '@' !in graph.Slug() && '/' !in graph.Slug()
    && (graph.Branch().Some? ==> '#' !in graph.Branch().value)
  }

  lemma PartsOfPrinted(graph: Ref)
    requires '@' !in graph.Slug() && (graph.Branch().Some? ==> '#' !in graph.Branch().value)
    ensures Parts(Display(graph)) == graph
  {
    match graph
    case LatestProductionVersion(slug) =>
      DisplayShapes(slug, "", "");
      SplitOnceSplits(slug, '@');
    case LatestVersion(slug, branch) =>
      DisplayShapes(slug, branch, "");
      SplitOnceJoins(slug, '@', branch);
      SplitOnceSplits(branch, '#');
    case Id(slug, branch, version) =>
      DisplayShapes(slug, branch, version);
      SplitOnceJoins(slug, '@', branch + ['#'] + version);
      SplitOnceJoins(branch, '#', version);
  }

  /** A printed reference parses back to the same variant and parts exactly if it is printable. */
  lemma PrintThenParse(graph: Ref)
    ensures FromStr(Display(graph)) == Ok(graph) <==> Printable(graph)
  {
    if Printable(graph) {
      PartsOfPrinted(graph);
    } else if FromStr(Display(graph)) == Ok(graph) {
      PartsAreFree(Display(graph));
    }
  }

  /** Parsed parts are free of the separators that end them. */
  lemma PartsAreFree(s: string)
    ensures '@' !in Parts(s).Slug() && (Parts(s).Branch().Some? ==> '#' !in Parts(s).Branch().value)
  {
    SplitOnceSplits(s, '@');
    if SplitOnce(s, '@').Some? {
      SplitOnceSplits(SplitOnce(s, '@').value.1, '#');
    }
  }

  /** The accepted strings are exactly the printed forms of printable references. */
  lemma AcceptedExactly(s: string)
    ensures FromStr(s).Ok? <==> exists graph :: Printable(graph) && Display(graph) == s
  {
    if FromStr(s).Ok? {
      ParseThenPrint(s);
      PartsAreFree(s);
      assert Printable(FromStr(s).value) && Display(FromStr(s).value) == s;
    }
    if graph :| Printable(graph) && Display(graph) == s {
      PrintThenParse(graph);
    }
  }

  /** Distinct printable references have distinct printed forms. */
  lemma PrintingIsInjective(a: Ref, b: Ref)
    requires Printable(a) && Printable(b) && Display(a) == Display(b)
    ensures a == b
  {
    PrintThenParse(a);
    PrintThenParse(b);
  }

  // ----- Rejected references -----

  /** The suggestion is what was written, without the account name. */
  lemma SuggestionDropsAccount(s: string)
    requires Suggestion(Parts(s)).Some?
    ensures SplitOnce(s, '/').Some?
    ensures SplitOnce(s, '/').value.1 == Suggestion(Parts(s)).value
    ensures s == SplitOnce(s, '/').value.0 + "/" + Suggestion(Parts(s)).value
  {
    var graph := Parts(s);
    PartsRejoin(s);
    SplitOnceSplits(graph.Slug(), '/');
    var (account, slug) := SplitOnce(graph.Slug(), '/').value;
    assert s == account + ['/'] + (slug + Suffix(graph));
    SplitOnceJoins(account, '/', slug + Suffix(graph));
  }

  /** A suggestion is accepted exactly when the slug it gives holds no further account name. */
  lemma SuggestionIsAccepted(s: string)
    requires Suggestion(Parts(s)).Some?
    ensures FromStr(Suggestion(Parts(s)).value).Ok? <==> '/' !in SplitOnce(Parts(s).Slug(), '/').value.1
  {
    var graph := Parts(s);
    PartsAreFree(s);
    SplitOnceSplits(graph.Slug(), '/');
    var (account, slug) := SplitOnce(graph.Slug(), '/').value;
    var better := match graph
      case LatestProductionVersion(_) => LatestProductionVersion(slug)
      case LatestVersion(_, branch) => LatestVersion(slug, branch)
      case Id(_, branch, version) => Id(slug, branch, version);
    assert '@' !in slug by {
      assert graph.Slug() == account + ['/'] + slug;
      assert forall c | c in slug :: c in graph.Slug();
    }
    assert Suggestion(graph).value == Display(better);
    PartsOfPrinted(better);
  }
}
