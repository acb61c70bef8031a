/**
 What is read from directives, told by the positions of directives and arguments in the document and by the
 names that are written there.
 */
module FederatedReadings {
  import opened Common
  import opened TypeRefs
  import opened FederatedModel
  import opened FederatedJoin
  import opened FederatedRecords
  import opened FederatedLayout
  import opened FederatedSelecting
  import opened FederatedClosing

  // ----- What a field provides and requires -----

  /** The directive has a selection in a subgraph that the field is not external to. */
  ghost predicate SelectsIn(
    graphs: map<string, nat>, parse: Parser, argument: string, d: DirectiveNode, x: NodeFields)
  {
    && d.name == "join__field" && !FirstArgument(d, "external", Boolean(true)) && NamesGraph(graphs, d, x.graph)
    && exists text :: FirstText(d, argument, text) && parse(text) == Some(x.items)
  }

  lemma SelectedOne(graphs: map<string, nat>, parse: Parser, argument: string, d: DirectiveNode)
    ensures var items := SelectionIn(parse, TextArgument(d, argument));
            if Active(graphs, d) && items.Some?
            then SelectsIn(graphs, parse, argument, d, NodeFields(GraphOf(graphs, d).value, items.value))
            else forall x :: !SelectsIn(graphs, parse, argument, d, x)
  {
    ArgumentFound(d, "external");
    GraphNamed(graphs, d);
    TextFound(d, argument);
    var text := TextArgument(d, argument);
    if text.Some? {
      assert FirstText(d, argument, text.value);
    }
  }

  lemma {:induction false} SelectedIsWritten(
    graphs: map<string, nat>, parse: Parser, directives: seq<DirectiveNode>, argument: string, n: nat)
    requires n <= |directives|
    ensures Sifted(directives[..n], (d, x: NodeFields) => SelectsIn(graphs, parse, argument, d, x),
                   Selected(graphs, parse, directives, argument, n))
  {
    var selects := (d, x: NodeFields) => SelectsIn(graphs, parse, argument, d, x);
    if n == 0 {
      SiftedNone(selects);
    } else {
      var before, d := Selected(graphs, parse, directives, argument, n - 1), directives[n - 1];
      SelectedIsWritten(graphs, parse, directives, argument, n - 1);
      SelectedOne(graphs, parse, argument, d);
      assert directives[..n] == directives[..n - 1] + [d];
      var items := SelectionIn(parse, TextArgument(d, argument));
      if Active(graphs, d) && items.Some? {
        SiftedOne(directives[..n - 1], d, selects, before, NodeFields(GraphOf(graphs, d).value, items.value));
      } else {
        SiftedSkip(directives[..n - 1], d, selects, before);
      }
    }
  }

  // ----- The subgraphs of a type -----

  ghost predicate TypeIn(graphs: map<string, nat>, d: DirectiveNode, graph: nat) {
    d.name == "join__type" && NamesGraph(graphs, d, graph)
  }

  /** A type with a key. */
  ghost predicate HasKey(directives: seq<DirectiveNode>) {
    exists i :: 0 <= i < |directives| && directives[i].name == "join__type" && HasArgument(directives[i], "key")
  }

  lemma EntityHasKey(directives: seq<DirectiveNode>)
    ensures IsEntity(directives) <==> HasKey(directives)
  {
    forall i | 0 <= i < |directives|
      ensures IsKeyed(directives[i]) <==> directives[i].name == "join__type" && HasArgument(directives[i], "key")
    {
      ArgumentFound(directives[i], "key");
    }
    if i :| 0 <= i < |directives| && IsKeyed(directives[i]) {
      assert directives[i].name == "join__type" && HasArgument(directives[i], "key");
    }
    if i :| 0 <= i < |directives| && directives[i].name == "join__type" && HasArgument(directives[i], "key") {
      assert IsKeyed(directives[i]);
    }
  }

  lemma {:induction false} TypeGraphsAreWritten(graphs: map<string, nat>, directives: seq<DirectiveNode>, n: nat)
    requires n <= |directives|
    ensures Sifted(directives[..n], (d, graph: nat) => TypeIn(graphs, d, graph), TypeGraphs(graphs, directives, n))
  {
    var named := (d, graph: nat) => TypeIn(graphs, d, graph);
    if n == 0 {
      SiftedNone(named);
    } else {
      var before, d := TypeGraphs(graphs, directives, n - 1), directives[n - 1];
      TypeGraphsAreWritten(graphs, directives, n - 1);
      GraphNamed(graphs, d);
      assert directives[..n] == directives[..n - 1] + [d];
      if d.name == JOIN_TYPE && GraphOf(graphs, d).Some? {
        SiftedOne(directives[..n - 1], d, named, before, GraphOf(graphs, d).value);
      } else {
        SiftedSkip(directives[..n - 1], d, named, before);
      }
    }
  }

  /** The fields of a type with a key have no default subgraphs; those of another type have all its subgraphs. */
  lemma DefaultsAreWritten(graphs: map<string, nat>, directives: seq<DirectiveNode>)
    ensures HasKey(directives) ==> DefaultGraphs(graphs, directives) == []
    ensures !HasKey(directives) ==>
              Sifted(directives, (d, graph: nat) => TypeIn(graphs, d, graph), DefaultGraphs(graphs, directives))
    ensures DefaultGraphsOk(graphs, directives) <==>
            || HasKey(directives)
            || forall i, name | 0 <= i < |directives| && directives[i].name == "join__type"
                                && FirstArgument(directives[i], "graph", Enum(name)) :: name in graphs
  {
    EntityHasKey(directives);
    TypeGraphsAreWritten(graphs, directives, |directives|);
    assert directives[..|directives|] == directives;
    forall i | 0 <= i < |directives|
      ensures GraphKnown(graphs, directives[i]) <==>
              forall name | FirstArgument(directives[i], "graph", Enum(name)) :: name in graphs
    {
      GraphNamed(graphs, directives[i]);
    }
  }

  /** Where a field is resolved, what it provides and what it requires, by what its directives say. */
  lemma ExtraIsWritten(
    graphs: map<string, nat>, parse: Parser, defaults: seq<nat>, directives: seq<DirectiveNode>)
    ensures var e := ExtraOf(graphs, parse, defaults, directives);
            && (|| (e.resolvableIn != [] && Sifted(directives, (d, graph: nat) => PlacedIn(graphs, d, graph), e.resolvableIn))
                || (e.resolvableIn == defaults && Sifted(directives, (d, graph: nat) => PlacedIn(graphs, d, graph), [])))
            && Sifted(directives, (d, x: NodeFields) => SelectsIn(graphs, parse, "provides", d, x), e.provided)
            && Sifted(directives, (d, x: NodeFields) => SelectsIn(graphs, parse, "requires", d, x), e.required)
  {
    hide Sifted;
    assert directives[..|directives|] == directives;
    ResolvedWherePlaced(graphs, directives, |directives|);
    SelectedIsWritten(graphs, parse, directives, PROVIDES, |directives|);
    SelectedIsWritten(graphs, parse, directives, REQUIRES, |directives|);
  }

  // ----- Keys -----

  /** The selection that the text of an argument holds, if it has one. */
  ghost predicate ParsedFrom(parse: Parser, d: DirectiveNode, argument: string, r: Option<seq<SelectionNode>>) {
    forall items :: r == Some(items) <==> exists text :: FirstText(d, argument, text) && parse(text) == Some(items)
  }

  lemma SelectionParsed(parse: Parser, d: DirectiveNode, argument: string)
    ensures ParsedFrom(parse, d, argument, SelectionIn(parse, TextArgument(d, argument)))
  {
    TextFound(d, argument);
    var text := TextArgument(d, argument);
    if text.Some? {
      assert FirstText(d, argument, text.value);
    }
  }

  /** The directive is a key: the subgraph, the selection, and the two flags with their defaults. */
  ghost predicate KeyIn(graphs: map<string, nat>, parse: Parser, d: DirectiveNode, k: KeySource) {
    && d.name == "join__type" && NamesGraph(graphs, d, k.graph)
    && (ParsedFrom(parse, d, "key", Some(k.items)) || (k.items == [] && ParsedFrom(parse, d, "key", None)))
    && (k.isInterfaceObject <==> FirstArgument(d, "isInterfaceObject", Boolean(true)))
    && (k.resolvable <==> !FirstArgument(d, "resolvable", Boolean(false)))
  }

  lemma KeyIsWritten(graphs: map<string, nat>, parse: Parser, d: DirectiveNode)
    ensures if d.name == JOIN_TYPE && GraphOf(graphs, d).Some? then KeyIn(graphs, parse, d, KeyOf(graphs, parse, d))
            else forall k :: !KeyIn(graphs, parse, d, k)
  {
    hide ParsedFrom;
    GraphNamed(graphs, d);
    SelectionParsed(parse, d, "key");
    ArgumentFound(d, "isInterfaceObject");
    ArgumentFound(d, "resolvable");
  }

  function KeysUnder(c: ClosingSource, on: Definition): seq<KeySource> {
    if on in c.keys then c.keys[on] else []
  }

  predicate OwnsFields(on: Definition) {
    on.Object? || on.Interface?
  }

  lemma {:induction false} KeysOnType(
    c: ClosingSource, graphs: map<string, nat>, parse: Parser, on: Definition, before: seq<DirectiveNode>,
    directives: seq<DirectiveNode>, n: nat)
    requires n <= |directives| && OwnsFields(on)
    requires Sifted(before, (d, k: KeySource) => KeyIn(graphs, parse, d, k), KeysUnder(c, on))
    ensures Sifted(before + directives[..n], (d, k: KeySource) => KeyIn(graphs, parse, d, k),
                   KeysUnder(WithKeys(c, graphs, parse, on, directives, n), on))
  {
    hide Sifted, KeyIn, KeyOf;
    var keys := (d, k: KeySource) => KeyIn(graphs, parse, d, k);
    if n == 0 {
      assert before + directives[..0] == before;
    } else {
      var c', d := WithKeys(c, graphs, parse, on, directives, n - 1), directives[n - 1];
      KeysOnType(c, graphs, parse, on, before, directives, n - 1);
      KeyIsWritten(graphs, parse, d);
      assert before + directives[..n] == before + directives[..n - 1] + [d];
      if d.name == JOIN_TYPE && GraphOf(graphs, d).Some? {
        SiftedOne(before + directives[..n - 1], d, keys, KeysUnder(c', on), KeyOf(graphs, parse, d));
      } else {
        SiftedSkip(before + directives[..n - 1], d, keys, KeysUnder(c', on));
      }
    }
  }

  lemma {:induction false} KeysElsewhere(
    c: ClosingSource, graphs: map<string, nat>, parse: Parser, on: Definition, directives: seq<DirectiveNode>,
    other: Definition, n: nat)
    requires n <= |directives| && (other != on || !OwnsFields(on))
    ensures KeysUnder(WithKeys(c, graphs, parse, on, directives, n), other) == KeysUnder(c, other)
  {
    if n > 0 {
      KeysElsewhere(c, graphs, parse, on, directives, other, n - 1);
    }
  }

  /** The directives on the definitions of a type, among the first `n`; extensions are not looked at. */
  function DirectivesOn(
    names: map<string, Definition>, document: seq<DefinitionNode>, on: Definition, n: nat): seq<DirectiveNode>
    requires n <= |document|
  {
    if n == 0 then []
    else
      var before, d := DirectivesOn(names, document, on, n - 1), document[n - 1];
      if d.TypeDefinition? && !d.ty.extend && d.ty.name in names && names[d.ty.name] == on then before + d.ty.directives
      else before
  }

  lemma {:induction false} KeysInDocument(
    c: ClosingSource, schema: Schema, parse: Parser, document: seq<DefinitionNode>, on: Definition, n: nat)
    requires n <= |document| && on !in c.keys
    ensures OwnsFields(on) ==>
              Sifted(DirectivesOn(schema.scope.names, document, on, n),
                     (d, k: KeySource) => KeyIn(schema.scope.graphs, parse, d, k),
                     KeysUnder(KeysClosed(c, schema, parse, document, n), on))
    ensures !OwnsFields(on) ==> KeysUnder(KeysClosed(c, schema, parse, document, n), on) == []
  {
    hide Sifted, KeyIn;
    var graphs := schema.scope.graphs;
    if n == 0 {
      SiftedNone((d, k: KeySource) => KeyIn(graphs, parse, d, k));
    } else {
      KeysInDocument(c, schema, parse, document, on, n - 1);
      var before, d := KeysClosed(c, schema, parse, document, n - 1), document[n - 1];
      if IsType(d) && d.ty.name in schema.scope.names {
        var target, directives := schema.scope.names[d.ty.name], d.ty.directives;
        if target == on && OwnsFields(on) {
          KeysOnType(before, graphs, parse, on, DirectivesOn(schema.scope.names, document, on, n - 1), directives,
                     |directives|);
          assert directives[..|directives|] == directives;
        } else {
          KeysElsewhere(before, graphs, parse, target, directives, on, |directives|);
        }
      }
    }
  }

  // ----- Authorizations on fields -----

  /** A directive on a field, with the type that lists the field and the type that it leads to. */
  datatype Site = Site(field: nat, on: Definition, leads: Definition, d: DirectiveNode)

  /** The authorization holds what the arguments of these names say. */
  ghost predicate AuthorizationIs(
    parse: Parser, on: Definition, leads: Definition, d: DirectiveNode, a: AuthorizedSource)
  {
    && a.on == on && a.leads == leads
    && ParsedFrom(parse, d, "fields", a.items) && ParsedFrom(parse, d, "node", a.node)
    && ParsedFrom(parse, d, "arguments", a.arguments)
    && forall v :: a.metadata == Some(v) <==> FirstArgument(d, "metadata", v)
  }

  ghost predicate AuthorizesAt(parse: Parser, site: Site, x: (nat, AuthorizedSource)) {
    site.d.name == "authorized" && x.0 == site.field && AuthorizationIs(parse, site.on, site.leads, site.d, x.1)
  }

  lemma AuthorizationRead(parse: Parser, on: Definition, leads: Definition, d: DirectiveNode)
    ensures AuthorizationIs(parse, on, leads, d, FieldAuthorized(parse, on, leads, d))
  {
    hide ParsedFrom;
    SelectionParsed(parse, d, "fields");
    SelectionParsed(parse, d, "node");
    SelectionParsed(parse, d, "arguments");
    ArgumentFound(d, "metadata");
  }

  function DirectiveSites(f: nat, on: Definition, leads: Definition, directives: seq<DirectiveNode>): seq<Site> {
    seq(|directives|, i requires 0 <= i < |directives| => Site(f, on, leads, directives[i]))
  }

  /** The directives on the fields that the first `n` nodes of a type list, in order. */
  function FieldSites(schema: Schema, parent: Definition, nodes: seq<FieldNode>, n: nat): seq<Site>
    requires n <= |nodes|
  {
    if n == 0 then []
    else
      var f, leads := FieldNamed(schema, parent, nodes[n - 1].name), LeadsTo(schema, parent, nodes[n - 1].name);
      FieldSites(schema, parent, nodes, n - 1)
      + if f.Some? && leads.Some? then DirectiveSites(f.value, parent, leads.value, nodes[n - 1].directives) else []
  }

  /** Those on all fields of the first `n` definitions. */
  function DocumentSites(schema: Schema, document: seq<DefinitionNode>, n: nat): seq<Site>
    requires n <= |document|
  {
    if n == 0 then []
    else
      var before, d := DocumentSites(schema, document, n - 1), document[n - 1];
      if d.TypeDefinition? && !d.ty.extend && d.ty.name in schema.scope.names then
        match d.ty.kind
        case ObjectKind(_, nodes) => before + FieldSites(schema, schema.scope.names[d.ty.name], nodes, |nodes|)
        case InterfaceKind(_, nodes) => before + FieldSites(schema, schema.scope.names[d.ty.name], nodes, |nodes|)
        case _ => before
      else before
  }

  /** Every authorization so far belongs to the field that it is listed with. */
  predicate Aligned(c: ClosingSource) {
    |c.byField| == |c.authorized| && forall i | 0 <= i < |c.byField| :: c.byField[i].1 == i
  }

  function Pairs(c: ClosingSource): seq<(nat, AuthorizedSource)>
    requires Aligned(c)
  {
    seq(|c.byField|, i requires 0 <= i < |c.byField| => (c.byField[i].0, c.authorized[i]))
  }

  ghost predicate FieldsAuthorizedBy(parse: Parser, sites: seq<Site>, c: ClosingSource) {
    && Aligned(c) && c.byObject == [] && c.byInterface == [] && c.keys == map[]
    && Sifted(sites, (site, x: (nat, AuthorizedSource)) => AuthorizesAt(parse, site, x), Pairs(c))
  }

  lemma {:induction false} SitesAuthorized(
    c: ClosingSource, parse: Parser, parent: Definition, leads: Definition, f: nat, directives: seq<DirectiveNode>,
    before: seq<Site>, n: nat)
    requires n <= |directives| && FieldsAuthorizedBy(parse, before, c)
    ensures FieldsAuthorizedBy(parse, before + DirectiveSites(f, parent, leads, directives)[..n],
                               DirectivesAuthorized(c, parse, parent, leads, f, directives, n))
  {
    hide Sifted, AuthorizationIs, FieldAuthorized;
    var sites, authorizes := DirectiveSites(f, parent, leads, directives),
      (site, x: (nat, AuthorizedSource)) => AuthorizesAt(parse, site, x);
    if n == 0 {
      assert before + sites[..0] == before;
    } else {
      SitesAuthorized(c, parse, parent, leads, f, directives, before, n - 1);
      var c', d, site := DirectivesAuthorized(c, parse, parent, leads, f, directives, n - 1), directives[n - 1],
        sites[n - 1];
      assert before + sites[..n] == before + sites[..n - 1] + [site];
      if d.name == AUTHORIZED {
        var a := FieldAuthorized(parse, parent, leads, d);
        AuthorizationRead(parse, parent, leads, d);
        SiftedOne(before + sites[..n - 1], site, authorizes, Pairs(c'), (f, a));
        assert Pairs(WithAuthorized(c', f, a)) == Pairs(c') + [(f, a)];
      } else {
        SiftedSkip(before + sites[..n - 1], site, authorizes, Pairs(c'));
      }
    }
  }

  lemma {:induction false} FieldSitesAuthorized(
    c: ClosingSource, schema: Schema, parse: Parser, parent: Definition, nodes: seq<FieldNode>, before: seq<Site>, n: nat)
    requires n <= |nodes| && FieldsAuthorizedBy(parse, before, c)
    ensures FieldsAuthorizedBy(parse, before + FieldSites(schema, parent, nodes, n),
                               FieldsAuthorized(c, schema, parse, parent, nodes, n))
  {
    hide FieldsAuthorizedBy, FieldNamed, LeadsTo, DirectiveSites;
    if n == 0 {
      assert before + [] == before;
    } else {
      FieldSitesAuthorized(c, schema, parse, parent, nodes, before, n - 1);
      var so, node := FieldSites(schema, parent, nodes, n - 1), nodes[n - 1];
      var f, leads := FieldNamed(schema, parent, node.name), LeadsTo(schema, parent, node.name);
      if f.Some? && leads.Some? {
        var sites := DirectiveSites(f.value, parent, leads.value, node.directives);
        SitesLength(f.value, parent, leads.value, node.directives);
        SitesAuthorized(FieldsAuthorized(c, schema, parse, parent, nodes, n - 1), parse, parent, leads.value, f.value,
                        node.directives, before + so, |node.directives|);
        assert sites[..|node.directives|] == sites;
        assert before + so + sites == before + (so + sites);
      } else {
        assert so + [] == so;
      }
    }
  }

  lemma SitesLength(f: nat, on: Definition, leads: Definition, directives: seq<DirectiveNode>)
    ensures |DirectiveSites(f, on, leads, directives)| == |directives|
  {
  }

  /** Reading the join directives leaves the authorizations alone. */
  lemma {:induction false} JoinedKeepsAuthorized(
    c: ClosingSource, schema: Schema, parse: Parser, parent: Definition, defaults: seq<nat>, nodes: seq<FieldNode>,
    n: nat)
    requires n <= |nodes|
    ensures FieldsJoined(c, schema, parse, parent, defaults, nodes, n) ==
            c.(extras := FieldsJoined(c, schema, parse, parent, defaults, nodes, n).extras)
  {
    if n > 0 {
      JoinedKeepsAuthorized(c, schema, parse, parent, defaults, nodes, n - 1);
    }
  }

  lemma SameAuthorized(parse: Parser, sites: seq<Site>, c: ClosingSource, extras: seq<ExtraSource>)
    requires FieldsAuthorizedBy(parse, sites, c)
    ensures FieldsAuthorizedBy(parse, sites, c.(extras := extras))
  {
    hide Sifted;
    assert Pairs(c.(extras := extras)) == Pairs(c);
  }

  lemma NothingAuthorized(schema: Schema, parse: Parser)
    ensures FieldsAuthorizedBy(parse, [], StartClosing(schema))
  {
    hide Sifted;
    SiftedNone((site, x: (nat, AuthorizedSource)) => AuthorizesAt(parse, site, x));
    assert Pairs(StartClosing(schema)) == [];
  }

  lemma {:induction false} DocumentAuthorized(schema: Schema, parse: Parser, document: seq<DefinitionNode>, n: nat)
    requires n <= |document|
    ensures FieldsAuthorizedBy(parse, DocumentSites(schema, document, n), FieldsClosed(schema, parse, document, n))
  {
    hide FieldsAuthorizedBy, FieldSites, DefaultGraphs;
    if n == 0 {
      NothingAuthorized(schema, parse);
    } else {
      DocumentAuthorized(schema, parse, document, n - 1);
      var c, d, on := FieldsClosed(schema, parse, document, n - 1), document[n - 1], FieldsOn(schema, document[n - 1]);
      if on.Some? {
        var (parent, nodes) := on.value;
        var defaults := DefaultGraphs(schema.scope.graphs, d.ty.directives);
        var joined := FieldsJoined(c, schema, parse, parent, defaults, nodes, |nodes|);
        JoinedKeepsAuthorized(c, schema, parse, parent, defaults, nodes, |nodes|);
        SameAuthorized(parse, DocumentSites(schema, document, n - 1), c, joined.extras);
        FieldSitesAuthorized(joined, schema, parse, parent, nodes, DocumentSites(schema, document, n - 1), |nodes|);
      }
    }
  }

  // ----- Authorizations on types -----

  /** The first authorization on the definition of a known type. */
  ghost predicate TypeAuthorizedBy(schema: Schema, parse: Parser, d: DefinitionNode, a: AuthorizedSource) {
    && d.TypeDefinition? && !d.ty.extend && d.ty.name in schema.scope.names
    && a.on == schema.scope.names[d.ty.name] == a.leads && a.node == None && a.arguments == None
    && exists directive :: && FirstDirective(d.ty.directives, "authorized", directive)
                           && ParsedFrom(parse, directive, "fields", a.items)
                           && forall v :: a.metadata == Some(v) <==> FirstArgument(directive, "metadata", v)
  }

  lemma TypeAuthorizedOnce(schema: Schema, parse: Parser, d: DefinitionNode)
    ensures var a := Authorization(schema, d);
            if a.Some? then TypeAuthorizedBy(schema, parse, d, TypeAuthorized(parse, a.value.0, a.value.1))
            else forall x :: !TypeAuthorizedBy(schema, parse, d, x)
  {
    hide ParsedFrom;
    if d.TypeDefinition? {
      DirectiveFound(d.ty.directives, AUTHORIZED);
    }
    var a := Authorization(schema, d);
    if a.Some? {
      SelectionParsed(parse, a.value.1, "fields");
      ArgumentFound(a.value.1, "metadata");
      assert FirstDirective(d.ty.directives, "authorized", a.value.1);
    }
  }

  /** A list holds the authorizations from `base` on that are on types of one kind, each with its type. */
  ghost predicate ListsKind(
    listed: seq<(nat, nat)>, authorized: seq<AuthorizedSource>, base: nat, kind: (Definition, nat) -> bool)
  {
    && (forall i | 0 <= i < |listed| ::
          base <= listed[i].1 < |authorized| && kind(authorized[listed[i].1].on, listed[i].0))
    && (forall k: nat, id: nat | base <= k < |authorized| && kind(authorized[k].on, id) :: (id, k) in listed)
  }

  /** Authorizations on objects and on interfaces are listed with their types. */
  ghost predicate TypesListed(c: ClosingSource, base: nat) {
    && base <= |c.authorized|
    && ListsKind(c.byObject, c.authorized, base, (d, id: nat) => d == Object(id))
    && ListsKind(c.byInterface, c.authorized, base, (d, id: nat) => d == Interface(id))
  }

  lemma KindListed(
    listed: seq<(nat, nat)>, authorized: seq<AuthorizedSource>, base: nat, kind: (Definition, nat) -> bool,
    a: AuthorizedSource, more: seq<(nat, nat)>)
    requires base <= |authorized| && ListsKind(listed, authorized, base, kind)
    requires || (exists id: nat :: kind(a.on, id) && more == listed + [(id, |authorized|)]
                              && forall other: nat | kind(a.on, other) :: other == id)
             || (more == listed && forall id: nat :: !kind(a.on, id))
    ensures ListsKind(more, authorized + [a], base, kind)
  {
    var all := authorized + [a];
    forall k: nat, id: nat | base <= k < |all| && kind(all[k].on, id)
      ensures (id, k) in more
    {
      if k < |authorized| {
        assert kind(authorized[k].on, id);
        assert (id, k) in listed;
      } else {
        assert more[|listed|] == (id, k);
      }
    }
  }

  lemma ListedOnce(c: ClosingSource, base: nat, a: AuthorizedSource)
    requires TypesListed(c, base)
    ensures TypesListed(WithTypeAuthorized(c, a), base)
  {
    hide ListsKind;
    var more := WithTypeAuthorized(c, a);
    KindListed(c.byObject, c.authorized, base, (d, id: nat) => d == Object(id), a, more.byObject);
    KindListed(c.byInterface, c.authorized, base, (d, id: nat) => d == Interface(id), a, more.byInterface);
  }

  lemma NoneListed(c: ClosingSource)
    requires c.byObject == [] && c.byInterface == []
    ensures TypesListed(c, |c.authorized|)
  {
  }

  lemma {:induction false} TypesAreAuthorized(
    c: ClosingSource, schema: Schema, parse: Parser, document: seq<DefinitionNode>, n: nat)
    requires n <= |document| && c.byObject == [] && c.byInterface == []
    ensures var t := TypesAuthorized(c, schema, parse, document, n);
            && t.byField == c.byField && t.keys == c.keys && c.authorized <= t.authorized
            && TypesListed(t, |c.authorized|)
            && Sifted(document[..n], (d, a: AuthorizedSource) => TypeAuthorizedBy(schema, parse, d, a),
                      t.authorized[|c.authorized|..])
  {
    hide Sifted, Authorization, TypeAuthorized, TypesListed;
    var makes, base := (d, a: AuthorizedSource) => TypeAuthorizedBy(schema, parse, d, a), |c.authorized|;
    if n == 0 {
      SiftedNone(makes);
      NoneListed(c);
      assert document[..0] == [] && c.authorized[base..] == [];
    } else {
      TypesAreAuthorized(c, schema, parse, document, n - 1);
      var t, d := TypesAuthorized(c, schema, parse, document, n - 1), document[n - 1];
      TypeAuthorizedOnce(schema, parse, d);
      assert document[..n] == document[..n - 1] + [d];
      var x := Authorization(schema, d);
      if x.Some? {
        var a := TypeAuthorized(parse, x.value.0, x.value.1);
        ListedOnce(t, base, a);
        SiftedOne(document[..n - 1], d, makes, t.authorized[base..], a);
        assert (t.authorized + [a])[base..] == t.authorized[base..] + [a];
      } else {
        SiftedSkip(document[..n - 1], d, makes, t.authorized[base..]);
      }
    }
  }

  lemma {:induction false} KeysKeepAuthorized(
    c: ClosingSource, graphs: map<string, nat>, parse: Parser, on: Definition, directives: seq<DirectiveNode>, n: nat)
    requires n <= |directives|
    ensures WithKeys(c, graphs, parse, on, directives, n) ==
            c.(keys := WithKeys(c, graphs, parse, on, directives, n).keys)
  {
    if n > 0 {
      KeysKeepAuthorized(c, graphs, parse, on, directives, n - 1);
    }
  }

  lemma {:induction false} ClosingKeepsAuthorized(
    c: ClosingSource, schema: Schema, parse: Parser, document: seq<DefinitionNode>, n: nat)
    requires n <= |document|
    ensures KeysClosed(c, schema, parse, document, n) == c.(keys := KeysClosed(c, schema, parse, document, n).keys)
  {
    if n > 0 {
      ClosingKeepsAuthorized(c, schema, parse, document, n - 1);
      var before, d := KeysClosed(c, schema, parse, document, n - 1), document[n - 1];
      if IsType(d) && d.ty.name in schema.scope.names {
        KeysKeepAuthorized(before, schema.scope.graphs, parse, schema.scope.names[d.ty.name], d.ty.directives,
                           |d.ty.directives|);
      }
    }
  }

  // ----- The whole document -----

  /** The keys of a type are what the directives on its definitions say, in order and none left out; only objects
      and interfaces keep keys. */
  lemma KeysAreWritten(schema: Schema, parse: Parser, document: seq<DefinitionNode>, on: Definition)
    ensures OwnsFields(on) ==>
              Sifted(DirectivesOn(schema.scope.names, document, on, |document|),
                     (d, k: KeySource) => KeyIn(schema.scope.graphs, parse, d, k),
                     KeysUnder(Closed(schema, parse, document), on))
    ensures !OwnsFields(on) ==> KeysUnder(Closed(schema, parse, document), on) == []
  {
    hide Sifted, KeyIn, TypesListed;
    var c := FieldsClosed(schema, parse, document, |document|);
    DocumentAuthorized(schema, parse, document, |document|);
    TypesAreAuthorized(c, schema, parse, document, |document|);
    KeysInDocument(
      TypesAuthorized(c, schema, parse, document, |document|), schema, parse, document, on, |document|);
  }

  /** The authorizations are those on fields, each listed with its field, followed by the first ones on types. */
  lemma AuthorizationsAreWritten(schema: Schema, parse: Parser, document: seq<DefinitionNode>)
    returns (onFields: seq<(nat, AuthorizedSource)>)
    ensures Sifted(DocumentSites(schema, document, |document|),
                   (site, x: (nat, AuthorizedSource)) => AuthorizesAt(parse, site, x), onFields)
    ensures var c, base := Closed(schema, parse, document), |onFields|;
            && |c.byField| == base && TypesListed(c, base)
            && (forall i | 0 <= i < base :: c.byField[i] == (onFields[i].0, i) && c.authorized[i] == onFields[i].1)
            && Sifted(document, (d, a: AuthorizedSource) => TypeAuthorizedBy(schema, parse, d, a), c.authorized[base..])
  {
    hide Sifted, TypeAuthorizedBy, AuthorizesAt;
    var c := FieldsClosed(schema, parse, document, |document|);
    DocumentAuthorized(schema, parse, document, |document|);
    onFields := Pairs(c);
    TypesAreAuthorized(c, schema, parse, document, |document|);
    assert document[..|document|] == document;
    ClosingKeepsAuthorized(
      TypesAuthorized(c, schema, parse, document, |document|), schema, parse, document, |document|);
  }
}
