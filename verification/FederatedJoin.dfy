/**
 The directives that tie definitions to subgraphs: which subgraphs there are, which of them a
 directive names, and what a type has to do with other types in each of them.
 */
module FederatedJoin {
  import opened Common
  import opened FederatedModel

  function GetArgument(arguments: seq<Argument>, name: string): Option<Value> {
    if arguments == [] then None
    else if arguments[0].name == name then Some(arguments[0].value)
    else GetArgument(arguments[1..], name)
  }

  function FindDirective(directives: seq<DirectiveNode>, name: string): Option<DirectiveNode> {
    if directives == [] then None
    else if directives[0].name == name then Some(directives[0])
    else FindDirective(directives[1..], name)
  }

  // ----- Arguments and directives by position -----

  /** The first argument of a name has this value. */
  ghost predicate FirstArgument(d: DirectiveNode, name: string, v: Value) {
    exists i :: 0 <= i < |d.arguments| && d.arguments[i] == Argument(name, v)
                && forall j | 0 <= j < i :: d.arguments[j].name != name
  }

  predicate HasArgument(d: DirectiveNode, name: string) {
    exists i :: 0 <= i < |d.arguments| && d.arguments[i].name == name
  }

  /** The first argument of a name is this text. */
  ghost predicate FirstText(d: DirectiveNode, name: string, text: string) {
    FirstArgument(d, name, Str(text)) || FirstArgument(d, name, BlockStr(text))
  }

  ghost predicate FirstDirective(directives: seq<DirectiveNode>, name: string, d: DirectiveNode) {
    exists i :: 0 <= i < |directives| && directives[i] == d && d.name == name
                && forall j | 0 <= j < i :: directives[j].name != name
  }

  lemma {:induction false} ArgumentAt(arguments: seq<Argument>, name: string, i: nat)
    requires i < |arguments| && arguments[i].name == name && forall j | 0 <= j < i :: arguments[j].name != name
    ensures GetArgument(arguments, name) == Some(arguments[i].value)
  {
    if i > 0 {
      ArgumentAt(arguments[1..], name, i - 1);
    }
  }

  lemma {:induction false} NoArgument(arguments: seq<Argument>, name: string)
    requires forall j | 0 <= j < |arguments| :: arguments[j].name != name
    ensures GetArgument(arguments, name) == None
  {
    if arguments != [] {
      NoArgument(arguments[1..], name);
    }
  }

  lemma {:induction false} EarliestArgument(arguments: seq<Argument>, name: string, k: nat) returns (i: nat)
    requires k < |arguments| && arguments[k].name == name
    ensures i <= k && arguments[i].name == name && forall j | 0 <= j < i :: arguments[j].name != name
  {
    if j :| 0 <= j < k && arguments[j].name == name {
      i := EarliestArgument(arguments, name, j);
    } else {
      i := k;
    }
  }

  /** The lookup of an argument finds the first of its name, and fails only if there is none. */
  lemma ArgumentFound(d: DirectiveNode, name: string)
    ensures forall v :: GetArgument(d.arguments, name) == Some(v) <==> FirstArgument(d, name, v)
    ensures GetArgument(d.arguments, name).Some? <==> HasArgument(d, name)
  {
    if HasArgument(d, name) {
      var k: nat :| k < |d.arguments| && d.arguments[k].name == name;
      var i := EarliestArgument(d.arguments, name, k);
      ArgumentAt(d.arguments, name, i);
      assert d.arguments[i] == Argument(name, d.arguments[i].value);
      assert FirstArgument(d, name, d.arguments[i].value);
    } else {
      NoArgument(d.arguments, name);
    }
  }

  lemma {:induction false} DirectiveIndex(directives: seq<DirectiveNode>, name: string, i: nat)
    requires i < |directives| && directives[i].name == name && forall j | 0 <= j < i :: directives[j].name != name
    ensures FindDirective(directives, name) == Some(directives[i])
  {
    if i > 0 {
      DirectiveIndex(directives[1..], name, i - 1);
    }
  }

  lemma {:induction false} DirectiveFoundAt(directives: seq<DirectiveNode>, name: string) returns (i: nat)
    requires FindDirective(directives, name).Some?
    ensures i < |directives| && directives[i].name == name && forall j | 0 <= j < i :: directives[j].name != name
  {
    if directives[0].name == name {
      i := 0;
    } else {
      i := DirectiveFoundAt(directives[1..], name);
      i := i + 1;
    }
  }

  /** The lookup of a directive finds the first of its name. */
  lemma DirectiveFound(directives: seq<DirectiveNode>, name: string)
    ensures forall d :: FindDirective(directives, name) == Some(d) <==> FirstDirective(directives, name, d)
  {
    if FindDirective(directives, name).Some? {
      var i := DirectiveFoundAt(directives, name);
      DirectiveIndex(directives, name, i);
      assert FirstDirective(directives, name, directives[i]);
    }
    forall d | FirstDirective(directives, name, d)
      ensures FindDirective(directives, name) == Some(d)
    {
      var i: nat :| i < |directives| && directives[i] == d && d.name == name
                    && forall j | 0 <= j < i :: directives[j].name != name;
      DirectiveIndex(directives, name, i);
    }
  }

  /** The text of a string or a block string. */
  function AsText(v: Option<Value>): Option<string> {
    match v
    case Some(Str(text)) => Some(text)
    case Some(BlockStr(text)) => Some(text)
    case _ => None
  }

  function TextArgument(d: DirectiveNode, name: string): Option<string> {
    AsText(GetArgument(d.arguments, name))
  }

  predicate IsSet(d: DirectiveNode, name: string) {
    GetArgument(d.arguments, name) == Some(Boolean(true))
  }

  /** A text argument is the first of its name. */
  lemma TextFound(d: DirectiveNode, name: string)
    ensures forall text :: TextArgument(d, name) == Some(text) <==> FirstText(d, name, text)
  {
    ArgumentFound(d, name);
    forall text | TextArgument(d, name) == Some(text)
      ensures FirstText(d, name, text)
    {
      var v := GetArgument(d.arguments, name).value;
      assert v == Str(text) || v == BlockStr(text);
    }
  }

  const JOIN_FIELD := "join__field"
  const JOIN_TYPE := "join__type"
  const JOIN_GRAPH := "join__graph"
  const JOIN_IMPLEMENTS := "join__implements"
  const JOIN_UNION_MEMBER := "join__unionMember"

  // ----- Subgraphs -----

  datatype Subgraph = Subgraph(name: string, url: string)

  /** The subgraph that a value of the enum of subgraphs describes. */
  function SubgraphOf(directives: seq<DirectiveNode>): Option<Subgraph> {
    var d := FindDirective(directives, JOIN_GRAPH);
    if d.None? then None
    else
      var name, url := TextArgument(d.value, "name"), TextArgument(d.value, "url");
      if name.None? || url.None? then None else Some(Subgraph(name.value, url.value))
  }

  /** The name and the address are those of the first `join__graph` directive. */
  lemma SubgraphDescribed(directives: seq<DirectiveNode>, graph: Subgraph)
    ensures SubgraphOf(directives) == Some(graph) <==>
            exists d :: && FirstDirective(directives, "join__graph", d)
                        && FirstText(d, "name", graph.name) && FirstText(d, "url", graph.url)
  {
    DirectiveFound(directives, JOIN_GRAPH);
    var found := FindDirective(directives, JOIN_GRAPH);
    if found.Some? {
      TextFound(found.value, "name");
      TextFound(found.value, "url");
    }
  }

  /** Types by name, and subgraphs by the enum value that stands for them. */
  datatype Scope = Scope(names: map<string, Definition>, graphs: map<string, nat>)

  /** The enum value that a directive names as its graph. */
  function GraphName(d: DirectiveNode): Option<string> {
    match GetArgument(d.arguments, "graph")
    case Some(Enum(name)) => Some(name)
    case _ => None
  }

  function GraphOf(graphs: map<string, nat>, d: DirectiveNode): Option<nat> {
    var name := GraphName(d);
    if name.Some? && name.value in graphs then Some(graphs[name.value]) else None
  }

  /** The first `graph` argument is the enum value of this subgraph. */
  ghost predicate NamesGraph(graphs: map<string, nat>, d: DirectiveNode, graph: nat) {
    exists name :: FirstArgument(d, "graph", Enum(name)) && name in graphs && graphs[name] == graph
  }

  lemma GraphNamed(graphs: map<string, nat>, d: DirectiveNode)
    ensures forall graph: nat :: GraphOf(graphs, d) == Some(graph) <==> NamesGraph(graphs, d, graph)
    ensures GraphKnown(graphs, d) <==> forall name | FirstArgument(d, "graph", Enum(name)) :: name in graphs
  {
    ArgumentFound(d, "graph");
    if GraphName(d).Some? {
      assert FirstArgument(d, "graph", Enum(GraphName(d).value));
    }
  }

  /** A graph that is named exists. */
  predicate GraphKnown(graphs: map<string, nat>, d: DirectiveNode) {
    GraphName(d).Some? ==> GraphName(d).value in graphs
  }

  // ----- Where a field is resolved -----

  /** The directive says where the field is resolved. */
  predicate Locates(d: DirectiveNode) {
    && d.name == JOIN_FIELD && !IsSet(d, "external")
    && GetArgument(d.arguments, "overrides").None? && GetArgument(d.arguments, "override").None?
  }

  predicate JoinFieldsOk(graphs: map<string, nat>, directives: seq<DirectiveNode>) {
    forall i | 0 <= i < |directives| :: Locates(directives[i]) ==> GraphKnown(graphs, directives[i])
  }

  /** The subgraphs that the first `n` directives name. */
  function ResolvableIn(graphs: map<string, nat>, directives: seq<DirectiveNode>, n: nat): seq<nat>
    requires n <= |directives|
  {
    if n == 0 then []
    else
      var before, d := ResolvableIn(graphs, directives, n - 1), directives[n - 1];
      if Locates(d) && GraphOf(graphs, d).Some? then before + [GraphOf(graphs, d).value] else before
  }

  /** The directive places the field in a subgraph: it does not override and the field is not external there. */
  ghost predicate Places(d: DirectiveNode) {
    && d.name == "join__field" && !HasArgument(d, "override") && !HasArgument(d, "overrides")
    && !FirstArgument(d, "external", Boolean(true))
  }

  ghost predicate PlacedIn(graphs: map<string, nat>, d: DirectiveNode, graph: nat) {
    Places(d) && NamesGraph(graphs, d, graph)
  }

  lemma LocatesPlaces(d: DirectiveNode)
    ensures Locates(d) <==> Places(d)
  {
    ArgumentFound(d, "external");
    ArgumentFound(d, "override");
    ArgumentFound(d, "overrides");
  }

  /** A field is resolved in the subgraphs that its directives place it in, in order and none left out. */
  lemma {:induction false} ResolvedWherePlaced(graphs: map<string, nat>, directives: seq<DirectiveNode>, n: nat)
    requires n <= |directives|
    ensures Sifted(directives[..n], (d, graph: nat) => PlacedIn(graphs, d, graph), ResolvableIn(graphs, directives, n))
  {
    var placed := (d, graph: nat) => PlacedIn(graphs, d, graph);
    if n == 0 {
      SiftedNone(placed);
    } else {
      var before, d := ResolvableIn(graphs, directives, n - 1), directives[n - 1];
      ResolvedWherePlaced(graphs, directives, n - 1);
      LocatesPlaces(d);
      GraphNamed(graphs, d);
      assert directives[..n] == directives[..n - 1] + [d];
      if Locates(d) && GraphOf(graphs, d).Some? {
        SiftedOne(directives[..n - 1], d, placed, before, GraphOf(graphs, d).value);
      } else {
        SiftedSkip(directives[..n - 1], d, placed, before);
      }
    }
  }

  /** No directive that places the field names a graph that does not exist. */
  ghost predicate PlacesExist(graphs: map<string, nat>, directives: seq<DirectiveNode>) {
    forall i, name | 0 <= i < |directives| && Places(directives[i]) && FirstArgument(directives[i], "graph", Enum(name)) ::
      name in graphs
  }

  lemma JoinFieldsExist(graphs: map<string, nat>, directives: seq<DirectiveNode>)
    ensures JoinFieldsOk(graphs, directives) <==> PlacesExist(graphs, directives)
  {
    forall i | 0 <= i < |directives|
      ensures Locates(directives[i]) <==> Places(directives[i])
      ensures GraphKnown(graphs, directives[i]) <==>
              forall name | FirstArgument(directives[i], "graph", Enum(name)) :: name in graphs
    {
      LocatesPlaces(directives[i]);
      GraphNamed(graphs, directives[i]);
    }
  }

  /** Reads where a field is resolved; an unknown graph is a panic. */
  method ReadResolvableIn(graphs: map<string, nat>, directives: seq<DirectiveNode>) returns (r: Result<seq<nat>>)
    ensures r.Ok? <==> PlacesExist(graphs, directives)
    ensures r.Ok? ==> Sifted(directives, (d, graph: nat) => PlacedIn(graphs, d, graph), r.value)
    ensures r.Ok? ==> r.value == ResolvableIn(graphs, directives, |directives|)
    ensures !r.Ok? ==> r.Panic?
  {
    var found := [];
    JoinFieldsExist(graphs, directives);
    ResolvedWherePlaced(graphs, directives, |directives|);
    assert directives[..|directives|] == directives;
    for i := 0 to |directives|
      invariant found == ResolvableIn(graphs, directives, i)
      invariant forall j | 0 <= j < i :: Locates(directives[j]) ==> GraphKnown(graphs, directives[j])
    {
      var d := directives[i];
      if Locates(d) {
        var name := GraphName(d);
        if name.Some? {
          if name.value !in graphs {
            return Panic;
          }
          found := found + [graphs[name.value]];
        }
      }
    }
    return Ok(found);
  }

  // ----- Interfaces and union members -----

  datatype Link = Link(graph: nat, id: nat)

  /** What a type has to do with other types, altogether and in each subgraph. */
  datatype Links = Links(
    interfaces: map<Definition, seq<nat>>,         // of objects and interfaces
    joinInterfaces: map<Definition, seq<Link>>,
    members: map<nat, seq<nat>>,                   // objects, by union
    joinMembers: map<nat, set<Link>>)

  const NO_LINKS := Links(map[], map[], map[], map[])

  predicate IsInterfaceName(names: map<string, Definition>, name: string) {
    name in names && names[name].Interface?
  }

  predicate IsObjectName(names: map<string, Definition>, name: string) {
    name in names && names[name].Object?
  }

  predicate InterfacesOk(names: map<string, Definition>, listed: seq<string>) {
    forall i | 0 <= i < |listed| :: IsInterfaceName(names, listed[i])
  }

  predicate MembersOk(names: map<string, Definition>, listed: seq<string>) {
    forall i | 0 <= i < |listed| :: IsObjectName(names, listed[i])
  }

  /** The ids behind the first `n` names. */
  function Ids(names: map<string, Definition>, listed: seq<string>, n: nat): seq<nat>
    requires n <= |listed|
  {
    if n == 0 then []
    else if IsInterfaceName(names, listed[n - 1]) || IsObjectName(names, listed[n - 1]) then
      Ids(names, listed, n - 1) + [names[listed[n - 1]].id]
    else Ids(names, listed, n - 1)
  }

  /** All listed names are known, so there is one id for each, in order. */
  lemma {:induction false} IdsAt(names: map<string, Definition>, listed: seq<string>, n: nat)
    requires n <= |listed| && (InterfacesOk(names, listed) || MembersOk(names, listed))
    ensures |Ids(names, listed, n)| == n
    ensures forall i | 0 <= i < n ::
              && listed[i] in names && (names[listed[i]].Interface? || names[listed[i]].Object?)
              && Ids(names, listed, n)[i] == names[listed[i]].id
  {
    if n > 0 {
      IdsAt(names, listed, n - 1);
      assert IsInterfaceName(names, listed[n - 1]) || IsObjectName(names, listed[n - 1]);
    }
  }

  /** The name that a directive links to; a block string is not accepted. */
  function LinkedName(d: DirectiveNode, argument: string): Option<string> {
    match GetArgument(d.arguments, argument)
    case Some(Str(text)) => Some(text)
    case _ => None
  }

  predicate JoinImplementsOk(scope: Scope, d: DirectiveNode) {
    d.name == JOIN_IMPLEMENTS ==>
      && GraphOf(scope.graphs, d).Some?
      && LinkedName(d, "interface").Some? && IsInterfaceName(scope.names, LinkedName(d, "interface").value)
  }

  predicate JoinMemberOk(scope: Scope, d: DirectiveNode) {
    d.name == JOIN_UNION_MEMBER ==>
      && GraphOf(scope.graphs, d).Some?
      && LinkedName(d, "member").Some? && IsObjectName(scope.names, LinkedName(d, "member").value)
  }

  function JoinInterfaces(scope: Scope, directives: seq<DirectiveNode>, n: nat): seq<Link>
    requires n <= |directives|
  {
    if n == 0 then []
    else
      var before, d := JoinInterfaces(scope, directives, n - 1), directives[n - 1];
      if d.name == JOIN_IMPLEMENTS && JoinImplementsOk(scope, d) then
        before + [Link(GraphOf(scope.graphs, d).value, scope.names[LinkedName(d, "interface").value].id)]
      else before
  }

  function JoinMembers(scope: Scope, directives: seq<DirectiveNode>, n: nat): set<Link>
    requires n <= |directives|
  {
    if n == 0 then {}
    else
      var before, d := JoinMembers(scope, directives, n - 1), directives[n - 1];
      if d.name == JOIN_UNION_MEMBER && JoinMemberOk(scope, d) then
        before + {Link(GraphOf(scope.graphs, d).value, scope.names[LinkedName(d, "member").value].id)}
      else before
  }

  /** The directive says that the type implements an interface in a subgraph. */
  ghost predicate ImplementsIn(scope: Scope, d: DirectiveNode, link: Link) {
    && d.name == "join__implements" && NamesGraph(scope.graphs, d, link.graph)
    && exists name :: FirstArgument(d, "interface", Str(name)) && name in scope.names
                      && scope.names[name] == Interface(link.id)
  }

  /** The directive says that an object is a member of the union in a subgraph. */
  ghost predicate MemberIn(scope: Scope, d: DirectiveNode, link: Link) {
    && d.name == "join__unionMember" && NamesGraph(scope.graphs, d, link.graph)
    && exists name :: FirstArgument(d, "member", Str(name)) && name in scope.names
                      && scope.names[name] == Object(link.id)
  }

  lemma LinkFound(d: DirectiveNode, argument: string)
    ensures forall name :: LinkedName(d, argument) == Some(name) <==> FirstArgument(d, argument, Str(name))
  {
    ArgumentFound(d, argument);
  }

  lemma ImplementsExactly(scope: Scope, d: DirectiveNode)
    ensures JoinImplementsOk(scope, d) <==> (d.name == "join__implements" ==> exists link :: ImplementsIn(scope, d, link))
    ensures d.name == JOIN_IMPLEMENTS && JoinImplementsOk(scope, d) ==>
              ImplementsIn(scope, d, Link(GraphOf(scope.graphs, d).value,
                                          scope.names[LinkedName(d, "interface").value].id))
  {
    GraphNamed(scope.graphs, d);
    LinkFound(d, "interface");
    if d.name == JOIN_IMPLEMENTS && JoinImplementsOk(scope, d) {
      var name := LinkedName(d, "interface").value;
      assert FirstArgument(d, "interface", Str(name));
      assert ImplementsIn(scope, d, Link(GraphOf(scope.graphs, d).value, scope.names[name].id));
    }
  }

  lemma MemberExactly(scope: Scope, d: DirectiveNode)
    ensures JoinMemberOk(scope, d) <==> (d.name == "join__unionMember" ==> exists link :: MemberIn(scope, d, link))
    ensures d.name == JOIN_UNION_MEMBER && JoinMemberOk(scope, d) ==>
              forall link :: MemberIn(scope, d, link) <==>
                             link == Link(GraphOf(scope.graphs, d).value, scope.names[LinkedName(d, "member").value].id)
  {
    GraphNamed(scope.graphs, d);
    LinkFound(d, "member");
    if d.name == JOIN_UNION_MEMBER && JoinMemberOk(scope, d) {
      var name := LinkedName(d, "member").value;
      assert FirstArgument(d, "member", Str(name));
      assert MemberIn(scope, d, Link(GraphOf(scope.graphs, d).value, scope.names[name].id));
    }
  }

  /** One link for each directive that says so, in order and none left out. */
  lemma {:induction false} JoinInterfacesWritten(scope: Scope, directives: seq<DirectiveNode>, n: nat)
    requires n <= |directives|
    ensures Sifted(directives[..n], (d, link: Link) => ImplementsIn(scope, d, link), JoinInterfaces(scope, directives, n))
  {
    var links := (d, link: Link) => ImplementsIn(scope, d, link);
    if n == 0 {
      SiftedNone(links);
    } else {
      var before, d := JoinInterfaces(scope, directives, n - 1), directives[n - 1];
      JoinInterfacesWritten(scope, directives, n - 1);
      ImplementsExactly(scope, d);
      assert directives[..n] == directives[..n - 1] + [d];
      if d.name == JOIN_IMPLEMENTS && JoinImplementsOk(scope, d) {
        SiftedOne(directives[..n - 1], d, links, before,
                  Link(GraphOf(scope.graphs, d).value, scope.names[LinkedName(d, "interface").value].id));
      } else {
        SiftedSkip(directives[..n - 1], d, links, before);
      }
    }
  }

  lemma {:induction false} JoinMembersWritten(scope: Scope, directives: seq<DirectiveNode>, n: nat)
    requires n <= |directives|
    ensures forall link :: link in JoinMembers(scope, directives, n) <==>
                           exists i :: 0 <= i < n && MemberIn(scope, directives[i], link)
  {
    if n > 0 {
      JoinMembersWritten(scope, directives, n - 1);
      MemberExactly(scope, directives[n - 1]);
    }
  }

  /** A later definition replaces the interfaces; the links in subgraphs and the members accumulate. */
  function WithInterfaces(l: Links, d: Definition, listed: seq<nat>, joined: seq<Link>): Links {
    l.(interfaces := l.interfaces[d := listed],
       joinInterfaces := l.joinInterfaces[d := (if d in l.joinInterfaces then l.joinInterfaces[d] else []) + joined])
  }

  function WithMembers(l: Links, id: nat, listed: seq<nat>, joined: set<Link>): Links {
    l.(members := l.members[id := (if id in l.members then l.members[id] else []) + listed],
       joinMembers := l.joinMembers[id := (if id in l.joinMembers then l.joinMembers[id] else {}) + joined])
  }

  /** Looks interfaces up by name; an unknown name is a panic, another type an error. */
  method ReadInterfaces(names: map<string, Definition>, listed: seq<string>) returns (r: Result<seq<nat>>)
    ensures r.Ok? <==> InterfacesOk(names, listed)
    ensures r.Ok? ==> r.value == Ids(names, listed, |listed|)
    ensures r.Ok? ==> |r.value| == |listed|
    ensures r.Ok? ==> forall i | 0 <= i < |listed| :: listed[i] in names && names[listed[i]] == Interface(r.value[i])
    ensures r.Panic? ==> exists i :: 0 <= i < |listed| && listed[i] !in names
  {
    var ids := [];
    for i := 0 to |listed|
      invariant ids == Ids(names, listed, i)
      invariant forall j | 0 <= j < i :: IsInterfaceName(names, listed[j])
    {
      if listed[i] !in names {
        return Panic;
      }
      var definition := names[listed[i]];
      if !definition.Interface? {
        return Err(NotAnInterface(listed[i]));
      }
      ids := ids + [definition.id];
    }
    IdsAt(names, listed, |listed|);
    return Ok(ids);
  }

  method ReadMembers(names: map<string, Definition>, listed: seq<string>) returns (r: Result<seq<nat>>)
    ensures r.Ok? <==> MembersOk(names, listed)
    ensures r.Ok? ==> r.value == Ids(names, listed, |listed|)
    ensures r.Ok? ==> |r.value| == |listed|
    ensures r.Ok? ==> forall i | 0 <= i < |listed| :: listed[i] in names && names[listed[i]] == Object(r.value[i])
    ensures r.Panic? ==> exists i :: 0 <= i < |listed| && listed[i] !in names
  {
    var ids := [];
    for i := 0 to |listed|
      invariant ids == Ids(names, listed, i)
      invariant forall j | 0 <= j < i :: IsObjectName(names, listed[j])
    {
      if listed[i] !in names {
        return Panic;
      }
      var definition := names[listed[i]];
      if !definition.Object? {
        return Err(NotAnObject(listed[i]));
      }
      ids := ids + [definition.id];
    }
    IdsAt(names, listed, |listed|);
    return Ok(ids);
  }

  method ReadJoinInterfaces(scope: Scope, directives: seq<DirectiveNode>) returns (r: Result<seq<Link>>)
    ensures r.Ok? <==> forall i | 0 <= i < |directives| :: JoinImplementsOk(scope, directives[i])
    ensures r.Ok? ==> Sifted(directives, (d, link: Link) => ImplementsIn(scope, d, link), r.value)
    ensures r.Ok? ==> r.value == JoinInterfaces(scope, directives, |directives|)
    ensures !r.Panic?
  {
    var links := [];
    JoinInterfacesWritten(scope, directives, |directives|);
    assert directives[..|directives|] == directives;
    for i := 0 to |directives|
      invariant links == JoinInterfaces(scope, directives, i)
      invariant forall j | 0 <= j < i :: JoinImplementsOk(scope, directives[j])
    {
      var d := directives[i];
      if d.name == JOIN_IMPLEMENTS {
        var graph, name := GraphOf(scope.graphs, d), LinkedName(d, "interface");
        if graph.None? || name.None? {
          return Err(MalformedJoin(d.name));
        }
        if name.value !in scope.names || !scope.names[name.value].Interface? {
          return Err(NotAnInterface(name.value));
        }
        links := links + [Link(graph.value, scope.names[name.value].id)];
      }
    }
    return Ok(links);
  }

  method ReadJoinMembers(scope: Scope, directives: seq<DirectiveNode>) returns (r: Result<set<Link>>)
    ensures r.Ok? <==> forall i | 0 <= i < |directives| :: JoinMemberOk(scope, directives[i])
    ensures r.Ok? ==> forall link :: link in r.value <==>
                                     exists i :: 0 <= i < |directives| && MemberIn(scope, directives[i], link)
    ensures r.Ok? ==> r.value == JoinMembers(scope, directives, |directives|)
    ensures !r.Panic?
  {
    var links := {};
    JoinMembersWritten(scope, directives, |directives|);
    for i := 0 to |directives|
      invariant links == JoinMembers(scope, directives, i)
      invariant forall j | 0 <= j < i :: JoinMemberOk(scope, directives[j])
    {
      var d := directives[i];
      if d.name == JOIN_UNION_MEMBER {
        var graph, name := GraphOf(scope.graphs, d), LinkedName(d, "member");
        if graph.None? || name.None? {
          return Err(MalformedJoin(d.name));
        }
        if name.value !in scope.names || !scope.names[name.value].Object? {
          return Err(NotAnObject(name.value));
        }
        links := links + {Link(graph.value, scope.names[name.value].id)};
      }
    }
    return Ok(links);
  }
}
