/** Endpoints whose symbol-binding evidence spans several language runtimes. */
module CrossRuntime {
  import opened Json
  import opened GraphRecords
  import opened Wrappers

  const BINDING_RELATIONS := {
    "accesses", "bound_to", "calls", "case_of", "defines", "indirect_call", "imports",
    "imports_from", "instantiates", "listened_by", "re_exports", "references", "inherits",
    "implements", "extends", "contains", "method", "mixes_in", "requires"}

  function LanguageFamily(source: Value, host: Host): Option<string> {
    if source.Str? && source.text != "" then host.family(source.text) else None
  }

  predicate Identified(node: Value) {
    node.Obj? && Get(node.fields, "id") != Null
  }

  function NodeId(node: Value, host: Host): string {
    if node.Obj? then host.text(Get(node.fields, "id")) else ""
  }

  function OwnFamily(node: Value, host: Host): Option<string> {
    if node.Obj? then LanguageFamily(Get(node.fields, "source_file"), host) else None
  }

  predicate Binding(edge: Value, host: Host) {
    edge.Obj? &&
    host.text(if "relation" in edge.fields then edge.fields["relation"]
              else if "type" in edge.fields then edge.fields["type"] else Str("")) in BINDING_RELATIONS
  }

  function Endpoint(edge: Value, aliases: seq<string>): Value {
    if edge.Obj? then FirstAlias(edge.fields, aliases) else Null
  }

  // ---- what the report means ----

  ghost function NodeIds(nodes: seq<Value>, host: Host): set<string> {
    set n | n in nodes && Identified(n) :: NodeId(n, host)
  }

  /** The families of the node records that carry this identity. */
  ghost function OwnFamilies(nodes: seq<Value>, id: string, host: Host): set<string> {
    set n | n in nodes && Identified(n) && NodeId(n, host) == id && OwnFamily(n, host).Some?
      :: OwnFamily(n, host).value
  }

  /** The families a binding edge vouches for: its own source file's, or, when it names no source
      file at all, those of the records of its source endpoint. */
  ghost function EdgeFamilies(edge: Value, nodes: seq<Value>, host: Host): set<string> {
    if !Binding(edge, host) then {}
    else
      var file := Get(edge.fields, "source_file");
      var family := LanguageFamily(file, host);
      if family.Some? then {family.value}
      else if !file.Str? || file.text == "" then
        OwnFamilies(nodes, host.text(Endpoint(edge, SOURCE_ALIASES)), host)
      else {}
  }

  ghost predicate Touches(edge: Value, id: string, host: Host) {
    var source, target := Endpoint(edge, SOURCE_ALIASES), Endpoint(edge, TARGET_ALIASES);
    (source != Null && host.text(source) == id) || (target != Null && host.text(target) == id)
  }

  /** An identity's own families joined with those of the binding edges directly at it. */
  ghost function Families(nodes: seq<Value>, edges: seq<Value>, id: string, host: Host): set<string> {
    OwnFamilies(nodes, id, host) +
    set e, f | e in edges && Touches(e, id, host) && f in EdgeFamilies(e, nodes, host) :: f
  }

  ghost predicate Reported(nodes: seq<Value>, edges: seq<Value>, id: string, host: Host) {
    id in NodeIds(nodes, host) && |Families(nodes, edges, id, host)| >= 2
  }

  // ---- the incremental computation ----

  function Add(m: map<string, set<string>>, id: string, families: set<string>): map<string, set<string>> {
    m[id := (if id in m then m[id] else {}) + families]
  }

  ghost predicate OwnTable(table: map<string, set<string>>, nodes: seq<Value>, host: Host) {
    && table.Keys == NodeIds(nodes, host)
    && forall id :: id in table ==> table[id] == OwnFamilies(nodes, id, host)
  }

  ghost predicate FamilyTable(table: map<string, set<string>>, nodes: seq<Value>, edges: seq<Value>, host: Host) {
    && table.Keys == NodeIds(nodes, host)
    && forall id :: id in table ==> table[id] == Families(nodes, edges, id, host)
  }

  method CollectOwn(nodes: seq<Value>, host: Host) returns (own: map<string, set<string>>)
    ensures OwnTable(own, nodes, host)
  {
    own := map[];
    for i := 0 to |nodes|
      invariant OwnTable(own, nodes[..i], host)
    {
      var node := nodes[i];
      assert nodes[..i + 1] == nodes[..i] + [node];
      if Identified(node) {
        OwnStep(own, nodes[..i], node, host);
        own := Add(own, NodeId(node, host), OwnOf(node, host));
      } else {
        NoOwnStep(own, nodes[..i], node, host);
      }
    }
    assert nodes[..|nodes|] == nodes;
  }

  lemma NodeIdsStep(nodes: seq<Value>, node: Value, host: Host)
    ensures NodeIds(nodes + [node], host) ==
            NodeIds(nodes, host) + if Identified(node) then {NodeId(node, host)} else {}
  {
    assert forall n :: n in nodes + [node] <==> n in nodes || n == node;
  }

  lemma OwnFamiliesStep(nodes: seq<Value>, node: Value, id: string, host: Host)
    ensures OwnFamilies(nodes + [node], id, host) == OwnFamilies(nodes, id, host) +
        if Identified(node) && NodeId(node, host) == id && OwnFamily(node, host).Some?
        then {OwnFamily(node, host).value} else {}
  {
    assert forall n :: n in nodes + [node] <==> n in nodes || n == node;
  }

  function OwnOf(node: Value, host: Host): set<string> {
    if Identified(node) && OwnFamily(node, host).Some? then {OwnFamily(node, host).value} else {}
  }

  /** A node adds its own family at its own identity. */
  lemma OwnStep(own: map<string, set<string>>, nodes: seq<Value>, node: Value, host: Host)
    requires OwnTable(own, nodes, host) && Identified(node)
    ensures OwnTable(Add(own, NodeId(node, host), OwnOf(node, host)), nodes + [node], host)
  {
    var table := Add(own, NodeId(node, host), OwnOf(node, host));
    NodeIdsStep(nodes, node, host);
    forall id | id in table ensures table[id] == OwnFamilies(nodes + [node], id, host) {
      OwnFamiliesStep(nodes, node, id, host);
      if id !in own { Unowned(nodes, id, host); }
    }
  }

  lemma NoOwnStep(own: map<string, set<string>>, nodes: seq<Value>, node: Value, host: Host)
    requires OwnTable(own, nodes, host) && !Identified(node)
    ensures OwnTable(own, nodes + [node], host)
  {
    NodeIdsStep(nodes, node, host);
    forall id | id in own ensures own[id] == OwnFamilies(nodes + [node], id, host) {
      OwnFamiliesStep(nodes, node, id, host);
    }
  }

  /** The families one binding edge vouches for, read from the frozen node table. */
  method Vouch(edge: Value, own: map<string, set<string>>, ghost nodes: seq<Value>, host: Host)
    returns (vouched: set<string>)
    requires OwnTable(own, nodes, host)
    ensures vouched == EdgeFamilies(edge, nodes, host)
  {
    vouched := {};
    if Binding(edge, host) {
      var file := Get(edge.fields, "source_file");
      var family := LanguageFamily(file, host);
      if family.Some? {
        vouched := {family.value};
      } else if !file.Str? || file.text == "" {
        var source := host.text(Endpoint(edge, SOURCE_ALIASES));
        vouched := if source in own then own[source] else {};
        Unowned(nodes, source, host);
      }
    }
  }

  /** Add the vouched families at one endpoint, when it is present and indexed. */
  function AddAt(table: map<string, set<string>>, endpoint: Value, vouched: set<string>, host: Host)
    : (out: map<string, set<string>>)
    ensures out.Keys == table.Keys
    ensures forall id :: id in table ==>
              out[id] == table[id] + if endpoint != Null && host.text(endpoint) == id then vouched else {}
  {
    if endpoint != Null && host.text(endpoint) in table
    then Add(table, host.text(endpoint), vouched) else table
  }

  function AddBoth(table: map<string, set<string>>, edge: Value, vouched: set<string>, host: Host)
    : (out: map<string, set<string>>)
    ensures out.Keys == table.Keys
    ensures forall id :: id in table ==>
              out[id] == table[id] + if Touches(edge, id, host) then vouched else {}
  {
    AddAt(AddAt(table, Endpoint(edge, SOURCE_ALIASES), vouched, host),
          Endpoint(edge, TARGET_ALIASES), vouched, host)
  }

  lemma OwnIsFamilies(own: map<string, set<string>>, nodes: seq<Value>, host: Host)
    requires OwnTable(own, nodes, host)
    ensures FamilyTable(own, nodes, [], host)
  {
    forall id ensures Families(nodes, [], id, host) == OwnFamilies(nodes, id, host) {}
  }

  /** Join into the node-owned table what each edge vouches for at its endpoints. Node-owned
      families are frozen first, so an edge never forwards what another edge added. */
  method JoinEdges(own: map<string, set<string>>, ghost nodes: seq<Value>, edges: seq<Value>, host: Host)
    returns (families: map<string, set<string>>)
    requires OwnTable(own, nodes, host)
    ensures FamilyTable(families, nodes, edges, host)
  {
    families := own;
    OwnIsFamilies(own, nodes, host);
    for i := 0 to |edges|
      invariant FamilyTable(families, nodes, edges[..i], host)
    {
      var vouched := Vouch(edges[i], own, nodes, host);
      ghost var before := families;
      families := AddBoth(families, edges[i], vouched, host);
      FamilyStep(before, families, nodes, edges[..i], edges[i], host);
      assert edges[..i + 1] == edges[..i] + [edges[i]];
    }
    assert edges[..|edges|] == edges;
  }

  /** Report every endpoint with two or more families, with those families. */
  method CrossRuntimeEndpoints(graph: Record, host: Host) returns (endpoints: map<string, set<string>>)
    ensures forall id :: id in endpoints <==> Reported(RawRecords(graph, "nodes"), RawEdges(graph), id, host)
    ensures forall id :: id in endpoints ==>
              endpoints[id] == Families(RawRecords(graph, "nodes"), RawEdges(graph), id, host)
  {
    var own := CollectOwn(RawRecords(graph, "nodes"), host);
    var families := JoinEdges(own, RawRecords(graph, "nodes"), RawEdges(graph), host);
    endpoints := map id | id in families && |families[id]| >= 2 :: families[id];
  }

  lemma Unowned(nodes: seq<Value>, id: string, host: Host)
    ensures id !in NodeIds(nodes, host) ==> OwnFamilies(nodes, id, host) == {}
  {}

  /** One more edge adds its families exactly at the endpoints it touches. */
  lemma FamiliesStep(nodes: seq<Value>, edges: seq<Value>, edge: Value, id: string, host: Host)
    ensures Families(nodes, edges + [edge], id, host) ==
            Families(nodes, edges, id, host) +
            if Touches(edge, id, host) then EdgeFamilies(edge, nodes, host) else {}
  {
    assert forall e :: e in edges + [edge] <==> e in edges || e == edge;
  }

  lemma FamilyStep(before: map<string, set<string>>, after: map<string, set<string>>,
                   nodes: seq<Value>, edges: seq<Value>, edge: Value, host: Host)
    requires FamilyTable(before, nodes, edges, host)
    requires after.Keys == before.Keys
    requires forall id :: id in before ==>
               after[id] == before[id] + if Touches(edge, id, host) then EdgeFamilies(edge, nodes, host) else {}
    ensures FamilyTable(after, nodes, edges + [edge], host)
  {
    forall id | id in after ensures after[id] == Families(nodes, edges + [edge], id, host) {
      FamiliesStep(nodes, edges, edge, id, host);
    }
  }

  // ---- consequences ----

  /** Families do not travel: an edge elsewhere in the graph never changes an endpoint's report. */
  lemma NoTransitiveSpread(nodes: seq<Value>, edges: seq<Value>, edge: Value, id: string, host: Host)
    requires !Touches(edge, id, host)
    ensures Families(nodes, edges + [edge], id, host) == Families(nodes, edges, id, host)
    ensures Reported(nodes, edges + [edge], id, host) <==> Reported(nodes, edges, id, host)
  {
    FamiliesStep(nodes, edges, edge, id, host);
  }

  /** The report depends on which records there are, not on their order. */
  lemma ReportIgnoresOrder(nodes: seq<Value>, edges: seq<Value>, nodes': seq<Value>, edges': seq<Value>,
                           id: string, host: Host)
    requires multiset(nodes) == multiset(nodes') && multiset(edges) == multiset(edges')
    ensures Families(nodes, edges, id, host) == Families(nodes', edges', id, host)
    ensures Reported(nodes, edges, id, host) <==> Reported(nodes', edges', id, host)
  {
    forall n: Value ensures n in nodes <==> n in nodes' { assert n in nodes <==> n in multiset(nodes); }
    forall e: Value ensures e in edges <==> e in edges' { assert e in edges <==> e in multiset(edges); }
    forall key ensures OwnFamilies(nodes, key, host) == OwnFamilies(nodes', key, host) {}
    assert NodeIds(nodes, host) == NodeIds(nodes', host);
    forall e ensures EdgeFamilies(e, nodes, host) == EdgeFamilies(e, nodes', host) {}
  }
}
