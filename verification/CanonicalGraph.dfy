/** The order-independent, direction-preserving comparison form of a graph. */
module CanonicalGraph {
  import opened Json
  import opened GraphRecords
  import opened Ordering
  import opened Sequences

  const NODE_STRUCTURAL_FIELDS := {
    "id", "label", "name", "type", "node_type", "file_type", "source_file", "source_location",
    "line", "line_start", "line_end", "signature", "parent", "parent_id"}
  const VOLATILE_NODE_FIELDS := {"community", "community_name", "x", "y", "color", "degree", "size"}
  const EDGE_STRUCTURAL_FIELDS := {
    "source", "target", "from", "to", "relation", "type", "confidence", "confidence_score",
    "source_file", "source_location", "line", "line_number", "context", "key"}
  const VOLATILE_GRAPH_FIELDS := {
    "graph", "built_at", "built_at_commit", "input_tokens", "output_tokens", "elapsed_seconds"}
  const COLLECTIONS := {"nodes", "links", "edges", "hyperedges"}

  datatype Canonical = Canonical(
    metadata: Record, nodes: seq<Value>, edges: seq<Value>, hyperedges: seq<Value>)

  function Restrict(r: Record, keep: string -> bool): Record {
    map field | field in r && keep(field) :: r[field]
  }

  /** Keep one name for an aliased field. */
  function Rename(r: Record, alias: string, field: string): Record {
    (if field !in r && alias in r then r[field := r[alias]] else r) - {alias}
  }

  function PortableSource(r: Record, path: string -> string): Record {
    if "source_file" in r && r["source_file"].Str?
    then r["source_file" := Str(path(r["source_file"].text))] else r
  }

  function CanonicalNode(raw: Value, strict: bool, path: string -> string): (node: Value)
    ensures node.Obj?
  {
    if !raw.Obj? then Obj(map["__malformed__" := raw])
    else
      var named := Rename(Rename(raw.fields, "name", "label"), "node_type", "type");
      var node := PortableSource(named, path);
      Obj(if strict then node - VOLATILE_NODE_FIELDS
          else Restrict(node, field => field in NODE_STRUCTURAL_FIELDS))
  }

  function CanonicalEdge(raw: Value, strict: bool, path: string -> string): (edge: Value)
    ensures edge.Obj?
  {
    if !raw.Obj? then Obj(map["__malformed__" := raw])
    else
      var r := raw.fields;
      var relation := if "relation" in r then r["relation"] else if "type" in r then r["type"] else Str("");
      var named := r["source" := FirstAlias(r, SOURCE_ALIASES)]
                    ["target" := FirstAlias(r, TARGET_ALIASES)]["relation" := relation]
                   - {"from", "to", "type", "_src", "_tgt"};
      var edge := PortableSource(named, path);
      Obj(if strict then edge else Restrict(edge, field => field in EDGE_STRUCTURAL_FIELDS))
  }

  /** The member list in effect: `nodes` when it is a list, else the first alias that is one. */
  function WithMembers(r: Record): Record {
    if "nodes" in r && r["nodes"].Arr? then r
    else if "members" in r && r["members"].Arr? then r["nodes" := r["members"]]
    else if "node_ids" in r && r["node_ids"].Arr? then r["nodes" := r["node_ids"]]
    else r
  }

  /** Put the member list stored under `nodes` in canonical order. */
  function SortMembers(r: Record, encode: Value -> string): Record {
    if "nodes" in r && r["nodes"].Arr?
    then r["nodes" := Arr(Sorted(r["nodes"].items, encode))] else r
  }

  function CanonicalHyperedge(raw: Value, host: Host): Value {
    if !raw.Obj? then raw
    else
      var r := WithMembers(raw.fields) - {"members", "node_ids"};
      Obj(PortableSource(SortMembers(r, host.encode), host.portable))
  }

  function KeepMetadata(strict: bool): string -> bool {
    field => field !in COLLECTIONS &&
             if strict then field !in VOLATILE_GRAPH_FIELDS else field in {"directed", "multigraph"}
  }

  function CanonicalForm(graph: Record, strict: bool, host: Host): Canonical {
    Canonical(
      Restrict(graph, KeepMetadata(strict)),
      Sorted(MapSeq(RawRecords(graph, "nodes"), n => CanonicalNode(n, strict, host.portable)), host.encode),
      Sorted(MapSeq(RawEdges(graph), e => CanonicalEdge(e, strict, host.portable)), host.encode),
      Sorted(MapSeq(RawRecords(graph, "hyperedges"), h => CanonicalHyperedge(h, host)), host.encode))
  }

  // ---- two writings of the same graph ----

  function SortedMembers(raw: Value, encode: Value -> string): Value {
    if raw.Obj? then Obj(SortLists(raw.fields, encode)) else raw
  }

  /** Every list that may hold the members in canonical order, whatever name it has. */
  function SortLists(r: Record, encode: Value -> string): Record {
    map field | field in r :: if MayHoldMembers(field) then SortedValue(r[field], encode) else r[field]
  }

  predicate MayHoldMembers(field: string) { field == "nodes" || field == "members" || field == "node_ids" }

  function SortedValue(v: Value, encode: Value -> string): Value {
    if v.Arr? then Arr(Sorted(v.items, encode)) else v
  }

  /** Same value under `key`, or two arrays holding the same records in different orders. */
  ghost predicate SameCollection(g: Record, h: Record, key: string) {
    && (key in g <==> key in h)
    && (key in g ==>
          g[key] == h[key] ||
          (g[key].Arr? && h[key].Arr? && multiset(g[key].items) == multiset(h[key].items)))
  }

  /** As above, when the records may also list their members in different orders, under any of the
      three names. */
  ghost predicate SameHyperedges(g: Record, h: Record, encode: Value -> string) {
    && ("hyperedges" in g <==> "hyperedges" in h)
    && ("hyperedges" in g ==>
          g["hyperedges"] == h["hyperedges"] ||
          (g["hyperedges"].Arr? && h["hyperedges"].Arr? &&
           var normal := v => SortedMembers(v, encode);
           multiset(MapSeq(g["hyperedges"].items, normal)) == multiset(MapSeq(h["hyperedges"].items, normal))))
  }

  /** The same graph written with nodes, edges, hyperedges and hyperedge members in other orders. */
  ghost predicate Reordered(g: Record, h: Record, host: Host) {
    && SameCollection(g, h, "nodes")
    && SameCollection(g, h, "links")
    && SameCollection(g, h, "edges")
    && SameHyperedges(g, h, host.encode)
    && g - COLLECTIONS == h - COLLECTIONS
  }

  lemma {:induction false} SortedTwice(s: seq<Value>, encode: Value -> string)
    ensures Sorted(Sorted(s, encode), encode) == Sorted(s, encode)
  {
    SortedAscending(s, encode);
    SortedFixed(Sorted(s, encode), encode);
  }

  lemma {:induction false} SortedFixed(s: seq<Value>, encode: Value -> string)
    requires Ascending(s, encode)
    ensures Sorted(s, encode) == s
    decreases |s|
  {
    if s != [] {
      SortedFixed(s[1..], encode);
      assert s == [s[0]] + s[1..];
      if s[1..] != [] { assert s[1] in s; }
    }
  }

  lemma SortedInEffect(r: Record, encode: Value -> string)
    ensures var before, after := WithMembers(r), WithMembers(SortLists(r, encode));
      ("nodes" in before <==> "nodes" in after) &&
      ("nodes" in before ==> after["nodes"] == SortedValue(before["nodes"], encode))
  {
    var s := SortLists(r, encode);
    assert "nodes" in r <==> "nodes" in s;
    assert "members" in r <==> "members" in s;
    assert "node_ids" in r <==> "node_ids" in s;
  }

  lemma OnlyNodesInEffect(r: Record, field: string)
    requires field != "nodes"
    ensures (field in WithMembers(r) <==> field in r) && (field in r ==> WithMembers(r)[field] == r[field])
  {}

  /** The list in effect is the same one, sorted, and the other fields are the same. */
  lemma SortedListInEffect(r: Record, encode: Value -> string)
    ensures var aliases := {"members", "node_ids"};
      WithMembers(SortLists(r, encode)) - aliases == SortMembers(WithMembers(r) - aliases, encode)
  {
    var aliases := {"members", "node_ids"};
    var s, t := WithMembers(SortLists(r, encode)) - aliases, SortMembers(WithMembers(r) - aliases, encode);
    SortedInEffect(r, encode);
    forall k ensures (k in s <==> k in t) && (k in s ==> s[k] == t[k]) {
      if k != "nodes" {
        OnlyNodesInEffect(r, k);
        OnlyNodesInEffect(SortLists(r, encode), k);
      }
    }
  }

  lemma SortMembersTwice(r: Record, encode: Value -> string)
    ensures SortMembers(SortMembers(r, encode), encode) == SortMembers(r, encode)
  {
    if "nodes" in r && r["nodes"].Arr? { SortedTwice(r["nodes"].items, encode); }
  }

  /** The canonical form does not see the order of members, whichever of the three names their list
      has. */
  lemma HyperedgeIgnoresMemberOrder(raw: Value, host: Host)
    ensures CanonicalHyperedge(SortedMembers(raw, host.encode), host) == CanonicalHyperedge(raw, host)
  {
    if raw.Obj? {
      SortedListInEffect(raw.fields, host.encode);
      SortMembersTwice(WithMembers(raw.fields) - {"members", "node_ids"}, host.encode);
    }
  }

  lemma MapSeqCompose(s: seq<Value>, host: Host)
    ensures MapSeq(MapSeq(s, v => SortedMembers(v, host.encode)), h => CanonicalHyperedge(h, host))
         == MapSeq(s, h => CanonicalHyperedge(h, host))
  {
    forall i | 0 <= i < |s| {
      HyperedgeIgnoresMemberOrder(s[i], host);
    }
  }

  lemma RecordsIgnoreOrder(a: seq<Value>, b: seq<Value>, f: Value -> Value, encode: Value -> string)
    requires Injective(encode) && multiset(a) == multiset(b)
    ensures Sorted(MapSeq(a, f), encode) == Sorted(MapSeq(b, f), encode)
  {
    MapSeqMultiset(a, b, f);
    SortedForgetsOrder(MapSeq(a, f), MapSeq(b, f), encode);
  }

  lemma MetadataIgnoresCollections(g: Record, h: Record, keep: string -> bool)
    requires g - COLLECTIONS == h - COLLECTIONS
    requires forall field :: keep(field) ==> field !in COLLECTIONS
    ensures Restrict(g, keep) == Restrict(h, keep)
  {
    forall field | keep(field)
      ensures (field in g <==> field in h) && (field in g ==> g[field] == h[field])
    {
      assert field in g - COLLECTIONS <==> field in h - COLLECTIONS;
      assert field in g ==> (g - COLLECTIONS)[field] == (h - COLLECTIONS)[field];
    }
  }

  /** Reordering records or members does not change the canonical form. */
  lemma CanonicalIgnoresOrder(g: Record, h: Record, strict: bool, host: Host)
    requires Injective(host.encode) && Reordered(g, h, host)
    ensures CanonicalForm(g, strict, host) == CanonicalForm(h, strict, host)
  {
    RecordsIgnoreOrder(RawRecords(g, "nodes"), RawRecords(h, "nodes"),
                       n => CanonicalNode(n, strict, host.portable), host.encode);
    RecordsIgnoreOrder(RawEdges(g), RawEdges(h),
                       e => CanonicalEdge(e, strict, host.portable), host.encode);
    HyperedgesIgnoreOrder(g, h, host);
    MetadataIgnoresCollections(g, h, KeepMetadata(strict));
  }

  lemma HyperedgesIgnoreOrder(g: Record, h: Record, host: Host)
    requires Injective(host.encode) && SameHyperedges(g, h, host.encode)
    ensures Sorted(MapSeq(RawRecords(g, "hyperedges"), x => CanonicalHyperedge(x, host)), host.encode)
         == Sorted(MapSeq(RawRecords(h, "hyperedges"), x => CanonicalHyperedge(x, host)), host.encode)
  {
    var canonical := x => CanonicalHyperedge(x, host);
    var normal := v => SortedMembers(v, host.encode);
    var a, b := RawRecords(g, "hyperedges"), RawRecords(h, "hyperedges");
    MapSeqMultiset(MapSeq(a, normal), MapSeq(b, normal), canonical);
    MapSeqCompose(a, host);
    MapSeqCompose(b, host);
    SortedForgetsOrder(MapSeq(a, canonical), MapSeq(b, canonical), host.encode);
  }
}
