/** What a comparison reads in a raw record, whichever names its fields have, and that two records have
    one canonical form exactly when they say the same. */
module RawMeaning {
  import opened Json
  import opened Wrappers
  import opened GraphRecords
  import opened Ordering
  import opened CanonicalGraph

  function Said(r: Record, field: string): Option<Value> {
    if field in r then Some(r[field]) else None
  }

  function Placed(v: Option<Value>, path: string -> string): Option<Value> {
    if v.Some? && v.value.Str? then Some(Str(path(v.value.text))) else v
  }

  /** Field by field equal. */
  lemma SameFields(r: Record, s: Record)
    requires forall field :: Said(r, field) == Said(s, field)
    ensures r == s
  {
    forall field ensures (field in r <==> field in s) && (field in r ==> r[field] == s[field]) {
      assert Said(r, field) == Said(s, field);
    }
  }

  // ---- edges ----

  function SourceOf(r: Record): Value {
    if "_src" in r then r["_src"] else if "source" in r then r["source"] else if "from" in r then r["from"] else Null
  }

  function TargetOf(r: Record): Value {
    if "_tgt" in r then r["_tgt"] else if "target" in r then r["target"] else if "to" in r then r["to"] else Null
  }

  function RelationOf(r: Record): Value {
    if "relation" in r then r["relation"] else if "type" in r then r["type"] else Str("")
  }

  function EdgeField(r: Record, field: string, path: string -> string): Option<Value> {
    if field == "source" then Some(SourceOf(r))
    else if field == "target" then Some(TargetOf(r))
    else if field == "relation" then Some(RelationOf(r))
    else if field == "source_file" then Placed(Said(r, field), path)
    else if field in {"_src", "_tgt", "from", "to", "type"} then None
    else Said(r, field)
  }

  /** What an edge record says under a name; a record that is no object says only what it is. */
  function EdgeSays(v: Value, field: string, strict: bool, path: string -> string): Option<Value> {
    if !v.Obj? then (if field == "__malformed__" then Some(v) else None)
    else if strict || field in EDGE_STRUCTURAL_FIELDS then EdgeField(v.fields, field, path)
    else None
  }

  lemma FirstOfThree(r: Record, a: string, b: string, c: string)
    ensures FirstAlias(r, [a, b, c]) ==
            if a in r then r[a] else if b in r then r[b] else if c in r then r[c] else Null
  {
    assert [a, b, c][1..] == [b, c] && [b, c][1..] == [c] && [c][1..] == [];
    assert FirstAlias(r, [c]) == if c in r then r[c] else Null;
  }

  lemma EndpointsRead(r: Record)
    ensures FirstAlias(r, SOURCE_ALIASES) == SourceOf(r)
    ensures FirstAlias(r, TARGET_ALIASES) == TargetOf(r)
  {
    FirstOfThree(r, "_src", "source", "from");
    FirstOfThree(r, "_tgt", "target", "to");
  }

  lemma EdgeRead(v: Value, field: string, strict: bool, path: string -> string)
    ensures Said(CanonicalEdge(v, strict, path).fields, field) == EdgeSays(v, field, strict, path)
  {
    if v.Obj? { EndpointsRead(v.fields); }
  }

  ghost predicate SameEdge(a: Value, b: Value, strict: bool, path: string -> string) {
    forall field :: EdgeSays(a, field, strict, path) == EdgeSays(b, field, strict, path)
  }

  /** Two edge records have one canonical form exactly when they say the same under every name. */
  lemma SameEdgeForm(a: Value, b: Value, strict: bool, path: string -> string)
    ensures CanonicalEdge(a, strict, path) == CanonicalEdge(b, strict, path) <==> SameEdge(a, b, strict, path)
  {
    var c, d := CanonicalEdge(a, strict, path), CanonicalEdge(b, strict, path);
    forall field
      ensures Said(c.fields, field) == EdgeSays(a, field, strict, path)
      ensures Said(d.fields, field) == EdgeSays(b, field, strict, path)
    {
      EdgeRead(a, field, strict, path);
      EdgeRead(b, field, strict, path);
    }
    if SameEdge(a, b, strict, path) {
      forall field ensures Said(c.fields, field) == Said(d.fields, field) {
        assert EdgeSays(a, field, strict, path) == EdgeSays(b, field, strict, path);
      }
      SameFields(c.fields, d.fields);
    }
  }

  // ---- nodes ----

  function LabelOf(r: Record): Option<Value> { if "label" in r then Some(r["label"]) else Said(r, "name") }

  function TypeOf(r: Record): Option<Value> { if "type" in r then Some(r["type"]) else Said(r, "node_type") }

  function NodeField(r: Record, field: string, path: string -> string): Option<Value> {
    if field == "label" then LabelOf(r)
    else if field == "type" then TypeOf(r)
    else if field == "source_file" then Placed(Said(r, field), path)
    else if field in {"name", "node_type"} then None
    else Said(r, field)
  }

  predicate NodeCompared(field: string, strict: bool) {
    if strict then field !in VOLATILE_NODE_FIELDS else field in NODE_STRUCTURAL_FIELDS
  }

  /** What a node record says under a name. */
  function NodeSays(v: Value, field: string, strict: bool, path: string -> string): Option<Value> {
    if !v.Obj? then (if field == "__malformed__" then Some(v) else None)
    else if NodeCompared(field, strict) then NodeField(v.fields, field, path)
    else None
  }

  lemma NodeRead(v: Value, field: string, strict: bool, path: string -> string)
    ensures Said(CanonicalNode(v, strict, path).fields, field) == NodeSays(v, field, strict, path)
  {}

  ghost predicate SameNode(a: Value, b: Value, strict: bool, path: string -> string) {
    forall field :: NodeSays(a, field, strict, path) == NodeSays(b, field, strict, path)
  }

  /** Two node records have one canonical form exactly when they say the same under every name. */
  lemma SameNodeForm(a: Value, b: Value, strict: bool, path: string -> string)
    ensures CanonicalNode(a, strict, path) == CanonicalNode(b, strict, path) <==> SameNode(a, b, strict, path)
  {
    var c, d := CanonicalNode(a, strict, path), CanonicalNode(b, strict, path);
    forall field
      ensures Said(c.fields, field) == NodeSays(a, field, strict, path)
      ensures Said(d.fields, field) == NodeSays(b, field, strict, path)
    {
      NodeRead(a, field, strict, path);
      NodeRead(b, field, strict, path);
    }
    if SameNode(a, b, strict, path) {
      forall field ensures Said(c.fields, field) == Said(d.fields, field) {
        assert NodeSays(a, field, strict, path) == NodeSays(b, field, strict, path);
      }
      SameFields(c.fields, d.fields);
    }
  }

  // ---- hyperedges ----

  predicate IsList(v: Option<Value>) { v.Some? && v.value.Arr? }

  /** The first of the three names whose value is a list; else whatever `nodes` is. */
  function MembersOf(r: Record): Option<Value> {
    if IsList(Said(r, "nodes")) then Said(r, "nodes")
    else if IsList(Said(r, "members")) then Said(r, "members")
    else if IsList(Said(r, "node_ids")) then Said(r, "node_ids")
    else Said(r, "nodes")
  }

  function HyperedgeField(r: Record, field: string, path: string -> string): Option<Value> {
    if field == "nodes" then MembersOf(r)
    else if field == "source_file" then Placed(Said(r, field), path)
    else if field in {"members", "node_ids"} then None
    else Said(r, field)
  }

  function InOrder(v: Option<Value>, encode: Value -> string): Option<Value> {
    if IsList(v) then Some(Arr(Sorted(v.value.items, encode))) else v
  }

  lemma WithMembersSays(r: Record, field: string)
    ensures Said(WithMembers(r), field) == if field == "nodes" then MembersOf(r) else Said(r, field)
  {}

  lemma SortMembersSays(r: Record, field: string, encode: Value -> string)
    ensures Said(SortMembers(r, encode), field) ==
            if field == "nodes" then InOrder(Said(r, field), encode) else Said(r, field)
  {}

  lemma PortableSays(r: Record, field: string, path: string -> string)
    ensures Said(PortableSource(r, path), field) ==
            if field == "source_file" then Placed(Said(r, field), path) else Said(r, field)
  {}

  lemma DroppedSays(r: Record, fields: set<string>, field: string)
    ensures Said(r - fields, field) == if field in fields then None else Said(r, field)
  {}

  lemma HyperedgeRead(v: Value, field: string, host: Host)
    requires v.Obj?
    ensures CanonicalHyperedge(v, host).Obj?
    ensures Said(CanonicalHyperedge(v, host).fields, field) ==
            if field == "nodes" then InOrder(MembersOf(v.fields), host.encode)
            else HyperedgeField(v.fields, field, host.portable)
  {
    var named := WithMembers(v.fields);
    var r := named - {"members", "node_ids"};
    WithMembersSays(v.fields, field);
    DroppedSays(named, {"members", "node_ids"}, field);
    SortMembersSays(r, field, host.encode);
    PortableSays(SortMembers(r, host.encode), field, host.portable);
  }

  /** The same value, or two lists of the same members, each as often. */
  ghost predicate SameMembers(x: Option<Value>, y: Option<Value>) {
    x == y || (IsList(x) && IsList(y) && multiset(x.value.items) == multiset(y.value.items))
  }

  lemma SameOrder(x: Option<Value>, y: Option<Value>, encode: Value -> string)
    requires Injective(encode)
    ensures InOrder(x, encode) == InOrder(y, encode) <==> SameMembers(x, y)
  {
    if IsList(x) && IsList(y) {
      if multiset(x.value.items) == multiset(y.value.items) {
        SortedForgetsOrder(x.value.items, y.value.items, encode);
      }
      assert multiset(Sorted(x.value.items, encode)) == multiset(x.value.items);
      assert multiset(Sorted(y.value.items, encode)) == multiset(y.value.items);
    }
  }

  ghost predicate SameHyperedge(a: Value, b: Value, path: string -> string) {
    if a.Obj? && b.Obj? then
      SameMembers(MembersOf(a.fields), MembersOf(b.fields)) && SameElsewhere(a.fields, b.fields, path)
    else a == b
  }

  ghost predicate SameElsewhere(r: Record, s: Record, path: string -> string) {
    forall field :: field != "nodes" ==> HyperedgeField(r, field, path) == HyperedgeField(s, field, path)
  }

  lemma HyperedgeFieldsForm(a: Value, b: Value, host: Host)
    requires a.Obj? && b.Obj?
    ensures CanonicalHyperedge(a, host) == CanonicalHyperedge(b, host) <==>
            InOrder(MembersOf(a.fields), host.encode) == InOrder(MembersOf(b.fields), host.encode) &&
            SameElsewhere(a.fields, b.fields, host.portable)
  {
    HyperedgeRead(a, "nodes", host);
    HyperedgeRead(b, "nodes", host);
    var c, d := CanonicalHyperedge(a, host).fields, CanonicalHyperedge(b, host).fields;
    if c == d {
      forall field | field != "nodes"
        ensures HyperedgeField(a.fields, field, host.portable) == HyperedgeField(b.fields, field, host.portable)
      {
        HyperedgeRead(a, field, host);
        HyperedgeRead(b, field, host);
      }
    }
    if Said(c, "nodes") == Said(d, "nodes") && SameElsewhere(a.fields, b.fields, host.portable) {
      forall field ensures Said(c, field) == Said(d, field) {
        HyperedgeRead(a, field, host);
        HyperedgeRead(b, field, host);
      }
      SameFields(c, d);
    }
  }

  /** Two hyperedge records have one canonical form exactly when they have the same members, in any
      order, and say the same under every other name. */
  lemma SameHyperedgeForm(a: Value, b: Value, host: Host)
    requires Injective(host.encode)
    ensures CanonicalHyperedge(a, host) == CanonicalHyperedge(b, host) <==> SameHyperedge(a, b, host.portable)
  {
    if a.Obj? && b.Obj? {
      SameOrder(MembersOf(a.fields), MembersOf(b.fields), host.encode);
      HyperedgeFieldsForm(a, b, host);
    } else {
      assert a.Obj? ==> CanonicalHyperedge(a, host).Obj?;
      assert b.Obj? ==> CanonicalHyperedge(b, host).Obj?;
    }
  }

  // ---- what is compared ----

  predicate IsLayout(field: string) {
    field in {"community", "community_name", "x", "y", "color", "degree", "size"}
  }

  predicate IsNodeStructure(field: string) {
    field in {"id", "label", "type", "file_type", "source_file", "source_location", "line", "line_start", "line_end",
              "signature", "parent", "parent_id"}
  }

  predicate IsEdgeStructure(field: string) {
    field in {"source", "target", "relation", "confidence", "confidence_score", "source_file", "source_location",
              "line", "line_number", "context", "key"}
  }

  lemma NodeFieldsCompared(field: string, strict: bool)
    requires field !in {"name", "node_type"}
    ensures NodeCompared(field, strict) <==> if strict then !IsLayout(field) else IsNodeStructure(field)
  {}

  lemma EdgeFieldsCompared(field: string)
    requires field !in {"_src", "_tgt", "from", "to", "type"}
    ensures field in EDGE_STRUCTURAL_FIELDS <==> IsEdgeStructure(field)
  {}

  lemma NodeFieldStays(r: Record, changed: string, value: Value, field: string, path: string -> string)
    requires changed != field && changed !in {"label", "name", "type", "node_type", "source_file"}
    ensures NodeField(r[changed := value], field, path) == NodeField(r, field, path)
  {}

  lemma FieldIgnored(r: Record, changed: string, value: Value, strict: bool, path: string -> string)
    requires !NodeCompared(changed, strict) && changed !in {"label", "name", "type", "node_type", "source_file"}
    ensures SameNode(Obj(r[changed := value]), Obj(r), strict, path)
  {
    var a, b := Obj(r[changed := value]), Obj(r);
    forall f ensures NodeSays(a, f, strict, path) == NodeSays(b, f, strict, path) {
      if f != changed { NodeFieldStays(r, changed, value, f, path); }
    }
  }

  lemma NodeFieldSeen(r: Record, field: string, value: Value, strict: bool, path: string -> string)
    requires field in r && field !in {"name", "node_type", "source_file"} && NodeCompared(field, strict)
    requires SameNode(Obj(r[field := value]), Obj(r), strict, path)
    ensures value == r[field]
  {
    assert NodeSays(Obj(r[field := value]), field, strict, path) == Some(value);
    assert NodeSays(Obj(r), field, strict, path) == Some(r[field]);
  }

  /** Giving a field of a node another value changes the canonical form exactly when the field is compared:
      in the strict profile when it is no layout, in the other one when it is structure. */
  lemma NodeFieldMatters(r: Record, field: string, value: Value, strict: bool, path: string -> string)
    requires field in r && field !in {"name", "node_type", "source_file"}
    ensures CanonicalNode(Obj(r[field := value]), strict, path) == CanonicalNode(Obj(r), strict, path) <==>
            value == r[field] || if strict then IsLayout(field) else !IsNodeStructure(field)
  {
    SameNodeForm(Obj(r[field := value]), Obj(r), strict, path);
    NodeFieldsCompared(field, strict);
    if value == r[field] {
      assert r[field := value] == r;
    } else if NodeCompared(field, strict) {
      if SameNode(Obj(r[field := value]), Obj(r), strict, path) { NodeFieldSeen(r, field, value, strict, path); }
    } else {
      NoAliasLeftOut(field, strict);
      FieldIgnored(r, field, value, strict, path);
    }
  }

  lemma NoAliasLeftOut(field: string, strict: bool)
    requires !NodeCompared(field, strict)
    ensures field !in {"label", "type", "source_file"}
  {}

  lemma EdgeFieldStays(r: Record, changed: string, value: Value, field: string, path: string -> string)
    requires changed != field && changed !in {"source", "target", "relation", "source_file"}
    requires changed !in {"_src", "_tgt", "from", "to", "type"}
    ensures EdgeField(r[changed := value], field, path) == EdgeField(r, field, path)
  {}

  lemma EdgeFieldIgnored(r: Record, changed: string, value: Value, path: string -> string)
    requires changed !in EDGE_STRUCTURAL_FIELDS && changed !in {"_src", "_tgt", "from", "to", "type"}
    requires changed !in {"source", "target", "relation", "source_file"}
    ensures SameEdge(Obj(r[changed := value]), Obj(r), false, path)
  {
    var a, b := Obj(r[changed := value]), Obj(r);
    forall f ensures EdgeSays(a, f, false, path) == EdgeSays(b, f, false, path) {
      if f != changed { EdgeFieldStays(r, changed, value, f, path); }
    }
  }

  predicate IsEdgeAlias(field: string) {
    field in {"source", "target", "relation", "source_file", "_src", "_tgt", "from", "to", "type"}
  }

  lemma EdgeFieldSeen(r: Record, field: string, value: Value, strict: bool, path: string -> string)
    requires field in r && !IsEdgeAlias(field)
    requires strict || field in EDGE_STRUCTURAL_FIELDS
    requires SameEdge(Obj(r[field := value]), Obj(r), strict, path)
    ensures value == r[field]
  {
    assert EdgeSays(Obj(r[field := value]), field, strict, path) == Some(value);
    assert EdgeSays(Obj(r), field, strict, path) == Some(r[field]);
  }

  /** And so for a field of an edge, all of which the strict profile compares. */
  lemma EdgeFieldMatters(r: Record, field: string, value: Value, strict: bool, path: string -> string)
    requires field in r && !IsEdgeAlias(field)
    ensures CanonicalEdge(Obj(r[field := value]), strict, path) == CanonicalEdge(Obj(r), strict, path) <==>
            value == r[field] || (!strict && !IsEdgeStructure(field))
  {
    SameEdgeForm(Obj(r[field := value]), Obj(r), strict, path);
    EdgeFieldsCompared(field);
    if value == r[field] {
      assert r[field := value] == r;
    } else if strict || field in EDGE_STRUCTURAL_FIELDS {
      if SameEdge(Obj(r[field := value]), Obj(r), strict, path) { EdgeFieldSeen(r, field, value, strict, path); }
    } else {
      EdgeFieldIgnored(r, field, value, path);
    }
  }

  lemma RestrictIgnores(r: Record, field: string, value: Value, keep: string -> bool)
    requires !keep(field)
    ensures Restrict(r[field := value], keep) == Restrict(r, keep)
  {}

  lemma RecordsIgnore(r: Record, field: string, value: Value, key: string)
    requires key != field
    ensures RawRecords(r[field := value], key) == RawRecords(r, key)
  {}

  predicate IsBuildStamp(key: string) {
    key in {"graph", "built_at", "built_at_commit", "input_tokens", "output_tokens", "elapsed_seconds"}
  }

  lemma MetadataKept(key: string, strict: bool)
    requires key !in {"nodes", "links", "edges", "hyperedges"}
    ensures KeepMetadata(strict)(key) <==> if strict then !IsBuildStamp(key) else key in {"directed", "multigraph"}
  {}

  lemma SameOutside(graph: Record, key: string, value: Value)
    requires key !in {"nodes", "links", "edges", "hyperedges"}
    ensures RawEdges(graph[key := value]) == RawEdges(graph)
    ensures RawRecords(graph[key := value], "nodes") == RawRecords(graph, "nodes")
    ensures RawRecords(graph[key := value], "hyperedges") == RawRecords(graph, "hyperedges")
  {
    RecordsIgnore(graph, key, value, "nodes");
    RecordsIgnore(graph, key, value, "links");
    RecordsIgnore(graph, key, value, "edges");
    RecordsIgnore(graph, key, value, "hyperedges");
  }

  lemma RestrictSees(r: Record, field: string, value: Value, keep: string -> bool)
    requires field in r && keep(field)
    ensures Restrict(r[field := value], keep) == Restrict(r, keep) <==> value == r[field]
  {
    assert Restrict(r[field := value], keep)[field] == value && Restrict(r, keep)[field] == r[field];
    if value == r[field] { assert r[field := value] == r; }
  }

  /** And for what a graph says of itself: the strict profile compares all but the time, commit and cost of
      its build, the other one only whether it is directed and a multigraph. */
  lemma MetadataMatters(graph: Record, key: string, value: Value, strict: bool, host: Host)
    requires key in graph && key !in {"nodes", "links", "edges", "hyperedges"}
    ensures CanonicalForm(graph[key := value], strict, host) == CanonicalForm(graph, strict, host) <==>
            value == graph[key] || if strict then IsBuildStamp(key) else key !in {"directed", "multigraph"}
  {
    MetadataKept(key, strict);
    SameOutside(graph, key, value);
    if KeepMetadata(strict)(key) {
      RestrictSees(graph, key, value, KeepMetadata(strict));
    } else {
      RestrictIgnores(graph, key, value, KeepMetadata(strict));
    }
  }

  lemma SameCollections(g: Record, h: Record, strict: bool, host: Host)
    requires g - COLLECTIONS == h - COLLECTIONS && RawEdges(g) == RawEdges(h)
    requires RawRecords(g, "nodes") == RawRecords(h, "nodes")
    requires RawRecords(g, "hyperedges") == RawRecords(h, "hyperedges")
    ensures CanonicalForm(g, strict, host) == CanonicalForm(h, strict, host)
  {
    MetadataIgnoresCollections(g, h, KeepMetadata(strict));
  }

  /** Edges are read from `links` when there is one, whatever `edges` says, and else from `edges`. */
  lemma LinksFirst(g: Record, edges: Value, strict: bool, host: Host)
    ensures "links" in g ==> CanonicalForm(g["edges" := edges], strict, host) == CanonicalForm(g, strict, host)
    ensures "links" !in g && "edges" in g ==>
              CanonicalForm((g - {"edges"})["links" := g["edges"]], strict, host) == CanonicalForm(g, strict, host)
  {
    if "links" in g {
      var h := g["edges" := edges];
      assert h - COLLECTIONS == g - COLLECTIONS;
      SameCollections(h, g, strict, host);
    } else if "edges" in g {
      var h := (g - {"edges"})["links" := g["edges"]];
      assert h - COLLECTIONS == g - COLLECTIONS;
      SameCollections(h, g, strict, host);
    }
  }
}
