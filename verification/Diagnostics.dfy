/** Violations found in a raw graph before anything is normalised away. */
module Diagnostics {
  import opened Json
  import opened GraphRecords
  import opened Wrappers
  import opened CanonicalGraph
  import opened Sequences

  datatype Kind = NodeRecord | EdgeRecord | HyperedgeRecord

  function Truth(b: bool): nat { if b then 1 else 0 }

  predicate IsAbsolute(v: Value, host: Host) {
    v.Str? && v.text != "" && host.absolute(v.text)
  }

  function Present(r: Record, aliases: seq<string>): (values: seq<Value>)
    ensures |values| <= |aliases|
  {
    if aliases == [] then []
    else if aliases[0] in r then [r[aliases[0]]] + Present(r, aliases[1..])
    else Present(r, aliases[1..])
  }

  /** Two or more aliases are present and some value differs from the first. */
  predicate AliasConflict(r: Record, aliases: seq<string>, number: Reading) {
    var values := Present(r, aliases);
    |values| >= 2 && exists i :: 0 < i < |values| && !JsonEqual(values[i], values[0], number)
  }

  /** Member lists disagree when they do not hold the same members; other values as above. */
  predicate ListsDisagree(first: Value, rest: seq<Value>, number: Reading) {
    if first.Arr? && forall v :: v in rest ==> v.Arr? then
      exists v :: v in rest && multiset(v.items) != multiset(first.items)
    else
      exists v :: v in rest && !JsonEqual(v, first, number)
  }

  predicate MemberConflict(r: Record, number: Reading) {
    var values := Present(r, MEMBER_ALIASES);
    |values| >= 2 && ListsDisagree(values[0], values[1..], number)
  }

  function AliasConflicts(kind: Kind, r: Record, number: Reading): nat {
    match kind
    case NodeRecord =>
      Truth(AliasConflict(r, ["label", "name"], number)) + Truth(AliasConflict(r, ["type", "node_type"], number))
    case EdgeRecord =>
      Truth(AliasConflict(r, SOURCE_ALIASES, number)) + Truth(AliasConflict(r, TARGET_ALIASES, number)) +
      Truth(AliasConflict(r, ["relation", "type"], number))
    case HyperedgeRecord => Truth(MemberConflict(r, number))
  }

  function IdFields(kind: Kind): seq<string> {
    if kind.EdgeRecord? then ["source", "target", "from", "to", "_src", "_tgt"] else ["id"]
  }

  function AbsoluteIds(r: Record, fields: seq<string>, host: Host): nat {
    if fields == [] then 0
    else Truth(IsAbsolute(Get(r, fields[0]), host)) + AbsoluteIds(r, fields[1..], host)
  }

  predicate DerivedFromPath(kind: Kind, r: Record, host: Host) {
    var id, source := Get(r, "id"), Get(r, "source_file");
    kind.NodeRecord? && id.Str? && IsAbsolute(source, host) && !IsAbsolute(id, host) &&
    host.slugFrom(source.text, id.text)
  }

  predicate Dangling(v: Value, ids: set<string>, host: Host) {
    !(ValidIdentity(v) && host.text(v) in ids)
  }

  function ShapeViolations(kind: Kind, r: Record, ids: set<string>, host: Host): nat {
    match kind
    case NodeRecord => Truth(!ValidIdentity(Get(r, "id")))
    case EdgeRecord =>
      var source, target := FirstAlias(r, SOURCE_ALIASES), FirstAlias(r, TARGET_ALIASES);
      if ValidIdentity(source) && ValidIdentity(target) && ValidIdentity(FirstAlias(r, ["relation", "type"]))
      then Truth(Dangling(source, ids, host)) + Truth(Dangling(target, ids, host)) else 1
    case HyperedgeRecord =>
      var members := FirstAlias(r, MEMBER_ALIASES);
      Truth(!ValidIdentity(Get(r, "id"))) +
      if members.Arr? && members.items != []
      then Sum(MapSeq(members.items, m => Truth(Dangling(m, ids, host)))) else 1
  }

  function RecordViolations(kind: Kind, raw: Value, ids: set<string>, host: Host): nat {
    if !raw.Obj? then 1
    else
      AliasConflicts(kind, raw.fields, host.number) + Truth(IsAbsolute(Get(raw.fields, "source_file"), host)) +
      AbsoluteIds(raw.fields, IdFields(kind), host) + Truth(DerivedFromPath(kind, raw.fields, host)) +
      ShapeViolations(kind, raw.fields, ids, host)
  }

  function ValidId(raw: Value, host: Host): Option<string> {
    if raw.Obj? && ValidIdentity(Get(raw.fields, "id")) then Some(host.text(Get(raw.fields, "id"))) else None
  }

  function ValidIds(records: seq<Value>, host: Host): set<string> {
    set r | r in records && ValidId(r, host).Some? :: ValidId(r, host).value
  }

  /** Occurrences beyond the first of each identity. */
  function Duplicates(records: seq<Value>, host: Host): int {
    Sum(MapSeq(records, r => Truth(ValidId(r, host).Some?))) - |ValidIds(records, host)|
  }

  predicate EdgeCollectionsDisagree(graph: Record, host: Host) {
    var plain := (e: Value) => CanonicalEdge(e, true, host.plain);
    "links" in graph && graph["links"].Arr? && "edges" in graph && graph["edges"].Arr? &&
    multiset(MapSeq(graph["links"].items, plain)) != multiset(MapSeq(graph["edges"].items, plain))
  }

  function CollectionViolations(graph: Record, host: Host): nat {
    Truth("nodes" !in graph) + Truth("hyperedges" !in graph) +
    Truth("links" !in graph && "edges" !in graph) +
    Truth("nodes" in graph && !graph["nodes"].Arr?) + Truth("links" in graph && !graph["links"].Arr?) +
    Truth("edges" in graph && !graph["edges"].Arr?) +
    Truth("hyperedges" in graph && !graph["hyperedges"].Arr?) +
    Truth(EdgeCollectionsDisagree(graph, host))
  }

  function AllRecordViolations(kind: Kind, records: seq<Value>, ids: set<string>, host: Host): nat {
    Sum(MapSeq(records, r => RecordViolations(kind, r, ids, host)))
  }

  function NodeViolations(nodes: seq<Value>, ids: set<string>, host: Host): int {
    AllRecordViolations(NodeRecord, nodes, ids, host) + Duplicates(nodes, host)
  }

  function EdgeViolations(graph: Record, ids: set<string>, host: Host): int {
    AllRecordViolations(EdgeRecord, RawRecords(graph, "links"), ids, host) +
    AllRecordViolations(EdgeRecord, RawRecords(graph, "edges"), ids, host)
  }

  function HyperedgeViolations(hyperedges: seq<Value>, ids: set<string>, host: Host): int {
    AllRecordViolations(HyperedgeRecord, hyperedges, ids, host) + Duplicates(hyperedges, host)
  }

  function Violations(graph: Record, host: Host): int {
    var nodes := RawRecords(graph, "nodes");
    var ids := ValidIds(nodes, host);
    CollectionViolations(graph, host) + NodeViolations(nodes, ids, host) + EdgeViolations(graph, ids, host) +
    HyperedgeViolations(RawRecords(graph, "hyperedges"), ids, host)
  }

  // ---- order independence ----

  lemma SumIgnoresOrder(a: seq<Value>, b: seq<Value>, f: Value -> nat)
    requires multiset(a) == multiset(b)
    ensures Sum(MapSeq(a, f)) == Sum(MapSeq(b, f))
  {
    MapSeqMultiset(a, b, f);
    SumForgetsOrder(MapSeq(a, f), MapSeq(b, f));
  }

  lemma ValidIdsIgnoreOrder(a: seq<Value>, b: seq<Value>, host: Host)
    requires multiset(a) == multiset(b)
    ensures ValidIds(a, host) == ValidIds(b, host)
  {
    forall r: Value ensures r in a <==> r in b { assert r in a <==> r in multiset(a); }
  }

  lemma DuplicatesIgnoreOrder(a: seq<Value>, b: seq<Value>, host: Host)
    requires multiset(a) == multiset(b)
    ensures Duplicates(a, host) == Duplicates(b, host)
  {
    ValidIdsIgnoreOrder(a, b, host);
    SumIgnoresOrder(a, b, r => Truth(ValidId(r, host).Some?));
  }

  /** The same value, or two lists of the same members. */
  ghost predicate Alike(a: Value, b: Value) {
    a == b || (a.Arr? && b.Arr? && multiset(a.items) == multiset(b.items))
  }

  ghost predicate AllAlike(a: seq<Value>, b: seq<Value>) {
    |a| == |b| && forall i :: 0 <= i < |a| ==> Alike(a[i], b[i])
  }

  lemma {:induction false} PresentAlike(r: Record, s: Record, aliases: seq<string>)
    requires r.Keys == s.Keys && forall k :: k in r ==> Alike(r[k], s[k])
    ensures AllAlike(Present(r, aliases), Present(s, aliases))
    decreases |aliases|
  {
    if aliases != [] { PresentAlike(r, s, aliases[1..]); }
  }

  /** Lists that disagree do so in any order of their members. */
  lemma DisagreeAlike(a: Value, b: Value, v: seq<Value>, w: seq<Value>, number: Reading)
    requires Alike(a, b) && AllAlike(v, w) && ListsDisagree(a, v, number)
    ensures ListsDisagree(b, w, number)
  {
    if a.Arr? && forall x :: x in v ==> x.Arr? {
      var i :| 0 <= i < |v| && multiset(v[i].items) != multiset(a.items);
      assert Alike(v[i], w[i]) && w[i] in w;
      forall x | x in w ensures x.Arr? {
        var k :| 0 <= k < |w| && w[k] == x;
        assert Alike(v[k], w[k]) && v[k] in v;
      }
    } else {
      var i := UnlikeFirst(a, v, number);
      assert Alike(v[i], w[i]) && w[i] in w;
      if b.Arr? { assert !w[i].Arr?; }
    }
  }

  lemma UnlikeFirst(a: Value, v: seq<Value>, number: Reading) returns (i: nat)
    requires ListsDisagree(a, v, number) && !(a.Arr? && forall x :: x in v ==> x.Arr?)
    ensures i < |v| && !JsonEqual(v[i], a, number) && (a.Arr? ==> !v[i].Arr?)
  {
    if a.Arr? {
      i :| 0 <= i < |v| && !v[i].Arr?;
    } else {
      i :| 0 <= i < |v| && !JsonEqual(v[i], a, number);
    }
  }

  lemma ListsAlike(r: Record, encode: Value -> string)
    ensures r.Keys == SortLists(r, encode).Keys
    ensures forall k :: k in r ==> Alike(r[k], SortLists(r, encode)[k]) && Alike(SortLists(r, encode)[k], r[k])
  {}

  lemma MemberConflictIgnoresOrder(r: Record, encode: Value -> string, number: Reading)
    ensures MemberConflict(SortLists(r, encode), number) == MemberConflict(r, number)
  {
    var s := SortLists(r, encode);
    ListsAlike(r, encode);
    PresentAlike(r, s, MEMBER_ALIASES);
    PresentAlike(s, r, MEMBER_ALIASES);
    var v, w := Present(r, MEMBER_ALIASES), Present(s, MEMBER_ALIASES);
    if |v| >= 2 {
      if ListsDisagree(v[0], v[1..], number) { DisagreeAlike(v[0], w[0], v[1..], w[1..], number); }
      if ListsDisagree(w[0], w[1..], number) { DisagreeAlike(w[0], v[0], w[1..], v[1..], number); }
    }
  }

  lemma {:induction false} FirstAlike(r: Record, s: Record, aliases: seq<string>)
    requires r.Keys == s.Keys && forall k :: k in r ==> Alike(r[k], s[k])
    ensures Alike(FirstAlias(r, aliases), FirstAlias(s, aliases))
    decreases |aliases|
  {
    if aliases != [] && aliases[0] !in r { FirstAlike(r, s, aliases[1..]); }
  }

  lemma SameOtherFields(r: Record, encode: Value -> string)
    ensures Get(SortLists(r, encode), "id") == Get(r, "id")
    ensures Get(SortLists(r, encode), "source_file") == Get(r, "source_file")
  {}

  lemma HyperedgeShapeIgnoresOrder(r: Record, ids: set<string>, host: Host)
    ensures ShapeViolations(HyperedgeRecord, SortLists(r, host.encode), ids, host)
         == ShapeViolations(HyperedgeRecord, r, ids, host)
  {
    var s := SortLists(r, host.encode);
    ListsAlike(r, host.encode);
    SameOtherFields(r, host.encode);
    FirstAlike(r, s, MEMBER_ALIASES);
    MembersDangleAlike(FirstAlias(r, MEMBER_ALIASES), FirstAlias(s, MEMBER_ALIASES), ids, host);
  }

  lemma HyperedgeViolationsIgnoreOrder(raw: Value, ids: set<string>, host: Host)
    ensures RecordViolations(HyperedgeRecord, SortedMembers(raw, host.encode), ids, host)
         == RecordViolations(HyperedgeRecord, raw, ids, host)
  {
    if raw.Obj? {
      var r := raw.fields;
      SameOtherFields(r, host.encode);
      MemberConflictIgnoresOrder(r, host.encode, host.number);
      HyperedgeShapeIgnoresOrder(r, ids, host);
      AbsoluteIdsSame(r, SortLists(r, host.encode), host);
    }
  }

  lemma MembersDangleAlike(a: Value, b: Value, ids: set<string>, host: Host)
    requires Alike(a, b)
    ensures (a.Arr? && a.items != []) == (b.Arr? && b.items != [])
    ensures a.Arr? && b.Arr? ==>
      Sum(MapSeq(a.items, m => Truth(Dangling(m, ids, host)))) ==
      Sum(MapSeq(b.items, m => Truth(Dangling(m, ids, host))))
  {
    if a != b {
      SumIgnoresOrder(a.items, b.items, m => Truth(Dangling(m, ids, host)));
      assert |a.items| == |multiset(a.items)| == |b.items|;
    }
  }

  lemma AbsoluteIdsSame(r: Record, s: Record, host: Host)
    requires Get(r, "id") == Get(s, "id")
    ensures AbsoluteIds(r, ["id"], host) == AbsoluteIds(s, ["id"], host)
  {}

  /** Hyperedge records agree up to the order of their members. */
  ghost predicate SameUpToMembers(a: seq<Value>, b: seq<Value>, encode: Value -> string) {
    var normal := v => SortedMembers(v, encode);
    multiset(MapSeq(a, normal)) == multiset(MapSeq(b, normal))
  }

  lemma HyperedgeRecordsIgnoreOrder(a: seq<Value>, b: seq<Value>, ids: set<string>, host: Host)
    requires SameUpToMembers(a, b, host.encode)
    ensures AllRecordViolations(HyperedgeRecord, a, ids, host) == AllRecordViolations(HyperedgeRecord, b, ids, host)
    ensures Duplicates(a, host) == Duplicates(b, host)
  {
    var normal := v => SortedMembers(v, host.encode);
    var a', b' := MapSeq(a, normal), MapSeq(b, normal);
    var cost := r => RecordViolations(HyperedgeRecord, r, ids, host);
    SumIgnoresOrder(a', b', cost);
    DuplicatesIgnoreOrder(a', b', host);
    NormalViolations(a, ids, host);
    NormalViolations(b, ids, host);
  }

  lemma NormalViolations(a: seq<Value>, ids: set<string>, host: Host)
    ensures AllRecordViolations(HyperedgeRecord, MapSeq(a, v => SortedMembers(v, host.encode)), ids, host)
         == AllRecordViolations(HyperedgeRecord, a, ids, host)
    ensures Duplicates(MapSeq(a, v => SortedMembers(v, host.encode)), host) == Duplicates(a, host)
  {
    var a' := MapSeq(a, v => SortedMembers(v, host.encode));
    forall i | 0 <= i < |a| ensures ValidId(a'[i], host) == ValidId(a[i], host) {
      if a[i].Obj? { SameOtherFields(a[i].fields, host.encode); }
    }
    forall i | 0 <= i < |a| { HyperedgeViolationsIgnoreOrder(a[i], ids, host); }
    var cost := r => RecordViolations(HyperedgeRecord, r, ids, host);
    assert MapSeq(a', cost) == MapSeq(a, cost);
    var valid := r => Truth(ValidId(r, host).Some?);
    assert MapSeq(a', valid) == MapSeq(a, valid);
    SameValidIds(a, a', host);
  }

  lemma SameValidIds(a: seq<Value>, b: seq<Value>, host: Host)
    requires |a| == |b| && forall i :: 0 <= i < |a| ==> ValidId(a[i], host) == ValidId(b[i], host)
    ensures ValidIds(a, host) == ValidIds(b, host)
  {
    forall i | 0 <= i < |a| && ValidId(a[i], host).Some?
      ensures ValidId(a[i], host).value in ValidIds(b, host) && ValidId(b[i], host).value in ValidIds(a, host)
    {
      assert a[i] in a && b[i] in b;
    }
  }

  lemma NodesAndEdgesIgnoreOrder(kind: Kind, a: seq<Value>, b: seq<Value>, ids: set<string>, host: Host)
    requires multiset(a) == multiset(b)
    ensures AllRecordViolations(kind, a, ids, host) == AllRecordViolations(kind, b, ids, host)
  {
    SumIgnoresOrder(a, b, r => RecordViolations(kind, r, ids, host));
  }

  lemma CollectionsIgnoreOrder(g: Record, h: Record, host: Host)
    requires Reordered(g, h, host)
    ensures CollectionViolations(g, host) == CollectionViolations(h, host)
  {
    var plain := (e: Value) => CanonicalEdge(e, true, host.plain);
    MapSeqMultiset(RawRecords(g, "links"), RawRecords(h, "links"), plain);
    MapSeqMultiset(RawRecords(g, "edges"), RawRecords(h, "edges"), plain);
  }

  lemma NodeViolationsIgnoreOrder(a: seq<Value>, b: seq<Value>, ids: set<string>, host: Host)
    requires multiset(a) == multiset(b)
    ensures NodeViolations(a, ids, host) == NodeViolations(b, ids, host)
  {
    NodesAndEdgesIgnoreOrder(NodeRecord, a, b, ids, host);
    DuplicatesIgnoreOrder(a, b, host);
  }

  lemma EdgeViolationsIgnoreOrder(g: Record, h: Record, ids: set<string>, host: Host)
    requires multiset(RawRecords(g, "links")) == multiset(RawRecords(h, "links"))
    requires multiset(RawRecords(g, "edges")) == multiset(RawRecords(h, "edges"))
    ensures EdgeViolations(g, ids, host) == EdgeViolations(h, ids, host)
  {
    NodesAndEdgesIgnoreOrder(EdgeRecord, RawRecords(g, "links"), RawRecords(h, "links"), ids, host);
    NodesAndEdgesIgnoreOrder(EdgeRecord, RawRecords(g, "edges"), RawRecords(h, "edges"), ids, host);
  }

  /** Reordering records or members does not change the number of violations. */
  lemma ViolationsIgnoreOrder(g: Record, h: Record, host: Host)
    requires Reordered(g, h, host)
    ensures Violations(g, host) == Violations(h, host)
  {
    var ids := ValidIds(RawRecords(g, "nodes"), host);
    ValidIdsIgnoreOrder(RawRecords(g, "nodes"), RawRecords(h, "nodes"), host);
    CollectionsIgnoreOrder(g, h, host);
    NodeViolationsIgnoreOrder(RawRecords(g, "nodes"), RawRecords(h, "nodes"), ids, host);
    EdgeViolationsIgnoreOrder(g, h, ids, host);
    HyperedgeRecordsIgnoreOrder(RawRecords(g, "hyperedges"), RawRecords(h, "hyperedges"), ids, host);
  }
}
