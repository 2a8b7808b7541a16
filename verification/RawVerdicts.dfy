/** When a comparison finds two raw graphs equal, or the reference preserved in the candidate. */
module RawVerdicts {
  import opened Json
  import opened Wrappers
  import opened GraphRecords
  import opened Ordering
  import opened Sequences
  import opened CanonicalGraph
  import opened Diagnostics
  import opened PreservedRecords
  import opened GraphComparison
  import opened RawMeaning
  import opened RawComparison
  import opened Pairings
  import opened CleanGraphs

  lemma FindingsClean(reference: Record, candidate: Record, host: Host)
    ensures Clean(FindingsOf(reference, candidate, host)) <==>
            IsClean(reference, host) && IsClean(candidate, host)
  {
    NoViolations(reference, host);
    NoViolations(candidate, host);
  }

  // ---- preserved ----

  ghost predicate NodesHeld(g: Record, h: Record, strict: bool, host: Host) {
    Held(RawRecords(g, "nodes"), RawRecords(h, "nodes"), (a, b) => NodeKept(a, b, strict, host))
  }

  ghost predicate EdgesHeld(g: Record, h: Record, strict: bool, host: Host) {
    Held(RawEdges(g), RawEdges(h), (a, b) => EdgeKept(a, b, strict, host))
  }

  ghost predicate HyperedgesHeld(g: Record, h: Record, host: Host) {
    Held(RawRecords(g, "hyperedges"), RawRecords(h, "hyperedges"), (a, b) => HyperedgeKept(a, b, host))
  }

  lemma NodesHeldForm(g: Record, h: Record, strict: bool, host: Host)
    ensures var left, right := CanonicalForm(g, strict, host).nodes, CanonicalForm(h, strict, host).nodes;
      (exists p :: IsFullPairing(p, left, right, Exactly(host))) <==> NodesHeld(g, h, strict, host)
  {
    var form := (n: Value) => CanonicalNode(n, strict, host.portable);
    forall x, y ensures ValuePreserved(form(x), form(y), Exactly(host)) <==> NodeKept(x, y, strict, host) {
      NodeKeptForm(x, y, strict, host);
    }
    FormsHeld(RawRecords(g, "nodes"), RawRecords(h, "nodes"), form, CanonicalForm(g, strict, host).nodes,
              CanonicalForm(h, strict, host).nodes, Exactly(host), (a, b) => NodeKept(a, b, strict, host));
  }

  lemma EdgesHeldForm(g: Record, h: Record, strict: bool, host: Host)
    ensures var left, right := CanonicalForm(g, strict, host).edges, CanonicalForm(h, strict, host).edges;
      (exists p :: IsFullPairing(p, left, right, Sharpening(host))) <==> EdgesHeld(g, h, strict, host)
  {
    var form := (e: Value) => CanonicalEdge(e, strict, host.portable);
    forall x, y ensures ValuePreserved(form(x), form(y), Sharpening(host)) <==> EdgeKept(x, y, strict, host) {
      EdgeKeptForm(x, y, strict, host);
    }
    FormsHeld(RawEdges(g), RawEdges(h), form, CanonicalForm(g, strict, host).edges,
              CanonicalForm(h, strict, host).edges, Sharpening(host), (a, b) => EdgeKept(a, b, strict, host));
  }

  lemma HyperedgesHeldForm(g: Record, h: Record, strict: bool, host: Host)
    ensures var left, right := CanonicalForm(g, strict, host).hyperedges, CanonicalForm(h, strict, host).hyperedges;
      (exists p :: IsFullPairing(p, left, right, Exactly(host))) <==> HyperedgesHeld(g, h, host)
  {
    var form := (x: Value) => CanonicalHyperedge(x, host);
    forall x, y ensures ValuePreserved(form(x), form(y), Exactly(host)) <==> HyperedgeKept(x, y, host) {
      HyperedgeKeptForm(x, y, host);
    }
    FormsHeld(RawRecords(g, "hyperedges"), RawRecords(h, "hyperedges"), form, CanonicalForm(g, strict, host).hyperedges,
              CanonicalForm(h, strict, host).hyperedges, Exactly(host), (a, b) => HyperedgeKept(a, b, host));
  }

  lemma CountsFull(m: Measures, left: Canonical, right: Canonical, host: Host)
    requires DescribesCounts(m, left, right, host)
    ensures m.nodesMatched == |left.nodes| <==> exists p :: IsFullPairing(p, left.nodes, right.nodes, Exactly(host))
    ensures m.edgesMatched == |left.edges| <==> exists p :: IsFullPairing(p, left.edges, right.edges, Sharpening(host))
    ensures m.hyperedgesMatched == |left.hyperedges| <==>
            exists p :: IsFullPairing(p, left.hyperedges, right.hyperedges, Exactly(host))
  {
    FullCount(m.nodesMatched, left.nodes, right.nodes, Exactly(host));
    FullCount(m.edgesMatched, left.edges, right.edges, Sharpening(host));
    FullCount(m.hyperedgesMatched, left.hyperedges, right.hyperedges, Exactly(host));
  }

  /** The reference is found preserved exactly when both raw graphs are clean, the candidate says of
      itself what the reference does, and every node, edge and hyperedge of the reference has a record of
      its own in the candidate that says all it says, a context "call" at most sharpened. */
  lemma PreservedMeans(report: Report, reference: Record, candidate: Record, options: Options, host: Host)
    requires Describes(report, reference, candidate, options, host)
    ensures report.preserved <==>
            IsClean(reference, host) && IsClean(candidate, host) &&
            GraphKept(reference, candidate, options.strict, host) &&
            NodesHeld(reference, candidate, options.strict, host) &&
            EdgesHeld(reference, candidate, options.strict, host) && HyperedgesHeld(reference, candidate, host)
  {
    var left := CanonicalForm(reference, options.strict, host);
    var right := CanonicalForm(candidate, options.strict, host);
    FindingsClean(reference, candidate, host);
    CountsFull(report.measures, left, right, host);
    NodesHeldForm(reference, candidate, options.strict, host);
    EdgesHeldForm(reference, candidate, options.strict, host);
    HyperedgesHeldForm(reference, candidate, options.strict, host);
    MetadataForms(reference, candidate, options.strict, host);
  }

  // ---- equal nodes ----

  lemma UnchangedBack(a: seq<Value>, b: seq<Value>, number: Reading)
    requires GroupUnchanged(a, b, number)
    ensures GroupUnchanged(b, a, number)
  {
    if |a| == 1 && |b| == 1 && a[0].Obj? && b[0].Obj? {
      EqualSymmetric(a[0], b[0], number);
    }
  }

  lemma EmptyUnchanged(left: seq<Value>, right: seq<Value>, host: Host)
    requires NodesUnchanged(left, right, host)
    ensures forall id :: GroupUnchanged(Group(left, id, host), Group(right, id, host), host.number)
    ensures forall id :: GroupUnchanged(Group(right, id, host), Group(left, id, host), host.number)
  {
    forall id
      ensures GroupUnchanged(Group(left, id, host), Group(right, id, host), host.number)
      ensures GroupUnchanged(Group(right, id, host), Group(left, id, host), host.number)
    {
      if id !in Ids(left, host) {
        OtherGroupsEmpty(left, id, host);
        OtherGroupsEmpty(right, id, host);
      }
      UnchangedBack(Group(left, id, host), Group(right, id, host), host.number);
    }
  }

  ghost function Alike(number: Reading): (Value, Value) -> bool { (x, y) => JsonEqual(x, y, number) }

  /** Unchanged node records correspond one to one. */
  lemma UnchangedPaired(left: seq<Value>, right: seq<Value>, host: Host)
    requires NodesUnchanged(left, right, host)
    ensures Paired(left, right, Alike(host.number))
  {
    EmptyUnchanged(left, right, host);
    var f := NodesPaired(left, right, host);
    var g := NodesPaired(right, left, host);
    MutualFullPreservation(left, right, f, g, Exactly(host));
    assert IsHolding(f, left, right, Alike(host.number));
  }

  /** Every record is an object with a proper identity, and no identity is used twice. */
  ghost predicate Identified(nodes: seq<Value>, host: Host) {
    && (forall i :: 0 <= i < |nodes| ==> nodes[i].Obj? && Proper(Said(nodes[i].fields, "id")))
    && (forall i, j :: 0 <= i < j < |nodes| ==> RecordId(nodes[i], host) != RecordId(nodes[j], host))
  }

  lemma {:induction false} GroupAlone(nodes: seq<Value>, j: nat, host: Host)
    requires Identified(nodes, host) && j < |nodes|
    ensures Group(nodes, RecordId(nodes[j], host), host) == [nodes[j]]
    decreases |nodes|
  {
    var rest := nodes[1..];
    if j == 0 {
      forall n | n in rest ensures RecordId(n, host) != RecordId(nodes[0], host) {
        var i :| 0 <= i < |rest| && rest[i] == n;
        assert nodes[i + 1] == n;
      }
      assert RecordId(nodes[0], host) !in Ids(rest, host);
      OtherGroupsEmpty(rest, RecordId(nodes[0], host), host);
    } else {
      assert rest[j - 1] == nodes[j];
      GroupAlone(rest, j - 1, host);
    }
  }

  lemma AlikeIds(a: Value, b: Value, host: Host)
    requires a.Obj? && b.Obj? && Proper(Said(a.fields, "id")) && JsonEqual(a, b, host.number)
    ensures RecordId(a, host) == RecordId(b, host)
  {
    assert JsonEqual(a.fields["id"], b.fields["id"], host.number);
  }

  lemma IdsAre(nodes: seq<Value>, ids: seq<string>, host: Host)
    requires ids == MapSeq(nodes, n => RecordId(n, host))
    ensures forall id :: id in Ids(nodes, host) <==> id in ids
  {
    forall id | id in Ids(nodes, host) ensures id in ids {
      var n :| n in nodes && RecordId(n, host) == id;
      var i :| 0 <= i < |nodes| && nodes[i] == n;
      assert ids[i] == id;
    }
    forall id | id in ids ensures id in Ids(nodes, host) {
      var i :| 0 <= i < |ids| && ids[i] == id;
      assert nodes[i] in nodes;
    }
  }

  lemma PairedIds(left: seq<Value>, right: seq<Value>, p: seq<nat>, host: Host)
    requires Identified(left, host) && Identified(right, host)
    requires |left| == |right| && IsHolding(p, left, right, Alike(host.number))
    ensures Ids(left, host) == Ids(right, host)
  {
    var a, b := MapSeq(left, n => RecordId(n, host)), MapSeq(right, n => RecordId(n, host));
    forall i | 0 <= i < |a| ensures a[i] == b[p[i]] {
      assert Alike(host.number)(left[i], right[p[i]]);
      AlikeIds(left[i], right[p[i]], host);
    }
    RearrangedBack(a, b, p);
    IdsAre(left, a, host);
    IdsAre(right, b, host);
    forall id ensures id in a <==> id in b { assert id in multiset(a) <==> id in multiset(b); }
  }

  /** With an identity each, records that correspond one to one are unchanged. */
  lemma PairedUnchanged(left: seq<Value>, right: seq<Value>, host: Host)
    requires Identified(left, host) && Identified(right, host) && Paired(left, right, Alike(host.number))
    ensures NodesUnchanged(left, right, host)
  {
    var p :| IsHolding(p, left, right, Alike(host.number));
    PairedIds(left, right, p, host);
    forall id | id in Ids(left, host)
      ensures GroupUnchanged(Group(left, id, host), Group(right, id, host), host.number)
    {
      var n :| n in left && RecordId(n, host) == id;
      var i :| 0 <= i < |left| && left[i] == n;
      assert Alike(host.number)(left[i], right[p[i]]);
      AlikeIds(left[i], right[p[i]], host);
      GroupAlone(left, i, host);
      GroupAlone(right, p[i], host);
      FieldsMatch(left[i].fields, right[p[i]].fields, host.number);
    }
  }

  lemma FormIdentity(v: Value, strict: bool, host: Host)
    requires ValidId(v, host).Some?
    ensures var c := CanonicalNode(v, strict, host.portable);
      c.Obj? && Proper(Said(c.fields, "id")) && RecordId(c, host) == ValidId(v, host).value
  {
    NodeRead(v, "id", strict, host.portable);
    NodeFieldsCompared("id", strict);
  }

  lemma FormsIdentified(raw: seq<Value>, forms: seq<Value>, strict: bool, host: Host)
    requires forms == MapSeq(raw, n => CanonicalNode(n, strict, host.portable))
    requires Distinguished(raw, host) && forall i :: 0 <= i < |raw| ==> ValidId(raw[i], host).Some?
    ensures Identified(forms, host)
  {
    forall i | 0 <= i < |raw|
      ensures forms[i].Obj? && Proper(Said(forms[i].fields, "id"))
      ensures RecordId(forms[i], host) == ValidId(raw[i], host).value
    {
      FormIdentity(raw[i], strict, host);
    }
  }

  lemma IdentifiedRearranged(a: seq<Value>, b: seq<Value>, host: Host)
    requires multiset(a) == multiset(b) && Identified(a, host)
    ensures Identified(b, host)
  {
    var p := Rearrangement(b, a);
    forall i | 0 <= i < |b| ensures b[i].Obj? && Proper(Said(b[i].fields, "id")) { assert b[i] == a[p[i]]; }
    forall i, j | 0 <= i < j < |b| ensures RecordId(b[i], host) != RecordId(b[j], host) {
      assert p[i] != p[j] && b[i] == a[p[i]] && b[j] == a[p[j]];
      assert RecordId(a[p[i]], host) != RecordId(a[p[j]], host);
    }
  }

  lemma CleanNodes(g: Record, host: Host)
    requires IsClean(g, host)
    ensures var nodes := RawRecords(g, "nodes");
            Distinguished(nodes, host) && forall i :: 0 <= i < |nodes| ==> ValidId(nodes[i], host).Some?
  {
    var nodes := RawRecords(g, "nodes");
    forall i | 0 <= i < |nodes| ensures ValidId(nodes[i], host).Some? { assert CleanNode(nodes[i], host); }
  }

  lemma CleanIdentified(g: Record, strict: bool, host: Host)
    requires IsClean(g, host)
    ensures Identified(CanonicalForm(g, strict, host).nodes, host)
  {
    var raw := RawRecords(g, "nodes");
    var forms := MapSeq(raw, n => CanonicalNode(n, strict, host.portable));
    CleanNodes(g, host);
    FormsIdentified(raw, forms, strict, host);
    IdentifiedRearranged(forms, Sorted(forms, host.encode), host);
  }

  ghost predicate NodesCorrespond(g: Record, h: Record, strict: bool, host: Host) {
    Paired(RawRecords(g, "nodes"), RawRecords(h, "nodes"), (a, b) => NodeMatches(a, b, strict, host))
  }

  lemma NodesPairedForm(g: Record, h: Record, strict: bool, host: Host)
    ensures var left, right := CanonicalForm(g, strict, host).nodes, CanonicalForm(h, strict, host).nodes;
      Paired(left, right, Alike(host.number)) <==> NodesCorrespond(g, h, strict, host)
  {
    var form := (n: Value) => CanonicalNode(n, strict, host.portable);
    var a, b := RawRecords(g, "nodes"), RawRecords(h, "nodes");
    var left, right := CanonicalForm(g, strict, host).nodes, CanonicalForm(h, strict, host).nodes;
    forall x, y ensures Alike(host.number)(form(x), form(y)) <==> NodeMatches(x, y, strict, host) {
      NodeMatchesForm(x, y, strict, host);
    }
    HeldMapped(a, b, form, Alike(host.number), (x, y) => NodeMatches(x, y, strict, host));
    SameSize(left, MapSeq(a, form));
    SameSize(right, MapSeq(b, form));
    if Held(left, right, Alike(host.number)) {
      HeldRearranged(left, right, MapSeq(a, form), MapSeq(b, form), Alike(host.number));
    }
    if Held(MapSeq(a, form), MapSeq(b, form), Alike(host.number)) {
      HeldRearranged(MapSeq(a, form), MapSeq(b, form), left, right, Alike(host.number));
    }
  }

  lemma SameSize<T>(a: seq<T>, b: seq<T>)
    requires multiset(a) == multiset(b)
    ensures |a| == |b|
  {
    assert |multiset(a)| == |multiset(b)|;
  }

  lemma NodesEqual(g: Record, h: Record, strict: bool, host: Host)
    requires IsClean(g, host) && IsClean(h, host)
    ensures NodesUnchanged(CanonicalForm(g, strict, host).nodes, CanonicalForm(h, strict, host).nodes, host) <==>
            NodesCorrespond(g, h, strict, host)
  {
    var left, right := CanonicalForm(g, strict, host).nodes, CanonicalForm(h, strict, host).nodes;
    NodesPairedForm(g, h, strict, host);
    CleanIdentified(g, strict, host);
    CleanIdentified(h, strict, host);
    if NodesUnchanged(left, right, host) { UnchangedPaired(left, right, host); }
    if Paired(left, right, Alike(host.number)) { PairedUnchanged(left, right, host); }
  }

  // ---- equal edges and hyperedges ----

  ghost predicate EdgesCorrespond(g: Record, h: Record, strict: bool, host: Host) {
    Paired(RawEdges(g), RawEdges(h), (a, b) => SameEdge(a, b, strict, host.portable))
  }

  ghost predicate HyperedgesCorrespond(g: Record, h: Record, host: Host) {
    Paired(RawRecords(g, "hyperedges"), RawRecords(h, "hyperedges"), (a, b) => SameHyperedge(a, b, host.portable))
  }

  lemma EdgesEqual(g: Record, h: Record, strict: bool, host: Host)
    ensures multiset(CanonicalForm(g, strict, host).edges) == multiset(CanonicalForm(h, strict, host).edges) <==>
            EdgesCorrespond(g, h, strict, host)
  {
    var form := (e: Value) => CanonicalEdge(e, strict, host.portable);
    forall x, y ensures form(x) == form(y) <==> SameEdge(x, y, strict, host.portable) {
      SameEdgeForm(x, y, strict, host.portable);
    }
    ImagesPaired(RawEdges(g), RawEdges(h), form, (a, b) => SameEdge(a, b, strict, host.portable));
  }

  lemma HyperedgesEqual(g: Record, h: Record, strict: bool, host: Host)
    requires Injective(host.encode)
    ensures multiset(CanonicalForm(g, strict, host).hyperedges) == multiset(CanonicalForm(h, strict, host).hyperedges)
            <==> HyperedgesCorrespond(g, h, host)
  {
    var form := (x: Value) => CanonicalHyperedge(x, host);
    forall x, y ensures form(x) == form(y) <==> SameHyperedge(x, y, host.portable) { SameHyperedgeForm(x, y, host); }
    ImagesPaired(RawRecords(g, "hyperedges"), RawRecords(h, "hyperedges"), form,
                 (a, b) => SameHyperedge(a, b, host.portable));
  }

  /** Two graphs are found equal exactly when both are clean, they say the same of themselves, and their
      nodes, edges and hyperedges correspond one to one, each saying the same as its partner under every
      name that is compared. */
  lemma EqualMeans(report: Report, reference: Record, candidate: Record, options: Options, host: Host)
    requires Describes(report, reference, candidate, options, host) && Injective(host.encode)
    ensures report.equal <==>
            IsClean(reference, host) && IsClean(candidate, host) &&
            GraphMatches(reference, candidate, options.strict, host) &&
            NodesCorrespond(reference, candidate, options.strict, host) &&
            EdgesCorrespond(reference, candidate, options.strict, host) &&
            HyperedgesCorrespond(reference, candidate, host)
  {
    FindingsClean(reference, candidate, host);
    MetadataForms(reference, candidate, options.strict, host);
    EdgesEqual(reference, candidate, options.strict, host);
    HyperedgesEqual(reference, candidate, options.strict, host);
    if IsClean(reference, host) && IsClean(candidate, host) {
      NodesEqual(reference, candidate, options.strict, host);
    }
  }

  // ---- for instance ----

  /** Where an edge comes from, where it goes and what it says. */
  function EdgeFacts(v: Value): Option<(Value, Value, Value)> {
    if v.Obj? then Some((SourceOf(v.fields), TargetOf(v.fields), RelationOf(v.fields))) else None
  }

  lemma SameEdgeFacts(a: Value, b: Value, strict: bool, path: string -> string)
    requires SameEdge(a, b, strict, path)
    ensures EdgeFacts(a) == EdgeFacts(b)
  {
    assert EdgeSays(a, "source", strict, path) == EdgeSays(b, "source", strict, path);
    assert EdgeSays(a, "target", strict, path) == EdgeSays(b, "target", strict, path);
    assert EdgeSays(a, "relation", strict, path) == EdgeSays(b, "relation", strict, path);
  }

  lemma FactsAgree(g: Record, h: Record, strict: bool, host: Host)
    requires EdgesCorrespond(g, h, strict, host)
    ensures multiset(MapSeq(RawEdges(g), EdgeFacts)) == multiset(MapSeq(RawEdges(h), EdgeFacts))
  {
    var a, b := RawEdges(g), RawEdges(h);
    var same := (x, y) => SameEdge(x, y, strict, host.portable);
    var p :| IsHolding(p, a, b, same);
    forall i | 0 <= i < |a| ensures MapSeq(a, EdgeFacts)[i] == MapSeq(b, EdgeFacts)[p[i]] {
      assert same(a[i], b[p[i]]);
      SameEdgeFacts(a[i], b[p[i]], strict, host.portable);
    }
    RearrangedBack(MapSeq(a, EdgeFacts), MapSeq(b, EdgeFacts), p);
  }

  /** Graphs found equal have the same edges between the same ends, each as often. */
  lemma EqualEnds(report: Report, reference: Record, candidate: Record, options: Options, host: Host)
    requires Describes(report, reference, candidate, options, host) && report.equal
    ensures multiset(MapSeq(RawEdges(reference), EdgeFacts)) == multiset(MapSeq(RawEdges(candidate), EdgeFacts))
  {
    EdgesEqual(reference, candidate, options.strict, host);
    FactsAgree(reference, candidate, options.strict, host);
  }
}
