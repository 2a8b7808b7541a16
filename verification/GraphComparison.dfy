/** The comparison of a reference graph with a candidate, and the verdict of its gate. */
module GraphComparison {
  import opened Json
  import opened GraphRecords
  import opened Ordering
  import opened Sequences
  import opened CanonicalGraph
  import opened Diagnostics
  import opened CrossRuntime
  import opened PreservedRecords
  import opened Partition

  datatype Contract = Exact | ReferencePreserving

  datatype Options = Options(strict: bool, gateBindings: bool, contract: Contract)

  /** Node identities by side, and the shared ones whose records differ. */
  datatype NodeCounts = NodeCounts(shared: nat, missing: nat, extra: nat, mismatched: nat)

  /** Records of each side that concern shared identities only, and how many they have in common. */
  datatype SharedCounts = SharedCounts(reference: nat, candidate: nat, matching: nat)

  datatype Measures = Measures(
    nodesMatched: nat, edgesMatched: nat, hyperedgesMatched: nat,
    edgeMissing: Counts, edgeExtra: Counts, hyperedgeMissing: Counts, hyperedgeExtra: Counts,
    nodes: NodeCounts, sharedEdges: SharedCounts, sharedHyperedges: SharedCounts)

  /** What is known of the two raw graphs before they are normalised. */
  datatype Findings = Findings(
    referenceViolations: int, candidateViolations: int, referenceBindings: nat, candidateBindings: nat)

  datatype Report = Report(
    equal: bool, preserved: bool, sharedEqual: bool, measures: Measures, findings: Findings, passed: bool)

  // ---- exact equality ----

  function RecordId(node: Value, host: Host): string {
    host.text(if node.Obj? then Get(node.fields, "id") else Null)
  }

  function Group(nodes: seq<Value>, id: string, host: Host): seq<Value> {
    if nodes == [] then []
    else if RecordId(nodes[0], host) == id then [nodes[0]] + Group(nodes[1..], id, host)
    else Group(nodes[1..], id, host)
  }

  function Ids(nodes: seq<Value>, host: Host): set<string> {
    set n | n in nodes :: RecordId(n, host)
  }

  /** No field added, removed or changed. */
  predicate FieldsUnchanged(reference: Record, candidate: Record, number: Reading) {
    reference.Keys == candidate.Keys && forall k | k in reference :: JsonEqual(reference[k], candidate[k], number)
  }

  /** Single records are compared field by field; repeated identities record by record. */
  predicate GroupUnchanged(reference: seq<Value>, candidate: seq<Value>, number: Reading) {
    if |reference| == 1 && |candidate| == 1 && reference[0].Obj? && candidate[0].Obj?
    then FieldsUnchanged(reference[0].fields, candidate[0].fields, number)
    else multiset(reference) == multiset(candidate)
  }

  predicate NodesUnchanged(left: seq<Value>, right: seq<Value>, host: Host) {
    Ids(left, host) == Ids(right, host) &&
    forall id | id in Ids(left, host) :: GroupUnchanged(Group(left, id, host), Group(right, id, host), host.number)
  }

  predicate ExactlyEqual(left: Canonical, right: Canonical, host: Host) {
    FieldsUnchanged(left.metadata, right.metadata, host.number) && NodesUnchanged(left.nodes, right.nodes, host) &&
    multiset(left.edges) == multiset(right.edges) && multiset(left.hyperedges) == multiset(right.hyperedges)
  }

  // ---- the report ----

  ghost predicate Partitioned(counts: Counts, here: seq<Value>, there: seq<Value>, subject: Value -> Subject,
                              shared: set<string>, sideOnly: set<string>)
  {
    var difference := multiset(here) - multiset(there);
    && counts.shared == |Selected(difference, x => WithinShared(subject(x), shared))|
    && counts.sideOnly == |Selected(difference, x => SideOnly(subject(x), shared, sideOnly))|
    && counts.shared + counts.sideOnly + counts.unresolved == |difference|
  }

  ghost predicate DescribesCounts(m: Measures, left: Canonical, right: Canonical, host: Host) {
    && IsPreservedCount(m.nodesMatched, left.nodes, right.nodes, Exactly(host))
    && IsPreservedCount(m.edgesMatched, left.edges, right.edges, Sharpening(host))
    && IsPreservedCount(m.hyperedgesMatched, left.hyperedges, right.hyperedges, Exactly(host))
  }

  ghost predicate DescribesDifferences(m: Measures, left: Canonical, right: Canonical, host: Host) {
    var ours, theirs := Ids(left.nodes, host), Ids(right.nodes, host);
    var edge, hyperedge := x => EdgeSubject(x, host), x => HyperedgeSubject(x, host);
    && Partitioned(m.edgeMissing, left.edges, right.edges, edge, ours * theirs, ours - theirs)
    && Partitioned(m.edgeExtra, right.edges, left.edges, edge, ours * theirs, theirs - ours)
    && Partitioned(m.hyperedgeMissing, left.hyperedges, right.hyperedges, hyperedge, ours * theirs, ours - theirs)
    && Partitioned(m.hyperedgeExtra, right.hyperedges, left.hyperedges, hyperedge, ours * theirs, theirs - ours)
  }

  function Mismatched(left: seq<Value>, right: seq<Value>, host: Host): set<string> {
    set id | id in Ids(left, host) * Ids(right, host) &&
             !GroupUnchanged(Group(left, id, host), Group(right, id, host), host.number)
  }

  ghost predicate DescribesNodes(c: NodeCounts, left: seq<Value>, right: seq<Value>, host: Host) {
    var ours, theirs := Ids(left, host), Ids(right, host);
    c.shared == |ours * theirs| && c.missing == |ours - theirs| && c.extra == |theirs - ours| &&
    c.mismatched == |Mismatched(left, right, host)|
  }

  /** The records, each as often as it occurs, whose identities are all shared. */
  ghost function SharedPart(records: seq<Value>, subject: Value -> Subject, shared: set<string>): multiset<Value> {
    Selected(multiset(records), x => WithinShared(subject(x), shared))
  }

  ghost predicate DescribesSharedRecords(c: SharedCounts, left: seq<Value>, right: seq<Value>,
                                         subject: Value -> Subject, shared: set<string>)
  {
    var ours, theirs := SharedPart(left, subject, shared), SharedPart(right, subject, shared);
    c.reference == |ours| && c.candidate == |theirs| && c.matching == |ours * theirs|
  }

  ghost predicate DescribesShared(m: Measures, left: Canonical, right: Canonical, host: Host) {
    var shared := Ids(left.nodes, host) * Ids(right.nodes, host);
    DescribesNodes(m.nodes, left.nodes, right.nodes, host) &&
    DescribesSharedRecords(m.sharedEdges, left.edges, right.edges, x => EdgeSubject(x, host), shared) &&
    DescribesSharedRecords(m.sharedHyperedges, left.hyperedges, right.hyperedges,
                           x => HyperedgeSubject(x, host), shared)
  }

  /** Nothing that concerns shared identities only differs. */
  predicate NoSharedDifference(m: Measures) {
    m.nodes.mismatched == 0 && m.edgeMissing.shared == 0 && m.edgeExtra.shared == 0 &&
    m.hyperedgeMissing.shared == 0 && m.hyperedgeExtra.shared == 0
  }

  predicate Clean(f: Findings) { f.referenceViolations == 0 && f.candidateViolations == 0 }

  /** What a report says about two canonical forms, given what was found in the two raw graphs. */
  ghost predicate DescribesForms(report: Report, left: Canonical, right: Canonical, findings: Findings,
                                 options: Options, host: Host)
  {
    var m := report.measures;
    && (report.equal <==> Clean(findings) && ExactlyEqual(left, right, host))
    && DescribesCounts(m, left, right, host)
    && DescribesDifferences(m, left, right, host)
    && DescribesShared(m, left, right, host)
    && (report.preserved <==>
          Clean(findings) && ValuePreserved(Obj(left.metadata), Obj(right.metadata), Exactly(host)) &&
          m.nodesMatched == |left.nodes| && m.edgesMatched == |left.edges| &&
          m.hyperedgesMatched == |left.hyperedges|)
    && (report.sharedEqual <==>
          FieldsUnchanged(left.metadata, right.metadata, host.number) && NoSharedDifference(m))
    && report.findings == findings
    && (report.passed <==>
          (if options.contract.Exact? then report.equal else report.preserved) &&
          !(options.gateBindings && findings.candidateBindings > 0))
  }

  ghost function FindingsOf(reference: Record, candidate: Record, host: Host): Findings {
    Findings(Violations(reference, host), Violations(candidate, host),
             |BindingEndpoints(reference, host)|, |BindingEndpoints(candidate, host)|)
  }

  /** What each number of a report means for the two raw graphs. */
  ghost predicate Describes(report: Report, reference: Record, candidate: Record, options: Options, host: Host) {
    DescribesForms(report, CanonicalForm(reference, options.strict, host),
                   CanonicalForm(candidate, options.strict, host), FindingsOf(reference, candidate, host),
                   options, host)
  }

  ghost function BindingEndpoints(graph: Record, host: Host): set<string> {
    set id | id in NodeIds(RawRecords(graph, "nodes"), host) &&
             Reported(RawRecords(graph, "nodes"), RawEdges(graph), id, host)
  }

  method PartitionBoth(here: seq<Value>, there: seq<Value>, subject: Value -> Subject,
                       shared: set<string>, hereOnly: set<string>, thereOnly: set<string>)
    returns (missing: Counts, extra: Counts)
    ensures Partitioned(missing, here, there, subject, shared, hereOnly)
    ensures Partitioned(extra, there, here, subject, shared, thereOnly)
  {
    missing := PartitionDifference(multiset(here) - multiset(there), subject, shared, hereOnly);
    extra := PartitionDifference(multiset(there) - multiset(here), subject, shared, thereOnly);
  }

  method CountBindings(graph: Record, host: Host) returns (count: nat)
    ensures count == |BindingEndpoints(graph, host)|
  {
    var endpoints := CrossRuntimeEndpoints(graph, host);
    assert endpoints.Keys == BindingEndpoints(graph, host);
    count := |endpoints.Keys|;
  }

  method PartitionDifferences(left: Canonical, right: Canonical, host: Host)
    returns (edgeMissing: Counts, edgeExtra: Counts, hyperedgeMissing: Counts, hyperedgeExtra: Counts)
    ensures var ours, theirs := Ids(left.nodes, host), Ids(right.nodes, host);
      var edge, hyperedge := x => EdgeSubject(x, host), x => HyperedgeSubject(x, host);
      Partitioned(edgeMissing, left.edges, right.edges, edge, ours * theirs, ours - theirs) &&
      Partitioned(edgeExtra, right.edges, left.edges, edge, ours * theirs, theirs - ours) &&
      Partitioned(hyperedgeMissing, left.hyperedges, right.hyperedges, hyperedge, ours * theirs, ours - theirs) &&
      Partitioned(hyperedgeExtra, right.hyperedges, left.hyperedges, hyperedge, ours * theirs, theirs - ours)
  {
    var ours, theirs := Ids(left.nodes, host), Ids(right.nodes, host);
    edgeMissing, edgeExtra := PartitionBoth(
      left.edges, right.edges, x => EdgeSubject(x, host), ours * theirs, ours - theirs, theirs - ours);
    hyperedgeMissing, hyperedgeExtra := PartitionBoth(
      left.hyperedges, right.hyperedges, x => HyperedgeSubject(x, host), ours * theirs, ours - theirs, theirs - ours);
  }

  lemma {:induction false} CarrySelected<T(!new)>(s: seq<T>, p: T -> bool)
    ensures multiset(Carry(s, p, Same())) == Selected(multiset(s), p)
    decreases |s|
  {
    if s == [] {
      assert multiset(s) == multiset{};
    } else {
      CarrySelected(s[1..], p);
      HeadMultiset(s);
      SelectedAdd(multiset(s[1..]), s[0], p);
    }
  }

  method CountShared(left: seq<Value>, right: seq<Value>, subject: Value -> Subject, shared: set<string>)
    returns (c: SharedCounts)
    ensures DescribesSharedRecords(c, left, right, subject, shared)
  {
    var within := x => WithinShared(subject(x), shared);
    var ours, theirs := multiset(Carry(left, within, Same())), multiset(Carry(right, within, Same()));
    CarrySelected(left, within);
    CarrySelected(right, within);
    c := SharedCounts(|ours|, |theirs|, |ours * theirs|);
  }

  method CountNodes(left: seq<Value>, right: seq<Value>, host: Host) returns (c: NodeCounts)
    ensures DescribesNodes(c, left, right, host)
  {
    var ours, theirs := Ids(left, host), Ids(right, host);
    c := NodeCounts(|ours * theirs|, |ours - theirs|, |theirs - ours|, |Mismatched(left, right, host)|);
  }

  method Measure(left: Canonical, right: Canonical, host: Host) returns (m: Measures)
    ensures DescribesCounts(m, left, right, host) && DescribesDifferences(m, left, right, host)
    ensures DescribesShared(m, left, right, host)
  {
    var edgeMissing, edgeExtra, hyperedgeMissing, hyperedgeExtra := PartitionDifferences(left, right, host);
    var shared := Ids(left.nodes, host) * Ids(right.nodes, host);
    var nodes := CountNodes(left.nodes, right.nodes, host);
    var edges := CountShared(left.edges, right.edges, x => EdgeSubject(x, host), shared);
    var hyperedges := CountShared(left.hyperedges, right.hyperedges, x => HyperedgeSubject(x, host), shared);
    var nodesMatched := PreservedRecordCount(left.nodes, right.nodes, Exactly(host));
    var edgesMatched := PreservedRecordCount(left.edges, right.edges, Sharpening(host));
    var hyperedgesMatched := PreservedRecordCount(left.hyperedges, right.hyperedges, Exactly(host));
    m := Measures(nodesMatched, edgesMatched, hyperedgesMatched,
      edgeMissing, edgeExtra, hyperedgeMissing, hyperedgeExtra, nodes, edges, hyperedges);
  }

  method CompareForms(left: Canonical, right: Canonical, findings: Findings, options: Options, host: Host)
    returns (report: Report)
    ensures DescribesForms(report, left, right, findings, options, host)
  {
    var clean := Clean(findings);
    var equal := clean && ExactlyEqual(left, right, host);
    var m := Measure(left, right, host);
    var preserved := clean && ValuePreserved(Obj(left.metadata), Obj(right.metadata), Exactly(host)) &&
      m.nodesMatched == |left.nodes| && m.edgesMatched == |left.edges| && m.hyperedgesMatched == |left.hyperedges|;
    var sharedEqual := FieldsUnchanged(left.metadata, right.metadata, host.number) && NoSharedDifference(m);
    var passed := (if options.contract.Exact? then equal else preserved) &&
      !(options.gateBindings && findings.candidateBindings > 0);
    report := Report(equal, preserved, sharedEqual, m, findings, passed);
  }

  method CompareGraphs(reference: Record, candidate: Record, options: Options, host: Host)
    returns (report: Report)
    ensures Describes(report, reference, candidate, options, host)
  {
    var bound := CountBindings(reference, host);
    var bindings := CountBindings(candidate, host);
    var findings := Findings(Violations(reference, host), Violations(candidate, host), bound, bindings);
    var left := CanonicalForm(reference, options.strict, host);
    var right := CanonicalForm(candidate, options.strict, host);
    report := CompareForms(left, right, findings, options, host);
  }

  // ---- what the numbers say together ----

  /** The node records are exactly equal when, and only when, no identity is missing, extra or
      mismatched. */
  lemma NodesEqualByCounts(c: NodeCounts, left: seq<Value>, right: seq<Value>, host: Host)
    requires DescribesNodes(c, left, right, host)
    ensures NodesUnchanged(left, right, host) <==> c.missing == 0 && c.extra == 0 && c.mismatched == 0
  {
    var ours, theirs := Ids(left, host), Ids(right, host);
    if c.missing == 0 && c.extra == 0 && c.mismatched == 0 {
      assert ours - theirs == {} && theirs - ours == {} && Mismatched(left, right, host) == {};
      forall id | id in ours
        ensures id in theirs && GroupUnchanged(Group(left, id, host), Group(right, id, host), host.number)
      {
        assert id !in ours - theirs && id !in Mismatched(left, right, host);
      }
      forall id | id in theirs ensures id in ours { assert id !in theirs - ours; }
    }
    if NodesUnchanged(left, right, host) {
      assert ours - theirs == {} && theirs - ours == {} && Mismatched(left, right, host) == {};
    }
  }

  function Total(c: Counts): nat { c.shared + c.sideOnly + c.unresolved }

  lemma SameByCounts(missing: Counts, extra: Counts, left: seq<Value>, right: seq<Value>, subject: Value -> Subject,
                     shared: set<string>, leftOnly: set<string>, rightOnly: set<string>)
    requires Partitioned(missing, left, right, subject, shared, leftOnly)
    requires Partitioned(extra, right, left, subject, shared, rightOnly)
    ensures multiset(left) == multiset(right) <==> Total(missing) == 0 && Total(extra) == 0
  {
    NoDifference(multiset(left), multiset(right));
  }

  /** Two graphs are reported equal exactly when nothing is found in the raw ones and every count of a
      difference is zero. */
  lemma EqualByCounts(report: Report, reference: Record, candidate: Record, options: Options, host: Host)
    requires Describes(report, reference, candidate, options, host)
    ensures var m := report.measures;
      report.equal <==>
        Clean(report.findings) &&
        FieldsUnchanged(CanonicalForm(reference, options.strict, host).metadata,
                        CanonicalForm(candidate, options.strict, host).metadata, host.number) &&
        m.nodes.missing == 0 && m.nodes.extra == 0 && m.nodes.mismatched == 0 &&
        Total(m.edgeMissing) == 0 && Total(m.edgeExtra) == 0 &&
        Total(m.hyperedgeMissing) == 0 && Total(m.hyperedgeExtra) == 0
  {
    var left := CanonicalForm(reference, options.strict, host);
    var right := CanonicalForm(candidate, options.strict, host);
    var ours, theirs := Ids(left.nodes, host), Ids(right.nodes, host);
    var m := report.measures;
    NodesEqualByCounts(m.nodes, left.nodes, right.nodes, host);
    SameByCounts(m.edgeMissing, m.edgeExtra, left.edges, right.edges, x => EdgeSubject(x, host),
                 ours * theirs, ours - theirs, theirs - ours);
    SameByCounts(m.hyperedgeMissing, m.hyperedgeExtra, left.hyperedges, right.hyperedges,
                 x => HyperedgeSubject(x, host), ours * theirs, ours - theirs, theirs - ours);
  }

  /** The shared parts are reported equal exactly when they are: same metadata, same records under
      every shared identity, and the same edges and hyperedges among shared identities. */
  lemma SharedEqualMeans(report: Report, reference: Record, candidate: Record, options: Options, host: Host)
    requires Describes(report, reference, candidate, options, host)
    ensures var left := CanonicalForm(reference, options.strict, host);
            var right := CanonicalForm(candidate, options.strict, host);
            var shared := Ids(left.nodes, host) * Ids(right.nodes, host);
            report.sharedEqual <==>
              FieldsUnchanged(left.metadata, right.metadata, host.number) &&
              Mismatched(left.nodes, right.nodes, host) == {} &&
              SharedPart(left.edges, x => EdgeSubject(x, host), shared) ==
                SharedPart(right.edges, x => EdgeSubject(x, host), shared) &&
              SharedPart(left.hyperedges, x => HyperedgeSubject(x, host), shared) ==
                SharedPart(right.hyperedges, x => HyperedgeSubject(x, host), shared)
  {
    var left := CanonicalForm(reference, options.strict, host);
    var right := CanonicalForm(candidate, options.strict, host);
    SharedFormsEqual(report.measures, left, right, host);
  }

  lemma SharedFormsEqual(m: Measures, left: Canonical, right: Canonical, host: Host)
    requires DescribesDifferences(m, left, right, host) && DescribesShared(m, left, right, host)
    ensures var shared := Ids(left.nodes, host) * Ids(right.nodes, host);
            NoSharedDifference(m) <==>
              Mismatched(left.nodes, right.nodes, host) == {} &&
              SharedPart(left.edges, x => EdgeSubject(x, host), shared) ==
                SharedPart(right.edges, x => EdgeSubject(x, host), shared) &&
              SharedPart(left.hyperedges, x => HyperedgeSubject(x, host), shared) ==
                SharedPart(right.hyperedges, x => HyperedgeSubject(x, host), shared)
  {
    var shared := Ids(left.nodes, host) * Ids(right.nodes, host);
    var edge, hyperedge := x => EdgeSubject(x, host), x => HyperedgeSubject(x, host);
    SharedAgreement(multiset(left.edges), multiset(right.edges), x => WithinShared(edge(x), shared));
    SharedAgreement(multiset(left.hyperedges), multiset(right.hyperedges), x => WithinShared(hyperedge(x), shared));
  }

  // ---- order independence ----

  lemma BindingsIgnoreOrder(g: Record, h: Record, host: Host)
    requires Reordered(g, h, host)
    ensures BindingEndpoints(g, host) == BindingEndpoints(h, host)
  {
    forall id ensures Reported(RawRecords(g, "nodes"), RawEdges(g), id, host) <==>
                      Reported(RawRecords(h, "nodes"), RawEdges(h), id, host)
    {
      ReportIgnoresOrder(RawRecords(g, "nodes"), RawEdges(g), RawRecords(h, "nodes"), RawEdges(h), id, host);
    }
  }

  lemma CountsUnique(r: Measures, s: Measures, left: Canonical, right: Canonical, host: Host)
    requires DescribesCounts(r, left, right, host) && DescribesCounts(s, left, right, host)
    ensures r.nodesMatched == s.nodesMatched && r.edgesMatched == s.edgesMatched
    ensures r.hyperedgesMatched == s.hyperedgesMatched
  {
    CountIgnoresOrder(r.nodesMatched, left.nodes, right.nodes, s.nodesMatched, left.nodes, right.nodes, Exactly(host));
    CountIgnoresOrder(r.edgesMatched, left.edges, right.edges, s.edgesMatched, left.edges, right.edges,
                      Sharpening(host));
    CountIgnoresOrder(r.hyperedgesMatched, left.hyperedges, right.hyperedges,
                      s.hyperedgesMatched, left.hyperedges, right.hyperedges, Exactly(host));
  }

  lemma DifferencesUnique(r: Measures, s: Measures, left: Canonical, right: Canonical, host: Host)
    requires DescribesDifferences(r, left, right, host) && DescribesDifferences(s, left, right, host)
    requires DescribesShared(r, left, right, host) && DescribesShared(s, left, right, host)
    ensures r.edgeMissing == s.edgeMissing && r.edgeExtra == s.edgeExtra
    ensures r.hyperedgeMissing == s.hyperedgeMissing && r.hyperedgeExtra == s.hyperedgeExtra
    ensures r.nodes == s.nodes && r.sharedEdges == s.sharedEdges && r.sharedHyperedges == s.sharedHyperedges
  {}

  /** Reordering nodes, edges, hyperedges or hyperedge members on either side changes no number of
      the report and not the gate. */
  lemma VerdictIgnoresOrder(report: Report, reference: Record, candidate: Record,
                            report': Report, reference': Record, candidate': Record,
                            options: Options, host: Host)
    requires Injective(host.encode)
    requires Reordered(reference, reference', host) && Reordered(candidate, candidate', host)
    requires Describes(report, reference, candidate, options, host)
    requires Describes(report', reference', candidate', options, host)
    ensures report == report'
  {
    var left := CanonicalForm(reference, options.strict, host);
    var right := CanonicalForm(candidate, options.strict, host);
    CanonicalIgnoresOrder(reference, reference', options.strict, host);
    CanonicalIgnoresOrder(candidate, candidate', options.strict, host);
    FindingsIgnoreOrder(reference, candidate, reference', candidate', host);
    FormsVerdictUnique(report, report', left, right, FindingsOf(reference, candidate, host), options, host);
  }

  lemma FormsVerdictUnique(r: Report, s: Report, left: Canonical, right: Canonical, findings: Findings,
                           options: Options, host: Host)
    requires DescribesForms(r, left, right, findings, options, host)
    requires DescribesForms(s, left, right, findings, options, host)
    ensures r == s
  {
    CountsUnique(r.measures, s.measures, left, right, host);
    DifferencesUnique(r.measures, s.measures, left, right, host);
  }

  lemma FindingsIgnoreOrder(reference: Record, candidate: Record, reference': Record, candidate': Record, host: Host)
    requires Reordered(reference, reference', host) && Reordered(candidate, candidate', host)
    ensures FindingsOf(reference, candidate, host) == FindingsOf(reference', candidate', host)
  {
    ViolationsIgnoreOrder(reference, reference', host);
    ViolationsIgnoreOrder(candidate, candidate', host);
    BindingsIgnoreOrder(reference, reference', host);
    BindingsIgnoreOrder(candidate, candidate', host);
  }

  // ---- exact equality implies preservation ----

  ghost function HasId(id: string, host: Host): Value -> bool {
    n => RecordId(n, host) == id
  }

  lemma GroupHead(nodes: seq<Value>, id: string, host: Host)
    requires nodes != []
    ensures multiset(Group(nodes, id, host)) == multiset(Group(nodes[1..], id, host)) +
              if RecordId(nodes[0], host) == id then multiset{nodes[0]} else multiset{}
  {
    GroupWithoutHead(nodes, id, host);
  }

  lemma HeadMultiset<T>(s: seq<T>)
    requires s != []
    ensures multiset(s) == multiset(s[1..]) + multiset{s[0]}
  {
    assert s == [s[0]] + s[1..];
  }

  lemma {:induction false} GroupSelected(nodes: seq<Value>, id: string, host: Host)
    ensures multiset(Group(nodes, id, host)) == Selected(multiset(nodes), HasId(id, host))
    decreases |nodes|
  {
    if nodes == [] {
      assert multiset(nodes) == multiset{};
    } else {
      GroupSelected(nodes[1..], id, host);
      GroupHead(nodes, id, host);
      HeadMultiset(nodes);
      SelectedAdd(multiset(nodes[1..]), nodes[0], HasId(id, host));
      assert HasId(id, host)(nodes[0]) == (RecordId(nodes[0], host) == id);
    }
  }

  lemma SameMultisetUnchanged(a: seq<Value>, b: seq<Value>, number: Reading)
    requires multiset(a) == multiset(b)
    ensures GroupUnchanged(a, b, number)
  {
    if |a| == 1 && |b| == 1 {
      assert a == [a[0]] && b == [b[0]];
      assert b[0] in multiset(a);
      EqualReflexive(a[0], number);
    }
  }

  lemma SingletonMultiset<T>(a: seq<T>, b: seq<T>)
    requires multiset(a) == multiset(b) && |a| == 1
    ensures a == b
  {
    assert |multiset(a)| == |multiset(b)|;
    assert a == [a[0]] && b == [b[0]];
    assert b[0] in multiset(a);
  }

  /** Whether a group changed depends on its records only, not on how they are listed. */
  lemma UnchangedByMultiset(a: seq<Value>, b: seq<Value>, a': seq<Value>, b': seq<Value>, number: Reading)
    requires multiset(a) == multiset(a') && multiset(b) == multiset(b') && GroupUnchanged(a, b, number)
    ensures GroupUnchanged(a', b', number)
  {
    assert |a| == |multiset(a)| == |multiset(a')| == |a'|;
    assert |b| == |multiset(b)| == |multiset(b')| == |b'|;
    if multiset(a) == multiset(b) {
      SameMultisetUnchanged(a', b', number);
    } else {
      SingletonMultiset(a, a');
      SingletonMultiset(b, b');
    }
  }

  /** Candidates for the head of `left` within its own identity. */
  lemma GroupPartner(left: seq<Value>, right: seq<Value>, host: Host) returns (j: nat)
    requires left != []
    requires var id := RecordId(left[0], host);
      GroupUnchanged(Group(left, id, host), Group(right, id, host), host.number)
    ensures j < |right| && RecordId(right[j], host) == RecordId(left[0], host)
    ensures ValuePreserved(left[0], right[j], Exactly(host))
    ensures right[j] == left[0] ||
            var id := RecordId(left[0], host); |Group(left, id, host)| == 1 && |Group(right, id, host)| == 1
  {
    var id := RecordId(left[0], host);
    var a, b := Group(left, id, host), Group(right, id, host);
    GroupSelected(right, id, host);
    assert a[0] == left[0];
    if multiset(a) == multiset(b) {
      assert left[0] in multiset(a);
      assert left[0] in multiset(right);
      j :| j < |right| && right[j] == left[0];
      PreservedReflexive(left[0], Exactly(host));
    } else {
      assert b[0] in multiset(b);
      assert b[0] in multiset(right);
      j :| j < |right| && right[j] == b[0];
      EqualIsPreserved(left[0], right[j], Exactly(host));
    }
  }

  lemma GroupWithoutHead(left: seq<Value>, key: string, host: Host)
    requires left != []
    ensures Group(left, key, host) ==
            (if RecordId(left[0], host) == key then [left[0]] else []) + Group(left[1..], key, host)
  {}

  lemma GroupWithout(right: seq<Value>, j: nat, key: string, host: Host)
    requires j < |right|
    ensures multiset(Group(right[..j] + right[j + 1..], key, host)) ==
            multiset(Group(right, key, host)) -
            if RecordId(right[j], host) == key then multiset{right[j]} else multiset{}
    ensures RecordId(right[j], host) == key ==> right[j] in multiset(Group(right, key, host))
  {
    WithoutIndex(right, j);
    GroupSelected(right, key, host);
    GroupSelected(right[..j] + right[j + 1..], key, host);
    assert right[j] in multiset(right);
    SelectedTake(multiset(right), right[j], HasId(key, host));
  }

  /** Pairing off the head leaves every identity group unchanged. */
  lemma RestUnchanged(left: seq<Value>, right: seq<Value>, j: nat, key: string, host: Host)
    requires left != [] && j < |right| && RecordId(right[j], host) == RecordId(left[0], host)
    requires GroupUnchanged(Group(left, key, host), Group(right, key, host), host.number)
    requires right[j] == left[0] ||
             var id := RecordId(left[0], host); |Group(left, id, host)| == 1 && |Group(right, id, host)| == 1
    ensures GroupUnchanged(Group(left[1..], key, host), Group(right[..j] + right[j + 1..], key, host), host.number)
  {
    var rest := right[..j] + right[j + 1..];
    var a, b := Group(left, key, host), Group(right, key, host);
    var a', b' := Group(left[1..], key, host), Group(rest, key, host);
    GroupWithoutHead(left, key, host);
    GroupWithout(right, j, key, host);
    if RecordId(left[0], host) != key {
      UnchangedByMultiset(a, b, a', b', host.number);
    } else {
      assert multiset(a) == multiset{left[0]} + multiset(a');
      if right[j] == left[0] && multiset(a) == multiset(b) {
        assert multiset(a') == multiset(b');
        SameMultisetUnchanged(a', b', host.number);
      } else {
        assert |a'| == 0;
        assert |multiset(b')| == 0;
        SameMultisetUnchanged(a', b', host.number);
      }
    }
  }

  lemma {:induction false} NodesPaired(left: seq<Value>, right: seq<Value>, host: Host) returns (p: seq<nat>)
    requires forall id :: GroupUnchanged(Group(left, id, host), Group(right, id, host), host.number)
    ensures IsFullPairing(p, left, right, Exactly(host))
    decreases |left|
  {
    if left == [] { return []; }
    var j := GroupPartner(left, right, host);
    var rest := right[..j] + right[j + 1..];
    forall key ensures GroupUnchanged(Group(left[1..], key, host), Group(rest, key, host), host.number) {
      RestUnchanged(left, right, j, key, host);
    }
    var q := NodesPaired(left[1..], rest, host);
    p := PairingStep(left, right, j, q, Exactly(host));
  }

  lemma PairingStep(left: seq<Value>, right: seq<Value>, j: nat, q: seq<nat>, rule: Rule) returns (p: seq<nat>)
    requires left != [] && j < |right| && ValuePreserved(left[0], right[j], rule)
    requires IsFullPairing(q, left[1..], right[..j] + right[j + 1..], rule)
    ensures IsFullPairing(p, left, right, rule)
  {
    var rest := right[..j] + right[j + 1..];
    p := Skipping(j, q);
    SkippingInjection(j, q, |rest|);
    forall i | 0 <= i < |left| ensures ValuePreserved(left[i], right[p[i]], rule) {
      if i > 0 {
        assert ValuePreserved(left[1..][i - 1], rest[q[i - 1]], rule);
        assert rest[q[i - 1]] == right[p[i]];
      }
    }
  }

  lemma EqualRecordsPaired(left: seq<Value>, right: seq<Value>, rule: Rule) returns (p: seq<nat>)
    requires multiset(left) == multiset(right)
    ensures IsFullPairing(p, left, right, rule)
  {
    p := Rearrangement(left, right);
    forall i | 0 <= i < |left| ensures ValuePreserved(left[i], right[p[i]], rule) {
      PreservedReflexive(left[i], rule);
    }
  }

  lemma {:induction false} OtherGroupsEmpty(nodes: seq<Value>, id: string, host: Host)
    requires id !in Ids(nodes, host)
    ensures Group(nodes, id, host) == []
    decreases |nodes|
  {
    if nodes != [] {
      assert nodes[0] in nodes;
      forall n | n in nodes[1..] ensures n in nodes {}
      OtherGroupsEmpty(nodes[1..], id, host);
    }
  }

  /** Canonical forms that are exactly equal preserve every record: the counts reach the lengths. */
  lemma ExactPairs(left: Canonical, right: Canonical, host: Host)
    requires ExactlyEqual(left, right, host)
    ensures exists p :: IsFullPairing(p, left.nodes, right.nodes, Exactly(host))
    ensures exists p :: IsFullPairing(p, left.edges, right.edges, Sharpening(host))
    ensures exists p :: IsFullPairing(p, left.hyperedges, right.hyperedges, Exactly(host))
    ensures ValuePreserved(Obj(left.metadata), Obj(right.metadata), Exactly(host))
  {
    forall id ensures GroupUnchanged(Group(left.nodes, id, host), Group(right.nodes, id, host), host.number) {
      if id !in Ids(left.nodes, host) {
        OtherGroupsEmpty(left.nodes, id, host);
        OtherGroupsEmpty(right.nodes, id, host);
      }
    }
    var p := NodesPaired(left.nodes, right.nodes, host);
    var q := EqualRecordsPaired(left.edges, right.edges, Sharpening(host));
    var r := EqualRecordsPaired(left.hyperedges, right.hyperedges, Exactly(host));
    assert JsonEqual(Obj(left.metadata), Obj(right.metadata), host.number);
    EqualIsPreserved(Obj(left.metadata), Obj(right.metadata), Exactly(host));
  }

  lemma ExactForms(report: Report, left: Canonical, right: Canonical, findings: Findings, options: Options, host: Host)
    requires DescribesForms(report, left, right, findings, options, host)
    requires Clean(findings) && ExactlyEqual(left, right, host)
    ensures report.equal && report.preserved
  {
    ExactPairs(left, right, host);
    FullCount(report.measures.nodesMatched, left.nodes, right.nodes, Exactly(host));
    FullCount(report.measures.edgesMatched, left.edges, right.edges, Sharpening(host));
    FullCount(report.measures.hyperedgesMatched, left.hyperedges, right.hyperedges, Exactly(host));
  }

  /** A report that finds the graphs equal also finds the reference preserved, so a gate passed
      under the exact contract passes under the reference-preserving one. */
  lemma ExactImpliesPreserving(report: Report, report': Report, reference: Record, candidate: Record,
                               options: Options, host: Host)
    requires Describes(report, reference, candidate, options, host)
    requires Describes(report', reference, candidate, options.(contract := ReferencePreserving), host)
    ensures report.equal ==> report.preserved
    ensures options.contract.Exact? && report.passed ==> report'.passed
  {
    if report.equal {
      var left := CanonicalForm(reference, options.strict, host);
      var right := CanonicalForm(candidate, options.strict, host);
      var findings := FindingsOf(reference, candidate, host);
      ExactForms(report, left, right, findings, options, host);
      ExactForms(report', left, right, findings, options.(contract := ReferencePreserving), host);
    }
  }

  /** Two graphs that preserve each other hold the same records up to JSON equality, in every
      collection, and equal metadata. */
  lemma MutualPreservationIsEquality(report: Report, back: Report, reference: Record, candidate: Record,
                                     options: Options, host: Host)
    requires Describes(report, reference, candidate, options, host) && report.preserved
    requires Describes(back, candidate, reference, options, host) && back.preserved
    ensures var left := CanonicalForm(reference, options.strict, host);
            var right := CanonicalForm(candidate, options.strict, host);
            && SameRecords(left.nodes, right.nodes, host.number) && SameRecords(left.edges, right.edges, host.number)
            && SameRecords(left.hyperedges, right.hyperedges, host.number)
            && JsonEqual(Obj(left.metadata), Obj(right.metadata), host.number)
  {
    var left := CanonicalForm(reference, options.strict, host);
    var right := CanonicalForm(candidate, options.strict, host);
    MutualCounts(report.measures.nodesMatched, back.measures.nodesMatched, left.nodes, right.nodes, Exactly(host));
    MutualCounts(report.measures.edgesMatched, back.measures.edgesMatched, left.edges, right.edges, Sharpening(host));
    MutualCounts(report.measures.hyperedgesMatched, back.measures.hyperedgesMatched,
                 left.hyperedges, right.hyperedges, Exactly(host));
    MutualPreservation(Obj(left.metadata), Obj(right.metadata), Exactly(host));
  }

  /** A one-to-one correspondence of JSON-equal records. */
  ghost predicate SameRecords(left: seq<Value>, right: seq<Value>, number: Reading) {
    |left| == |right| &&
    exists p ::
      IsInjection(p, |left|, |right|) && forall i :: 0 <= i < |left| ==> JsonEqual(left[i], right[p[i]], number)
  }

  lemma MutualCounts(k: nat, l: nat, left: seq<Value>, right: seq<Value>, rule: Rule)
    requires IsPreservedCount(k, left, right, rule) && k == |left|
    requires IsPreservedCount(l, right, left, rule) && l == |right|
    ensures SameRecords(left, right, rule.number)
  {
    FullCount(k, left, right, rule);
    FullCount(l, right, left, rule);
    var f :| IsFullPairing(f, left, right, rule);
    var g :| IsFullPairing(g, right, left, rule);
    MutualFullPreservation(left, right, f, g, rule);
  }

  /** Missing, extra and matching shared edges add up to the shared edges of each side, and so do the
      shared hyperedges. */
  lemma SharedAccounting(report: Report, reference: Record, candidate: Record, options: Options, host: Host)
    requires Describes(report, reference, candidate, options, host)
    ensures var m := report.measures;
            && m.sharedEdges.matching + m.edgeMissing.shared == m.sharedEdges.reference
            && m.sharedEdges.matching + m.edgeExtra.shared == m.sharedEdges.candidate
            && m.sharedHyperedges.matching + m.hyperedgeMissing.shared == m.sharedHyperedges.reference
            && m.sharedHyperedges.matching + m.hyperedgeExtra.shared == m.sharedHyperedges.candidate
  {
    var left := CanonicalForm(reference, options.strict, host);
    var right := CanonicalForm(candidate, options.strict, host);
    var ours, theirs := Ids(left.nodes, host), Ids(right.nodes, host);
    var m := report.measures;
    SidesAdd(m.sharedEdges, m.edgeMissing, m.edgeExtra, left.edges, right.edges, x => EdgeSubject(x, host),
             ours * theirs, ours - theirs, theirs - ours);
    SidesAdd(m.sharedHyperedges, m.hyperedgeMissing, m.hyperedgeExtra, left.hyperedges, right.hyperedges,
             x => HyperedgeSubject(x, host), ours * theirs, ours - theirs, theirs - ours);
  }

  lemma SidesAdd(c: SharedCounts, missing: Counts, extra: Counts, left: seq<Value>, right: seq<Value>,
                 subject: Value -> Subject, shared: set<string>, leftOnly: set<string>, rightOnly: set<string>)
    requires DescribesSharedRecords(c, left, right, subject, shared)
    requires Partitioned(missing, left, right, subject, shared, leftOnly)
    requires Partitioned(extra, right, left, subject, shared, rightOnly)
    ensures c.matching + missing.shared == c.reference && c.matching + extra.shared == c.candidate
  {
    DifferenceAccounting(multiset(left), multiset(right), x => WithinShared(subject(x), shared));
  }
}
