/** What the counts of missing and extra edges and hyperedges mean, record by record. */
module RawDifferences {
  import opened Json
  import opened GraphRecords
  import opened CanonicalGraph
  import opened Partition
  import opened GraphComparison

  // ---- edges ----

  /** Both ends are among these identities. */
  predicate EdgeWithin(e: Value, ids: set<string>, host: Host) {
    e.Obj? && host.text(Get(e.fields, "source")) in ids && host.text(Get(e.fields, "target")) in ids
  }

  /** An end is not shared, and an end is only on this side. */
  predicate EdgeLeaves(e: Value, shared: set<string>, sideOnly: set<string>, host: Host) {
    e.Obj? && !EdgeWithin(e, shared, host) &&
    (host.text(Get(e.fields, "source")) in sideOnly || host.text(Get(e.fields, "target")) in sideOnly)
  }

  // ---- hyperedges ----

  /** There are members, and all are among these identities. */
  predicate MembersWithin(h: Value, ids: set<string>, host: Host) {
    h.Obj? && "nodes" in h.fields && h.fields["nodes"].Arr? && h.fields["nodes"].items != [] &&
    forall m :: m in h.fields["nodes"].items ==> host.text(m) in ids
  }

  /** A member is not shared, and a member is only on this side. */
  predicate MembersLeave(h: Value, shared: set<string>, sideOnly: set<string>, host: Host) {
    h.Obj? && "nodes" in h.fields && h.fields["nodes"].Arr? &&
    (exists m :: m in h.fields["nodes"].items && host.text(m) !in shared) &&
    exists m :: m in h.fields["nodes"].items && host.text(m) in sideOnly
  }

  // ---- counts ----

  /** The records of one side that the other lacks, each as often as it does, counted by whether they stay
      within the shared identities, reach one that only this side has, or neither. */
  ghost predicate Counted(c: Counts, here: seq<Value>, there: seq<Value>,
                          within: Value -> bool, leaves: Value -> bool)
  {
    var difference := multiset(here) - multiset(there);
    && c.shared == |Selected(difference, within)|
    && c.sideOnly == |Selected(difference, leaves)|
    && c.shared + c.sideOnly + c.unresolved == |difference|
  }

  lemma SelectedAlike<T(!new)>(m: multiset<T>, p: T -> bool, q: T -> bool)
    requires forall x :: p(x) <==> q(x)
    ensures Selected(m, p) == Selected(m, q)
  {
    forall x ensures Selected(m, p)[x] == Selected(m, q)[x] {}
  }

  lemma CountedAs(c: Counts, here: seq<Value>, there: seq<Value>, subject: Value -> Subject,
                  shared: set<string>, sideOnly: set<string>, within: Value -> bool, leaves: Value -> bool)
    requires Partitioned(c, here, there, subject, shared, sideOnly)
    requires forall x :: within(x) <==> WithinShared(subject(x), shared)
    requires forall x :: leaves(x) <==> SideOnly(subject(x), shared, sideOnly)
    ensures Counted(c, here, there, within, leaves)
  {
    var difference := multiset(here) - multiset(there);
    SelectedAlike(difference, within, x => WithinShared(subject(x), shared));
    SelectedAlike(difference, leaves, x => SideOnly(subject(x), shared, sideOnly));
  }

  lemma EdgeEnds(e: Value, shared: set<string>, sideOnly: set<string>, host: Host)
    ensures EdgeWithin(e, shared, host) <==> WithinShared(EdgeSubject(e, host), shared)
    ensures EdgeLeaves(e, shared, sideOnly, host) <==> SideOnly(EdgeSubject(e, host), shared, sideOnly)
  {
    if e.Obj? {
      var s, t := host.text(Get(e.fields, "source")), host.text(Get(e.fields, "target"));
      assert EdgeSubject(e, host).ids == {s, t};
      assert s in {s, t} * sideOnly <==> s in sideOnly;
      assert t in {s, t} * sideOnly <==> t in sideOnly;
    }
  }

  lemma HyperedgeMembers(h: Value, shared: set<string>, sideOnly: set<string>, host: Host)
    ensures MembersWithin(h, shared, host) <==> WithinShared(HyperedgeSubject(h, host), shared)
    ensures MembersLeave(h, shared, sideOnly, host) <==> SideOnly(HyperedgeSubject(h, host), shared, sideOnly)
  {
    if HyperedgeSubject(h, host).Subject? {
      var items := h.fields["nodes"].items;
      var ids := HyperedgeSubject(h, host).ids;
      assert ids == set m | m in items :: host.text(m);
      if ids * sideOnly != {} {
        var id :| id in ids * sideOnly;
        var m :| m in items && host.text(m) == id;
      }
      if m :| m in items && host.text(m) in sideOnly { assert host.text(m) in ids * sideOnly; }
      if !(ids <= shared) {
        var id :| id in ids && id !in shared;
        var m :| m in items && host.text(m) == id;
      }
    }
  }

  ghost function WithinEdge(shared: set<string>, host: Host): Value -> bool { e => EdgeWithin(e, shared, host) }

  ghost function LeavingEdge(shared: set<string>, sideOnly: set<string>, host: Host): Value -> bool {
    e => EdgeLeaves(e, shared, sideOnly, host)
  }

  ghost function WithinMembers(shared: set<string>, host: Host): Value -> bool { h => MembersWithin(h, shared, host) }

  ghost function LeavingMembers(shared: set<string>, sideOnly: set<string>, host: Host): Value -> bool {
    h => MembersLeave(h, shared, sideOnly, host)
  }

  lemma EdgesCounted(c: Counts, here: seq<Value>, there: seq<Value>, shared: set<string>, sideOnly: set<string>,
                     host: Host)
    requires Partitioned(c, here, there, x => EdgeSubject(x, host), shared, sideOnly)
    ensures Counted(c, here, there, WithinEdge(shared, host), LeavingEdge(shared, sideOnly, host))
  {
    forall x { EdgeEnds(x, shared, sideOnly, host); }
    CountedAs(c, here, there, x => EdgeSubject(x, host), shared, sideOnly,
              WithinEdge(shared, host), LeavingEdge(shared, sideOnly, host));
  }

  lemma HyperedgesCounted(c: Counts, here: seq<Value>, there: seq<Value>, shared: set<string>, sideOnly: set<string>,
                          host: Host)
    requires Partitioned(c, here, there, x => HyperedgeSubject(x, host), shared, sideOnly)
    ensures Counted(c, here, there, WithinMembers(shared, host), LeavingMembers(shared, sideOnly, host))
  {
    forall x { HyperedgeMembers(x, shared, sideOnly, host); }
    CountedAs(c, here, there, x => HyperedgeSubject(x, host), shared, sideOnly,
              WithinMembers(shared, host), LeavingMembers(shared, sideOnly, host));
  }

  lemma SharedAs(c: SharedCounts, left: seq<Value>, right: seq<Value>, subject: Value -> Subject, shared: set<string>,
                 within: Value -> bool)
    requires DescribesSharedRecords(c, left, right, subject, shared)
    requires forall x :: within(x) <==> WithinShared(subject(x), shared)
    ensures HaveInCommon(c, multiset(left), multiset(right), within)
  {
    SelectedAlike(multiset(left), within, x => WithinShared(subject(x), shared));
    SelectedAlike(multiset(right), within, x => WithinShared(subject(x), shared));
  }

  /** The four difference counts of a report: how many edges and hyperedges one side has and the other
      lacks, by whether their ends or members are all shared, reach an identity of one side, or neither. */
  lemma DifferencesMean(report: Report, reference: Record, candidate: Record, options: Options, host: Host)
    requires Describes(report, reference, candidate, options, host)
    ensures var left := CanonicalForm(reference, options.strict, host);
            var right := CanonicalForm(candidate, options.strict, host);
            var ours, theirs := Ids(left.nodes, host), Ids(right.nodes, host);
            var m, shared := report.measures, ours * theirs;
      && Counted(m.edgeMissing, left.edges, right.edges, WithinEdge(shared, host),
                 LeavingEdge(shared, ours - theirs, host))
      && Counted(m.edgeExtra, right.edges, left.edges, WithinEdge(shared, host),
                 LeavingEdge(shared, theirs - ours, host))
      && Counted(m.hyperedgeMissing, left.hyperedges, right.hyperedges, WithinMembers(shared, host),
                 LeavingMembers(shared, ours - theirs, host))
      && Counted(m.hyperedgeExtra, right.hyperedges, left.hyperedges, WithinMembers(shared, host),
                 LeavingMembers(shared, theirs - ours, host))
  {
    var left := CanonicalForm(reference, options.strict, host);
    var right := CanonicalForm(candidate, options.strict, host);
    FormDifferences(report.measures, left, right, host);
  }

  lemma FormDifferences(m: Measures, left: Canonical, right: Canonical, host: Host)
    requires DescribesDifferences(m, left, right, host)
    ensures var ours, theirs := Ids(left.nodes, host), Ids(right.nodes, host);
            var shared := ours * theirs;
      && Counted(m.edgeMissing, left.edges, right.edges, WithinEdge(shared, host),
                 LeavingEdge(shared, ours - theirs, host))
      && Counted(m.edgeExtra, right.edges, left.edges, WithinEdge(shared, host),
                 LeavingEdge(shared, theirs - ours, host))
      && Counted(m.hyperedgeMissing, left.hyperedges, right.hyperedges, WithinMembers(shared, host),
                 LeavingMembers(shared, ours - theirs, host))
      && Counted(m.hyperedgeExtra, right.hyperedges, left.hyperedges, WithinMembers(shared, host),
                 LeavingMembers(shared, theirs - ours, host))
  {
    var ours, theirs := Ids(left.nodes, host), Ids(right.nodes, host);
    var shared := ours * theirs;
    EdgesCounted(m.edgeMissing, left.edges, right.edges, shared, ours - theirs, host);
    EdgesCounted(m.edgeExtra, right.edges, left.edges, shared, theirs - ours, host);
    HyperedgesCounted(m.hyperedgeMissing, left.hyperedges, right.hyperedges, shared, ours - theirs, host);
    HyperedgesCounted(m.hyperedgeExtra, right.hyperedges, left.hyperedges, shared, theirs - ours, host);
  }

  /** How many edges and hyperedges of each side stay within the shared identities, and how many of these
      both sides have. */
  lemma SharedMean(report: Report, reference: Record, candidate: Record, options: Options, host: Host)
    requires Describes(report, reference, candidate, options, host)
    ensures var left := CanonicalForm(reference, options.strict, host);
            var right := CanonicalForm(candidate, options.strict, host);
            var shared := Ids(left.nodes, host) * Ids(right.nodes, host);
            var edge, members := WithinEdge(shared, host), WithinMembers(shared, host);
      && HaveInCommon(report.measures.sharedEdges, multiset(left.edges), multiset(right.edges), edge)
      && HaveInCommon(report.measures.sharedHyperedges, multiset(left.hyperedges), multiset(right.hyperedges), members)
  {
    var left := CanonicalForm(reference, options.strict, host);
    var right := CanonicalForm(candidate, options.strict, host);
    SharedFormsMean(report.measures, left, right, host);
  }

  ghost predicate HaveInCommon(c: SharedCounts, left: multiset<Value>, right: multiset<Value>, within: Value -> bool) {
    var ours, theirs := Selected(left, within), Selected(right, within);
    c == SharedCounts(|ours|, |theirs|, |ours * theirs|)
  }

  lemma SharedFormsMean(m: Measures, left: Canonical, right: Canonical, host: Host)
    requires DescribesShared(m, left, right, host)
    ensures var shared := Ids(left.nodes, host) * Ids(right.nodes, host);
      && HaveInCommon(m.sharedEdges, multiset(left.edges), multiset(right.edges), WithinEdge(shared, host))
      && HaveInCommon(m.sharedHyperedges, multiset(left.hyperedges), multiset(right.hyperedges),
                      WithinMembers(shared, host))
  {
    var shared := Ids(left.nodes, host) * Ids(right.nodes, host);
    forall x ensures WithinEdge(shared, host)(x) <==> WithinShared(EdgeSubject(x, host), shared) {
      EdgeEnds(x, shared, {}, host);
    }
    forall x ensures WithinMembers(shared, host)(x) <==> WithinShared(HyperedgeSubject(x, host), shared) {
      HyperedgeMembers(x, shared, {}, host);
    }
    SharedAs(m.sharedEdges, left.edges, right.edges, x => EdgeSubject(x, host), shared, WithinEdge(shared, host));
    SharedAs(m.sharedHyperedges, left.hyperedges, right.hyperedges, x => HyperedgeSubject(x, host), shared,
             WithinMembers(shared, host));
  }
}
