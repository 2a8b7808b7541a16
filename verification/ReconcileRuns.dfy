/** Any number of update passes, each reconciled and then rebuilt: what a run keeps, and when it is
    the same as one joint pass. */
module ReconcileRuns {
  import opened Wrappers
  import opened Sequences
  import opened Linkages
  import opened Reconcile
  import opened ReconcileBatches

  // ---- one pass ----

  /** The members that are nodes, each once. */
  function Retained(members: seq<string>, ids: set<string>): seq<string> {
    if members == [] then []
    else
      var kept, m := Retained(members[..|members| - 1], ids), members[|members| - 1];
      if m in ids && m !in kept then kept + [m] else kept
  }

  function Trimmed(h: Hyperedge, ids: set<string>): Hyperedge { h.(members := Retained(h.members, ids)) }

  function EdgeLinkage(): Linkage<Edge> {
    Linkage((e: Edge, ids: set<string>) => LinkedEdge(e, ids), (e: Edge, ids: set<string>) => e,
            (e: Edge, ids: set<string>) => LinkedEdge(e, ids))
  }

  function HyperedgeLinkage(): Linkage<Hyperedge> {
    Linkage((h: Hyperedge, ids: set<string>) => Trimmed(h, ids).members != [],
            (h: Hyperedge, ids: set<string>) => Trimmed(h, ids),
            (h: Hyperedge, ids: set<string>) => LinkedHyperedge(h, ids))
  }

  /** What a rebuild does to links: an edge without both endpoints is dropped; a hyperedge loses the
      members that are no nodes, and is dropped when it has none. */
  function Prune(g: Graph): Graph {
    var ids := NodeIds(g.nodes);
    Graph(g.nodes, Enter(EdgeLinkage(), g.edges, ids), Enter(HyperedgeLinkage(), g.hyperedges, ids))
  }

  function Pass(g: Graph, b: Batch, paths: SourcePaths): Graph { Prune(Apply(g, b, paths)) }

  /** The graph after the first `n` passes. */
  function After(g: Graph, batches: seq<Batch>, n: nat, paths: SourcePaths): Graph
    requires n <= |batches|
  {
    if n == 0 then g else Pass(After(g, batches, n - 1, paths), batches[n - 1], paths)
  }

  /** The first `n` batches as one. */
  function JoinFirst(batches: seq<Batch>, n: nat): Batch
    requires 0 < n <= |batches|
  {
    if n == 1 then batches[0] else Join(JoinFirst(batches, n - 1), batches[n - 1])
  }

  /** Incremental batches that own what they bring, pairwise about different sources and identities. */
  ghost predicate Independent(g: Graph, batches: seq<Batch>, paths: SourcePaths) {
    && (forall i :: 0 <= i < |batches| ==> OwnBatch(batches, i, paths))
    && (forall i, j :: 0 <= i < j < |batches| ==> ApartBatches(g, batches, i, j, paths))
  }

  ghost predicate OwnBatch(batches: seq<Batch>, i: nat, paths: SourcePaths)
    requires i < |batches|
  {
    Incremental(batches[i]) && Owned(batches[i], paths)
  }

  ghost predicate ApartBatches(g: Graph, batches: seq<Batch>, i: nat, j: nat, paths: SourcePaths)
    requires i < j < |batches|
  {
    Separate(g, batches[i], batches[j], paths)
  }

  // ---- prefixes of a run ----

  lemma OwnedTogether(a: Batch, b: Batch, paths: SourcePaths)
    requires Owned(a, paths) && Owned(b, paths)
    ensures Owned(Join(a, b), paths)
  {}

  lemma SeparateTogether(g: Graph, a: Batch, b: Batch, c: Batch, paths: SourcePaths)
    requires Separate(g, a, c, paths) && Separate(g, b, c, paths)
    ensures Separate(g, Join(a, b), c, paths)
  {
    JoinedIds(a.update, b.update);
    forall n | n in g.nodes && n.id in NodeIds(c.update.nodes) ensures !In(n.source, Touched(Join(a, b).ev), paths) {
      assert !In(n.source, Touched(a.ev), paths) && !In(n.source, Touched(b.ev), paths);
    }
  }

  lemma {:induction false} FirstSeparate(g: Graph, batches: seq<Batch>, n: nat, j: nat, paths: SourcePaths)
    requires Independent(g, batches, paths) && 0 < n <= j < |batches|
    ensures Separate(g, JoinFirst(batches, n), batches[j], paths)
  {
    assert ApartBatches(g, batches, n - 1, j, paths);
    if n > 1 {
      FirstSeparate(g, batches, n - 1, j, paths);
      SeparateTogether(g, JoinFirst(batches, n - 1), batches[n - 1], batches[j], paths);
    }
  }

  lemma {:induction false} FirstOwned(g: Graph, batches: seq<Batch>, n: nat, paths: SourcePaths)
    requires Independent(g, batches, paths) && 0 < n <= |batches|
    ensures Incremental(JoinFirst(batches, n)) && Owned(JoinFirst(batches, n), paths)
  {
    assert OwnBatch(batches, n - 1, paths);
    if n > 1 {
      FirstOwned(g, batches, n - 1, paths);
      OwnedTogether(JoinFirst(batches, n - 1), batches[n - 1], paths);
    }
  }

  /** The node identities there are after each pass: those of one joint pass so far. */
  function Stages(g: Graph, batches: seq<Batch>, paths: SourcePaths): seq<set<string>> {
    seq(|batches|, k requires 0 <= k < |batches| => NodeIds(Apply(g, JoinFirst(batches, k + 1), paths).nodes))
  }

  lemma {:induction false} FirstIds(batches: seq<Batch>, k: nat, n: nat)
    requires 0 < k <= n <= |batches|
    ensures NodeIds(JoinFirst(batches, k).update.nodes) <= NodeIds(JoinFirst(batches, n).update.nodes)
    decreases n
  {
    if k < n {
      FirstIds(batches, k, n - 1);
      JoinedIds(JoinFirst(batches, n - 1).update, batches[n - 1].update);
    }
  }

  lemma CommittedStay(g: Graph, batches: seq<Batch>, n: nat, id: string, paths: SourcePaths)
    requires Lawful(paths) && Independent(g, batches, paths) && 0 < n < |batches|
    requires id in Stages(g, batches, paths)[n] && id in NodeIds(g.nodes)
    ensures id in Stages(g, batches, paths)[n - 1]
  {
    assert OwnBatch(batches, n, paths);
    FirstOwned(g, batches, n, paths);
    FirstSeparate(g, batches, n, n, paths);
    EarlyIds(g, JoinFirst(batches, n), batches[n], id, paths);
  }

  lemma FreshStay(g: Graph, batches: seq<Batch>, k: nat, n: nat, id: string, paths: SourcePaths)
    requires k < n <= |batches| && id in Stages(g, batches, paths)[k] && id !in NodeIds(g.nodes)
    ensures id in Stages(g, batches, paths)[n - 1]
  {
    var early, mid := JoinFirst(batches, k + 1), JoinFirst(batches, n);
    CarriedIds(g, early.update, early.ev, paths);
    CarriedIds(g, mid.update, mid.ev, paths);
    FirstIds(batches, k + 1, n);
  }

  lemma StagesSteady(g: Graph, batches: seq<Batch>, paths: SourcePaths)
    requires Lawful(paths) && Independent(g, batches, paths)
    ensures Steady(Stages(g, batches, paths))
  {
    var stages := Stages(g, batches, paths);
    forall k, n | 0 <= k < n < |stages| ensures StillThere(stages, k, n) {
      forall id | id in stages[k] && id in stages[n] ensures id in stages[n - 1] {
        if id in NodeIds(g.nodes) {
          CommittedStay(g, batches, n, id, paths);
        } else {
          FreshStay(g, batches, k, n, id, paths);
        }
      }
    }
  }

  // ---- nodes ----

  lemma SameNodesAfter(g: Graph, h: Graph, b: Batch, paths: SourcePaths)
    requires multiset(g.nodes) == multiset(h.nodes)
    ensures multiset(Apply(g, b, paths).nodes) == multiset(Apply(h, b, paths).nodes)
  {
    CarryMultiset(g.nodes, h.nodes, NodeKeeper(NodeIds(b.update.nodes), b.ev, paths), NodeMover(paths));
  }

  ghost predicate NodesReached(g: Graph, batches: seq<Batch>, n: nat, paths: SourcePaths)
    requires 0 < n <= |batches|
  {
    multiset(After(g, batches, n, paths).nodes) == multiset(Pass(g, JoinFirst(batches, n), paths).nodes)
  }

  lemma NextNodes(g: Graph, batches: seq<Batch>, n: nat, paths: SourcePaths)
    requires Lawful(paths) && 0 < n < |batches| && NodesReached(g, batches, n, paths)
    requires Incremental(JoinFirst(batches, n)) && Owned(JoinFirst(batches, n), paths) && Incremental(batches[n])
    requires Separate(g, JoinFirst(batches, n), batches[n], paths)
    ensures NodesReached(g, batches, n + 1, paths)
  {
    var first, b := JoinFirst(batches, n), batches[n];
    SameNodesAfter(After(g, batches, n, paths), Apply(g, first, paths), b, paths);
    SameNodes(g, first, b, paths);
  }

  /** However many passes a run takes, it has the nodes of a single joint pass. */
  lemma {:induction false} RunNodes(g: Graph, batches: seq<Batch>, n: nat, paths: SourcePaths)
    requires Lawful(paths) && Independent(g, batches, paths) && 0 < n <= |batches|
    ensures multiset(After(g, batches, n, paths).nodes) == multiset(Pass(g, JoinFirst(batches, n), paths).nodes)
  {
    if n > 1 {
      RunNodes(g, batches, n - 1, paths);
      assert OwnBatch(batches, n - 1, paths);
      FirstOwned(g, batches, n - 1, paths);
      FirstSeparate(g, batches, n - 1, n - 1, paths);
      NextNodes(g, batches, n - 1, paths);
    } else {
      assert After(g, batches, 0, paths) == g;
    }
  }

  /** The node identities of a pass, before and after the rebuild, are those of its stage. */
  lemma PassIds(g: Graph, batches: seq<Batch>, n: nat, paths: SourcePaths)
    requires Lawful(paths) && Independent(g, batches, paths) && 0 < n <= |batches|
    ensures NodeIds(Apply(After(g, batches, n - 1, paths), batches[n - 1], paths).nodes) ==
            Stages(g, batches, paths)[n - 1]
  {
    RunNodes(g, batches, n, paths);
    StageIds(g, batches, n, paths);
  }

  lemma StageIds(g: Graph, batches: seq<Batch>, n: nat, paths: SourcePaths)
    requires 0 < n <= |batches| && NodesReached(g, batches, n, paths)
    ensures NodeIds(Apply(After(g, batches, n - 1, paths), batches[n - 1], paths).nodes) ==
            Stages(g, batches, paths)[n - 1]
  {
    var unpruned := Apply(After(g, batches, n - 1, paths), batches[n - 1], paths);
    assert After(g, batches, n, paths).nodes == unpruned.nodes;
    SameIds(unpruned.nodes, Apply(g, JoinFirst(batches, n), paths).nodes);
    StageAt(g, batches, n, paths);
  }

  lemma StageAt(g: Graph, batches: seq<Batch>, n: nat, paths: SourcePaths)
    requires 0 < n <= |batches|
    ensures Stages(g, batches, paths)[n - 1] == NodeIds(Apply(g, JoinFirst(batches, n), paths).nodes)
  {}

  // ---- linkages ----

  lemma EdgesSound()
    ensures Sound(EdgeLinkage(), (e: Edge) => 1)
  {}

  lemma {:induction false} RetainedMembers(members: seq<string>, ids: set<string>)
    ensures forall m :: m in Retained(members, ids) <==> m in members && m in ids
    ensures forall i, j :: 0 <= i < j < |Retained(members, ids)| ==>
              Retained(members, ids)[i] != Retained(members, ids)[j]
  {
    if members != [] {
      var n := |members| - 1;
      RetainedMembers(members[..n], ids);
      assert members == members[..n] + [members[n]];
    }
  }

  /** Fewer nodes retain at most as many members, and as many only when they are the same. */
  lemma {:induction false} RetainedFewer(members: seq<string>, early: set<string>, late: set<string>)
    requires forall m :: m in members && m in early ==> m in late
    ensures |Retained(members, early)| <= |Retained(members, late)|
    ensures |Retained(members, early)| == |Retained(members, late)| ==>
              Retained(members, early) == Retained(members, late)
  {
    if members != [] {
      var n := |members| - 1;
      assert members == members[..n] + [members[n]];
      RetainedFewer(members[..n], early, late);
      RetainedMembers(members[..n], early);
      RetainedMembers(members[..n], late);
    }
  }

  function MemberCount(): Hyperedge -> nat { (h: Hyperedge) => |h.members| }

  lemma HyperedgesSound()
    ensures Sound(HyperedgeLinkage(), MemberCount())
  {
    var l := HyperedgeLinkage();
    forall h: Hyperedge, ids: set<string> ensures l.stay(l.trim(h, ids), ids) { RetainedMembers(h.members, ids); }
    forall h: Hyperedge, early: set<string>, late: set<string> | l.enter(h, early) && l.stay(l.trim(h, early), late)
      ensures l.enter(h, late) && |l.trim(h, early).members| <= |l.trim(h, late).members|
      ensures |l.trim(h, early).members| == |l.trim(h, late).members| ==> l.trim(h, early) == l.trim(h, late)
    {
      RetainedMembers(h.members, early);
      RetainedFewer(h.members, early, late);
    }
    forall h: Hyperedge, early: set<string>, late: set<string>, mid: set<string>
      | l.enter(h, early) && l.stay(l.trim(h, early), late) && early * late <= mid
      ensures l.stay(l.trim(h, early), mid)
    {
      RetainedMembers(h.members, early);
    }
  }

  // ---- edges ----

  function EdgeBatches(batches: seq<Batch>): seq<seq<Edge>> {
    seq(|batches|, k requires 0 <= k < |batches| => batches[k].update.edges)
  }

  /** The committed edges that are left after the first `n` batches. */
  function EdgesLeft(g: Graph, batches: seq<Batch>, n: nat, paths: SourcePaths): seq<Edge>
    requires 0 < n <= |batches|
  {
    CarriedEdges(g.edges, Stages(g, batches, paths)[n - 1], JoinFirst(batches, n).ev, paths)
  }

  lemma EnterCarriedEdges(edges: seq<Edge>, ids: set<string>, ev: Evidence, paths: SourcePaths)
    ensures Enter(EdgeLinkage(), CarriedEdges(edges, ids, ev, paths), ids) == CarriedEdges(edges, ids, ev, paths)
  {
    var carried := CarriedEdges(edges, ids, ev, paths);
    forall e | e in carried ensures Entering(EdgeLinkage(), ids)(e) && Trimming(EdgeLinkage(), ids)(e) == e {
      var d := CarrySource(edges, EdgeKeeper(ids, ev, paths), EdgeMover(paths), e);
    }
    CarryAll(carried, Entering(EdgeLinkage(), ids), Trimming(EdgeLinkage(), ids));
  }

  lemma PassEdges(g: Graph, b: Batch, ids: set<string>, paths: SourcePaths)
    requires ids == NodeIds(Apply(g, b, paths).nodes)
    ensures Pass(g, b, paths).edges ==
            Enter(EdgeLinkage(), b.update.edges, ids) + CarriedEdges(g.edges, ids, b.ev, paths)
  {
    CarryConcat(b.update.edges, CarriedEdges(g.edges, ids, b.ev, paths), Entering(EdgeLinkage(), ids),
                Trimming(EdgeLinkage(), ids));
    EnterCarriedEdges(g.edges, ids, b.ev, paths);
  }

  lemma {:induction false} SettledEarlier(
    g: Graph, batches: seq<Batch>, k: nat, n: nat, source: string, paths: SourcePaths)
    requires k < n <= |batches| && Settled(source, batches[k].ev, paths)
    ensures Settled(source, JoinFirst(batches, n).ev, paths)
    decreases n
  {
    if k < n - 1 { SettledEarlier(g, batches, k, n - 1, source, paths); }
  }

  /** Facts earlier passes brought pass a later one exactly when they are still linked. */
  lemma FreshEdgesPass(g: Graph, batches: seq<Batch>, n: nat, paths: SourcePaths)
    requires Independent(g, batches, paths) && 0 < n < |batches|
    ensures var run := FreshAt(EdgeLinkage(), EdgeBatches(batches), Stages(g, batches, paths), n);
      var ids := Stages(g, batches, paths)[n];
      CarriedEdges(run, ids, batches[n].ev, paths) == Carry(run, Staying(EdgeLinkage(), ids), Same())
  {
    var l, stages := EdgeLinkage(), Stages(g, batches, paths);
    var run, first := FreshAt(l, EdgeBatches(batches), stages, n), JoinFirst(batches, n);
    var settled := SettledEdge(first.ev, paths);
    forall k, e | 0 <= k < n && e in EdgeBatches(batches)[k] ensures settled(e) {
      assert OwnBatch(batches, k, paths);
      SettledEarlier(g, batches, k, n, e.source, paths);
    }
    FreshHas(l, EdgeBatches(batches), stages, n, settled);
    FirstSeparate(g, batches, n, n, paths);
    assert forall e :: e in run ==> settled(e);
    FreshEdgesCarried(run, first, batches[n], stages[n], paths);
    CarrySame(run, EdgeLinker(stages[n]), Same<Edge>(), Staying(l, stages[n]), Same<Edge>());
  }

  ghost function SettledEdge(ev: Evidence, paths: SourcePaths): Edge -> bool {
    (e: Edge) => Settled(e.source, ev, paths)
  }

  lemma CommittedEdgesPass(g: Graph, batches: seq<Batch>, n: nat, paths: SourcePaths)
    requires Lawful(paths) && Independent(g, batches, paths) && FullyLinked(g) && 0 < n < |batches|
    ensures CarriedEdges(EdgesLeft(g, batches, n, paths), Stages(g, batches, paths)[n], batches[n].ev, paths)
         == EdgesLeft(g, batches, n + 1, paths)
  {
    var stages := Stages(g, batches, paths);
    forall e | e in g.edges && LinkedEdge(e, stages[n]) ensures LinkedEdge(e, stages[n - 1]) {
      CommittedStay(g, batches, n, e.tail, paths);
      CommittedStay(g, batches, n, e.head, paths);
    }
    CommittedEdgesCarried(g.edges, JoinFirst(batches, n), batches[n], stages[n - 1], stages[n], paths);
  }

  ghost predicate EdgesReached(g: Graph, batches: seq<Batch>, n: nat, paths: SourcePaths)
    requires 0 < n <= |batches|
  {
    After(g, batches, n, paths).edges ==
    FreshAt(EdgeLinkage(), EdgeBatches(batches), Stages(g, batches, paths), n) + EdgesLeft(g, batches, n, paths)
  }

  lemma NextEdges(g: Graph, batches: seq<Batch>, n: nat, paths: SourcePaths)
    requires Lawful(paths) && Independent(g, batches, paths) && FullyLinked(g) && 0 < n < |batches|
    requires NodeIds(Apply(After(g, batches, n, paths), batches[n], paths).nodes) == Stages(g, batches, paths)[n]
    requires EdgesReached(g, batches, n, paths)
    ensures EdgesReached(g, batches, n + 1, paths)
  {
    var stages := Stages(g, batches, paths);
    PassEdges(After(g, batches, n, paths), batches[n], stages[n], paths);
    CarryConcat(FreshAt(EdgeLinkage(), EdgeBatches(batches), stages, n), EdgesLeft(g, batches, n, paths),
                EdgeKeeper(stages[n], batches[n].ev, paths), EdgeMover(paths));
    FreshEdgesPass(g, batches, n, paths);
    CommittedEdgesPass(g, batches, n, paths);
    GrownEdges(g, batches, n, paths);
  }

  lemma GrownEdges(g: Graph, batches: seq<Batch>, n: nat, paths: SourcePaths)
    requires 0 < n < |batches|
    requires var stages := Stages(g, batches, paths);
      var run := FreshAt(EdgeLinkage(), EdgeBatches(batches), stages, n);
      Pass(After(g, batches, n, paths), batches[n], paths).edges ==
        Enter(EdgeLinkage(), batches[n].update.edges, stages[n]) +
        (Carry(run, Staying(EdgeLinkage(), stages[n]), Same()) + EdgesLeft(g, batches, n + 1, paths))
    ensures EdgesReached(g, batches, n + 1, paths)
  {}

  lemma FirstEdges(g: Graph, batches: seq<Batch>, paths: SourcePaths)
    requires batches != []
    ensures After(g, batches, 1, paths).edges ==
            FreshAt(EdgeLinkage(), EdgeBatches(batches), Stages(g, batches, paths), 1) + EdgesLeft(g, batches, 1, paths)
  {
    assert After(g, batches, 0, paths) == g;
    assert FreshAt(EdgeLinkage(), EdgeBatches(batches), Stages(g, batches, paths), 0) == [];
    PassEdges(g, batches[0], Stages(g, batches, paths)[0], paths);
  }

  /** After each pass, the edges are the fresh ones that were linked all along and the committed ones
      no batch so far removes. */
  lemma {:induction false} RunEdges(g: Graph, batches: seq<Batch>, n: nat, paths: SourcePaths)
    requires Lawful(paths) && Independent(g, batches, paths) && FullyLinked(g) && 0 < n <= |batches|
    ensures After(g, batches, n, paths).edges ==
            FreshAt(EdgeLinkage(), EdgeBatches(batches), Stages(g, batches, paths), n) + EdgesLeft(g, batches, n, paths)
  {
    if n == 1 {
      FirstEdges(g, batches, paths);
    } else {
      RunEdges(g, batches, n - 1, paths);
      PassIds(g, batches, n, paths);
      NextEdges(g, batches, n - 1, paths);
    }
  }

  lemma {:induction false} JointEdges(batches: seq<Batch>, ids: set<string>, n: nat)
    requires 0 < n <= |batches|
    ensures multiset(Enter(EdgeLinkage(), JoinFirst(batches, n).update.edges, ids)) ==
            multiset(JointAt(EdgeLinkage(), EdgeBatches(batches), ids, n))
  {
    var l := EdgeLinkage();
    if n > 1 {
      JointEdges(batches, ids, n - 1);
      CarryConcat(JoinFirst(batches, n - 1).update.edges, batches[n - 1].update.edges,
                  Entering(l, ids), Trimming(l, ids));
    } else {
      assert JointAt(l, EdgeBatches(batches), ids, 0) == [];
    }
  }

  // ---- hyperedges ----

  function HyperedgeBatches(batches: seq<Batch>): seq<seq<Hyperedge>> {
    seq(|batches|, k requires 0 <= k < |batches| => batches[k].update.hyperedges)
  }

  function HyperedgesLeft(g: Graph, batches: seq<Batch>, n: nat, paths: SourcePaths): seq<Hyperedge>
    requires 0 < n <= |batches|
  {
    CarriedHyperedges(g.hyperedges, Stages(g, batches, paths)[n - 1], JoinFirst(batches, n).update,
                      JoinFirst(batches, n).ev, paths)
  }

  /** As a rebuild leaves it: some members, each once. */
  ghost predicate Formed(h: Hyperedge) {
    h.members != [] && forall i, j :: 0 <= i < j < |h.members| ==> h.members[i] != h.members[j]
  }

  ghost predicate AllFormed(s: seq<Hyperedge>) { forall h :: h in s ==> Formed(h) }

  lemma {:induction false} RetainedAll(members: seq<string>, ids: set<string>)
    requires forall i, j :: 0 <= i < j < |members| ==> members[i] != members[j]
    requires forall m :: m in members ==> m in ids
    ensures Retained(members, ids) == members
  {
    if members != [] {
      var n := |members| - 1;
      RetainedAll(members[..n], ids);
      assert members == members[..n] + [members[n]];
    }
  }

  lemma EnteredFormed(s: seq<Hyperedge>, ids: set<string>)
    ensures forall h :: h in Enter(HyperedgeLinkage(), s, ids) ==> Formed(h) && LinkedHyperedge(h, ids)
  {
    var l := HyperedgeLinkage();
    forall h | h in Enter(l, s, ids) ensures Formed(h) && LinkedHyperedge(h, ids) {
      var y := CarrySource(s, Entering(l, ids), Trimming(l, ids), h);
      RetainedMembers(y.members, ids);
    }
  }

  lemma EnterCarriedHyperedges(s: seq<Hyperedge>, ids: set<string>, update: Graph, ev: Evidence, paths: SourcePaths)
    requires AllFormed(s)
    ensures var carried := CarriedHyperedges(s, ids, update, ev, paths);
      Enter(HyperedgeLinkage(), carried, ids) == carried
  {
    var l, carried := HyperedgeLinkage(), CarriedHyperedges(s, ids, update, ev, paths);
    forall h | h in carried ensures Entering(l, ids)(h) && Trimming(l, ids)(h) == h {
      var y := CarrySource(s, HyperedgeKeeper(ids, HyperedgeIds(update.hyperedges), ev, paths),
                           HyperedgeMover(paths), h);
      assert h.members == y.members && Formed(y);
      RetainedAll(h.members, ids);
    }
    CarryAll(carried, Entering(l, ids), Trimming(l, ids));
  }

  lemma PassHyperedges(g: Graph, b: Batch, ids: set<string>, paths: SourcePaths)
    requires ids == NodeIds(Apply(g, b, paths).nodes) && AllFormed(g.hyperedges)
    ensures Pass(g, b, paths).hyperedges ==
            Enter(HyperedgeLinkage(), b.update.hyperedges, ids) +
            CarriedHyperedges(g.hyperedges, ids, b.update, b.ev, paths)
  {
    CarryConcat(b.update.hyperedges, CarriedHyperedges(g.hyperedges, ids, b.update, b.ev, paths),
                Entering(HyperedgeLinkage(), ids), Trimming(HyperedgeLinkage(), ids));
    EnterCarriedHyperedges(g.hyperedges, ids, b.update, b.ev, paths);
  }

  ghost predicate OwnHyperedge(h: Hyperedge, b: Batch, paths: SourcePaths) {
    (h.id.Some? ==> h.id.value in HyperedgeIds(b.update.hyperedges)) &&
    (h.source.Some? ==> Settled(h.source.value, b.ev, paths))
  }

  ghost function HyperedgeOwner(b: Batch, paths: SourcePaths): Hyperedge -> bool {
    (h: Hyperedge) => OwnHyperedge(h, b, paths)
  }

  lemma {:induction false} OwnedEarlier(batches: seq<Batch>, k: nat, n: nat, h: Hyperedge, paths: SourcePaths)
    requires k < n <= |batches| && OwnHyperedge(h, batches[k], paths)
    ensures OwnHyperedge(h, JoinFirst(batches, n), paths)
    decreases n
  {
    if n > 1 {
      JoinedIds(JoinFirst(batches, n - 1).update, batches[n - 1].update);
      if k < n - 1 { OwnedEarlier(batches, k, n - 1, h, paths); }
    }
  }

  lemma OwnHyperedgesCarried(s: seq<Hyperedge>, a: Batch, b: Batch, ids: set<string>, paths: SourcePaths)
    requires Touched(a.ev) !! Touched(b.ev)
    requires HyperedgeIds(a.update.hyperedges) !! HyperedgeIds(b.update.hyperedges)
    requires forall h :: h in s ==> OwnHyperedge(h, a, paths)
    ensures CarriedHyperedges(s, ids, b.update, b.ev, paths) == Carry(s, Staying(HyperedgeLinkage(), ids), Same())
  {
    var keep := HyperedgeKeeper(ids, HyperedgeIds(b.update.hyperedges), b.ev, paths);
    forall h | h in s
      ensures keep(h) == Staying(HyperedgeLinkage(), ids)(h) && HyperedgeMover(paths)(h) == h
    {
      assert OwnHyperedge(h, a, paths);
    }
    CarrySame(s, keep, HyperedgeMover(paths), Staying(HyperedgeLinkage(), ids), Same<Hyperedge>());
  }

  lemma FreshHyperedgesPass(g: Graph, batches: seq<Batch>, n: nat, paths: SourcePaths)
    requires Independent(g, batches, paths) && 0 < n < |batches|
    ensures var run := FreshAt(HyperedgeLinkage(), HyperedgeBatches(batches), Stages(g, batches, paths), n);
      var ids := Stages(g, batches, paths)[n];
      CarriedHyperedges(run, ids, batches[n].update, batches[n].ev, paths) ==
        Carry(run, Staying(HyperedgeLinkage(), ids), Same())
  {
    var l, stages, first := HyperedgeLinkage(), Stages(g, batches, paths), JoinFirst(batches, n);
    var run, own := FreshAt(l, HyperedgeBatches(batches), stages, n), HyperedgeOwner(first, paths);
    forall k, h | 0 <= k < n && h in HyperedgeBatches(batches)[k] ensures own(h) {
      assert OwnBatch(batches, k, paths);
      OwnedEarlier(batches, k, n, h, paths);
    }
    FreshHas(l, HyperedgeBatches(batches), stages, n, own);
    FirstSeparate(g, batches, n, n, paths);
    assert forall h :: h in run ==> own(h);
    OwnHyperedgesCarried(run, first, batches[n], stages[n], paths);
  }

  lemma CommittedHyperedgesPass(g: Graph, batches: seq<Batch>, n: nat, paths: SourcePaths)
    requires Lawful(paths) && Independent(g, batches, paths) && FullyLinked(g) && 0 < n < |batches|
    ensures CarriedHyperedges(HyperedgesLeft(g, batches, n, paths), Stages(g, batches, paths)[n], batches[n].update,
                              batches[n].ev, paths)
         == HyperedgesLeft(g, batches, n + 1, paths)
  {
    var stages := Stages(g, batches, paths);
    forall h | h in g.hyperedges && LinkedHyperedge(h, stages[n]) ensures LinkedHyperedge(h, stages[n - 1]) {
      forall m | m in h.members ensures m in stages[n - 1] { CommittedStay(g, batches, n, m, paths); }
    }
    CommittedHyperedgesCarried(g.hyperedges, JoinFirst(batches, n), batches[n], stages[n - 1], stages[n], paths);
  }

  ghost predicate HyperedgesReached(g: Graph, batches: seq<Batch>, n: nat, paths: SourcePaths)
    requires 0 < n <= |batches|
  {
    After(g, batches, n, paths).hyperedges ==
    FreshAt(HyperedgeLinkage(), HyperedgeBatches(batches), Stages(g, batches, paths), n) +
    HyperedgesLeft(g, batches, n, paths)
  }

  lemma NextHyperedges(g: Graph, batches: seq<Batch>, n: nat, paths: SourcePaths)
    requires Lawful(paths) && Independent(g, batches, paths) && FullyLinked(g) && 0 < n < |batches|
    requires NodeIds(Apply(After(g, batches, n, paths), batches[n], paths).nodes) == Stages(g, batches, paths)[n]
    requires AllFormed(After(g, batches, n, paths).hyperedges)
    requires HyperedgesReached(g, batches, n, paths)
    ensures HyperedgesReached(g, batches, n + 1, paths)
  {
    var stages, b := Stages(g, batches, paths), batches[n];
    PassHyperedges(After(g, batches, n, paths), b, stages[n], paths);
    CarryConcat(FreshAt(HyperedgeLinkage(), HyperedgeBatches(batches), stages, n), HyperedgesLeft(g, batches, n, paths),
                HyperedgeKeeper(stages[n], HyperedgeIds(b.update.hyperedges), b.ev, paths), HyperedgeMover(paths));
    FreshHyperedgesPass(g, batches, n, paths);
    CommittedHyperedgesPass(g, batches, n, paths);
    GrownHyperedges(g, batches, n, paths);
  }

  lemma GrownHyperedges(g: Graph, batches: seq<Batch>, n: nat, paths: SourcePaths)
    requires 0 < n < |batches|
    requires var stages := Stages(g, batches, paths);
      var run := FreshAt(HyperedgeLinkage(), HyperedgeBatches(batches), stages, n);
      Pass(After(g, batches, n, paths), batches[n], paths).hyperedges ==
        Enter(HyperedgeLinkage(), batches[n].update.hyperedges, stages[n]) +
        (Carry(run, Staying(HyperedgeLinkage(), stages[n]), Same()) + HyperedgesLeft(g, batches, n + 1, paths))
    ensures HyperedgesReached(g, batches, n + 1, paths)
  {}

  lemma FirstHyperedges(g: Graph, batches: seq<Batch>, paths: SourcePaths)
    requires batches != [] && AllFormed(g.hyperedges)
    ensures After(g, batches, 1, paths).hyperedges ==
            FreshAt(HyperedgeLinkage(), HyperedgeBatches(batches), Stages(g, batches, paths), 1) +
            HyperedgesLeft(g, batches, 1, paths)
  {
    assert After(g, batches, 0, paths) == g;
    assert FreshAt(HyperedgeLinkage(), HyperedgeBatches(batches), Stages(g, batches, paths), 0) == [];
    PassHyperedges(g, batches[0], Stages(g, batches, paths)[0], paths);
  }

  lemma PassFormed(g: Graph, b: Batch, paths: SourcePaths)
    ensures AllFormed(Pass(g, b, paths).hyperedges)
  {
    EnteredFormed(Apply(g, b, paths).hyperedges, NodeIds(Apply(g, b, paths).nodes));
  }

  /** After each pass, the hyperedges are the fresh ones, as their own pass formed them, whose members
      all stayed, and the committed ones no batch so far removes. */
  lemma {:induction false} RunHyperedges(g: Graph, batches: seq<Batch>, n: nat, paths: SourcePaths)
    requires Lawful(paths) && Independent(g, batches, paths) && FullyLinked(g) && 0 < n <= |batches|
    requires AllFormed(g.hyperedges)
    ensures After(g, batches, n, paths).hyperedges ==
            FreshAt(HyperedgeLinkage(), HyperedgeBatches(batches), Stages(g, batches, paths), n) +
            HyperedgesLeft(g, batches, n, paths)
  {
    if n == 1 {
      FirstHyperedges(g, batches, paths);
    } else {
      RunHyperedges(g, batches, n - 1, paths);
      PassFormed(After(g, batches, n - 2, paths), batches[n - 2], paths);
      PassIds(g, batches, n, paths);
      NextHyperedges(g, batches, n - 1, paths);
    }
  }

  lemma {:induction false} JointHyperedges(batches: seq<Batch>, ids: set<string>, n: nat)
    requires 0 < n <= |batches|
    ensures multiset(Enter(HyperedgeLinkage(), JoinFirst(batches, n).update.hyperedges, ids)) ==
            multiset(JointAt(HyperedgeLinkage(), HyperedgeBatches(batches), ids, n))
  {
    var l := HyperedgeLinkage();
    if n > 1 {
      JointHyperedges(batches, ids, n - 1);
      CarryConcat(JoinFirst(batches, n - 1).update.hyperedges, batches[n - 1].update.hyperedges,
                  Entering(l, ids), Trimming(l, ids));
    } else {
      assert JointAt(l, HyperedgeBatches(batches), ids, 0) == [];
    }
  }

  // ---- a run compared with one joint pass ----

  /** Every edge of a batch whose endpoints are there after the whole run has them after its own pass. */
  ghost predicate EdgesInTime(batches: seq<seq<Edge>>, stages: seq<set<string>>)
    requires 0 < |batches| == |stages|
  {
    forall k, e :: 0 <= k < |batches| && e in batches[k] && LinkedEdge(e, stages[|stages| - 1]) ==>
      LinkedEdge(e, stages[k])
  }

  /** Every hyperedge of a batch that has members after the whole run has the same ones after its own
      pass. */
  ghost predicate HyperedgesInTime(batches: seq<seq<Hyperedge>>, stages: seq<set<string>>)
    requires 0 < |batches| == |stages|
  {
    var final := stages[|stages| - 1];
    forall k, h :: 0 <= k < |batches| && h in batches[k] && Retained(h.members, final) != [] ==>
      Retained(h.members, stages[k]) == Retained(h.members, final)
  }

  ghost predicate SameContents<T>(a: seq<T>, b: seq<T>) { multiset(a) == multiset(b) }

  lemma SameAfter<T>(own: seq<T>, each: seq<T>, joint: seq<T>, left: seq<T>)
    requires SameContents(joint, each)
    ensures SameContents(own + left, joint + left) <==> SameContents(own, each)
  {
    if SameContents(own + left, joint + left) {
      assert multiset(own) == multiset(own + left) - multiset(left);
      assert multiset(joint) == multiset(joint + left) - multiset(left);
    }
  }

  lemma RebuiltGraph(g: Graph)
    requires Prune(g) == g
    ensures FullyLinked(g) && AllFormed(g.hyperedges)
  {
    var ids := NodeIds(g.nodes);
    EnteredFormed(g.hyperedges, ids);
    forall e | e in g.edges ensures LinkedEdge(e, ids) {
      var d := CarrySource(g.edges, Entering(EdgeLinkage(), ids), Trimming(EdgeLinkage(), ids), e);
    }
  }

  lemma FreshEdgesInTime(batches: seq<seq<Edge>>, stages: seq<set<string>>)
    requires 0 < |batches| == |stages| && Steady(stages)
    ensures var l, n := EdgeLinkage(), |batches|;
      multiset(FreshAt(l, batches, stages, n)) == multiset(JointAt(l, batches, stages[n - 1], n)) <==>
      EdgesInTime(batches, stages)
  {
    EdgesSound();
    RunIsJoint(EdgeLinkage(), (e: Edge) => 1, batches, stages, |batches|);
    EdgesOnTime(batches, stages);
  }

  lemma EdgesOnTime(batches: seq<seq<Edge>>, stages: seq<set<string>>)
    requires 0 < |batches| == |stages|
    ensures Timely(EdgeLinkage(), batches, stages, stages[|stages| - 1], |batches|) <==> EdgesInTime(batches, stages)
  {
    var l, final := EdgeLinkage(), stages[|stages| - 1];
    if EdgesInTime(batches, stages) {
      forall k | 0 <= k < |batches| ensures AllOnTime(l, batches[k], stages[k], final) {}
    }
    if Timely(l, batches, stages, final, |batches|) {
      forall k, e | 0 <= k < |batches| && e in batches[k] && LinkedEdge(e, final) ensures LinkedEdge(e, stages[k]) {
        assert AllOnTime(l, batches[k], stages[k], final);
        assert OnTime(l, e, stages[k], final);
      }
    }
  }

  lemma FreshHyperedgesInTime(batches: seq<seq<Hyperedge>>, stages: seq<set<string>>)
    requires 0 < |batches| == |stages| && Steady(stages)
    ensures var l, n := HyperedgeLinkage(), |batches|;
      multiset(FreshAt(l, batches, stages, n)) == multiset(JointAt(l, batches, stages[n - 1], n)) <==>
      HyperedgesInTime(batches, stages)
  {
    HyperedgesSound();
    RunIsJoint(HyperedgeLinkage(), MemberCount(), batches, stages, |batches|);
    HyperedgesOnTime(batches, stages);
  }

  lemma HyperedgesOnTime(batches: seq<seq<Hyperedge>>, stages: seq<set<string>>)
    requires 0 < |batches| == |stages|
    ensures Timely(HyperedgeLinkage(), batches, stages, stages[|stages| - 1], |batches|) <==>
            HyperedgesInTime(batches, stages)
  {
    var l, final := HyperedgeLinkage(), stages[|stages| - 1];
    if HyperedgesInTime(batches, stages) {
      forall k | 0 <= k < |batches| ensures AllOnTime(l, batches[k], stages[k], final) {}
    }
    if Timely(l, batches, stages, final, |batches|) {
      forall k, h | 0 <= k < |batches| && h in batches[k] && Retained(h.members, final) != []
        ensures Retained(h.members, stages[k]) == Retained(h.members, final)
      {
        assert AllOnTime(l, batches[k], stages[k], final);
        assert OnTime(l, h, stages[k], final);
      }
    }
  }

  /** The edges of the run and of the joint pass, both with the same committed ones left. */
  ghost predicate EdgesAccounted(g: Graph, batches: seq<Batch>, paths: SourcePaths)
    requires batches != []
  {
    var l, n, stages := EdgeLinkage(), |batches|, Stages(g, batches, paths);
    After(g, batches, n, paths).edges ==
      FreshAt(l, EdgeBatches(batches), stages, n) + EdgesLeft(g, batches, n, paths) &&
    Pass(g, JoinFirst(batches, n), paths).edges ==
      Enter(l, JoinFirst(batches, n).update.edges, stages[n - 1]) + EdgesLeft(g, batches, n, paths) &&
    SameContents(Enter(l, JoinFirst(batches, n).update.edges, stages[n - 1]),
                 JointAt(l, EdgeBatches(batches), stages[n - 1], n))
  }

  lemma JoinedEdges(g: Graph, batches: seq<Batch>, paths: SourcePaths)
    requires batches != [] && FullyLinked(g)
    ensures var l, n, stages := EdgeLinkage(), |batches|, Stages(g, batches, paths);
      Pass(g, JoinFirst(batches, n), paths).edges ==
        Enter(l, JoinFirst(batches, n).update.edges, stages[n - 1]) + EdgesLeft(g, batches, n, paths) &&
      SameContents(Enter(l, JoinFirst(batches, n).update.edges, stages[n - 1]),
                   JointAt(l, EdgeBatches(batches), stages[n - 1], n))
  {
    var n, stages := |batches|, Stages(g, batches, paths);
    PassEdges(g, JoinFirst(batches, n), stages[n - 1], paths);
    JointEdges(batches, stages[n - 1], n);
  }

  lemma FinalEdges(g: Graph, batches: seq<Batch>, paths: SourcePaths)
    requires batches != [] && EdgesAccounted(g, batches, paths)
    ensures var l, n, stages := EdgeLinkage(), |batches|, Stages(g, batches, paths);
      SameContents(After(g, batches, n, paths).edges, Pass(g, JoinFirst(batches, n), paths).edges) <==>
      SameContents(FreshAt(l, EdgeBatches(batches), stages, n), JointAt(l, EdgeBatches(batches), stages[n - 1], n))
  {
    var l, n, stages := EdgeLinkage(), |batches|, Stages(g, batches, paths);
    SameAfter(FreshAt(l, EdgeBatches(batches), stages, n), JointAt(l, EdgeBatches(batches), stages[n - 1], n),
              Enter(l, JoinFirst(batches, n).update.edges, stages[n - 1]), EdgesLeft(g, batches, n, paths));
  }

  lemma ReachEdges(g: Graph, batches: seq<Batch>, paths: SourcePaths)
    requires Lawful(paths) && batches != [] && Independent(g, batches, paths) && FullyLinked(g)
    ensures var l, n, stages := EdgeLinkage(), |batches|, Stages(g, batches, paths);
      SameContents(After(g, batches, n, paths).edges, Pass(g, JoinFirst(batches, n), paths).edges) <==>
      SameContents(FreshAt(l, EdgeBatches(batches), stages, n), JointAt(l, EdgeBatches(batches), stages[n - 1], n))
  {
    RunEdges(g, batches, |batches|, paths);
    JoinedEdges(g, batches, paths);
    FinalEdges(g, batches, paths);
  }

  lemma OwnEdgesInTime(g: Graph, batches: seq<Batch>, paths: SourcePaths)
    requires Lawful(paths) && batches != [] && Independent(g, batches, paths)
    ensures var l, n, stages := EdgeLinkage(), |batches|, Stages(g, batches, paths);
      SameContents(FreshAt(l, EdgeBatches(batches), stages, n), JointAt(l, EdgeBatches(batches), stages[n - 1], n)) <==>
      EdgesInTime(EdgeBatches(batches), stages)
  {
    StagesSteady(g, batches, paths);
    FreshEdgesInTime(EdgeBatches(batches), Stages(g, batches, paths));
  }

  /** A run of passes has the edges of one joint pass exactly when no fresh edge needed a node that
      only a later batch brought. */
  lemma RunEdgesAreJoint(g: Graph, batches: seq<Batch>, paths: SourcePaths)
    requires Lawful(paths) && batches != [] && Independent(g, batches, paths) && Prune(g) == g
    ensures SameContents(After(g, batches, |batches|, paths).edges,
                         Pass(g, JoinFirst(batches, |batches|), paths).edges) <==>
            EdgesInTime(EdgeBatches(batches), Stages(g, batches, paths))
  {
    var n, stages := |batches|, Stages(g, batches, paths);
    RebuiltGraph(g);
    ReachEdges(g, batches, paths);
    OwnEdgesInTime(g, batches, paths);
  }

  /** The hyperedges of the run and of the joint pass, both with the same committed ones left. */
  ghost predicate HyperedgesAccounted(g: Graph, batches: seq<Batch>, paths: SourcePaths)
    requires batches != []
  {
    var l, n, stages := HyperedgeLinkage(), |batches|, Stages(g, batches, paths);
    After(g, batches, n, paths).hyperedges ==
      FreshAt(l, HyperedgeBatches(batches), stages, n) + HyperedgesLeft(g, batches, n, paths) &&
    Pass(g, JoinFirst(batches, n), paths).hyperedges ==
      Enter(l, JoinFirst(batches, n).update.hyperedges, stages[n - 1]) + HyperedgesLeft(g, batches, n, paths) &&
    SameContents(Enter(l, JoinFirst(batches, n).update.hyperedges, stages[n - 1]),
                 JointAt(l, HyperedgeBatches(batches), stages[n - 1], n))
  }

  lemma JoinedHyperedges(g: Graph, batches: seq<Batch>, paths: SourcePaths)
    requires batches != [] && FullyLinked(g) && AllFormed(g.hyperedges)
    ensures var l, n, stages := HyperedgeLinkage(), |batches|, Stages(g, batches, paths);
      Pass(g, JoinFirst(batches, n), paths).hyperedges ==
        Enter(l, JoinFirst(batches, n).update.hyperedges, stages[n - 1]) + HyperedgesLeft(g, batches, n, paths) &&
      SameContents(Enter(l, JoinFirst(batches, n).update.hyperedges, stages[n - 1]),
                   JointAt(l, HyperedgeBatches(batches), stages[n - 1], n))
  {
    var n, stages := |batches|, Stages(g, batches, paths);
    PassHyperedges(g, JoinFirst(batches, n), stages[n - 1], paths);
    JointHyperedges(batches, stages[n - 1], n);
  }

  lemma FinalHyperedges(g: Graph, batches: seq<Batch>, paths: SourcePaths)
    requires batches != [] && HyperedgesAccounted(g, batches, paths)
    ensures var l, n, stages := HyperedgeLinkage(), |batches|, Stages(g, batches, paths);
      SameContents(After(g, batches, n, paths).hyperedges, Pass(g, JoinFirst(batches, n), paths).hyperedges) <==>
      SameContents(FreshAt(l, HyperedgeBatches(batches), stages, n),
                   JointAt(l, HyperedgeBatches(batches), stages[n - 1], n))
  {
    var l, n, stages := HyperedgeLinkage(), |batches|, Stages(g, batches, paths);
    SameAfter(FreshAt(l, HyperedgeBatches(batches), stages, n), JointAt(l, HyperedgeBatches(batches), stages[n - 1], n),
              Enter(l, JoinFirst(batches, n).update.hyperedges, stages[n - 1]), HyperedgesLeft(g, batches, n, paths));
  }

  lemma ReachHyperedges(g: Graph, batches: seq<Batch>, paths: SourcePaths)
    requires Lawful(paths) && batches != [] && Independent(g, batches, paths)
    requires FullyLinked(g) && AllFormed(g.hyperedges)
    ensures var l, n, stages := HyperedgeLinkage(), |batches|, Stages(g, batches, paths);
      SameContents(After(g, batches, n, paths).hyperedges, Pass(g, JoinFirst(batches, n), paths).hyperedges) <==>
      SameContents(FreshAt(l, HyperedgeBatches(batches), stages, n),
                   JointAt(l, HyperedgeBatches(batches), stages[n - 1], n))
  {
    RunHyperedges(g, batches, |batches|, paths);
    JoinedHyperedges(g, batches, paths);
    FinalHyperedges(g, batches, paths);
  }

  lemma OwnHyperedgesInTime(g: Graph, batches: seq<Batch>, paths: SourcePaths)
    requires Lawful(paths) && batches != [] && Independent(g, batches, paths)
    ensures var l, n, stages := HyperedgeLinkage(), |batches|, Stages(g, batches, paths);
      SameContents(FreshAt(l, HyperedgeBatches(batches), stages, n),
                   JointAt(l, HyperedgeBatches(batches), stages[n - 1], n)) <==>
      HyperedgesInTime(HyperedgeBatches(batches), stages)
  {
    StagesSteady(g, batches, paths);
    FreshHyperedgesInTime(HyperedgeBatches(batches), Stages(g, batches, paths));
  }

  /** And its hyperedges exactly when no fresh hyperedge needed such a node or outlived one of its
      members. */
  lemma RunHyperedgesAreJoint(g: Graph, batches: seq<Batch>, paths: SourcePaths)
    requires Lawful(paths) && batches != [] && Independent(g, batches, paths) && Prune(g) == g
    ensures SameContents(After(g, batches, |batches|, paths).hyperedges,
                         Pass(g, JoinFirst(batches, |batches|), paths).hyperedges) <==>
            HyperedgesInTime(HyperedgeBatches(batches), Stages(g, batches, paths))
  {
    var n, stages := |batches|, Stages(g, batches, paths);
    RebuiltGraph(g);
    ReachHyperedges(g, batches, paths);
    OwnHyperedgesInTime(g, batches, paths);
  }

  // ---- a run that loses a link ----

  function PlainPaths(): SourcePaths {
    SourcePaths(s => if s == "" then None else Some(s), s => s)
  }

  function SourceBatch(source: Identity, nodes: seq<Node>, edges: seq<Edge>): Batch {
    Batch(Graph(nodes, edges, []), Evidence(false, {source}, {source}, {}, {}))
  }

  function AstNode(id: string, source: Identity): Node {
    Node(id, source, Some("ast"), None, None, None, "")
  }

  const LINK := Edge("p", "q", "a", Some("ast"), None, "")
  const EMPTY := Graph([], [], [])

  function CallerBatch(): Batch { SourceBatch("a", [AstNode("p", "a")], [LINK]) }

  function CalleeBatch(): Batch { SourceBatch("b", [AstNode("q", "b")], []) }

  lemma BatchesIndependent()
    ensures Lawful(PlainPaths()) && Independent(EMPTY, [CallerBatch(), CalleeBatch()], PlainPaths())
  {
    assert NodeIds(CallerBatch().update.nodes) == {"p"};
    assert NodeIds(CalleeBatch().update.nodes) == {"q"};
  }

  lemma JointPassLinks()
    ensures LINK in Pass(EMPTY, JoinFirst([CallerBatch(), CalleeBatch()], 2), PlainPaths()).edges
  {
    var batches, paths := [CallerBatch(), CalleeBatch()], PlainPaths();
    assert JoinFirst(batches, 2) == Join(JoinFirst(batches, 1), batches[1]);
    var once := Apply(EMPTY, Join(CallerBatch(), CalleeBatch()), paths);
    assert once.nodes[0].id == "p" && once.nodes[1].id == "q" && once.edges[0] == LINK;
    var ids := NodeIds(once.nodes);
    CarryMember(once.edges, Entering(EdgeLinkage(), ids), Trimming(EdgeLinkage(), ids), LINK);
  }

  lemma FirstPassUnlinks()
    ensures Pass(EMPTY, CallerBatch(), PlainPaths()).edges == []
  {
    var first := Apply(EMPTY, CallerBatch(), PlainPaths());
    assert first.edges == [LINK] && first.nodes == [AstNode("p", "a")];
    var ids := NodeIds(first.nodes);
    assert "q" !in ids;
    CarryNone(first.edges, Entering(EdgeLinkage(), ids), Trimming(EdgeLinkage(), ids));
  }

  /** Two independent passes, the first with an edge to a node that the second brings: the edge is
      gone, while a joint pass keeps it. */
  lemma ForwardLinkLost()
    ensures var batches := [CallerBatch(), CalleeBatch()];
      && Lawful(PlainPaths()) && Independent(EMPTY, batches, PlainPaths()) && Prune(EMPTY) == EMPTY
      && LINK in Pass(EMPTY, JoinFirst(batches, 2), PlainPaths()).edges
      && After(EMPTY, batches, 2, PlainPaths()).edges == []
  {
    var batches, paths := [CallerBatch(), CalleeBatch()], PlainPaths();
    BatchesIndependent();
    JointPassLinks();
    FirstPassUnlinks();
    assert After(EMPTY, batches, 0, paths) == EMPTY;
    var first := After(EMPTY, batches, 1, paths);
    assert first == Pass(EMPTY, CallerBatch(), paths);
    PassEdges(first, CalleeBatch(), NodeIds(Apply(first, CalleeBatch(), paths).nodes), paths);
    assert After(EMPTY, batches, 2, paths) == Pass(first, CalleeBatch(), paths);
  }
}
