/** Reconciling changes in several passes compared with reconciling them at once. */
module ReconcileBatches {
  import opened Wrappers
  import opened Sequences
  import opened Reconcile

  /** One pass: what was extracted, and what it is evidence for. */
  datatype Batch = Batch(update: Graph, ev: Evidence)

  function Touched(ev: Evidence): set<Identity> { ev.rebuilt + ev.deleted + ev.reset }

  function JoinGraphs(a: Graph, b: Graph): Graph {
    Graph(a.nodes + b.nodes, a.edges + b.edges, a.hyperedges + b.hyperedges)
  }

  /** Both batches in one pass, in the current corpus of the later one. */
  function Join(a: Batch, b: Batch): Batch {
    Batch(JoinGraphs(a.update, b.update),
          Evidence(false, b.ev.current, a.ev.rebuilt + b.ev.rebuilt,
                   a.ev.deleted + b.ev.deleted, a.ev.reset + b.ev.reset))
  }

  function Apply(g: Graph, b: Batch, paths: SourcePaths): Graph {
    ReconcileGraph(Some(g), b.update, b.ev, paths)
  }

  // ---- equivalence up to order and dangling links ----

  predicate LinkedEdge(e: Edge, ids: set<string>) { e.tail in ids && e.head in ids }

  predicate LinkedHyperedge(h: Hyperedge, ids: set<string>) { forall m | m in h.members :: m in ids }

  function EdgeLinker(ids: set<string>): Edge -> bool { e => LinkedEdge(e, ids) }

  function HyperedgeLinker(ids: set<string>): Hyperedge -> bool { h => LinkedHyperedge(h, ids) }

  function LinkedEdges(g: Graph): seq<Edge> {
    Carry(g.edges, EdgeLinker(NodeIds(g.nodes)), Same())
  }

  function LinkedHyperedges(g: Graph): seq<Hyperedge> {
    Carry(g.hyperedges, HyperedgeLinker(NodeIds(g.nodes)), Same())
  }

  /** The same nodes, and the same edges and hyperedges once dangling ones are dropped. */
  ghost predicate Equivalent(a: Graph, b: Graph) {
    && multiset(a.nodes) == multiset(b.nodes)
    && multiset(LinkedEdges(a)) == multiset(LinkedEdges(b))
    && multiset(LinkedHyperedges(a)) == multiset(LinkedHyperedges(b))
  }

  ghost predicate FullyLinked(g: Graph) {
    && (forall e :: e in g.edges ==> LinkedEdge(e, NodeIds(g.nodes)))
    && (forall h :: h in g.hyperedges ==> LinkedHyperedge(h, NodeIds(g.nodes)))
  }

  // ---- hypotheses ----

  /** Unsourced, or owned by a rebuilt source and already in stored form. */
  ghost predicate Settled(source: string, ev: Evidence, paths: SourcePaths) {
    paths.identity(source).Some? ==> paths.identity(source).value in ev.rebuilt && Rebased(source, paths) == source
  }

  ghost predicate Owned(b: Batch, paths: SourcePaths) {
    && (forall n :: n in b.update.nodes ==> Settled(n.source, b.ev, paths))
    && (forall e :: e in b.update.edges ==> Settled(e.source, b.ev, paths))
    && (forall h :: h in b.update.hyperedges && h.source.Some? ==> Settled(h.source.value, b.ev, paths))
  }

  predicate Incremental(b: Batch) { !b.ev.fullRebuild && b.ev.current != {} }

  /** The two batches concern different sources, node identities and hyperedge identities, and no
      node the later batch brings has its committed version in a source of the earlier one. */
  ghost predicate Separate(g: Graph, a: Batch, b: Batch, paths: SourcePaths) {
    && Touched(a.ev) !! Touched(b.ev)
    && NodeIds(a.update.nodes) !! NodeIds(b.update.nodes)
    && HyperedgeIds(a.update.hyperedges) !! HyperedgeIds(b.update.hyperedges)
    && (forall n :: n in g.nodes && n.id in NodeIds(b.update.nodes) ==> !In(n.source, Touched(a.ev), paths))
  }

  // ---- nodes ----

  lemma JoinedIds(a: Graph, b: Graph)
    ensures NodeIds((JoinGraphs(a, b)).nodes) == NodeIds(a.nodes) + NodeIds(b.nodes)
    ensures HyperedgeIds((JoinGraphs(a, b)).hyperedges) == HyperedgeIds(a.hyperedges) + HyperedgeIds(b.hyperedges)
  {}

  lemma FreshNodesKept(a: Batch, b: Batch, n: Node, paths: SourcePaths)
    requires Incremental(b) && Touched(a.ev) !! Touched(b.ev)
    requires NodeIds(a.update.nodes) !! NodeIds(b.update.nodes)
    requires n in a.update.nodes && Settled(n.source, a.ev, paths)
    ensures KeepNode(n, NodeIds(b.update.nodes), b.ev, paths) && RebaseNode(n, paths) == n
  {
    assert n.id in NodeIds(a.update.nodes);
  }

  lemma CommittedNodeTwice(a: Batch, b: Batch, n: Node, paths: SourcePaths)
    requires Lawful(paths) && Incremental(a) && Incremental(b)
    ensures var twice := KeepNode(n, NodeIds(a.update.nodes), a.ev, paths) &&
                         KeepNode(RebaseNode(n, paths), NodeIds(b.update.nodes), b.ev, paths);
            twice == KeepNode(n, NodeIds(Join(a, b).update.nodes), Join(a, b).ev, paths)
    ensures RebaseNode(RebaseNode(n, paths), paths) == RebaseNode(n, paths)
  {
    RebasedIdentity(n.source, paths);
    JoinedIds(a.update, b.update);
  }

  lemma FreshNodesCarried(a: Batch, b: Batch, paths: SourcePaths)
    requires Incremental(b) && Touched(a.ev) !! Touched(b.ev) && Owned(a, paths)
    requires NodeIds(a.update.nodes) !! NodeIds(b.update.nodes)
    ensures CarriedNodes(a.update.nodes, b.update, b.ev, paths) == a.update.nodes
  {
    var idsB := NodeIds(b.update.nodes);
    forall n | n in a.update.nodes ensures KeepNode(n, idsB, b.ev, paths) && RebaseNode(n, paths) == n {
      FreshNodesKept(a, b, n, paths);
    }
    CarryAll(a.update.nodes, NodeKeeper(idsB, b.ev, paths), NodeMover(paths));
  }

  lemma NodeKeepersCompose(a: Batch, b: Batch, n: Node, paths: SourcePaths)
    requires Lawful(paths) && Incremental(a) && Incremental(b)
    ensures Both(NodeKeeper(NodeIds(a.update.nodes), a.ev, paths), NodeMover(paths),
                 NodeKeeper(NodeIds(b.update.nodes), b.ev, paths))(n)
         == NodeKeeper(NodeIds(Join(a, b).update.nodes), Join(a, b).ev, paths)(n)
    ensures Then(NodeMover(paths), NodeMover(paths))(n) == NodeMover(paths)(n)
  {
    CommittedNodeTwice(a, b, n, paths);
  }

  lemma CommittedNodesCarried(nodes: seq<Node>, a: Batch, b: Batch, paths: SourcePaths)
    requires Lawful(paths) && Incremental(a) && Incremental(b)
    ensures CarriedNodes(CarriedNodes(nodes, a.update, a.ev, paths), b.update, b.ev, paths)
         == CarriedNodes(nodes, Join(a, b).update, Join(a, b).ev, paths)
  {
    forall n { NodeKeepersCompose(a, b, n, paths); }
    CarryJoint(nodes, NodeKeeper(NodeIds(a.update.nodes), a.ev, paths),
               NodeKeeper(NodeIds(b.update.nodes), b.ev, paths),
               NodeKeeper(NodeIds(Join(a, b).update.nodes), Join(a, b).ev, paths), NodeMover(paths));
  }

  lemma SameNodes(g: Graph, a: Batch, b: Batch, paths: SourcePaths)
    requires Lawful(paths) && Incremental(a) && Incremental(b) && Owned(a, paths)
    requires Touched(a.ev) !! Touched(b.ev) && NodeIds(a.update.nodes) !! NodeIds(b.update.nodes)
    ensures multiset(Apply(Apply(g, a, paths), b, paths).nodes) == multiset(Apply(g, Join(a, b), paths).nodes)
  {
    var carriedA := CarriedNodes(g.nodes, a.update, a.ev, paths);
    var idsB := NodeIds(b.update.nodes);
    CarryConcat(a.update.nodes, carriedA, NodeKeeper(idsB, b.ev, paths), NodeMover(paths));
    FreshNodesCarried(a, b, paths);
    CommittedNodesCarried(g.nodes, a, b, paths);
    var carriedAB := CarriedNodes(g.nodes, Join(a, b).update, Join(a, b).ev, paths);
    assert Apply(Apply(g, a, paths), b, paths).nodes == b.update.nodes + (a.update.nodes + carriedAB);
    assert Apply(g, Join(a, b), paths).nodes == (a.update.nodes + b.update.nodes) + carriedAB;
  }

  lemma SameIds(a: seq<Node>, b: seq<Node>)
    requires multiset(a) == multiset(b)
    ensures NodeIds(a) == NodeIds(b)
  {
    forall n: Node ensures n in a <==> n in b { assert n in a <==> n in multiset(a); }
  }

  lemma {:induction false} CarryAll<A>(s: seq<A>, keep: A -> bool, move: A -> A)
    requires forall x :: x in s ==> keep(x) && move(x) == x
    ensures Carry(s, keep, move) == s
    decreases |s|
  {
    if s != [] {
      assert s[0] in s;
      forall x | x in s[1..] ensures x in s {}
      CarryAll(s[1..], keep, move);
    }
  }

  // ---- edges ----

  /** A node of the joint result that the first pass does not have was brought by the second. */
  lemma EarlyIds(g: Graph, a: Batch, b: Batch, id: string, paths: SourcePaths)
    requires Lawful(paths) && Incremental(a) && Incremental(b) && Separate(g, a, b, paths)
    requires id in NodeIds(Apply(g, Join(a, b), paths).nodes) && id in NodeIds(g.nodes)
    ensures id in NodeIds(Apply(g, a, paths).nodes)
  {
    CarriedIds(g, Join(a, b).update, Join(a, b).ev, paths);
    CarriedIds(g, a.update, a.ev, paths);
    JoinedIds(a.update, b.update);
    if id !in NodeIds(a.update.nodes) {
      if id in NodeIds(b.update.nodes) {
        var n :| n in g.nodes && n.id == id;
        assert KeepNode(n, NodeIds(a.update.nodes), a.ev, paths);
      } else {
        var n :| n in g.nodes && KeepNode(n, NodeIds(Join(a, b).update.nodes), Join(a, b).ev, paths) && n.id == id;
        CommittedNodeTwice(a, b, n, paths);
      }
    }
  }

  lemma CommittedEdgeTwice(a: Batch, b: Batch, e: Edge, idsA: set<string>, ids: set<string>, paths: SourcePaths)
    requires Lawful(paths)
    requires LinkedEdge(e, ids) ==> LinkedEdge(e, idsA)
    ensures (KeepEdge(e, idsA, a.ev, paths) && KeepEdge(RebaseEdge(e, paths), ids, b.ev, paths))
         == KeepEdge(e, ids, Join(a, b).ev, paths)
    ensures RebaseEdge(RebaseEdge(e, paths), paths) == RebaseEdge(e, paths)
  {
    RebasedIdentity(e.source, paths);
  }

  /** After the second pass, the linked edges are those of both extractions and the committed ones
      that neither batch removes. */
  lemma LinkedAfterOne(g: Graph, c: Batch, paths: SourcePaths)
    ensures var r := Apply(g, c, paths);
            var ids := NodeIds(r.nodes);
            LinkedEdges(r) == Carry(c.update.edges, EdgeLinker(ids), Same()) +
                              CarriedEdges(g.edges, ids, c.ev, paths)
  {
    var r := Apply(g, c, paths);
    var ids := NodeIds(r.nodes);
    var carried := CarriedEdges(g.edges, ids, c.ev, paths);
    var linked, same := EdgeLinker(ids), Same<Edge>();
    CarryConcat(c.update.edges, carried, linked, same);
    forall e | e in carried ensures linked(e) {
      var d := CarrySource(g.edges, EdgeKeeper(ids, c.ev, paths), EdgeMover(paths), e);
    }
    CarryAll(carried, linked, same);
  }

  lemma FreshEdgesCarried(edges: seq<Edge>, a: Batch, b: Batch, ids: set<string>, paths: SourcePaths)
    requires Touched(a.ev) !! Touched(b.ev) && forall e :: e in edges ==> Settled(e.source, a.ev, paths)
    ensures CarriedEdges(edges, ids, b.ev, paths) == Carry(edges, EdgeLinker(ids), Same())
  {
    CarrySame(edges, EdgeKeeper(ids, b.ev, paths), EdgeMover(paths),
              EdgeLinker(ids), Same());
  }

  lemma CommittedEdgesCarried(edges: seq<Edge>, a: Batch, b: Batch, idsA: set<string>, ids: set<string>,
                              paths: SourcePaths)
    requires Lawful(paths)
    requires forall e :: e in edges ==> LinkedEdge(e, ids) ==> LinkedEdge(e, idsA)
    ensures CarriedEdges(CarriedEdges(edges, idsA, a.ev, paths), ids, b.ev, paths)
         == CarriedEdges(edges, ids, Join(a, b).ev, paths)
  {
    var keepA, keepB, keepAB := EdgeKeeper(idsA, a.ev, paths), EdgeKeeper(ids, b.ev, paths),
                                EdgeKeeper(ids, Join(a, b).ev, paths);
    var move := EdgeMover(paths);
    forall e | e in edges ensures Both(keepA, move, keepB)(e) == keepAB(e) && Then(move, move)(e) == move(e) {
      CommittedEdgeTwice(a, b, e, idsA, ids, paths);
    }
    CarryJoint(edges, keepA, keepB, keepAB, move);
  }

  lemma SameEdges(g: Graph, a: Batch, b: Batch, paths: SourcePaths)
    requires Lawful(paths) && Incremental(a) && Incremental(b) && Owned(a, paths)
    requires Separate(g, a, b, paths) && FullyLinked(g)
    ensures multiset(LinkedEdges(Apply(Apply(g, a, paths), b, paths)))
         == multiset(LinkedEdges(Apply(g, Join(a, b), paths)))
  {
    var first := Apply(g, a, paths);
    var idsA := NodeIds(first.nodes);
    var ids := NodeIds(Apply(g, Join(a, b), paths).nodes);
    SameNodes(g, a, b, paths);
    SameIds(Apply(first, b, paths).nodes, Apply(g, Join(a, b), paths).nodes);
    LinkedAfterOne(first, b, paths);
    LinkedAfterOne(g, Join(a, b), paths);
    var linked, same := EdgeLinker(ids), Same<Edge>();
    CarryConcat(a.update.edges, b.update.edges, linked, same);
    CarryConcat(a.update.edges, CarriedEdges(g.edges, idsA, a.ev, paths),
                EdgeKeeper(ids, b.ev, paths), EdgeMover(paths));
    FreshEdgesCarried(a.update.edges, a, b, ids, paths);
    forall e | e in g.edges && LinkedEdge(e, ids) ensures LinkedEdge(e, idsA) {
      EarlyIds(g, a, b, e.tail, paths);
      EarlyIds(g, a, b, e.head, paths);
    }
    CommittedEdgesCarried(g.edges, a, b, idsA, ids, paths);
    var x, y, z := Carry(a.update.edges, linked, same), Carry(b.update.edges, linked, same),
                   CarriedEdges(g.edges, ids, Join(a, b).ev, paths);
    assert LinkedEdges(Apply(first, b, paths)) == y + (x + z);
    assert LinkedEdges(Apply(g, Join(a, b), paths)) == (x + y) + z;
  }

  // ---- hyperedges ----

  lemma CommittedHyperedgeTwice(a: Batch, b: Batch, h: Hyperedge, idsA: set<string>, ids: set<string>,
                                paths: SourcePaths)
    requires Lawful(paths)
    requires LinkedHyperedge(h, ids) ==> LinkedHyperedge(h, idsA)
    ensures (KeepHyperedge(h, idsA, HyperedgeIds(a.update.hyperedges), a.ev, paths) &&
             KeepHyperedge(RebaseHyperedge(h, paths), ids, HyperedgeIds(b.update.hyperedges), b.ev, paths))
         == KeepHyperedge(h, ids, HyperedgeIds(Join(a, b).update.hyperedges), Join(a, b).ev, paths)
    ensures RebaseHyperedge(RebaseHyperedge(h, paths), paths) == RebaseHyperedge(h, paths)
  {
    JoinedIds(a.update, b.update);
    if h.source.Some? { RebasedIdentity(h.source.value, paths); }
  }

  lemma LinkedHyperedgesAfterOne(g: Graph, c: Batch, paths: SourcePaths)
    ensures var r := Apply(g, c, paths);
            var ids := NodeIds(r.nodes);
            LinkedHyperedges(r) == Carry(c.update.hyperedges, HyperedgeLinker(ids), Same()) +
                                   CarriedHyperedges(g.hyperedges, ids, c.update, c.ev, paths)
  {
    var r := Apply(g, c, paths);
    var ids := NodeIds(r.nodes);
    var carried := CarriedHyperedges(g.hyperedges, ids, c.update, c.ev, paths);
    CarryConcat(c.update.hyperedges, carried, HyperedgeLinker(ids), Same());
    forall h | h in carried ensures HyperedgeLinker(ids)(h) {
      var d := CarrySource(g.hyperedges, HyperedgeKeeper(ids, HyperedgeIds(c.update.hyperedges), c.ev, paths),
                           HyperedgeMover(paths), h);
    }
    CarryAll(carried, HyperedgeLinker(ids), Same());
  }

  lemma FreshHyperedgesCarried(a: Batch, b: Batch, ids: set<string>, paths: SourcePaths)
    requires Touched(a.ev) !! Touched(b.ev) && Owned(a, paths)
    requires HyperedgeIds(a.update.hyperedges) !! HyperedgeIds(b.update.hyperedges)
    ensures CarriedHyperedges(a.update.hyperedges, ids, b.update, b.ev, paths)
         == Carry(a.update.hyperedges, HyperedgeLinker(ids), Same())
  {
    var freshIds := HyperedgeIds(b.update.hyperedges);
    forall h | h in a.update.hyperedges
      ensures HyperedgeKeeper(ids, freshIds, b.ev, paths)(h) == HyperedgeLinker(ids)(h)
      ensures HyperedgeMover(paths)(h) == h
    {
      if h.id.Some? { assert h.id.value in HyperedgeIds(a.update.hyperedges); }
    }
    CarrySame(a.update.hyperedges, HyperedgeKeeper(ids, freshIds, b.ev, paths), HyperedgeMover(paths),
              HyperedgeLinker(ids), Same<Hyperedge>());
  }

  lemma CommittedHyperedgesCarried(hyperedges: seq<Hyperedge>, a: Batch, b: Batch, idsA: set<string>,
                                   ids: set<string>, paths: SourcePaths)
    requires Lawful(paths)
    requires forall h :: h in hyperedges && LinkedHyperedge(h, ids) ==> LinkedHyperedge(h, idsA)
    ensures CarriedHyperedges(CarriedHyperedges(hyperedges, idsA, a.update, a.ev, paths), ids, b.update, b.ev, paths)
         == CarriedHyperedges(hyperedges, ids, Join(a, b).update, Join(a, b).ev, paths)
  {
    var keepA := HyperedgeKeeper(idsA, HyperedgeIds(a.update.hyperedges), a.ev, paths);
    var keepB := HyperedgeKeeper(ids, HyperedgeIds(b.update.hyperedges), b.ev, paths);
    var keepAB := HyperedgeKeeper(ids, HyperedgeIds(Join(a, b).update.hyperedges), Join(a, b).ev, paths);
    var move := HyperedgeMover(paths);
    forall h | h in hyperedges
      ensures Both(keepA, move, keepB)(h) == keepAB(h) && Then(move, move)(h) == move(h)
    {
      CommittedHyperedgeTwice(a, b, h, idsA, ids, paths);
    }
    CarryJoint(hyperedges, keepA, keepB, keepAB, move);
  }

  lemma SameHyperedges(g: Graph, a: Batch, b: Batch, paths: SourcePaths)
    requires Lawful(paths) && Incremental(a) && Incremental(b) && Owned(a, paths)
    requires Separate(g, a, b, paths) && FullyLinked(g)
    ensures multiset(LinkedHyperedges(Apply(Apply(g, a, paths), b, paths)))
         == multiset(LinkedHyperedges(Apply(g, Join(a, b), paths)))
  {
    var first := Apply(g, a, paths);
    var idsA := NodeIds(first.nodes);
    var ids := NodeIds(Apply(g, Join(a, b), paths).nodes);
    SameNodes(g, a, b, paths);
    SameIds(Apply(first, b, paths).nodes, Apply(g, Join(a, b), paths).nodes);
    LinkedHyperedgesAfterOne(first, b, paths);
    LinkedHyperedgesAfterOne(g, Join(a, b), paths);
    var linked, same := HyperedgeLinker(ids), Same<Hyperedge>();
    CarryConcat(a.update.hyperedges, b.update.hyperedges, linked, same);
    CarryConcat(a.update.hyperedges, CarriedHyperedges(g.hyperedges, idsA, a.update, a.ev, paths),
                HyperedgeKeeper(ids, HyperedgeIds(b.update.hyperedges), b.ev, paths), HyperedgeMover(paths));
    FreshHyperedgesCarried(a, b, ids, paths);
    forall h | h in g.hyperedges && LinkedHyperedge(h, ids) ensures LinkedHyperedge(h, idsA) {
      forall m | m in h.members ensures m in idsA { EarlyIds(g, a, b, m, paths); }
    }
    CommittedHyperedgesCarried(g.hyperedges, a, b, idsA, ids, paths);
    var x, y, z := Carry(a.update.hyperedges, linked, same), Carry(b.update.hyperedges, linked, same),
                   CarriedHyperedges(g.hyperedges, ids, Join(a, b).update, Join(a, b).ev, paths);
    assert LinkedHyperedges(Apply(first, b, paths)) == y + (x + z);
    assert LinkedHyperedges(Apply(g, Join(a, b), paths)) == (x + y) + z;
  }

  // ---- two passes ----

  /** Batching does not matter: reconciling one batch and then another gives the same nodes, and
      the same linked edges and hyperedges, as reconciling both at once. */
  lemma TwoPassesAreOne(g: Graph, a: Batch, b: Batch, paths: SourcePaths)
    requires Lawful(paths) && Incremental(a) && Incremental(b) && Owned(a, paths)
    requires Separate(g, a, b, paths) && FullyLinked(g)
    ensures Equivalent(Apply(Apply(g, a, paths), b, paths), Apply(g, Join(a, b), paths))
  {
    SameNodes(g, a, b, paths);
    SameEdges(g, a, b, paths);
    SameHyperedges(g, a, b, paths);
  }
}
