/** Tier-aware merging of a fresh extraction with the committed graph. */
module Reconcile {
  import opened Wrappers
  import opened Sequences

  /** A source file's absolute identity. */
  type Identity = string

  datatype Node = Node(
    id: string, source: string, origin: Option<string>, location: Option<string>,
    kind: Option<string>, format: Option<string>, payload: string)

  datatype Edge = Edge(
    tail: string, head: string, source: string, origin: Option<string>, location: Option<string>,
    payload: string)

  datatype Hyperedge = Hyperedge(
    id: Option<string>, source: Option<string>, members: seq<string>, payload: string)

  datatype Graph = Graph(nodes: seq<Node>, edges: seq<Edge>, hyperedges: seq<Hyperedge>)

  /** Resolution of stored source fields: `identity` finds the file a field names, if any;
      `stored` is the portable field written for a file. */
  datatype SourcePaths = SourcePaths(identity: string -> Option<Identity>, stored: Identity -> string)

  datatype Evidence = Evidence(
    fullRebuild: bool, current: set<Identity>, rebuilt: set<Identity>,
    deleted: set<Identity>, reset: set<Identity>)

  // ---- tiers ----

  function OriginIsStructural(origin: string): Option<bool> {
    if origin in {"semantic", "enrichment"} then Some(false)
    else if origin in {"ast", "fallback", "terraform", "sql", "dotnet", "scip", "diagram", "pdf", "document_package"}
    then Some(true)
    else None
  }

  predicate AstLocation(location: Option<string>) {
    location.Some? && |location.value| >= 2 && location.value[0] == 'L' && '0' <= location.value[1] <= '9'
  }

  predicate Structural(origin: Option<string>, location: Option<string>) {
    var known := if origin.Some? then OriginIsStructural(origin.value) else None;
    if known.Some? then known.value else AstLocation(location)
  }

  predicate IsAstNode(n: Node) { Structural(n.origin, n.location) }

  predicate IsAstEdge(e: Edge) { Structural(e.origin, e.location) }

  // ---- selection and rebasing ----

  predicate In(source: string, identities: set<Identity>, paths: SourcePaths) {
    paths.identity(source).Some? && paths.identity(source).value in identities
  }

  function Rebased(source: string, paths: SourcePaths): string {
    if paths.identity(source).Some? then paths.stored(paths.identity(source).value) else source
  }

  function RebaseNode(n: Node, paths: SourcePaths): Node { n.(source := Rebased(n.source, paths)) }

  function RebaseEdge(e: Edge, paths: SourcePaths): Edge { e.(source := Rebased(e.source, paths)) }

  function RebaseHyperedge(h: Hyperedge, paths: SourcePaths): Hyperedge {
    if h.source.Some? then h.(source := Some(Rebased(h.source.value, paths))) else h
  }

  function NodeIds(nodes: seq<Node>): set<string> { set n | n in nodes :: n.id }

  function HyperedgeIds(hyperedges: seq<Hyperedge>): set<string> {
    set h | h in hyperedges && h.id.Some? :: h.id.value
  }

  predicate Dropped(source: string, ev: Evidence, paths: SourcePaths) {
    In(source, ev.deleted, paths) || In(source, ev.reset, paths)
  }

  predicate KeepNode(n: Node, freshIds: set<string>, ev: Evidence, paths: SourcePaths) {
    n.id !in freshIds && !Dropped(n.source, ev, paths) &&
    if In(n.source, ev.rebuilt, paths) then !IsAstNode(n)
    else !(IsAstNode(n) && (ev.fullRebuild || ev.current == {}) && n.source == "")
  }

  predicate KeepEdge(e: Edge, ids: set<string>, ev: Evidence, paths: SourcePaths) {
    e.tail in ids && e.head in ids && !Dropped(e.source, ev, paths) &&
    !(IsAstEdge(e) && In(e.source, ev.rebuilt, paths))
  }

  predicate KeepHyperedge(h: Hyperedge, ids: set<string>, freshIds: set<string>, ev: Evidence, paths: SourcePaths) {
    (h.id.None? || h.id.value !in freshIds) && (h.source.None? || !Dropped(h.source.value, ev, paths)) &&
    forall m | m in h.members :: m in ids
  }

  function NodeKeeper(freshIds: set<string>, ev: Evidence, paths: SourcePaths): Node -> bool {
    n => KeepNode(n, freshIds, ev, paths)
  }

  function EdgeKeeper(ids: set<string>, ev: Evidence, paths: SourcePaths): Edge -> bool {
    e => KeepEdge(e, ids, ev, paths)
  }

  function HyperedgeKeeper(ids: set<string>, freshIds: set<string>, ev: Evidence, paths: SourcePaths)
    : Hyperedge -> bool
  {
    h => KeepHyperedge(h, ids, freshIds, ev, paths)
  }

  function NodeMover(paths: SourcePaths): Node -> Node { n => RebaseNode(n, paths) }

  function EdgeMover(paths: SourcePaths): Edge -> Edge { e => RebaseEdge(e, paths) }

  function HyperedgeMover(paths: SourcePaths): Hyperedge -> Hyperedge { h => RebaseHyperedge(h, paths) }

  function CarriedNodes(nodes: seq<Node>, update: Graph, ev: Evidence, paths: SourcePaths): seq<Node> {
    Carry(nodes, NodeKeeper(NodeIds(update.nodes), ev, paths), NodeMover(paths))
  }

  function CarriedEdges(edges: seq<Edge>, ids: set<string>, ev: Evidence, paths: SourcePaths): seq<Edge> {
    Carry(edges, EdgeKeeper(ids, ev, paths), EdgeMover(paths))
  }

  function CarriedHyperedges(hyperedges: seq<Hyperedge>, ids: set<string>, update: Graph, ev: Evidence,
                             paths: SourcePaths): seq<Hyperedge>
  {
    Carry(hyperedges, HyperedgeKeeper(ids, HyperedgeIds(update.hyperedges), ev, paths), HyperedgeMover(paths))
  }

  function ReconcileGraph(existing: Option<Graph>, update: Graph, ev: Evidence, paths: SourcePaths): Graph {
    if existing.None? then update
    else
      var nodes := update.nodes + CarriedNodes(existing.value.nodes, update, ev, paths);
      var ids := NodeIds(nodes);
      Graph(nodes,
            update.edges + CarriedEdges(existing.value.edges, ids, ev, paths),
            update.hyperedges + CarriedHyperedges(existing.value.hyperedges, ids, update, ev, paths))
  }

  /** An empty source names no file; storing an identity and resolving it names the same file. */
  ghost predicate Lawful(paths: SourcePaths) {
    paths.identity("").None? &&
    forall s :: paths.identity(s).Some? ==>
      paths.identity(paths.stored(paths.identity(s).value)) == paths.identity(s)
  }

  // ---- what is carried ----

  lemma RebasedIdentity(source: string, paths: SourcePaths)
    requires Lawful(paths)
    ensures paths.identity(Rebased(source, paths)) == paths.identity(source)
    ensures Rebased(Rebased(source, paths), paths) == Rebased(source, paths)
  {}

  lemma CarriedIds(existing: Graph, update: Graph, ev: Evidence, paths: SourcePaths)
    ensures NodeIds(ReconcileGraph(Some(existing), update, ev, paths).nodes) ==
            NodeIds(update.nodes) +
            set n | n in existing.nodes && KeepNode(n, NodeIds(update.nodes), ev, paths) :: n.id
  {
    var nodes := ReconcileGraph(Some(existing), update, ev, paths).nodes;
    var carried := CarriedNodes(existing.nodes, update, ev, paths);
    forall n | n in existing.nodes && KeepNode(n, NodeIds(update.nodes), ev, paths) ensures n.id in NodeIds(nodes) {
      CarryMember(existing.nodes, NodeKeeper(NodeIds(update.nodes), ev, paths), NodeMover(paths), n);
      assert RebaseNode(n, paths) in nodes;
    }
    forall n | n in carried
      ensures exists m :: m in existing.nodes && KeepNode(m, NodeIds(update.nodes), ev, paths) && m.id == n.id
    {
      var m := CarrySource(existing.nodes, NodeKeeper(NodeIds(update.nodes), ev, paths), NodeMover(paths), n);
    }
    forall n | n in update.nodes ensures n in nodes {}
  }

  /** Reconciliation is closed: fresh facts are all kept, in place; every carried edge and hyperedge
      connects nodes of the result; nothing carried belongs to a deleted or reset source, and no
      carried structural fact to a rebuilt one. */
  lemma ReconcileCloses(existing: Graph, update: Graph, ev: Evidence, paths: SourcePaths)
    requires Lawful(paths)
    ensures var r := ReconcileGraph(Some(existing), update, ev, paths);
            var ids := NodeIds(r.nodes);
            && update.nodes <= r.nodes && update.edges <= r.edges && update.hyperedges <= r.hyperedges
            && (forall n | n in r.nodes[|update.nodes|..] ::
                  n.id !in NodeIds(update.nodes) && !Dropped(n.source, ev, paths) &&
                  !(IsAstNode(n) && In(n.source, ev.rebuilt, paths)))
            && (forall e | e in r.edges[|update.edges|..] ::
                  e.tail in ids && e.head in ids && !Dropped(e.source, ev, paths) &&
                  !(IsAstEdge(e) && In(e.source, ev.rebuilt, paths)))
            && (forall h | h in r.hyperedges[|update.hyperedges|..] ::
                  (forall m | m in h.members :: m in ids) &&
                  (h.source.Some? ==> !Dropped(h.source.value, ev, paths)))
  {
    var r := ReconcileGraph(Some(existing), update, ev, paths);
    var ids := NodeIds(r.nodes);
    forall n | n in r.nodes[|update.nodes|..]
      ensures n.id !in NodeIds(update.nodes) && !Dropped(n.source, ev, paths) &&
              !(IsAstNode(n) && In(n.source, ev.rebuilt, paths))
    {
      var m := CarrySource(existing.nodes, NodeKeeper(NodeIds(update.nodes), ev, paths), NodeMover(paths), n);
      RebasedIdentity(m.source, paths);
    }
    forall e | e in r.edges[|update.edges|..]
      ensures e.tail in ids && e.head in ids && !Dropped(e.source, ev, paths) &&
              !(IsAstEdge(e) && In(e.source, ev.rebuilt, paths))
    {
      var d := CarrySource(existing.edges, EdgeKeeper(ids, ev, paths), EdgeMover(paths), e);
      RebasedIdentity(d.source, paths);
    }
    forall h | h in r.hyperedges[|update.hyperedges|..]
      ensures (forall m | m in h.members :: m in ids) && (h.source.Some? ==> !Dropped(h.source.value, ev, paths))
    {
      var g := CarrySource(existing.hyperedges, HyperedgeKeeper(ids, HyperedgeIds(update.hyperedges), ev, paths),
                           HyperedgeMover(paths), h);
      if g.source.Some? { RebasedIdentity(g.source.value, paths); }
    }
  }

  /** Semantic knowledge survives a rebuild: a non-structural node is lost only when its source was
      deleted or reset, or when a fresh node takes its identity. */
  lemma SemanticNodesSurvive(existing: Graph, update: Graph, ev: Evidence, paths: SourcePaths, n: Node)
    requires n in existing.nodes && !IsAstNode(n)
    ensures Dropped(n.source, ev, paths) || n.id in NodeIds(update.nodes) ||
            RebaseNode(n, paths) in ReconcileGraph(Some(existing), update, ev, paths).nodes
  {
    if !Dropped(n.source, ev, paths) && n.id !in NodeIds(update.nodes) {
      CarryMember(existing.nodes, NodeKeeper(NodeIds(update.nodes), ev, paths), NodeMover(paths), n);
    }
  }

  /** What becomes of a carried source field: the portable one of the file it names, if it names one. */
  predicate MovedSource(before: string, after: string, paths: SourcePaths) {
    match paths.identity(before)
    case Some(file) => after == paths.stored(file)
    case None => after == before
  }

  ghost predicate NodeStays(n: Node, r: Graph, paths: SourcePaths) {
    exists m :: m in r.nodes && m == n.(source := m.source) && MovedSource(n.source, m.source, paths)
  }

  ghost predicate EdgeStays(e: Edge, r: Graph, paths: SourcePaths) {
    exists f :: f in r.edges && f == e.(source := f.source) && MovedSource(e.source, f.source, paths)
  }

  ghost predicate HyperedgeStays(h: Hyperedge, r: Graph, paths: SourcePaths) {
    exists k :: k in r.hyperedges && k == h.(source := k.source) && (k.source.Some? <==> h.source.Some?) &&
      (h.source.Some? && k.source.Some? ==> MovedSource(h.source.value, k.source.value, paths))
  }

  /** The ways a committed node is lost: a fresh node takes its identity, its source was deleted or reset,
      it is a structural fact of a rebuilt source, or one without a source when everything is rebuilt. */
  lemma NodesSurvive(existing: Graph, update: Graph, ev: Evidence, paths: SourcePaths, n: Node)
    requires n in existing.nodes
    ensures var r := ReconcileGraph(Some(existing), update, ev, paths);
            || NodeStays(n, r, paths)
            || (exists m :: m in update.nodes && m.id == n.id)
            || In(n.source, ev.deleted, paths) || In(n.source, ev.reset, paths)
            || (IsAstNode(n) && In(n.source, ev.rebuilt, paths))
            || (IsAstNode(n) && n.source == "" && (ev.fullRebuild || ev.current == {}))
  {
    var r := ReconcileGraph(Some(existing), update, ev, paths);
    if KeepNode(n, NodeIds(update.nodes), ev, paths) {
      CarryMember(existing.nodes, NodeKeeper(NodeIds(update.nodes), ev, paths), NodeMover(paths), n);
      assert RebaseNode(n, paths) in r.nodes;
    }
  }

  /** The ways a committed edge is lost: an end is missing from the result, its source was deleted or
      reset, or it is a structural fact of a rebuilt source. */
  lemma EdgesSurvive(existing: Graph, update: Graph, ev: Evidence, paths: SourcePaths, e: Edge)
    requires e in existing.edges
    ensures var r := ReconcileGraph(Some(existing), update, ev, paths);
            || EdgeStays(e, r, paths)
            || e.tail !in NodeIds(r.nodes) || e.head !in NodeIds(r.nodes)
            || In(e.source, ev.deleted, paths) || In(e.source, ev.reset, paths)
            || (IsAstEdge(e) && In(e.source, ev.rebuilt, paths))
  {
    var r := ReconcileGraph(Some(existing), update, ev, paths);
    var ids := NodeIds(r.nodes);
    if KeepEdge(e, ids, ev, paths) {
      CarryMember(existing.edges, EdgeKeeper(ids, ev, paths), EdgeMover(paths), e);
      assert RebaseEdge(e, paths) in r.edges;
    }
  }

  /** The ways a committed hyperedge is lost: a member is missing from the result, a fresh hyperedge takes
      its identity, or its source was deleted or reset. */
  lemma HyperedgesSurvive(existing: Graph, update: Graph, ev: Evidence, paths: SourcePaths, h: Hyperedge)
    requires h in existing.hyperedges
    ensures var r := ReconcileGraph(Some(existing), update, ev, paths);
            || HyperedgeStays(h, r, paths)
            || (exists m :: m in h.members && m !in NodeIds(r.nodes))
            || (h.id.Some? && exists k :: k in update.hyperedges && k.id == h.id)
            || (h.source.Some? && (In(h.source.value, ev.deleted, paths) || In(h.source.value, ev.reset, paths)))
  {
    var r := ReconcileGraph(Some(existing), update, ev, paths);
    var ids, freshIds := NodeIds(r.nodes), HyperedgeIds(update.hyperedges);
    if KeepHyperedge(h, ids, freshIds, ev, paths) {
      CarryMember(existing.hyperedges, HyperedgeKeeper(ids, freshIds, ev, paths), HyperedgeMover(paths), h);
      assert RebaseHyperedge(h, paths) in r.hyperedges;
    }
  }

  predicate ByExtractor(origin: string) {
    origin in {"ast", "fallback", "terraform", "sql", "dotnet", "scip", "diagram", "pdf", "document_package"}
  }

  /** Knowledge a model added to an edge or node is never structural, whatever its location says; what an
      extractor wrote always is; anything else is when its location is a line number. */
  lemma TiersAre(origin: string, location: Option<string>)
    ensures origin in {"semantic", "enrichment"} ==> !Structural(Some(origin), location)
    ensures ByExtractor(origin) ==> Structural(Some(origin), location)
    ensures origin !in {"semantic", "enrichment"} && !ByExtractor(origin) ==>
              Structural(Some(origin), location) == Structural(None, location)
    ensures forall digit: char, rest: string ::
              Structural(None, Some("L" + [digit] + rest)) <==> '0' <= digit <= '9'
    ensures !Structural(None, None) && !Structural(None, Some("")) && !Structural(None, Some("L"))
    ensures forall other: string :: other != "" && other[0] != 'L' ==> !Structural(None, Some(other))
  {}

  // ---- idempotence ----

  lemma CarriedNodesSettled(existing: Graph, update: Graph, ev: Evidence, paths: SourcePaths)
    requires Lawful(paths)
    ensures CarriedNodes(ReconcileGraph(Some(existing), update, ev, paths).nodes, update, ev, paths)
         == CarriedNodes(existing.nodes, update, ev, paths)
  {
    var freshIds := NodeIds(update.nodes);
    var keep, move := NodeKeeper(freshIds, ev, paths), NodeMover(paths);
    CarryConcat(update.nodes, CarriedNodes(existing.nodes, update, ev, paths), keep, move);
    CarryNone(update.nodes, keep, move);
    forall n ensures keep(n) ==> keep(move(n)) && move(move(n)) == move(n) {
      RebasedIdentity(n.source, paths);
    }
    CarryAgain(existing.nodes, keep, move);
  }

  lemma CarriedHyperedgesSettled(hyperedges: seq<Hyperedge>, ids: set<string>, update: Graph,
                                 ev: Evidence, paths: SourcePaths)
    requires Lawful(paths)
    ensures var carried := CarriedHyperedges(hyperedges, ids, update, ev, paths);
            CarriedHyperedges(carried, ids, update, ev, paths) == carried
  {
    var freshIds := HyperedgeIds(update.hyperedges);
    var keep, move := HyperedgeKeeper(ids, freshIds, ev, paths), HyperedgeMover(paths);
    forall h ensures keep(h) ==> keep(move(h)) && move(move(h)) == move(h) {
      if h.source.Some? { RebasedIdentity(h.source.value, paths); }
    }
    CarryAgain(hyperedges, keep, move);
  }

  lemma CarriedEdgesSettled(edges: seq<Edge>, ids: set<string>, ev: Evidence, paths: SourcePaths)
    requires Lawful(paths)
    ensures var carried := CarriedEdges(edges, ids, ev, paths);
            CarriedEdges(carried, ids, ev, paths) == carried
  {
    var keep, move := EdgeKeeper(ids, ev, paths), EdgeMover(paths);
    forall e ensures keep(e) ==> keep(move(e)) && move(move(e)) == move(e) {
      RebasedIdentity(e.source, paths);
    }
    CarryAgain(edges, keep, move);
  }

  /** No fresh edge or hyperedge would itself be carried over: each is dangling, dropped, or a
      structural fact of a rebuilt source, and each hyperedge that could be carried has an identity. */
  ghost predicate Replaced(update: Graph, ids: set<string>, ev: Evidence, paths: SourcePaths) {
    && (forall e :: e in update.edges ==> !KeepEdge(e, ids, ev, paths))
    && (forall h :: h in update.hyperedges ==>
          !KeepHyperedge(h, ids, HyperedgeIds(update.hyperedges), ev, paths))
  }

  lemma {:induction false} CarryEmpty<A, B>(s: seq<A>, keep: A -> bool, move: A -> B)
    requires Carry(s, keep, move) == []
    ensures forall x :: x in s ==> !keep(x)
  {
    forall x | x in s ensures !keep(x) {
      if keep(x) { CarryMember(s, keep, move, x); }
    }
  }

  /** Reconciling a result again with the same evidence changes nothing, exactly when every fresh
      edge and hyperedge would be replaced rather than carried. */
  lemma ReconcileIdempotent(existing: Graph, update: Graph, ev: Evidence, paths: SourcePaths)
    requires Lawful(paths)
    ensures var r := ReconcileGraph(Some(existing), update, ev, paths);
            ReconcileGraph(Some(r), update, ev, paths) == r <==> Replaced(update, NodeIds(r.nodes), ev, paths)
  {
    var r := ReconcileGraph(Some(existing), update, ev, paths);
    var again := ReconcileGraph(Some(r), update, ev, paths);
    CarriedNodesSettled(existing, update, ev, paths);
    assert again.nodes == r.nodes;
    var ids := NodeIds(r.nodes);
    EdgesAgain(existing.edges, update.edges, ids, ev, paths);
    HyperedgesAgain(existing.hyperedges, update, ids, ev, paths);
    SameTailAfter(update.edges, CarriedEdges(r.edges, ids, ev, paths), CarriedEdges(existing.edges, ids, ev, paths));
    SameTailAfter(update.hyperedges, CarriedHyperedges(r.hyperedges, ids, update, ev, paths),
                  CarriedHyperedges(existing.hyperedges, ids, update, ev, paths));
  }

  lemma SameTailAfter<T>(head: seq<T>, a: seq<T>, b: seq<T>)
    ensures head + a == head + b <==> a == b
  {
    assert a == (head + a)[|head|..] && b == (head + b)[|head|..];
  }

  lemma EdgesAgain(existing: seq<Edge>, update: seq<Edge>, ids: set<string>, ev: Evidence, paths: SourcePaths)
    requires Lawful(paths)
    ensures CarriedEdges(update + CarriedEdges(existing, ids, ev, paths), ids, ev, paths) ==
              CarriedEdges(existing, ids, ev, paths) <==>
            forall e :: e in update ==> !KeepEdge(e, ids, ev, paths)
  {
    var keep, move := EdgeKeeper(ids, ev, paths), EdgeMover(paths);
    var carried := CarriedEdges(existing, ids, ev, paths);
    CarryConcat(update, carried, keep, move);
    CarriedEdgesSettled(existing, ids, ev, paths);
    var extra := Carry(update, keep, move);
    assert extra + carried == carried <==> extra == [] by {
      if extra + carried == carried { assert |extra| == 0; }
    }
    if extra == [] { CarryEmpty(update, keep, move); }
    if forall e :: e in update ==> !KeepEdge(e, ids, ev, paths) { CarryNone(update, keep, move); }
  }

  lemma HyperedgesAgain(existing: seq<Hyperedge>, update: Graph, ids: set<string>, ev: Evidence, paths: SourcePaths)
    requires Lawful(paths)
    ensures CarriedHyperedges(update.hyperedges + CarriedHyperedges(existing, ids, update, ev, paths),
                              ids, update, ev, paths) == CarriedHyperedges(existing, ids, update, ev, paths) <==>
            forall h :: h in update.hyperedges ==>
              !KeepHyperedge(h, ids, HyperedgeIds(update.hyperedges), ev, paths)
  {
    var freshIds := HyperedgeIds(update.hyperedges);
    var keep, move := HyperedgeKeeper(ids, freshIds, ev, paths), HyperedgeMover(paths);
    var carried := CarriedHyperedges(existing, ids, update, ev, paths);
    CarryConcat(update.hyperedges, carried, keep, move);
    CarriedHyperedgesSettled(existing, ids, update, ev, paths);
    var extra := Carry(update.hyperedges, keep, move);
    assert extra + carried == carried <==> extra == [] by {
      if extra + carried == carried { assert |extra| == 0; }
    }
    if extra == [] { CarryEmpty(update.hyperedges, keep, move); }
    if forall h :: h in update.hyperedges ==> !KeepHyperedge(h, ids, freshIds, ev, paths) {
      CarryNone(update.hyperedges, keep, move);
    }
  }

  /** The ordinary case: every fresh edge is a structural fact of a rebuilt source and every fresh
      hyperedge has an identity, so reconciliation is idempotent. */
  lemma StructuralUpdateReplaced(update: Graph, ids: set<string>, ev: Evidence, paths: SourcePaths)
    requires forall e :: e in update.edges ==> IsAstEdge(e) && In(e.source, ev.rebuilt, paths)
    requires forall h :: h in update.hyperedges ==> h.id.Some?
    ensures Replaced(update, ids, ev, paths)
  {
    forall h | h in update.hyperedges
      ensures !KeepHyperedge(h, ids, HyperedgeIds(update.hyperedges), ev, paths)
    {
      assert h.id.value in HyperedgeIds(update.hyperedges);
    }
  }
}
