/** The guard that refuses to overwrite a graph with a smaller one nobody can account for. */
module ShrinkGuard {
  import opened Wrappers
  import opened Sequences
  import opened Reconcile

  function Slash(s: string): string {
    MapSeq(s, c => if c == '\\' then '/' else c)
  }

  function TrimDotSlash(s: string): string {
    if |s| >= 2 && s[0] == '.' && s[1] == '/' then TrimDotSlash(s[2..]) else s
  }

  function NormalizedSource(s: string): string { TrimDotSlash(Slash(s)) }

  /** Where a source field points under a given root, when that can be resolved. */
  type Resolver = string -> Option<Identity>

  predicate SourcesMatch(left: string, right: string, root: Option<Resolver>) {
    left != "" && right != "" &&
    (NormalizedSource(left) == NormalizedSource(right) ||
     (root.Some? && root.value(left) == root.value(right)))
  }

  /** Every node that disappears has no source, or a listed one. */
  predicate Accounted(existing: seq<Node>, candidateIds: set<string>, listed: set<string>, root: Option<Resolver>) {
    forall n | n in existing && n.id !in candidateIds ::
      n.source == "" || exists s | s in listed :: SourcesMatch(n.source, s, root)
  }

  predicate ShrinkAllowed(force: bool, existing: Option<Graph>, candidate: Graph, explicitDeletions: bool,
                          listed: Option<set<string>>, root: Option<Resolver>)
  {
    existing.None? || force || |candidate.nodes| >= |existing.value.nodes| ||
    (explicitDeletions && listed.None?) ||
    (listed.Some? && Accounted(existing.value.nodes, NodeIds(candidate.nodes), listed.value, root))
  }

  /** No listed source explains the loss of the node. */
  ghost predicate Unexplained(n: Node, candidate: Graph, sources: set<string>, root: Option<Resolver>) {
    n.source != "" && (forall m :: m in candidate.nodes ==> m.id != n.id) &&
    forall s :: s in sources ==> !SourcesMatch(n.source, s, root)
  }

  /** A graph is refused exactly when it is smaller than the one there is, nothing forces it, and either
      the rebuild lists no sources and was not told of deletions, or some lost node is unexplained by the
      sources it lists, whatever deletions it was told of. */
  lemma RefusedExactly(force: bool, existing: Option<Graph>, candidate: Graph, explicitDeletions: bool,
                       listed: Option<set<string>>, root: Option<Resolver>)
    ensures !ShrinkAllowed(force, existing, candidate, explicitDeletions, listed, root) <==>
            existing.Some? && !force && |candidate.nodes| < |existing.value.nodes| &&
            match listed
            case None => !explicitDeletions
            case Some(sources) => exists n :: n in existing.value.nodes && Unexplained(n, candidate, sources, root)
  {
    if existing.Some? && listed.Some? {
      forall n ensures Unexplained(n, candidate, listed.value, root) <==>
          n.id !in NodeIds(candidate.nodes) &&
          !(n.source == "" || exists s | s in listed.value :: SourcesMatch(n.source, s, root))
      {}
    }
  }

  /** Matching is mutual, and every source but the empty one matches itself; the empty one matches none. */
  lemma MatchIsMutual(left: string, right: string, root: Option<Resolver>)
    ensures SourcesMatch(left, right, root) <==> SourcesMatch(right, left, root)
    ensures SourcesMatch(left, left, root) <==> left != ""
    ensures SourcesMatch(left, right, root) ==> left != "" && right != ""
  {}

  // ---- spellings of a source ----

  /** Written with slashes and without a leading dot. */
  predicate PlainSpelling(s: string) { '\\' !in s && !(|s| >= 2 && s[0] == '.' && s[1] == '/') }

  function Dotted(s: string, dots: nat): string { if dots == 0 then s else "./" + Dotted(s, dots - 1) }

  /** Another spelling of a plain source: with some slashes turned and any number of dots in front. */
  ghost predicate Spells(left: string, s: string) {
    exists dots: nat :: |left| == |Dotted(s, dots)| &&
      forall k :: 0 <= k < |left| ==>
        left[k] == Dotted(s, dots)[k] || (left[k] == '\\' && Dotted(s, dots)[k] == '/')
  }

  lemma {:induction false} DotsTrimmed(s: string, dots: nat)
    requires PlainSpelling(s)
    ensures TrimDotSlash(Dotted(s, dots)) == s
  {
    if dots > 0 {
      assert Dotted(s, dots)[2..] == Dotted(s, dots - 1);
      DotsTrimmed(s, dots - 1);
    }
  }

  lemma {:induction false} TrimmedDots(s: string) returns (dots: nat)
    ensures s == Dotted(TrimDotSlash(s), dots) && !(|TrimDotSlash(s)| >= 2 && TrimDotSlash(s)[..2] == "./")
    decreases |s|
  {
    if |s| >= 2 && s[0] == '.' && s[1] == '/' {
      var n := TrimmedDots(s[2..]);
      dots := n + 1;
      assert s == "./" + s[2..];
    } else {
      dots := 0;
    }
  }

  lemma {:induction false} NoBackslash(s: string, dots: nat)
    requires '\\' !in s
    ensures '\\' !in Dotted(s, dots)
  {
    if dots > 0 { NoBackslash(s, dots - 1); }
  }

  /** A spelling reads as the plain source exactly when it is one of these. */
  lemma ReadsAs(left: string, s: string)
    requires PlainSpelling(s)
    ensures NormalizedSource(left) == s <==> Spells(left, s)
  {
    var slashed := Slash(left);
    if NormalizedSource(left) == s {
      var dots := TrimmedDots(slashed);
      assert Dotted(s, dots) == slashed;
    }
    if Spells(left, s) {
      var dots: nat :| |left| == |Dotted(s, dots)| && forall k :: 0 <= k < |left| ==>
        left[k] == Dotted(s, dots)[k] || (left[k] == '\\' && Dotted(s, dots)[k] == '/');
      NoBackslash(s, dots);
      forall k | 0 <= k < |left| ensures slashed[k] == Dotted(s, dots)[k] {
        assert Dotted(s, dots)[k] in Dotted(s, dots);
      }
      assert slashed == Dotted(s, dots);
      DotsTrimmed(s, dots);
    }
  }

  /** The sources a rebuild reports to the guard: what it rebuilt and what it found deleted. */
  function GuardSources(ev: Evidence, paths: SourcePaths): set<string> {
    set i | i in ev.rebuilt + ev.deleted :: paths.stored(i)
  }

  /** Stored sources resolve against the project root to the identities reconciliation uses. */
  ghost predicate ResolvesStored(paths: SourcePaths, root: Resolver, ev: Evidence) {
    && (forall s :: paths.identity(s).Some? ==> root(s) == paths.identity(s))
    && (forall i :: i in ev.rebuilt + ev.deleted ==> paths.stored(i) != "" && root(paths.stored(i)) == Some(i))
  }

  /** Reconciliation loses a node only from a deleted or rebuilt source, or one without a source. */
  lemma LossesExplained(existing: Graph, update: Graph, ev: Evidence, paths: SourcePaths, n: Node)
    requires ev.reset <= ev.rebuilt
    requires n in existing.nodes && n.id !in NodeIds(ReconcileGraph(Some(existing), update, ev, paths).nodes)
    ensures n.source == "" || In(n.source, ev.rebuilt + ev.deleted, paths)
  {
    CarriedIds(existing, update, ev, paths);
    assert !KeepNode(n, NodeIds(update.nodes), ev, paths);
  }

  /** The guard never refuses what reconciliation produces, given the rebuilt and deleted sources. */
  lemma GuardAcceptsReconciliation(force: bool, existing: Option<Graph>, update: Graph, candidate: Graph,
                                   ev: Evidence, paths: SourcePaths, deletions: bool, root: Resolver)
    requires Lawful(paths) && ResolvesStored(paths, root, ev) && ev.reset <= ev.rebuilt
    requires NodeIds(candidate.nodes) == NodeIds(ReconcileGraph(existing, update, ev, paths).nodes)
    ensures ShrinkAllowed(force, existing, candidate, deletions, Some(GuardSources(ev, paths)), Some(root))
  {
    if existing.Some? {
      var listed := GuardSources(ev, paths);
      forall n | n in existing.value.nodes && n.id !in NodeIds(candidate.nodes) && n.source != ""
        ensures exists s | s in listed :: SourcesMatch(n.source, s, Some(root))
      {
        LossesExplained(existing.value, update, ev, paths, n);
        var i := paths.identity(n.source).value;
        assert paths.stored(i) in listed;
        assert SourcesMatch(n.source, paths.stored(i), Some(root));
      }
    }
  }

  /** Sources that read the same resolve the same. */
  ghost predicate ReadsConsistently(root: Resolver) {
    forall s, t :: NormalizedSource(s) == NormalizedSource(t) ==> root(s) == root(t)
  }

  /** Conversely, when an unforced shrink is allowed every lost node had no source or a source that is
      one of the rebuilt or deleted files. */
  lemma AllowedShrinkIsExplained(existing: Graph, candidate: Graph, ev: Evidence, paths: SourcePaths,
                                 deletions: bool, root: Resolver, n: Node)
    requires ResolvesStored(paths, root, ev) && ReadsConsistently(root)
    requires ShrinkAllowed(false, Some(existing), candidate, deletions, Some(GuardSources(ev, paths)), Some(root))
    requires |candidate.nodes| < |existing.nodes|
    requires n in existing.nodes && n.id !in NodeIds(candidate.nodes) && n.source != ""
    ensures root(n.source).Some? && root(n.source).value in ev.rebuilt + ev.deleted
  {
    var listed := GuardSources(ev, paths);
    var s :| s in listed && SourcesMatch(n.source, s, Some(root));
    var i :| i in ev.rebuilt + ev.deleted && s == paths.stored(i);
    assert root(s) == Some(i);
  }

  // ---- which sources a pass may claim ----

  /** The files a pass set out to extract, less those extraction skipped. */
  method RebuiltSources(targets: seq<string>, skipped: seq<string>, identity: string -> Option<Identity>)
    returns (kept: seq<string>, rebuilt: set<Identity>)
    ensures forall t :: t in kept <==> t in targets && t !in skipped
    ensures rebuilt == set t | t in targets && t !in skipped && identity(t).Some? :: identity(t).value
  {
    kept, rebuilt := [], {};
    for k := 0 to |targets|
      invariant forall t :: t in kept <==> t in targets[..k] && t !in skipped
      invariant rebuilt == set t | t in targets[..k] && t !in skipped && identity(t).Some? :: identity(t).value
    {
      var t := targets[k];
      assert forall u :: u in targets[..k + 1] <==> u in targets[..k] || u == t;
      if t !in skipped {
        kept := kept + [t];
        if identity(t).Some? { rebuilt := rebuilt + {identity(t).value}; }
      }
    }
    assert targets[..|targets|] == targets;
  }

  /** A file that extraction skipped keeps its nodes through any allowed, unforced shrink, unless the
      same file was also rebuilt under another name or found deleted. */
  lemma SkippedFilesKeepNodes(existing: Graph, candidate: Graph, ev: Evidence, paths: SourcePaths,
                              deletions: bool, root: Resolver, targets: seq<string>, skipped: seq<string>,
                              file: string, n: Node)
    requires ResolvesStored(paths, root, ev) && ReadsConsistently(root)
    requires ev.rebuilt == set t | t in targets && t !in skipped && root(t).Some? :: root(t).value
    requires ShrinkAllowed(false, Some(existing), candidate, deletions, Some(GuardSources(ev, paths)), Some(root))
    requires |candidate.nodes| < |existing.nodes|
    requires file in skipped && root(file).Some? && root(file).value !in ev.deleted
    requires forall t :: t in targets && t !in skipped ==> root(t) != root(file)
    requires n in existing.nodes && n.source != "" && root(n.source) == root(file)
    ensures n.id in NodeIds(candidate.nodes)
  {
    if n.id !in NodeIds(candidate.nodes) {
      AllowedShrinkIsExplained(existing, candidate, ev, paths, deletions, root, n);
    }
  }
}
