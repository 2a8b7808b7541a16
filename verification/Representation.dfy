/** Sources whose extension is ambiguous between TypeScript code and MPEG transport streams. */
module Representation {
  import opened Wrappers
  import opened Sequences
  import opened Reconcile

  predicate IsMpegInventory(n: Node) {
    n.kind == Some("format_inventory") && n.format == Some("mpeg_transport_stream")
  }

  predicate IsCodeNode(n: Node) { !IsMpegInventory(n) && IsAstNode(n) }

  // ---- what the evidence means ----

  ghost predicate HasMpeg(nodes: seq<Node>, i: Identity, paths: SourcePaths) {
    exists n :: n in nodes && paths.identity(n.source) == Some(i) && IsMpegInventory(n)
  }

  ghost predicate HasCode(nodes: seq<Node>, i: Identity, paths: SourcePaths) {
    exists n :: n in nodes && paths.identity(n.source) == Some(i) && IsCodeNode(n)
  }

  ghost function NeedsRebuild(nodes: seq<Node>, code: set<Identity>, mpeg: set<Identity>, paths: SourcePaths)
    : set<Identity>
  {
    (set i | i in code && (HasMpeg(nodes, i, paths) || !HasCode(nodes, i, paths))) +
    (set i | i in mpeg && (!HasMpeg(nodes, i, paths) || HasCode(nodes, i, paths)))
  }

  ghost function Conflicts(nodes: seq<Node>, code: set<Identity>, mpeg: set<Identity>, paths: SourcePaths)
    : set<Identity>
  {
    (set i | i in code && HasMpeg(nodes, i, paths)) + (set i | i in mpeg && HasCode(nodes, i, paths))
  }

  /** What one node makes of its source: the inventory of a transport stream makes it a stream, even one
      an extractor wrote; any other structural node makes it code; and no other node makes it either. */
  lemma NodeRepresents(n: Node, i: Identity, paths: SourcePaths)
    requires paths.identity(n.source) == Some(i)
    ensures n.kind == Some("format_inventory") && n.format == Some("mpeg_transport_stream") ==>
              HasMpeg([n], i, paths) && !HasCode([n], i, paths)
    ensures n.kind != Some("format_inventory") || n.format != Some("mpeg_transport_stream") ==>
              !HasMpeg([n], i, paths) && (HasCode([n], i, paths) <==> IsAstNode(n))
  {
    assert n in [n];
    assert forall m :: m in [n] ==> m == n;
  }

  // ---- how it is gathered ----

  datatype Seen = Seen(mpeg: bool, code: bool)

  function Lookup(seen: map<Identity, Seen>, i: Identity): Seen {
    if i in seen then seen[i] else Seen(false, false)
  }

  /** Which representation each ambiguous source has in the committed graph. */
  method Representations(nodes: seq<Node>, code: set<Identity>, mpeg: set<Identity>, paths: SourcePaths)
    returns (seen: map<Identity, Seen>)
    ensures forall i :: i in code + mpeg ==>
              Lookup(seen, i) == Seen(HasMpeg(nodes, i, paths), HasCode(nodes, i, paths))
  {
    seen := map[];
    for k := 0 to |nodes|
      invariant forall i :: i in code + mpeg ==>
                  Lookup(seen, i) == Seen(HasMpeg(nodes[..k], i, paths), HasCode(nodes[..k], i, paths))
    {
      var n := nodes[k];
      ghost var before := seen;
      var identity := paths.identity(n.source);
      if identity.Some? && identity.value in code + mpeg {
        var entry := Lookup(seen, identity.value);
        if IsMpegInventory(n) {
          entry := entry.(mpeg := true);
        } else if IsAstNode(n) {
          entry := entry.(code := true);
        }
        seen := seen[identity.value := entry];
      }
      forall i | i in code + mpeg
        ensures Lookup(seen, i) == Seen(HasMpeg(nodes[..k + 1], i, paths), HasCode(nodes[..k + 1], i, paths))
      {
        OneMoreNode(nodes[..k], n, i, paths);
        assert nodes[..k + 1] == nodes[..k] + [n];
      }
    }
    assert nodes[..|nodes|] == nodes;
  }

  lemma OneMoreNode(nodes: seq<Node>, n: Node, i: Identity, paths: SourcePaths)
    ensures HasMpeg(nodes + [n], i, paths) <==>
              HasMpeg(nodes, i, paths) || (paths.identity(n.source) == Some(i) && IsMpegInventory(n))
    ensures HasCode(nodes + [n], i, paths) <==>
              HasCode(nodes, i, paths) || (paths.identity(n.source) == Some(i) && IsCodeNode(n))
  {
    assert forall m :: m in nodes + [n] <==> m in nodes || m == n;
  }

  /** Sources whose committed representation disagrees with the detector: those to rebuild, and
      those whose carried ownership has to be reset first. */
  method RepresentationEvidence(existing: Option<Graph>, code: set<Identity>, mpeg: set<Identity>, paths: SourcePaths)
    returns (rebuild: set<Identity>, conflicts: set<Identity>)
    ensures existing.None? ==> rebuild == code + mpeg && conflicts == {}
    ensures existing.Some? ==> rebuild == NeedsRebuild(existing.value.nodes, code, mpeg, paths)
    ensures existing.Some? ==> conflicts == Conflicts(existing.value.nodes, code, mpeg, paths)
    ensures conflicts <= rebuild
  {
    if existing.None? { return code + mpeg, {}; }
    var seen := Representations(existing.value.nodes, code, mpeg, paths);
    forall i | i in code + mpeg ensures
        Lookup(seen, i) == Seen(HasMpeg(existing.value.nodes, i, paths), HasCode(existing.value.nodes, i, paths)) {}
    rebuild := (set i | i in code && (Lookup(seen, i).mpeg || !Lookup(seen, i).code)) +
               (set i | i in mpeg && (!Lookup(seen, i).mpeg || Lookup(seen, i).code));
    conflicts := (set i | i in code && Lookup(seen, i).mpeg) + (set i | i in mpeg && Lookup(seen, i).code);
  }

  // ---- healing ----

  /** An extraction in which each ambiguous source has exactly the representation detected now. */
  ghost predicate Faithful(update: Graph, code: set<Identity>, mpeg: set<Identity>, paths: SourcePaths) {
    && (forall i :: i in code ==> HasCode(update.nodes, i, paths) && !HasMpeg(update.nodes, i, paths))
    && (forall i :: i in mpeg ==> HasMpeg(update.nodes, i, paths) && !HasCode(update.nodes, i, paths))
  }

  /** What the reconciled graph holds about a source: fresh facts, or carried ones that the committed
      graph held and that were not reset. */
  lemma ReconciledRepresentation(existing: Graph, update: Graph, ev: Evidence, i: Identity, paths: SourcePaths)
    requires Lawful(paths)
    ensures var r := ReconcileGraph(Some(existing), update, ev, paths);
            && (HasMpeg(update.nodes, i, paths) ==> HasMpeg(r.nodes, i, paths))
            && (HasCode(update.nodes, i, paths) ==> HasCode(r.nodes, i, paths))
            && (HasMpeg(r.nodes, i, paths) ==>
                  HasMpeg(update.nodes, i, paths) || (HasMpeg(existing.nodes, i, paths) && i !in ev.reset))
            && (HasCode(r.nodes, i, paths) ==>
                  HasCode(update.nodes, i, paths) || (HasCode(existing.nodes, i, paths) && i !in ev.reset))
  {
    var r := ReconcileGraph(Some(existing), update, ev, paths);
    forall n | n in r.nodes && paths.identity(n.source) == Some(i) && n !in update.nodes
      ensures exists m :: m in existing.nodes && paths.identity(m.source) == Some(i) && i !in ev.reset &&
                IsMpegInventory(m) == IsMpegInventory(n) && IsCodeNode(m) == IsCodeNode(n)
    {
      assert n in CarriedNodes(existing.nodes, update, ev, paths);
      var m := CarrySource(existing.nodes, NodeKeeper(NodeIds(update.nodes), ev, paths), NodeMover(paths), n);
      RebasedIdentity(m.source, paths);
    }
  }

  /** Conflicts heal in one pass: once the conflicting sources are reset and every ambiguous source is
      extracted as detected, the recomputed evidence is empty. */
  lemma RepresentationsHeal(existing: Graph, update: Graph, ev: Evidence, code: set<Identity>, mpeg: set<Identity>,
                            paths: SourcePaths)
    requires Lawful(paths) && code !! mpeg
    requires Conflicts(existing.nodes, code, mpeg, paths) <= ev.reset
    requires Faithful(update, code, mpeg, paths)
    ensures var r := ReconcileGraph(Some(existing), update, ev, paths);
            NeedsRebuild(r.nodes, code, mpeg, paths) == {} && Conflicts(r.nodes, code, mpeg, paths) == {}
  {
    var r := ReconcileGraph(Some(existing), update, ev, paths);
    forall i | i in code ensures HasCode(r.nodes, i, paths) && !HasMpeg(r.nodes, i, paths) {
      ReconciledRepresentation(existing, update, ev, i, paths);
      assert HasMpeg(existing.nodes, i, paths) ==> i in Conflicts(existing.nodes, code, mpeg, paths);
    }
    forall i | i in mpeg ensures HasMpeg(r.nodes, i, paths) && !HasCode(r.nodes, i, paths) {
      ReconciledRepresentation(existing, update, ev, i, paths);
      assert HasCode(existing.nodes, i, paths) ==> i in Conflicts(existing.nodes, code, mpeg, paths);
    }
  }

  // ---- failing closed ----

  datatype Kind = CodeFile | VideoFile

  /** What one pass knows after extraction: the files it targeted and skipped, whether extraction
      failed as a whole, what each file was admitted as, and what it classifies as right now. */
  datatype PassEvidence = PassEvidence(
    targets: set<Identity>, skipped: set<Identity>, extractionFailed: bool,
    admitted: map<Identity, Kind>, classified: Identity -> Option<Kind>)

  function Required(pass: PassEvidence, rebuild: set<Identity>, conflicts: set<Identity>,
                    code: set<Identity>, mpeg: set<Identity>): set<Identity>
  {
    pass.targets * (code + mpeg) + conflicts + rebuild
  }

  predicate VerifiedAs(pass: PassEvidence, i: Identity, expected: Kind) {
    i in pass.admitted && pass.admitted[i] == expected && pass.classified(i) == Some(expected)
  }

  predicate Unverified(pass: PassEvidence, i: Identity, code: set<Identity>, mpeg: set<Identity>) {
    (i in mpeg && !VerifiedAs(pass, i, VideoFile)) || (i !in mpeg && i in code && !VerifiedAs(pass, i, CodeFile))
  }

  /** The ownership resets a pass may perform, or the sources that stop it. */
  function PlanResets(pass: PassEvidence, rebuild: set<Identity>, conflicts: set<Identity>,
                      code: set<Identity>, mpeg: set<Identity>): Result<set<Identity>, set<Identity>>
  {
    var required := Required(pass, rebuild, conflicts, code, mpeg);
    if pass.extractionFailed && required != {} then Err(required)
    else
      var skipped := if pass.extractionFailed then pass.targets else pass.skipped;
      var failed := skipped * required;
      if failed != {} then Err(failed)
      else
        var unverified := set i | i in required && Unverified(pass, i, code, mpeg);
        if unverified != {} then Err(unverified) else Ok(conflicts * (pass.targets - skipped))
  }

  /** A pass that targets every conflicting source either stops without touching the graph or resets
      exactly the conflicts, having seen each required source extracted, admitted and classified as the
      representation detected for it. It stops precisely when one of them was not. */
  lemma ResetsAreVerified(pass: PassEvidence, rebuild: set<Identity>, conflicts: set<Identity>,
                          code: set<Identity>, mpeg: set<Identity>)
    requires conflicts <= pass.targets
    ensures var required := Required(pass, rebuild, conflicts, code, mpeg);
            var plan := PlanResets(pass, rebuild, conflicts, code, mpeg);
            && (plan.Ok? ==> plan.value == conflicts)
            && (plan.Ok? <==> forall i :: i in required ==>
                  !pass.extractionFailed && i !in pass.skipped &&
                  (i in mpeg ==> i in pass.admitted && pass.admitted[i] == VideoFile &&
                                 pass.classified(i) == Some(VideoFile)) &&
                  (i in code - mpeg ==> i in pass.admitted && pass.admitted[i] == CodeFile &&
                                        pass.classified(i) == Some(CodeFile)))
            && (plan.Err? ==> plan.error != {} && plan.error <= required)
  {
    var required := Required(pass, rebuild, conflicts, code, mpeg);
    var skipped := if pass.extractionFailed then pass.targets else pass.skipped;
    var unverified := set i | i in required && Unverified(pass, i, code, mpeg);
    if pass.extractionFailed && required != {} {
      var i :| i in required;
    } else if skipped * required != {} {
      var i :| i in skipped * required;
    } else if unverified != {} {
      var i :| i in unverified;
    } else {
      assert conflicts <= required;
      forall i | i in required ensures i !in unverified && i !in skipped * required {}
    }
  }
}
