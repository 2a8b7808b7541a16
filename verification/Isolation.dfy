/** How far an operation on some sources may reach, even when it or its rollback fails. */
module Isolation {
  import opened Wrappers
  import opened Knowledgebase

  function Stored(f: Files, p: Path): Option<Content> {
    if p in f then Some(f[p]) else None
  }

  /** From `f` to `g`, a path changed only in what the sources `ids` own. */
  ghost predicate PathKept(f: Files, g: Files, p: Path, ids: set<SourceId>, host: Host) {
    Stored(f, p) == Stored(g, p) ||
    match p
    case Page(id) => id in ids
    case Receipt(id, _) => id in ids
    case Policy => false
    case Bindings => true
    case Index => HasIndex(f) && HasIndex(g) && Entries(g) - ids == Entries(f) - ids
    case Assignments => RowsKept(f, g, ids, host)
  }

  /** The taxonomy was rewritten as one that still matches the policy, others' rows as they were. */
  ghost predicate RowsKept(f: Files, g: Files, ids: set<SourceId>, host: Host) {
    HasPolicy(f) && Assignments in g && g[Assignments].AssignmentsDoc? &&
    g[Assignments].policy == host.policyDigest(f[Policy].text) &&
    host.admissible(f[Policy].text, Rows(g)) && Rows(g) - ids == Rows(f) - ids
  }

  ghost predicate Kept(f: Files, g: Files, ids: set<SourceId>, host: Host) {
    forall p :: PathKept(f, g, p, ids, host)
  }

  /** Every path of `h` is as in `f` or as in `g`. */
  ghost predicate Mixes(f: Files, g: Files, h: Files) {
    forall p :: Stored(h, p) == Stored(f, p) || Stored(h, p) == Stored(g, p)
  }

  lemma SamePathKept(f: Files, g: Files, h: Files, p: Path, ids: set<SourceId>, host: Host)
    requires PathKept(f, g, p, ids, host) && Stored(g, p) == Stored(h, p)
    ensures PathKept(f, h, p, ids, host)
  {
    if p == Index && HasIndex(g) { assert HasIndex(h) && Entries(h) == Entries(g); }
    if p == Assignments { assert Rows(h) == Rows(g); }
  }

  /** Putting back some of the paths keeps what was kept. */
  lemma MixKept(f: Files, g: Files, h: Files, ids: set<SourceId>, host: Host)
    requires Kept(f, g, ids, host) && Mixes(g, f, h)
    ensures Kept(f, h, ids, host)
  {
    forall p ensures PathKept(f, h, p, ids, host) {
      if Stored(h, p) == Stored(g, p) { SamePathKept(f, g, h, p, ids, host); }
    }
  }

  lemma KeptThen(f: Files, g: Files, h: Files, first: set<SourceId>, second: set<SourceId>, host: Host)
    requires Kept(f, g, first, host) && Kept(g, h, second, host)
    ensures Kept(f, h, first + second, host)
  {
    var ids := first + second;
    assert PathKept(f, g, Policy, first, host);
    assert Stored(f, Policy) == Stored(g, Policy);
    forall p ensures PathKept(f, h, p, ids, host) {
      assert PathKept(f, g, p, first, host) && PathKept(g, h, p, second, host);
      if p == Index && Stored(f, p) != Stored(h, p) { IndexThen(f, g, h, first, second, host); }
      if p == Assignments && Stored(f, p) != Stored(h, p) { RowsThen(f, g, h, first, second, host); }
    }
  }

  lemma Widen<T, U>(a: map<T, U>, b: map<T, U>, small: set<T>, large: set<T>)
    requires a - small == b - small && small <= large
    ensures a - large == b - large
  {
    assert a - large == (a - small) - large;
    assert b - large == (b - small) - large;
  }

  lemma IndexThen(f: Files, g: Files, h: Files, first: set<SourceId>, second: set<SourceId>, host: Host)
    requires PathKept(f, g, Index, first, host) && PathKept(g, h, Index, second, host)
    ensures PathKept(f, h, Index, first + second, host)
  {
    if Stored(f, Index) != Stored(h, Index) {
      if Stored(f, Index) != Stored(g, Index) { Widen(Entries(g), Entries(f), first, first + second); }
      if Stored(g, Index) != Stored(h, Index) { Widen(Entries(h), Entries(g), second, first + second); }
    }
  }

  lemma RowsThen(f: Files, g: Files, h: Files, first: set<SourceId>, second: set<SourceId>, host: Host)
    requires Stored(f, Policy) == Stored(g, Policy)
    requires PathKept(f, g, Assignments, first, host) && PathKept(g, h, Assignments, second, host)
    ensures PathKept(f, h, Assignments, first + second, host)
  {
    if Stored(f, Assignments) != Stored(h, Assignments) {
      if Stored(f, Assignments) == Stored(g, Assignments) {
        assert Rows(f) == Rows(g);
      } else {
        Widen(Rows(g), Rows(f), first, first + second);
      }
      if Stored(g, Assignments) == Stored(h, Assignments) {
        assert Rows(g) == Rows(h);
      } else {
        Widen(Rows(h), Rows(g), second, first + second);
      }
    }
  }

  lemma OthersAgree(f: Files, g: Files, other: SourceId, ids: set<SourceId>, host: Host)
    requires Kept(f, g, ids, host) && HasIndex(f) && HasPolicy(f) && other !in ids
    ensures HasIndex(g) && HasPolicy(g) && f[Policy] == g[Policy]
    ensures other in Entries(f) <==> other in Entries(g)
    ensures other in Entries(f) ==> Entries(f)[other] == Entries(g)[other]
    ensures other in Rows(f) <==> other in Rows(g)
    ensures other in Rows(f) ==> Rows(f)[other] == Rows(g)[other]
  {
    assert PathKept(f, g, Policy, ids, host) && PathKept(f, g, Index, ids, host) &&
           PathKept(f, g, Assignments, ids, host);
    assert Stored(f, Policy) == Stored(g, Policy);
    assert Entries(f) - ids == Entries(g) - ids;
    assert Rows(f) - ids == Rows(g) - ids;
    assert other in Entries(f) <==> other in Entries(f) - ids;
    assert other in Entries(g) <==> other in Entries(g) - ids;
    assert other in Rows(f) <==> other in Rows(f) - ids;
    assert other in Rows(g) <==> other in Rows(g) - ids;
    if other in Entries(f) { assert (Entries(f) - ids)[other] == (Entries(g) - ids)[other]; }
    if other in Rows(f) { assert (Rows(f) - ids)[other] == (Rows(g) - ids)[other]; }
  }

  /** Whatever became of the operation's own sources, every other source keeps exactly the reviews
      and the backing it had. */
  lemma DamageIsLocal(f: Files, g: Files, other: SourceId, ids: set<SourceId>, host: Host)
    requires Kept(f, g, ids, host) && HasIndex(f) && HasPolicy(f)
    requires other !in ids && other in Entries(f)
    ensures HasIndex(g) && HasPolicy(g) && other in Entries(g) && Entries(g)[other] == Entries(f)[other]
    ensures forall kind :: Approved(g, other, kind, host) <==> Approved(f, other, kind, host)
    ensures StatusBacked(g, other, Entries(g)[other].status, host) <==>
            StatusBacked(f, other, Entries(f)[other].status, host)
  {
    OthersAgree(f, g, other, ids, host);
    assert PathKept(f, g, Page(other), ids, host);
    forall kind: ReviewKind ensures Approved(g, other, kind, host) <==> Approved(f, other, kind, host) {
      assert PathKept(f, g, Receipt(other, kind), ids, host);
      assert Stored(f, Receipt(other, kind)) == Stored(g, Receipt(other, kind));
      assert Stored(f, Page(other)) == Stored(g, Page(other));
      ApprovalLocal(f, g, other, kind, host);
    }
    assert Approved(g, other, Ai, host) <==> Approved(f, other, Ai, host);
    assert Approved(g, other, Human, host) <==> Approved(f, other, Human, host);
  }

  /** The source has no page, receipt, row or pointer. */
  ghost predicate Erased(f: Files, id: SourceId) {
    Page(id) !in f && Receipt(id, Ai) !in f && Receipt(id, Human) !in f &&
    id !in Rows(f) && HasIndex(f) && id !in Entries(f)
  }

  /** Erasing whole sources, by whatever steps, keeps the lifecycle invariant. */
  lemma ErasureConsistent(f: Files, g: Files, ids: set<SourceId>, host: Host)
    requires Consistent(f, host) && Kept(f, g, ids, host)
    requires HasIndex(g) && forall id :: id in ids ==> Erased(g, id)
    ensures Consistent(g, host)
  {
    assert PathKept(f, g, Policy, ids, host) && Stored(f, Policy) == Stored(g, Policy);
    assert PathKept(f, g, Assignments, ids, host);
    forall id | id in Rows(g) ensures id in Entries(g) && Rows(g)[id].content == Entries(g)[id].content {
      assert id !in ids;
      OthersAgree(f, g, id, ids, host);
    }
    if Stored(f, Assignments) == Stored(g, Assignments) { assert Rows(f) == Rows(g); }
    assert Loadable(g, host);
    forall id | id in Entries(g) ensures StatusBacked(g, id, Entries(g)[id].status, host) {
      assert id !in ids;
      OthersAgree(f, g, id, ids, host);
      DamageIsLocal(f, g, id, ids, host);
    }
  }

  // ---- half-done publications and retirements ----

  lemma PublicationStored(f: Files, id: SourceId, source: Entry, row: Row, page: string, host: Host)
    requires HasIndex(f) && HasPolicy(f)
    ensures var h := Publication(f, id, source, row, page, host);
      Stored(h, Page(id)) == Some(PageText(page)) &&
      Stored(h, Assignments) == Some(AssignmentsDoc(host.policyDigest(f[Policy].text), Rows(f)[id := row])) &&
      Stored(h, Receipt(id, Ai)) == None && Stored(h, Receipt(id, Human)) == None &&
      Stored(h, Index) == Some(IndexDoc(Entries(f)[id := source.(status := Provisional)])) &&
      forall p :: p !in PublicationPaths(id) ==> Stored(h, p) == Stored(f, p)
  {}

  /** A half-published source: only its own files, row and pointer may differ. */
  lemma PublicationMixKept(f: Files, g: Files, id: SourceId, source: Entry, row: Row, page: string, host: Host)
    requires HasIndex(f) && HasPolicy(f) && host.admissible(f[Policy].text, Rows(f)[id := row])
    requires Mixes(f, Publication(f, id, source, row, page, host), g)
    ensures Kept(f, g, {id}, host) && Agree(f, g, PublicationPaths(id))
  {
    var h := Publication(f, id, source, row, page, host);
    assert Rows(h) == Rows(f)[id := row] && Rows(h) - {id} == Rows(f) - {id};
    assert Entries(h) - {id} == Entries(f) - {id};
    forall p ensures PathKept(f, h, p, {id}, host) {}
    forall p ensures PathKept(f, g, p, {id}, host) {
      if Stored(g, p) != Stored(f, p) { SamePathKept(f, h, g, p, {id}, host); }
    }
    forall p | p !in PublicationPaths(id) ensures Stored(f, p) == Stored(g, p) {
      assert Stored(f, p) == Stored(h, p);
    }
    assert forall p :: p !in PublicationPaths(id) ==> Stored(f, p) == Stored(g, p);
    AgreeFromStored(f, g, PublicationPaths(id));
  }

  lemma AgreeFromStored(f: Files, g: Files, except: set<Path>)
    requires forall p :: p !in except ==> Stored(f, p) == Stored(g, p)
    ensures Agree(f, g, except)
  {
    forall p | p !in except ensures (p in f <==> p in g) && (p in f ==> f[p] == g[p]) {
      assert Stored(f, p) == Stored(g, p);
    }
  }

  lemma SameStored(f: Files, g: Files)
    requires forall p :: Stored(f, p) == Stored(g, p)
    ensures f == g
  {
    forall p ensures (p in f <==> p in g) && (p in f ==> f[p] == g[p]) { assert Stored(f, p) == Stored(g, p); }
  }

  lemma WithdrawnStored(f: Files, id: SourceId)
    ensures var h := Withdrawn(f, id);
      Stored(h, Page(id)) == None && Stored(h, Receipt(id, Ai)) == None && Stored(h, Receipt(id, Human)) == None &&
      (Assignments in f && f[Assignments].AssignmentsDoc? ==>
         Stored(h, Assignments) == Some(f[Assignments].(rows := Rows(f) - {id}))) &&
      forall p :: p !in {Page(id), Receipt(id, Ai), Receipt(id, Human), Assignments} ==> Stored(h, p) == Stored(f, p)
  {}

  /** Withdrawing a source's files is the first half of retiring it. */
  lemma RetirementStages(f: Files, id: SourceId, host: Host)
    requires HasIndex(f)
    ensures Mixes(f, Retirement(f, id, host), Withdrawn(f, id))
  {
    WithdrawnStored(f, id);
    var w, r := Withdrawn(f, id), Retirement(f, id, host);
    forall p ensures Stored(w, p) == Stored(f, p) || Stored(w, p) == Stored(r, p) {
      if p == Index || p == Bindings { assert Stored(w, p) == Stored(f, p); }
    }
  }

  /** What is half way to a half-way state is half way. */
  lemma MixThen(f: Files, w: Files, r: Files, g: Files)
    requires Mixes(f, r, w) && (Mixes(f, w, g) || Mixes(w, r, g))
    ensures Mixes(f, r, g)
  {
    forall p ensures Stored(g, p) == Stored(f, p) || Stored(g, p) == Stored(r, p) {
      assert Stored(w, p) == Stored(f, p) || Stored(w, p) == Stored(r, p);
      if Mixes(f, w, g) {
        assert Stored(g, p) == Stored(f, p) || Stored(g, p) == Stored(w, p);
      } else {
        assert Stored(g, p) == Stored(w, p) || Stored(g, p) == Stored(r, p);
      }
    }
  }

  function RetirementPaths(id: SourceId): set<Path> {
    {Page(id), Receipt(id, Ai), Receipt(id, Human), Assignments, Bindings, Index}
  }

  lemma PointerMixKept(f: Files, g: Files, id: SourceId, host: Host)
    requires HasIndex(f) && Mixes(f, PointerRetired(f, id, host), g)
    ensures Kept(f, g, {id}, host) && Agree(f, g, {Index, Bindings}) && Shrinks(f, g)
  {
    var h := PointerRetired(f, id, host);
    assert Entries(h) == Entries(f) - {id};
    assert Stored(g, Index) == Stored(f, Index) || Stored(g, Index) == Stored(h, Index);
    assert Stored(h, Assignments) == Stored(f, Assignments);
    assert Stored(g, Assignments) == Stored(f, Assignments);
    assert Rows(g) == Rows(f);
    forall p ensures PathKept(f, g, p, {id}, host) && (p !in {Index, Bindings} ==> Stored(f, p) == Stored(g, p)) {
      assert Stored(g, p) == Stored(f, p) || Stored(g, p) == Stored(h, p);
    }
    AgreeFromStored(f, g, {Index, Bindings});
  }

  lemma RetirementMixKept(f: Files, g: Files, id: SourceId, host: Host)
    requires CanRetire(f, id, host) && Mixes(f, Retirement(f, id, host), g)
    ensures Kept(f, g, {id}, host) && Agree(f, g, RetirementPaths(id))
  {
    var h := Retirement(f, id, host);
    assert Entries(h) == Entries(f) - {id};
    assert Rows(h) == Rows(f) - {id} by {
      if Assignments !in f { assert Rows(f) == map[] && Rows(h) == map[]; }
    }
    forall p ensures PathKept(f, h, p, {id}, host) {}
    forall p ensures PathKept(f, g, p, {id}, host) && (p !in RetirementPaths(id) ==> Stored(f, p) == Stored(g, p)) {
      assert Stored(g, p) == Stored(f, p) || Stored(g, p) == Stored(h, p);
      if Stored(g, p) != Stored(f, p) { SamePathKept(f, h, g, p, {id}, host); }
    }
    AgreeFromStored(f, g, RetirementPaths(id));
  }

  /** Nothing was added for any source. */
  ghost predicate Shrinks(f: Files, g: Files) {
    (forall id: SourceId :: Page(id) in g ==> Page(id) in f) &&
    (forall id: SourceId, kind: ReviewKind :: Receipt(id, kind) in g ==> Receipt(id, kind) in f) &&
    Rows(g).Keys <= Rows(f).Keys && HasIndex(f) && HasIndex(g) && Entries(g).Keys <= Entries(f).Keys
  }
}
