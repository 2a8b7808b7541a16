/** The files of a direct-source knowledgebase, and what it means for them to be consistent. */
module Knowledgebase {
  import opened Wrappers

  type SourceId = string
  type Digest = string

  datatype Status = Provisional | AiReviewed | HumanConfirmed | StaleError

  datatype Entry = Entry(location: string, content: Digest, bytes: nat, status: Status)

  /** One source's classification, bound to the content it was made for. */
  datatype Row = Row(content: Digest, classification: string, pages: seq<string>)

  datatype ReviewKind = Ai | Human

  datatype Reviewer = Model(digest: Digest) | Person

  datatype Attestation = Attestation(
    source: SourceId, content: Digest, page: Digest, policy: Digest, assignment: Digest,
    reviewer: Reviewer, approved: bool, at: string)

  datatype Path =
    | Page(id: SourceId)
    | Receipt(id: SourceId, kind: ReviewKind)
    | Assignments
    | Index
    | Bindings
    | Policy

  /** What a well-formed file parses to. */
  datatype Content =
    | PageText(text: string)
    | ReceiptDoc(attestation: Attestation)
    | AssignmentsDoc(policy: Digest, rows: map<SourceId, Row>)
    | IndexDoc(entries: map<SourceId, Entry>)
    | BindingsDoc(text: string)
    | PolicyDoc(text: string)

  type Files = map<Path, Content>

  /** Digests, the taxonomy's own checks, and the bindings still needed by the remaining entries
      (none when nothing changes). An assignment digest depends on the policy and one row only. */
  datatype Host = Host(
    pageDigest: string -> Digest,
    policyDigest: string -> Digest,
    assignmentDigest: (Digest, SourceId, Row) -> Digest,
    admissible: (string, map<SourceId, Row>) -> bool,
    retainBindings: (string, map<SourceId, Entry>) -> Option<string>)

  predicate HasIndex(f: Files) { Index in f && f[Index].IndexDoc? }

  function Entries(f: Files): map<SourceId, Entry>
    requires HasIndex(f)
  {
    f[Index].entries
  }

  predicate HasPolicy(f: Files) { Policy in f && f[Policy].PolicyDoc? }

  function Rows(f: Files): map<SourceId, Row> {
    if Assignments in f && f[Assignments].AssignmentsDoc? then f[Assignments].rows else map[]
  }

  /** Every row names an indexed source at its current content. */
  predicate AssignedCurrent(rows: map<SourceId, Row>, entries: map<SourceId, Entry>) {
    forall id | id in rows :: id in entries && rows[id].content == entries[id].content
  }

  /** The taxonomy can be loaded: policy, index and assignments parse and agree. */
  predicate Loadable(f: Files, host: Host) {
    HasIndex(f) && HasPolicy(f) &&
    (Assignments in f ==>
       f[Assignments].AssignmentsDoc? && f[Assignments].policy == host.policyDigest(f[Policy].text)) &&
    AssignedCurrent(Rows(f), Entries(f)) && host.admissible(f[Policy].text, Rows(f))
  }

  predicate ReviewerOf(a: Attestation, kind: ReviewKind) {
    match kind
    case Ai => a.reviewer.Model?
    case Human => a.reviewer.Person?
  }

  /** The attestation approves the source exactly as it stands: content, page, policy, assignment. */
  predicate Attests(f: Files, id: SourceId, a: Attestation, host: Host)
    requires HasIndex(f) && HasPolicy(f)
  {
    a.source == id && a.approved && id in Entries(f) && a.content == Entries(f)[id].content &&
    Page(id) in f && f[Page(id)].PageText? && a.page == host.pageDigest(f[Page(id)].text) &&
    a.policy == host.policyDigest(f[Policy].text) &&
    id in Rows(f) && Rows(f)[id].content == a.content &&
    a.assignment == host.assignmentDigest(a.policy, id, Rows(f)[id])
  }

  predicate Approved(f: Files, id: SourceId, kind: ReviewKind, host: Host)
    requires HasIndex(f) && HasPolicy(f)
  {
    Receipt(id, kind) in f && f[Receipt(id, kind)].ReceiptDoc? &&
    ReviewerOf(f[Receipt(id, kind)].attestation, kind) &&
    Attests(f, id, f[Receipt(id, kind)].attestation, host)
  }

  predicate StatusBacked(f: Files, id: SourceId, status: Status, host: Host)
    requires HasIndex(f) && HasPolicy(f)
  {
    match status
    case AiReviewed => Approved(f, id, Ai, host)
    case HumanConfirmed => Approved(f, id, Ai, host) && Approved(f, id, Human, host)
    case _ => true
  }

  /** The lifecycle invariant: the taxonomy loads, and every reviewed status is backed by receipts
      that approve the source as it stands. */
  ghost predicate Consistent(f: Files, host: Host) {
    Loadable(f, host) &&
    forall id :: id in Entries(f) ==> StatusBacked(f, id, Entries(f)[id].status, host)
  }

  /** The files agree everywhere outside `except`. */
  ghost predicate Agree(f: Files, g: Files, except: set<Path>) {
    forall p :: p !in except ==> (p in f <==> p in g) && (p in f ==> f[p] == g[p])
  }

  // ---- what each operation is meant to do ----

  function PublicationPaths(id: SourceId): set<Path> {
    {Page(id), Assignments, Receipt(id, Ai), Receipt(id, Human), Index}
  }

  /** The row and entry may replace the current ones of this source. */
  predicate CanPublish(f: Files, id: SourceId, expected: Entry, source: Entry, row: Row, host: Host) {
    Loadable(f, host) && id in Entries(f) && Entries(f)[id] == expected &&
    row.content == source.content && host.admissible(f[Policy].text, Rows(f)[id := row])
  }

  /** Page and row of a source replaced, its reviews withdrawn, its pointer provisional. */
  function Publication(f: Files, id: SourceId, source: Entry, row: Row, page: string, host: Host): Files
    requires HasIndex(f) && HasPolicy(f)
  {
    (f - {Receipt(id, Ai), Receipt(id, Human)})
      [Page(id) := PageText(page)]
      [Assignments := AssignmentsDoc(host.policyDigest(f[Policy].text), Rows(f)[id := row])]
      [Index := IndexDoc(Entries(f)[id := source.(status := Provisional)])]
  }

  predicate CanRetire(f: Files, id: SourceId, host: Host) {
    HasIndex(f) && id in Entries(f) &&
    (Assignments in f ==> Loadable(f, host) && host.admissible(f[Policy].text, Rows(f) - {id}))
  }

  function RetainedBindings(f: Files, id: SourceId, host: Host): Option<string>
    requires HasIndex(f)
  {
    if Bindings in f && f[Bindings].BindingsDoc?
    then host.retainBindings(f[Bindings].text, Entries(f) - {id}) else None
  }

  /** The pointer removed, and the bindings no remaining pointer needs. */
  function PointerRetired(f: Files, id: SourceId, host: Host): Files
    requires HasIndex(f)
  {
    var unindexed := f[Index := IndexDoc(Entries(f) - {id})];
    match RetainedBindings(f, id, host)
    case Some(text) => unindexed[Bindings := BindingsDoc(text)]
    case None => unindexed
  }

  /** Page, receipts and row removed. */
  function Withdrawn(f: Files, id: SourceId): Files {
    var bare := f - {Page(id), Receipt(id, Ai), Receipt(id, Human)};
    if Assignments in f && f[Assignments].AssignmentsDoc?
    then bare[Assignments := f[Assignments].(rows := Rows(f) - {id})] else bare
  }

  /** Everything a source owns removed: page, receipts, row, pointer, bindings only it used. */
  function Retirement(f: Files, id: SourceId, host: Host): Files
    requires HasIndex(f)
  {
    PointerRetired(Withdrawn(f, id), id, host)
  }

  function Attested(f: Files, id: SourceId, reviewer: Reviewer, at: string, host: Host): Attestation
    requires HasIndex(f) && HasPolicy(f) && id in Entries(f) && id in Rows(f)
    requires Page(id) in f && f[Page(id)].PageText?
  {
    var policy := host.policyDigest(f[Policy].text);
    Attestation(id, Entries(f)[id].content, host.pageDigest(f[Page(id)].text), policy,
                host.assignmentDigest(policy, id, Rows(f)[id]), reviewer, true, at)
  }

  function KindOf(reviewer: Reviewer): ReviewKind { if reviewer.Model? then Ai else Human }

  predicate CanReview(f: Files, id: SourceId, reviewer: Reviewer, host: Host) {
    Loadable(f, host) && id in Entries(f) && id in Rows(f) && Page(id) in f && f[Page(id)].PageText? &&
    (reviewer.Person? ==> Entries(f)[id].status.AiReviewed?)
  }

  function ReviewedEntries(f: Files, id: SourceId, reviewer: Reviewer): map<SourceId, Entry>
    requires HasIndex(f) && id in Entries(f)
  {
    Entries(f)[id := Entries(f)[id].(status := if reviewer.Model? then AiReviewed else HumanConfirmed)]
  }

  /** A receipt for the source as it stands, and the status it earns. */
  function Review(f: Files, id: SourceId, reviewer: Reviewer, at: string, host: Host): Files
    requires CanReview(f, id, reviewer, host)
  {
    ReceiptOnly(f, id, reviewer, at, host)[Index := IndexDoc(ReviewedEntries(f, id, reviewer))]
  }

  /** The receipt without the status, and the status without the receipt. */
  function ReceiptOnly(f: Files, id: SourceId, reviewer: Reviewer, at: string, host: Host): Files
    requires CanReview(f, id, reviewer, host)
  {
    f[Receipt(id, KindOf(reviewer)) := ReceiptDoc(Attested(f, id, reviewer, at, host))]
  }

  function StatusOnly(f: Files, id: SourceId, reviewer: Reviewer): Files
    requires HasIndex(f) && id in Entries(f)
  {
    f[Index := IndexDoc(ReviewedEntries(f, id, reviewer))]
  }

  /** A pointer replaced in the index only. */
  function Repoint(f: Files, id: SourceId, entry: Entry): Files
    requires HasIndex(f)
  {
    f[Index := IndexDoc(Entries(f)[id := entry])]
  }

  // ---- what an approval is ----

  /** The receipt a review of the source as it stands would write. */
  ghost predicate IsReceiptOf(f: Files, id: SourceId, kind: ReviewKind, reviewer: Reviewer, at: string, host: Host)
    requires HasIndex(f) && HasPolicy(f) && id in Entries(f) && id in Rows(f)
    requires Page(id) in f && f[Page(id)].PageText?
  {
    KindOf(reviewer) == kind && Receipt(id, kind) in f &&
    f[Receipt(id, kind)] == ReceiptDoc(Attested(f, id, reviewer, at, host))
  }

  /** A source is approved exactly when its receipt is the one that a review of it as it stands, by a
      reviewer of that kind, would write. */
  lemma ApprovedMeans(f: Files, id: SourceId, kind: ReviewKind, host: Host)
    requires HasIndex(f) && HasPolicy(f)
    ensures Approved(f, id, kind, host) <==>
            id in Entries(f) && id in Rows(f) && Rows(f)[id].content == Entries(f)[id].content &&
            Page(id) in f && f[Page(id)].PageText? &&
            exists reviewer, at :: IsReceiptOf(f, id, kind, reviewer, at, host)
  {
    if Approved(f, id, kind, host) {
      var a := f[Receipt(id, kind)].attestation;
      assert IsReceiptOf(f, id, kind, a.reviewer, a.at, host);
    }
  }

  /** A source that is retired leaves the bindings that the remaining pointers need, or those there were if
      that changes nothing. */
  lemma RetiredBindings(f: Files, id: SourceId, host: Host)
    requires HasIndex(f) && Bindings in f && f[Bindings].BindingsDoc?
    ensures var g := Retirement(f, id, host);
      HasIndex(g) && Entries(g) == Entries(f) - {id} && Bindings in g &&
      g[Bindings] == match host.retainBindings(f[Bindings].text, Entries(g))
                     case Some(text) => BindingsDoc(text)
                     case None => f[Bindings]
  {}

  // ---- the invariant over operations ----

  /** What one source's review depends on is the same in both states. */
  lemma ApprovalLocal(f: Files, g: Files, id: SourceId, kind: ReviewKind, host: Host)
    requires HasIndex(f) && HasPolicy(f) && HasIndex(g) && HasPolicy(g)
    requires f[Policy] == g[Policy]
    requires id in Entries(f) && id in Entries(g) && Entries(f)[id].content == Entries(g)[id].content
    requires (Page(id) in f <==> Page(id) in g) && (Page(id) in f ==> f[Page(id)] == g[Page(id)])
    requires (id in Rows(f) <==> id in Rows(g)) && (id in Rows(f) ==> Rows(f)[id] == Rows(g)[id])
    requires var r := Receipt(id, kind); (r in f <==> r in g) && (r in f ==> f[r] == g[r])
    ensures Approved(f, id, kind, host) <==> Approved(g, id, kind, host)
  {}

  lemma PublicationConsistent(
    f: Files, id: SourceId, expected: Entry, source: Entry, row: Row, page: string, host: Host)
    requires Consistent(f, host) && CanPublish(f, id, expected, source, row, host)
    ensures Consistent(Publication(f, id, source, row, page, host), host)
  {
    var g := Publication(f, id, source, row, page, host);
    assert Rows(g) == Rows(f)[id := row];
    forall other | other in Entries(g) ensures StatusBacked(g, other, Entries(g)[other].status, host) {
      if other != id {
        ApprovalLocal(f, g, other, Ai, host);
        ApprovalLocal(f, g, other, Human, host);
        assert StatusBacked(f, other, Entries(f)[other].status, host);
      }
    }
  }

  lemma RetirementConsistent(f: Files, id: SourceId, host: Host)
    requires Consistent(f, host) && CanRetire(f, id, host)
    ensures Consistent(Retirement(f, id, host), host)
  {
    var g := Retirement(f, id, host);
    assert Entries(g) == Entries(f) - {id};
    assert Rows(g) == Rows(f) - {id} by {
      if Assignments !in f { assert Rows(f) == map[] && Rows(g) == map[]; }
    }
    forall other | other in Entries(g) ensures StatusBacked(g, other, Entries(g)[other].status, host) {
      ApprovalLocal(f, g, other, Ai, host);
      ApprovalLocal(f, g, other, Human, host);
      assert StatusBacked(f, other, Entries(f)[other].status, host);
    }
  }

  lemma ReviewConsistent(f: Files, id: SourceId, reviewer: Reviewer, at: string, host: Host)
    requires Consistent(f, host) && CanReview(f, id, reviewer, host)
    ensures Consistent(Review(f, id, reviewer, at, host), host)
  {
    var g := Review(f, id, reviewer, at, host);
    assert Rows(g) == Rows(f);
    assert Approved(g, id, KindOf(reviewer), host);
    forall other | other in Entries(g) ensures StatusBacked(g, other, Entries(g)[other].status, host) {
      if other != id {
        ApprovalLocal(f, g, other, Ai, host);
        ApprovalLocal(f, g, other, Human, host);
        assert StatusBacked(f, other, Entries(f)[other].status, host);
      } else if reviewer.Person? {
        ApprovalLocal(f, g, id, Ai, host);
        assert StatusBacked(f, id, AiReviewed, host);
      }
    }
  }

  /** Repointing keeps the invariant when the content stays and the status stays or goes stale. */
  lemma RepointConsistent(f: Files, id: SourceId, entry: Entry, host: Host)
    requires Consistent(f, host) && id in Entries(f) && entry.content == Entries(f)[id].content
    requires entry.status == Entries(f)[id].status || entry.status.StaleError?
    ensures Consistent(Repoint(f, id, entry), host)
  {
    var g := Repoint(f, id, entry);
    assert Rows(g) == Rows(f);
    forall other | other in Entries(g) ensures StatusBacked(g, other, Entries(g)[other].status, host) {
      ApprovalLocal(f, g, other, Ai, host);
      ApprovalLocal(f, g, other, Human, host);
      assert StatusBacked(f, other, Entries(f)[other].status, host);
    }
  }

  /** A receipt written on its own approves the current state and takes nothing away. */
  lemma ReceiptOnlyConsistent(f: Files, id: SourceId, reviewer: Reviewer, at: string, host: Host)
    requires Consistent(f, host) && CanReview(f, id, reviewer, host)
    ensures Consistent(ReceiptOnly(f, id, reviewer, at, host), host)
  {
    var kind := KindOf(reviewer);
    var g := ReceiptOnly(f, id, reviewer, at, host);
    assert Rows(g) == Rows(f);
    assert Approved(g, id, kind, host);
    forall other | other in Entries(g) ensures StatusBacked(g, other, Entries(g)[other].status, host) {
      if other != id {
        ApprovalLocal(f, g, other, Ai, host);
        ApprovalLocal(f, g, other, Human, host);
      } else {
        ApprovalLocal(f, g, id, if kind == Ai then Human else Ai, host);
      }
      assert StatusBacked(f, other, Entries(f)[other].status, host);
    }
  }

  /** An index that records the review without its receipt keeps the invariant exactly when an earlier
      receipt already approves the source as it stands. */
  lemma StatusOnlyConsistent(f: Files, id: SourceId, reviewer: Reviewer, host: Host)
    requires Consistent(f, host) && CanReview(f, id, reviewer, host)
    ensures Consistent(StatusOnly(f, id, reviewer), host) <==>
            Approved(f, id, KindOf(reviewer), host)
  {
    var g := StatusOnly(f, id, reviewer);
    assert Rows(g) == Rows(f);
    ApprovalLocal(f, g, id, Ai, host);
    ApprovalLocal(f, g, id, Human, host);
    assert StatusBacked(f, id, Entries(f)[id].status, host);
    if Approved(f, id, KindOf(reviewer), host) {
      forall other | other in Entries(g) ensures StatusBacked(g, other, Entries(g)[other].status, host) {
        if other != id {
          ApprovalLocal(f, g, other, Ai, host);
          ApprovalLocal(f, g, other, Human, host);
          assert StatusBacked(f, other, Entries(f)[other].status, host);
        }
      }
    } else {
      assert !StatusBacked(g, id, Entries(g)[id].status, host);
    }
  }

  // ---- a freshly authored source ----

  function SampleHost(): Host {
    Host(t => t, t => t, (p: Digest, i: SourceId, r: Row) => r.classification,
         (p: string, rows: map<SourceId, Row>) => true, (b: string, e: map<SourceId, Entry>) => None)
  }

  const SAMPLE_ENTRY := Entry("here", "c", 1, Provisional)

  function SampleFiles(): Files {
    map[
      Policy := PolicyDoc("policy"),
      Index := IndexDoc(map["s" := SAMPLE_ENTRY]),
      Assignments := AssignmentsDoc("policy", map["s" := Row("c", "subject", ["page"])]),
      Page("s") := PageText("text")]
  }

  lemma SampleUnreviewed(reviewer: Reviewer)
    requires reviewer.Model?
    ensures Consistent(SampleFiles(), SampleHost()) && CanReview(SampleFiles(), "s", reviewer, SampleHost())
    ensures !Approved(SampleFiles(), "s", Ai, SampleHost())
  {
    assert Loadable(SampleFiles(), SampleHost());
  }

  /** Recording a status without its receipt can break the invariant: a freshly authored source whose
      first review leaves only its status. */
  lemma FirstReviewCanLeak() returns (f: Files, id: SourceId, reviewer: Reviewer, host: Host)
    ensures Consistent(f, host) && CanReview(f, id, reviewer, host)
    ensures !Consistent(StatusOnly(f, id, reviewer), host)
  {
    f, id, reviewer, host := SampleFiles(), "s", Model("m"), SampleHost();
    SampleUnreviewed(reviewer);
    StatusOnlyConsistent(f, id, reviewer, host);
  }
}
