/** The knowledgebase operations as ordered file writes, any of which may fail, with rollback. */
module Lifecycle {
  import opened Wrappers
  import opened Knowledgebase
  import opened Isolation
  import opened Faults

  /** Refused before any write; done; failed and undone; failed with an undo that failed; or failed
      where nothing is undone. */
  datatype Outcome = Rejected | Done | RolledBack | RollbackFailed | Unfinished

  datatype Saved = Saved(path: Path, content: Option<Content>)

  /** What a source yields when it is read again. */
  datatype Fetch = Unavailable | Fetched(content: Digest, bytes: nat)

  /** The author's reply: the page and classification derived from it, and whether it passes the
      checks on its shape. */
  datatype Draft = Draft(page: string, classification: string, acceptable: bool)

  function Save(f: Files, p: Path): Saved { Saved(p, Stored(f, p)) }

  ghost predicate DistinctPaths(items: seq<Saved>) {
    forall i, j :: 0 <= i < j < |items| ==> items[i].path != items[j].path
  }

  ghost function PathsOf(items: seq<Saved>): set<Path> { set s | s in items :: s.path }

  ghost predicate SavedFrom(items: seq<Saved>, before: Files) {
    forall s :: s in items ==> s.content == Stored(before, s.path)
  }

  /** The files as they are, to be put back if something fails. */
  function Originals(f: Files, paths: seq<Path>): seq<Saved> {
    seq(|paths|, i requires 0 <= i < |paths| => Save(f, paths[i]))
  }

  lemma OriginalPaths(f: Files, paths: seq<Path>)
    requires forall i, j :: 0 <= i < j < |paths| ==> paths[i] != paths[j]
    ensures var items := Originals(f, paths);
      DistinctPaths(items) && SavedFrom(items, f) && PathsOf(items) == set p | p in paths
  {
    var items := Originals(f, paths);
    forall p | p in paths ensures p in PathsOf(items) {
      var i :| 0 <= i < |paths| && paths[i] == p;
      assert items[i] in items;
    }
  }

  function PublishedFiles(id: SourceId): seq<Path> { [Page(id), Assignments, Receipt(id, Ai), Receipt(id, Human)] }

  lemma PublishedPaths(id: SourceId)
    ensures (set p | p in PublishedFiles(id)) + {Index} == PublicationPaths(id)
  {}

  function RetiredFiles(id: SourceId): seq<Path> {
    [Page(id), Receipt(id, Ai), Receipt(id, Human), Assignments, Bindings]
  }

  lemma RetiredPaths(id: SourceId)
    ensures (set p | p in RetiredFiles(id)) + {Index} == RetirementPaths(id)
  {}

  // ---- the attempts each operation makes ----

  function Restores(items: seq<Saved>): seq<Attempt> {
    seq(|items|, i requires 0 <= i < |items| => Attempt(items[i].path, items[i].content))
  }

  function UndoWrites(items: seq<Saved>, index: Content): seq<Attempt> {
    Restores(items) + [Attempt(Index, Some(index))]
  }

  /** The new page and row, both receipts removed, and the provisional pointer last. */
  function PublicationWrites(f: Files, id: SourceId, source: Entry, row: Row, page: string, host: Host): seq<Attempt>
    requires HasIndex(f) && HasPolicy(f)
  {
    var rows := AssignmentsDoc(host.policyDigest(f[Policy].text), Rows(f)[id := row]);
    var index := IndexDoc(Entries(f)[id := source.(status := Provisional)]);
    [Attempt(Page(id), Some(PageText(page))), Attempt(Assignments, Some(rows)), Attempt(Receipt(id, Ai), None),
     Attempt(Receipt(id, Human), None), Attempt(Index, Some(index))]
  }

  function PublicationUndo(f: Files, id: SourceId): seq<Attempt>
    requires HasIndex(f)
  {
    UndoWrites(Originals(f, PublishedFiles(id)), f[Index])
  }

  function RowWrite(f: Files, id: SourceId): seq<Attempt> {
    if Assignments in f && f[Assignments].AssignmentsDoc?
    then [Attempt(Assignments, Some(f[Assignments].(rows := Rows(f) - {id})))] else []
  }

  function Removals(id: SourceId): seq<Attempt> {
    [Attempt(Page(id), None), Attempt(Receipt(id, Ai), None), Attempt(Receipt(id, Human), None)]
  }

  function WithdrawalWrites(f: Files, id: SourceId): seq<Attempt> { Removals(id) + RowWrite(f, id) }

  lemma PublicationReached(f: Files, g: Files, id: SourceId, source: Entry, row: Row, page: string, host: Host)
    requires HasIndex(f) && HasPolicy(f) && Mixes(f, Publication(f, id, source, row, page, host), g)
    requires Reached(g, Publication(f, id, source, row, page, host),
                     PublicationWrites(f, id, source, row, page, host), 5)
    ensures g == Publication(f, id, source, row, page, host)
  {
    var h, w := Publication(f, id, source, row, page, host), PublicationWrites(f, id, source, row, page, host);
    PublicationStored(f, id, source, row, page, host);
    assert w[0].path == Page(id) && w[1].path == Assignments && w[2].path == Receipt(id, Ai);
    assert w[3].path == Receipt(id, Human) && w[4].path == Index;
    forall p ensures Stored(g, p) == Stored(h, p) {
      if p !in PublicationPaths(id) { assert Stored(h, p) == Stored(f, p); }
    }
    SameStored(g, h);
  }

  lemma WithdrawalReached(f: Files, g: Files, id: SourceId)
    requires Assignments in f ==> f[Assignments].AssignmentsDoc?
    requires Mixes(f, Withdrawn(f, id), g)
    requires Reached(g, Withdrawn(f, id), WithdrawalWrites(f, id), |WithdrawalWrites(f, id)|)
    ensures g == Withdrawn(f, id)
  {
    var h, w := Withdrawn(f, id), WithdrawalWrites(f, id);
    WithdrawnStored(f, id);
    assert w[0].path == Page(id) && w[1].path == Receipt(id, Ai) && w[2].path == Receipt(id, Human);
    if Assignments in f { assert w[3].path == Assignments; }
    forall p ensures Stored(g, p) == Stored(h, p) {
      if p !in PathsIn(w) { assert Stored(h, p) == Stored(f, p) || p in {Page(id), Assignments}; }
    }
    SameStored(g, h);
  }

  lemma NextRestored(f: Files, g: Files, h: Files, items: seq<Saved>, k: nat, plan: Schedule, at: nat)
    requires DistinctPaths(items) && k < |items|
    requires AllMade(f, g, Restores(items)[..k], plan, at)
    requires Made(g, h, Attempt(items[k].path, items[k].content), plan(at + k))
    ensures AllMade(f, h, Restores(items)[..k + 1], plan, at)
    ensures Restores(items)[..k + 1] == Restores(items)[..k] + [Attempt(items[k].path, items[k].content)]
  {
    var a := Attempt(items[k].path, items[k].content);
    assert Restores(items)[..k + 1] == Restores(items)[..k] + [a];
    OneMade(g, h, a, plan, at + k);
    MadeAfter(f, g, h, Restores(items)[..k], [a], plan, at);
  }

  lemma RestoredPaths(items: seq<Saved>)
    ensures PathsIn(Restores(items)) == PathsOf(items)
  {
    forall s | s in items ensures s.path in PathsIn(Restores(items)) {
      var i :| 0 <= i < |items| && items[i] == s;
      assert Restores(items)[i] in Restores(items);
    }
  }

  lemma RestoredItems(f: Files, before: Files, g: Files, items: seq<Saved>, plan: Schedule, at: nat)
    requires SavedFrom(items, before) && AllMade(f, g, Restores(items), plan, at)
    ensures Agree(f, g, PathsOf(items)) && Mixes(f, before, g)
  {
    RestoredPaths(items);
    forall p ensures (p !in PathsOf(items) ==> Stored(g, p) == Stored(f, p)) &&
                     (Stored(g, p) == Stored(f, p) || Stored(g, p) == Stored(before, p))
    {
      if p in PathsOf(items) {
        var i :| 0 <= i < |items| && items[i].path == p;
        assert items[i] in items && Restores(items)[i].path == p;
      }
    }
    AgreeFromStored(f, g, PathsOf(items));
  }

  lemma AllRestored(before: Files, f: Files, g: Files, h: Files, items: seq<Saved>, plan: Schedule, at: nat)
    requires SavedFrom(items, before) && Agree(before, f, PathsOf(items) + {Index})
    requires AllMade(f, g, Restores(items), plan, at) && Clear(plan, at, |items|)
    requires Agree(g, h, {Index}) && Stored(h, Index) == Stored(before, Index)
    ensures h == before
  {
    RestoredPaths(items);
    forall p ensures Stored(h, p) == Stored(before, p) {
      if p != Index {
        assert Stored(h, p) == Stored(g, p);
        if p in PathsOf(items) {
          var i :| 0 <= i < |items| && items[i].path == p;
          assert items[i] in items && Restores(items)[i].path == p && plan(at + i).Fine?;
        }
      }
    }
    SameStored(h, before);
  }

  /** The writes an operation made, and whether it reports success. */
  datatype Trace = Trace(writes: seq<Attempt>, ok: bool)

  /** A pointer may go if it is there, is the expected revision, and its bindings can be read. */
  predicate PointerGoes(f: Files, id: SourceId, expected: Option<Entry>) {
    HasIndex(f) && id in Entries(f) && (expected.Some? ==> expected.value == Entries(f)[id]) &&
    (Bindings in f ==> f[Bindings].BindingsDoc?)
  }

  /** The pointer, then the bindings; a failure of the second puts the bindings back and then, if
      that worked, the pointer. */
  function PointerTrace(f: Files, id: SourceId, expected: Option<Entry>, plan: Schedule, at: nat, host: Host): Trace {
    if !PointerGoes(f, id, expected) then Trace([], false)
    else
      var pointer := Attempt(Index, Some(IndexDoc(Entries(f) - {id})));
      match RetainedBindings(f, id, host)
      case None => Trace([pointer], plan(at).Fine?)
      case Some(text) =>
        var bindings := Attempt(Bindings, Some(BindingsDoc(text)));
        var back, index := Attempt(Bindings, Stored(f, Bindings)), Attempt(Index, Some(f[Index]));
        if !plan(at).Fine? then Trace([pointer], false)
        else if plan(at + 1).Fine? then Trace([pointer, bindings], true)
        else Trace([pointer, bindings, back] + if plan(at + 2).Fine? then [index] else [], false)
  }

  /** Page, receipts and row, stopping at a failure, and then the pointer. */
  function RetirementTrace(f: Files, id: SourceId, plan: Schedule, at: nat, host: Host): Trace {
    var writes := WithdrawalWrites(f, id);
    if Clear(plan, at, |writes|) then
      var pointer := PointerTrace(Withdrawn(f, id), id, None, plan, at + |writes|, host);
      Trace(writes + pointer.writes, pointer.ok)
    else
      var n := Attempts(plan, at, |writes|);
      Trace(if n < |writes| then writes[..n] else writes, false)
  }

  /** A retired source leaves nothing behind. */
  lemma RetirementErases(f: Files, id: SourceId, host: Host)
    requires CanRetire(f, id, host)
    ensures Erased(Retirement(f, id, host), id)
  {
    assert Rows(Withdrawn(f, id)) == Rows(f) - {id};
  }

  function RetirementUndo(f: Files, id: SourceId): seq<Attempt>
    requires HasIndex(f)
  {
    UndoWrites(Originals(f, RetiredFiles(id)), f[Index])
  }

  /** Without a fault a source is retired as long as its bindings can be read. */
  lemma ClearRetirement(f: Files, id: SourceId, plan: Schedule, at: nat, host: Host)
    requires HasIndex(f) && id in Entries(f) && Clear(plan, at, |WithdrawalWrites(f, id)| + 2)
    ensures RetirementTrace(f, id, plan, at, host).ok <==> (Bindings in f ==> f[Bindings].BindingsDoc?)
  {}

  /** The receipt, the status, and after a failed status the earlier receipt. */
  function ReviewWrites(f: Files, id: SourceId, reviewer: Reviewer, at: string, host: Host): seq<Attempt>
    requires CanReview(f, id, reviewer, host)
  {
    var receipt := Receipt(id, KindOf(reviewer));
    [Attempt(receipt, Some(ReceiptDoc(Attested(f, id, reviewer, at, host)))),
     Attempt(Index, Some(IndexDoc(ReviewedEntries(f, id, reviewer)))), Attempt(receipt, Stored(f, receipt))]
  }

  /** A failed receipt ends it; a failed status is followed by putting the receipt back. */
  ghost predicate ReviewedBy(
    outcome: Outcome, plan: Schedule, before: seq<Attempt>, after: seq<Attempt>, writes: seq<Attempt>)
    requires |writes| == 3
  {
    var n := |before|;
    if !plan(n).Fine? then outcome == Unfinished && after == before + writes[..1]
    else if plan(n + 1).Fine? then outcome == Done && after == before + writes[..2]
    else outcome == (if plan(n + 2).Fine? then RolledBack else RollbackFailed) && after == before + writes
  }

  /** The rows can be written without this source, or there are none to write. */
  predicate RowGoes(f: Files, id: SourceId, host: Host) {
    Assignments in f ==> Loadable(f, host) && host.admissible(f[Policy].text, Rows(f) - {id})
  }

  /** Every artifact is attempted; rows that must not be rewritten are a failure without a write. */
  function CleaningWrites(f: Files, id: SourceId, host: Host): seq<Attempt> {
    Removals(id) + if RowGoes(f, id, host) then RowWrite(f, id) else []
  }

  function CleaningFailures(f: Files, id: SourceId, plan: Schedule, at: nat, host: Host): nat {
    FaultCount(plan, at, |CleaningWrites(f, id, host)|) + if RowGoes(f, id, host) then 0 else 1
  }

  /** Where a sequence of clean-ups has got to. */
  datatype Progress = Progress(files: Files, log: seq<Attempt>, failures: nat)

  ghost predicate Advanced(p: Progress, q: Progress, writes: seq<Attempt>, failed: bool) {
    q.log == p.log + writes && q.failures == p.failures + if failed then 1 else 0
  }

  /** All artifacts of a source attempted, and one more failure if any of it failed. */
  ghost predicate SourceCleaned(p: Progress, q: Progress, id: SourceId, plan: Schedule, host: Host) {
    Advanced(p, q, CleaningWrites(p.files, id, host), CleaningFailures(p.files, id, plan, |p.log|, host) > 0) &&
    AllMade(p.files, q.files, CleaningWrites(p.files, id, host), plan, |p.log|)
  }

  /** The removal of an admitted pointer attempted, and one more failure if it failed. */
  ghost predicate PointerRemoved(p: Progress, q: Progress, id: SourceId, admitted: Entry, plan: Schedule, host: Host) {
    var trace := PointerTrace(p.files, id, Some(admitted), plan, |p.log|, host);
    Advanced(p, q, trace.writes, !trace.ok) && HasIndex(p.files) &&
    Mixes(p.files, PointerRetired(p.files, id, host), q.files) &&
    (trace.ok ==> q.files == PointerRetired(p.files, id, host))
  }

  ghost predicate Stages(stages: seq<Progress>, n: nat, f: Files, before: seq<Attempt>, g: Files,
                         after: seq<Attempt>, failures: nat)
  {
    |stages| == n + 1 && stages[0] == Progress(f, before, 0) && stages[n] == Progress(g, after, failures)
  }

  /** The row a draft gives a source: bound to its content, owning its one page. */
  function RowFor(id: SourceId, source: Entry, draft: Draft): Row {
    Row(source.content, draft.classification, ["source-" + id])
  }

  /** The pointer a fetch leads to: an unchanged reviewed source keeps its status. */
  function Refreshed(entry: Entry, fetch: Fetch): Entry {
    match fetch
    case Unavailable => entry.(status := StaleError)
    case Fetched(content, bytes) =>
      var reviewed := entry.status.AiReviewed? || entry.status.HumanConfirmed?;
      entry.(content := content, bytes := bytes,
             status := if content != entry.content || !reviewed then Provisional else entry.status)
  }

  /** The files a recorded review leaves, by the faults its attempts meet, the first being number `n`:
      a failed receipt may stay, a failed status is followed by putting the earlier receipt back. */
  function Left(plan: Schedule, n: nat, f: Files, id: SourceId, reviewer: Reviewer, at: string, host: Host): Files
    requires CanReview(f, id, reviewer, host)
  {
    match plan(n)
    case Lost => f
    case Late => ReceiptOnly(f, id, reviewer, at, host)
    case Fine =>
      match plan(n + 1)
      case Fine => Review(f, id, reviewer, at, host)
      case Lost => if plan(n + 2).Lost? then ReceiptOnly(f, id, reviewer, at, host) else f
      case Late => if plan(n + 2).Lost? then Review(f, id, reviewer, at, host) else StatusOnly(f, id, reviewer)
  }

  /** What recording a review left behind. */
  ghost predicate RecordedAs(
    outcome: Outcome, f: Files, g: Files, id: SourceId, reviewer: Reviewer, at: string, host: Host)
  {
    CanReview(f, id, reviewer, host) &&
    match outcome
    case Rejected => false
    case Done => g == Review(f, id, reviewer, at, host)
    case Unfinished => g == f || g == ReceiptOnly(f, id, reviewer, at, host)
    case RolledBack => g == f || g == StatusOnly(f, id, reviewer)
    case RollbackFailed =>
      g == f || g == ReceiptOnly(f, id, reviewer, at, host) || g == StatusOnly(f, id, reviewer) ||
      g == Review(f, id, reviewer, at, host)
  }

  /** The one way recording a review breaks the invariant: the receipt is written, the status is
      published and reported as failed, the receipt is taken back, and no earlier receipt approves the
      source as it stands. */
  predicate Leaks(plan: Schedule, n: nat, f: Files, id: SourceId, reviewer: Reviewer, host: Host)
    requires HasIndex(f) && HasPolicy(f)
  {
    plan(n).Fine? && plan(n + 1).Late? && !plan(n + 2).Lost? && !Approved(f, id, KindOf(reviewer), host)
  }

  lemma RecordingConsistent(
    plan: Schedule, n: nat, f: Files, id: SourceId, reviewer: Reviewer, at: string, host: Host)
    requires Consistent(f, host) && CanReview(f, id, reviewer, host)
    ensures Consistent(Left(plan, n, f, id, reviewer, at, host), host) <==> !Leaks(plan, n, f, id, reviewer, host)
  {
    ReviewConsistent(f, id, reviewer, at, host);
    ReceiptOnlyConsistent(f, id, reviewer, at, host);
    StatusOnlyConsistent(f, id, reviewer, host);
  }

  lemma AfterReceipt(
    f: Files, g: Files, fault: Fault, id: SourceId, reviewer: Reviewer, at: string, host: Host)
    requires CanReview(f, id, reviewer, host) && Made(f, g, ReviewWrites(f, id, reviewer, at, host)[0], fault)
    ensures g == if fault.Lost? then f else ReceiptOnly(f, id, reviewer, at, host)
  {
    MadeIs(f, g, ReviewWrites(f, id, reviewer, at, host)[0], fault);
  }

  lemma AfterStatus(
    f: Files, g: Files, fault: Fault, id: SourceId, reviewer: Reviewer, at: string, host: Host)
    requires CanReview(f, id, reviewer, host)
    requires Made(ReceiptOnly(f, id, reviewer, at, host), g, ReviewWrites(f, id, reviewer, at, host)[1], fault)
    ensures g == if fault.Lost? then ReceiptOnly(f, id, reviewer, at, host) else Review(f, id, reviewer, at, host)
  {
    MadeIs(ReceiptOnly(f, id, reviewer, at, host), g, ReviewWrites(f, id, reviewer, at, host)[1], fault);
  }

  /** Putting back what the receipt held undoes writing it. */
  lemma AfterUndo(
    f: Files, g: Files, h: Files, fault: Fault, id: SourceId, reviewer: Reviewer, at: string, host: Host)
    requires CanReview(f, id, reviewer, host) && Made(g, h, ReviewWrites(f, id, reviewer, at, host)[2], fault)
    requires g == ReceiptOnly(f, id, reviewer, at, host) || g == Review(f, id, reviewer, at, host)
    ensures fault.Lost? ==> h == g
    ensures !fault.Lost? ==> h == if g == ReceiptOnly(f, id, reviewer, at, host) then f else StatusOnly(f, id, reviewer)
  {
    MadeIs(g, h, ReviewWrites(f, id, reviewer, at, host)[2], fault);
  }

  function OutcomeBy(plan: Schedule, n: nat): Outcome {
    if !plan(n).Fine? then Unfinished else if plan(n + 1).Fine? then Done
    else if plan(n + 2).Fine? then RolledBack else RollbackFailed
  }

  lemma LeftRecorded(plan: Schedule, n: nat, f: Files, id: SourceId, reviewer: Reviewer, at: string, host: Host)
    requires CanReview(f, id, reviewer, host)
    ensures RecordedAs(OutcomeBy(plan, n), f, Left(plan, n, f, id, reviewer, at, host), id, reviewer, at, host)
  {}

  /** A status that was there already changes nothing. */
  lemma SameUndone(f: Files, id: SourceId, reviewer: Reviewer, at: string, host: Host)
    requires CanReview(f, id, reviewer, host)
    requires ReceiptOnly(f, id, reviewer, at, host) == Review(f, id, reviewer, at, host)
    ensures StatusOnly(f, id, reviewer) == f
  {
    var r := Review(f, id, reviewer, at, host);
    assert r[Index] == f[Index];
  }

  /** The files as they are once the model has answered: someone may have replaced them meanwhile. */
  function After(f: Files, interference: Option<Files>): Files {
    match interference
    case Some(g) => g
    case None => f
  }

  /** What an operation compares before and after it waits for a model. */
  predicate SameDerived(f: Files, g: Files, id: SourceId) {
    Stored(f, Page(id)) == Stored(g, Page(id)) && Stored(f, Policy) == Stored(g, Policy) &&
    Stored(f, Assignments) == Stored(g, Assignments)
  }

  /** It compares the page, the policy and the rows, and nothing else. */
  lemma DerivedIs(f: Files, g: Files, id: SourceId)
    ensures SameDerived(f, g, id) <==> forall p :: p in {Page(id), Policy, Assignments} ==> Stored(f, p) == Stored(g, p)
  {}

  predicate CanPrompt(f: Files, id: SourceId, source: Entry, host: Host) {
    Loadable(f, host) && id in Rows(f) && Rows(f)[id].content == source.content &&
    Page(id) in f && f[Page(id)].PageText?
  }

  /** A model's review is recorded: of what it was shown, if that is still there when it has answered. */
  predicate ModelApproves(f: Files, resumed: Files, id: SourceId, source: Entry, readable: bool, approves: bool,
                          host: Host)
  {
    readable && CanPrompt(f, id, source, host) && approves && SameDerived(f, resumed, id) &&
    Loadable(resumed, host) && id in Entries(resumed) && Entries(resumed)[id].content == source.content
  }

  /** A person's review is recorded: over a current approval by a model. */
  predicate PersonApproves(f: Files, id: SourceId, source: Entry, host: Host) {
    source.status.AiReviewed? && Loadable(f, host) && Approved(f, id, Ai, host) &&
    Entries(f)[id].status.AiReviewed? && Entries(f)[id].content == source.content
  }

  /** The pointer a finished refresh leaves, by what the fetch brought: a source that cannot be had is
      stale and otherwise as it was; one that can has the fetched content and size, and its status only if
      it was reviewed and its content is the same, else it is provisional. */
  predicate PointsTo(after: Entry, before: Entry, fetch: Fetch) {
    after.location == before.location &&
    match fetch
    case Unavailable => after.status == StaleError && after.content == before.content && after.bytes == before.bytes
    case Fetched(content, bytes) =>
      after.content == content && after.bytes == bytes &&
      if content == before.content && before.status in {AiReviewed, HumanConfirmed} then after.status == before.status
      else after.status == Provisional
  }

  /** How a refresh that needs a new page ends, the files being `resumed` when it starts to write. */
  ghost predicate RefreshedBy(outcome: Outcome, before: Files, resumed: Files, g: Files, id: SourceId,
                              fetch: Fetch, draft: Draft, host: Host)
    requires HasIndex(before) && id in Entries(before)
  {
    var previous := Entries(before)[id];
    var refreshed := Refreshed(previous, fetch);
    CanPublish(resumed, id, previous, refreshed, RowFor(id, refreshed, draft), host) &&
    SameDerived(before, resumed, id) &&
    match outcome
    case Done => g == Publication(resumed, id, refreshed, RowFor(id, refreshed, draft), draft.page, host)
    case RolledBack => g == resumed
    case RollbackFailed => Kept(resumed, g, {id}, host)
    case _ => false
  }

  function ArtifactsOf(id: SourceId): seq<Path> {
    [Page(id), Receipt(id, Ai), Receipt(id, Human), Assignments]
  }

  ghost function Ids(ids: seq<SourceId>): set<SourceId> { set id | id in ids }

  /** The artifact holds nothing of the source. */
  predicate Cleaned(f: Files, id: SourceId, artifact: Path) {
    if artifact == Assignments then id !in Rows(f) else artifact !in f
  }

  predicate Stripped(f: Files, id: SourceId) {
    Page(id) !in f && Receipt(id, Ai) !in f && Receipt(id, Human) !in f && id !in Rows(f)
  }

  lemma StrippedStays(f: Files, g: Files, id: SourceId)
    requires Stripped(f, id) && Shrinks(f, g)
    ensures Stripped(g, id)
  {}

  lemma KeptInside(f: Files, g: Files, h: Files, ids: seq<SourceId>, id: SourceId, host: Host)
    requires id in ids && Kept(f, g, Ids(ids), host) && Kept(g, h, {id}, host)
    ensures Kept(f, h, Ids(ids), host)
  {
    KeptThen(f, g, h, Ids(ids), {id}, host);
    assert Ids(ids) + {id} == Ids(ids);
  }

  lemma CleaningKept(f: Files, g: Files, id: SourceId, artifact: Path, host: Host)
    requires artifact in ArtifactsOf(id) && Agree(f, g, {artifact})
    requires Stored(g, artifact) == Stored(f, artifact) ||
             (if artifact == Assignments
              then RowsKept(f, g, {id}, host) && Rows(g).Keys <= Rows(f).Keys
              else Stored(g, artifact) == None)
    ensures Kept(f, g, {id}, host) && (HasIndex(f) ==> Shrinks(f, g))
  {
    forall p ensures PathKept(f, g, p, {id}, host) {
      if p != artifact { assert Stored(f, p) == Stored(g, p); }
    }
    if artifact != Assignments || Stored(g, artifact) == Stored(f, artifact) {
      assert Stored(g, Assignments) == Stored(f, Assignments);
      assert Rows(g) == Rows(f);
    }
  }

  lemma RemovalMade(f: Files, g: Files, h: Files, id: SourceId, k: nat, plan: Schedule, at: nat)
    requires k < 3 && AllMade(f, g, Removals(id)[..k], plan, at)
    requires Made(g, h, Attempt(ArtifactsOf(id)[k], None), plan(at + k))
    ensures AllMade(f, h, Removals(id)[..k + 1], plan, at)
  {
    var a := Attempt(ArtifactsOf(id)[k], None);
    assert a == Removals(id)[k] && Removals(id)[..k + 1] == Removals(id)[..k] + [a];
    OneMade(g, h, a, plan, at + k);
    MadeAfter(f, g, h, Removals(id)[..k], [a], plan, at);
  }

  lemma RemovedPaths(f: Files, g: Files, id: SourceId, plan: Schedule, at: nat)
    requires AllMade(f, g, Removals(id), plan, at)
    ensures Agree(f, g, {Page(id), Receipt(id, Ai), Receipt(id, Human)})
  {
    assert PathsIn(Removals(id)) <= {Page(id), Receipt(id, Ai), Receipt(id, Human)};
    AgreeFromStored(f, g, {Page(id), Receipt(id, Ai), Receipt(id, Human)});
  }

  /** The rows, last, go as they would have gone first. */
  lemma RowMade(f: Files, g: Files, h: Files, id: SourceId, plan: Schedule, at: nat, host: Host)
    requires AllMade(f, g, Removals(id), plan, at)
    requires if RowGoes(g, id, host) then AllMade(g, h, RowWrite(g, id), plan, at + 3) else g == h
    ensures RowGoes(f, id, host) == RowGoes(g, id, host) && RowWrite(f, id) == RowWrite(g, id)
    ensures AllMade(f, h, CleaningWrites(f, id, host), plan, at)
  {
    RemovedPaths(f, g, id, plan, at);
    assert Rows(f) == Rows(g);
    if RowGoes(g, id, host) {
      MadeAfter(f, g, h, Removals(id), RowWrite(g, id), plan, at);
    } else {
      assert Removals(id) + [] == Removals(id);
    }
  }

  lemma RowFailures(f: Files, id: SourceId, plan: Schedule, at: nat, host: Host)
    ensures CleaningFailures(f, id, plan, at, host) ==
            FaultCount(plan, at, 3) +
            if RowGoes(f, id, host) && Clear(plan, at + 3, |RowWrite(f, id)|) then 0 else 1
  {}

  /** One artifact attempted: rows that must not be rewritten fail without a write. */
  ghost predicate ArtifactTried(f: Files, g: Files, before: seq<Attempt>, after: seq<Attempt>, ok: bool, id: SourceId,
                                artifact: Path, plan: Schedule, host: Host)
  {
    if artifact != Assignments then
      after == before + [Attempt(artifact, None)] && ok == plan(|before|).Fine? &&
      Made(f, g, Attempt(artifact, None), plan(|before|))
    else if RowGoes(f, id, host) then
      after == before + RowWrite(f, id) && ok == Clear(plan, |before|, |RowWrite(f, id)|) &&
      AllMade(f, g, RowWrite(f, id), plan, |before|)
    else after == before && g == f && !ok
  }

  /** The first `k` artifacts attempted. */
  ghost predicate CleanedTo(f: Files, g: Files, before: seq<Attempt>, log: seq<Attempt>, failures: nat, id: SourceId,
                            k: nat, plan: Schedule, host: Host)
  {
    if k <= 3 then
      log == before + Removals(id)[..k] && failures == FaultCount(plan, |before|, k) &&
      AllMade(f, g, Removals(id)[..k], plan, |before|)
    else
      log == before + CleaningWrites(f, id, host) &&
      failures == CleaningFailures(f, id, plan, |before|, host) &&
      AllMade(f, g, CleaningWrites(f, id, host), plan, |before|)
  }

  lemma {:induction false} CleanedNext(
    f: Files, g: Files, h: Files, before: seq<Attempt>, log: seq<Attempt>, after: seq<Attempt>, failures: nat, ok: bool,
    id: SourceId, k: nat, plan: Schedule, host: Host)
    requires k < 4 && CleanedTo(f, g, before, log, failures, id, k, plan, host)
    requires ArtifactTried(g, h, log, after, ok, id, ArtifactsOf(id)[k], plan, host)
    ensures CleanedTo(f, h, before, after, failures + if ok then 0 else 1, id, k + 1, plan, host)
  {
    if k < 3 {
      RemovalMade(f, g, h, id, k, plan, |before|);
      assert Removals(id)[..k + 1] == Removals(id)[..k] + [Attempt(ArtifactsOf(id)[k], None)];
    } else {
      assert Removals(id)[..3] == Removals(id);
      RowMade(f, g, h, id, plan, |before|, host);
      RowFailures(f, id, plan, |before|, host);
    }
  }

  lemma NoFailuresStrip(f: Files, g: Files, id: SourceId, plan: Schedule, at: nat, host: Host)
    requires CleaningFailures(f, id, plan, at, host) == 0
    requires AllMade(f, g, CleaningWrites(f, id, host), plan, at)
    ensures Stripped(g, id)
  {
    var w := CleaningWrites(f, id, host);
    NoFaults(plan, at, |w|);
    forall i | 0 <= i < |w| ensures Stored(g, w[i].path) == w[i].content { assert plan(at + i).Fine?; }
    assert w[0] == Removals(id)[0] && w[1] == Removals(id)[1] && w[2] == Removals(id)[2];
    if Assignments in f {
      assert w[3] == RowWrite(f, id)[0];
    } else {
      assert Stored(f, Assignments) == Stored(g, Assignments);
    }
  }

  /** How authoring one new source goes: whether it can be read, the author's reply, and whether the
      whole batch is cancelled once it is published. */
  datatype Reply = Reply(readable: bool, draft: Draft, cancelled: bool)

  /** An admission names distinct pointers of the index as it left it. */
  predicate Sealed(ids: seq<SourceId>, admitted: map<SourceId, Entry>) {
    (forall i, j :: 0 <= i < j < |ids| ==> ids[i] != ids[j]) && forall id :: id in ids ==> id in admitted
  }

  /** Authored and not yet reviewed. */
  ghost predicate Fresh(f: Files, id: SourceId, source: Entry, draft: Draft) {
    HasIndex(f) && HasPolicy(f) && id in Entries(f) && Entries(f)[id] == source.(status := Provisional) &&
    Stored(f, Page(id)) == Some(PageText(draft.page)) &&
    Receipt(id, Ai) !in f && Receipt(id, Human) !in f &&
    id in Rows(f) && Rows(f)[id] == Row(source.content, draft.classification, ["source-" + id])
  }

  /** The files once one new source is published, if it can be and the batch goes on. */
  function AuthoredOne(f: Files, id: SourceId, source: Entry, reply: Reply, host: Host): Option<Files> {
    var row := RowFor(id, source, reply.draft);
    if reply.readable && !reply.cancelled && reply.draft.acceptable && CanPublish(f, id, source, source, row, host)
    then Some(Publication(f, id, source, row, reply.draft.page, host)) else None
  }

  /** Steps taken in turn, up to the first that cannot be. */
  function Through(step: (Files, nat) -> Option<Files>, f: Files, k: nat): Option<Files> {
    if k == 0 then Some(f)
    else
      match Through(step, f, k - 1)
      case None => None
      case Some(g) => step(g, k - 1)
  }

  lemma {:induction false} NeverThrough(step: (Files, nat) -> Option<Files>, f: Files, k: nat, n: nat)
    requires k <= n && Through(step, f, k) == None
    ensures Through(step, f, n) == None
    decreases n - k
  {
    if k < n { NeverThrough(step, f, k + 1, n); }
  }

  function Publishing(ids: seq<SourceId>, admitted: map<SourceId, Entry>, replies: seq<Reply>, host: Host)
    : (Files, nat) -> Option<Files>
  {
    (f: Files, k: nat) =>
      if k < |ids| && k < |replies| && ids[k] in admitted
      then AuthoredOne(f, ids[k], admitted[ids[k]], replies[k], host) else None
  }

  /** The files once every source of a batch is published in turn, if all of them can be. */
  function Authored(f: Files, ids: seq<SourceId>, admitted: map<SourceId, Entry>, replies: seq<Reply>, host: Host)
    : Option<Files>
  {
    Through(Publishing(ids, admitted, replies, host), f, |ids|)
  }

  lemma FreshStays(f: Files, g: Files, id: SourceId, other: SourceId, source: Entry, reply: Reply, host: Host)
    requires Fresh(f, id, source, reply.draft) && id != other && Kept(f, g, {other}, host)
    ensures Fresh(g, id, source, reply.draft)
  {
    OthersAgree(f, g, id, {other}, host);
    assert PathKept(f, g, Page(id), {other}, host);
    assert PathKept(f, g, Receipt(id, Ai), {other}, host) && PathKept(f, g, Receipt(id, Human), {other}, host);
    assert Stored(f, Receipt(id, Ai)) == Stored(g, Receipt(id, Ai));
    assert Stored(f, Receipt(id, Human)) == Stored(g, Receipt(id, Human));
  }

  lemma AllFreshStay(f: Files, g: Files, ids: seq<SourceId>, k: nat, admitted: map<SourceId, Entry>,
                     replies: seq<Reply>, host: Host)
    requires Sealed(ids, admitted) && |replies| == |ids| && k < |ids| && Kept(f, g, {ids[k]}, host)
    requires forall i :: 0 <= i < k ==> Fresh(f, ids[i], admitted[ids[i]], replies[i].draft)
    ensures forall i :: 0 <= i < k ==> Fresh(g, ids[i], admitted[ids[i]], replies[i].draft)
  {
    forall i | 0 <= i < k ensures Fresh(g, ids[i], admitted[ids[i]], replies[i].draft) {
      FreshStays(f, g, ids[i], ids[k], admitted[ids[i]], replies[i], host);
    }
  }

  /** The first `k` sources of the batch are authored, and no attempt met a fault. */
  ghost predicate BatchAt(
    start: Files, before: nat, f: Files, now: nat, ids: seq<SourceId>, admitted: map<SourceId, Entry>,
    replies: seq<Reply>, k: nat, plan: Schedule, host: Host)
    requires Sealed(ids, admitted) && |replies| == |ids| && k <= |ids|
  {
    HasIndex(f) && Kept(start, f, Ids(ids), host) && (Consistent(start, host) ==> Consistent(f, host)) &&
    Through(Publishing(ids, admitted, replies, host), start, k) == Some(f) &&
    now == before + 5 * k && Clear(plan, before, 5 * k) &&
    forall i :: 0 <= i < k ==> Fresh(f, ids[i], admitted[ids[i]], replies[i].draft)
  }

  lemma {:induction false} BatchNext(
    start: Files, before: nat, f: Files, now: nat, g: Files, ids: seq<SourceId>, admitted: map<SourceId, Entry>,
    replies: seq<Reply>, k: nat, plan: Schedule, host: Host)
    requires Sealed(ids, admitted) && |replies| == |ids| && k < |ids|
    requires BatchAt(start, before, f, now, ids, admitted, replies, k, plan, host)
    requires AuthoredOne(f, ids[k], admitted[ids[k]], replies[k], host) == Some(g) && Clear(plan, now, 5)
    requires Fresh(g, ids[k], admitted[ids[k]], replies[k].draft) && (Consistent(f, host) ==> Consistent(g, host))
    requires Kept(f, g, {ids[k]}, host) && Kept(start, g, Ids(ids), host)
    ensures BatchAt(start, before, g, now + 5, ids, admitted, replies, k + 1, plan, host)
  {
    AllFreshStay(f, g, ids, k, admitted, replies, host);
    assert Through(Publishing(ids, admitted, replies, host), start, k + 1) == Some(g);
  }

  lemma {:induction false} BatchBroken(
    start: Files, before: nat, f: Files, now: nat, ids: seq<SourceId>, admitted: map<SourceId, Entry>,
    replies: seq<Reply>, k: nat, plan: Schedule, host: Host)
    requires Sealed(ids, admitted) && |replies| == |ids| && k < |ids|
    requires BatchAt(start, before, f, now, ids, admitted, replies, k, plan, host)
    requires !(AuthoredOne(f, ids[k], admitted[ids[k]], replies[k], host).Some? && Clear(plan, now, 5))
    ensures !(Authored(start, ids, admitted, replies, host).Some? && Clear(plan, before, 5 * |ids|))
  {
    var step := Publishing(ids, admitted, replies, host);
    if AuthoredOne(f, ids[k], admitted[ids[k]], replies[k], host) == None {
      assert Through(step, start, k + 1) == None;
      NeverThrough(step, start, k + 1, |ids|);
    } else {
      assert !Clear(plan, before + 5 * k, 5);
    }
  }

  lemma PublishedFresh(f: Files, id: SourceId, source: Entry, reply: Reply, host: Host)
    requires CanPublish(f, id, source, source, RowFor(id, source, reply.draft), host)
    ensures var g := Publication(f, id, source, RowFor(id, source, reply.draft), reply.draft.page, host);
      Fresh(g, id, source, reply.draft) && (Consistent(f, host) ==> Consistent(g, host))
  {
    if Consistent(f, host) {
      PublicationConsistent(f, id, source, source, RowFor(id, source, reply.draft), reply.draft.page, host);
    }
  }

  lemma KeepsIndex(f: Files, g: Files, ids: set<SourceId>, host: Host)
    requires HasIndex(f) && Kept(f, g, ids, host)
    ensures HasIndex(g)
  {
    assert PathKept(f, g, Index, ids, host);
  }

  lemma KeptTwice(f: Files, g: Files, h: Files, ids: set<SourceId>, host: Host)
    requires Kept(f, g, ids, host) && Kept(g, h, ids, host)
    ensures Kept(f, h, ids, host)
  {
    KeptThen(f, g, h, ids, ids, host);
    assert ids + ids == ids;
  }

  class Store {
    var files: Files
    var log: seq<Attempt>
    const host: Host
    const plan: Schedule

    constructor (files: Files, host: Host, plan: Schedule)
      ensures this.files == files && this.log == [] && this.host == host && this.plan == plan
    {
      this.files := files;
      this.log := [];
      this.host := host;
      this.plan := plan;
    }

    // ---- single writes ----

    /** An atomic replacement, or the removal of a file: on failure the old or the new bytes stay. */
    method Restore(s: Saved) returns (ok: bool)
      modifies this
      ensures log == old(log) + [Attempt(s.path, s.content)] && ok == plan(|old(log)|).Fine?
      ensures Made(old(files), files, Attempt(s.path, s.content), plan(|old(log)|))
      ensures Agree(old(files), files, {s.path})
      ensures ok ==> Stored(files, s.path) == s.content
      ensures Stored(files, s.path) == s.content || Stored(files, s.path) == Stored(old(files), s.path)
    {
      var a, fault := Attempt(s.path, s.content), plan(|log|);
      log := log + [a];
      if !fault.Lost? {
        match s.content
        case Some(c) => files := files[s.path := c];
        case None => files := files - {s.path};
      }
      ok := fault.Fine?;
    }

    /** Every item is attempted in order, whatever failed before, and the failures are the faults met. */
    method RestoreAll(items: seq<Saved>, ghost before: Files) returns (failures: nat)
      requires DistinctPaths(items) && SavedFrom(items, before)
      modifies this
      ensures log == old(log) + Restores(items) && failures == FaultCount(plan, |old(log)|, |items|)
      ensures AllMade(old(files), files, Restores(items), plan, |old(log)|)
      ensures Agree(old(files), files, PathsOf(items)) && Mixes(old(files), before, files)
    {
      failures := 0;
      NoneMade(files, plan, |log|);
      for k := 0 to |items|
        invariant log == old(log) + Restores(items)[..k] && failures == FaultCount(plan, |old(log)|, k)
        invariant AllMade(old(files), files, Restores(items)[..k], plan, |old(log)|)
      {
        ghost var f := files;
        var ok := Restore(items[k]);
        if !ok { failures := failures + 1; }
        NextRestored(old(files), f, files, items, k, plan, |old(log)|);
      }
      assert Restores(items)[..|items|] == Restores(items);
      RestoredItems(old(files), before, files, items, plan, |old(log)|);
    }

    /** Undo: restore the artifacts and then the index, whatever happens on the way. */
    method RollBack(items: seq<Saved>, index: Content, ghost before: Files) returns (outcome: Outcome)
      requires DistinctPaths(items) && SavedFrom(items, before)
      requires Agree(before, files, PathsOf(items) + {Index})
      requires Stored(before, Index) == Some(index)
      modifies this
      ensures log == old(log) + UndoWrites(items, index)
      ensures outcome ==
                if Clear(plan, |old(log)|, |UndoWrites(items, index)|) then RolledBack else RollbackFailed
      ensures outcome == RolledBack ==> files == before
      ensures Mixes(old(files), before, files)
    {
      ghost var broken := files;
      var failures := RestoreAll(items, before);
      ghost var middle := files;
      var ok := Restore(Saved(Index, Some(index)));
      NoFaults(plan, |old(log)|, |items|);
      outcome := if failures == 0 && ok then RolledBack else RollbackFailed;
      if outcome == RolledBack { AllRestored(before, broken, middle, files, items, plan, |old(log)|); }
    }

    /** One write on the way from `f` to `h`. */
    method Put(p: Path, c: Option<Content>, ghost f: Files, ghost h: Files) returns (ok: bool)
      requires Mixes(f, h, files) && (Stored(h, p) == c || Stored(f, p) == c)
      modifies this
      ensures log == old(log) + [Attempt(p, c)] && ok == plan(|old(log)|).Fine?
      ensures Mixes(f, h, files) && Agree(old(files), files, {p})
      ensures ok ==> Stored(files, p) == c
    {
      ghost var g := files;
      ok := Restore(Saved(p, c));
      forall q ensures Stored(files, q) == Stored(f, q) || Stored(files, q) == Stored(h, q) {
        assert Stored(g, q) == Stored(f, q) || Stored(g, q) == Stored(h, q);
        if q != p { assert Stored(files, q) == Stored(g, q); }
      }
    }

    /** The next of a sequence of writes on the way from `f` to `h` that stops at the first failure. */
    method PutNext(p: Path, c: Option<Content>, ghost f: Files, ghost h: Files, ghost before: seq<Attempt>,
                   ghost writes: seq<Attempt>, ghost k: nat) returns (ok: bool)
      requires Mixes(f, h, files) && Stored(h, p) == c
      requires OnCourse(plan, before, log, writes, k) && k < |writes| && writes[k] == Attempt(p, c)
      requires Reached(files, h, writes, k)
      modifies this
      ensures if ok then OnCourse(plan, before, log, writes, k + 1) else Stopped(plan, before, log, writes)
      ensures Mixes(f, h, files) && Agree(old(files), files, {p}) && (ok ==> Reached(files, h, writes, k + 1))
    {
      ghost var g := files;
      NextOnCourse(plan, before, log, writes, k);
      ok := Put(p, c, f, h);
      if ok {
        forall i | 0 <= i < k + 1 ensures Stored(files, writes[i].path) == Stored(h, writes[i].path) {
          if writes[i].path != p { assert Stored(files, writes[i].path) == Stored(g, writes[i].path); }
        }
      }
    }

    // ---- publishing ----

    /** In order and up to the first failure; until the last write, every file is the old one or the
        new one. */
    method PublishWrites(id: SourceId, source: Entry, row: Row, page: string) returns (ok: bool)
      requires HasIndex(files) && HasPolicy(files)
      modifies this
      ensures Sequenced(plan, old(log), log, PublicationWrites(old(files), id, source, row, page, host), ok)
      ensures ok ==> files == Publication(old(files), id, source, row, page, host)
      ensures Mixes(old(files), Publication(old(files), id, source, row, page, host), files)
    {
      ghost var f, before := files, log;
      ghost var h := Publication(files, id, source, row, page, host);
      ghost var w := PublicationWrites(files, id, source, row, page, host);
      var rows := AssignmentsDoc(host.policyDigest(files[Policy].text), Rows(files)[id := row]);
      var index := IndexDoc(Entries(files)[id := source.(status := Provisional)]);
      PublicationStored(f, id, source, row, page, host);
      ok := PutNext(Page(id), Some(PageText(page)), f, h, before, w, 0);
      if !ok { return; }
      ok := PutNext(Assignments, Some(rows), f, h, before, w, 1);
      if !ok { return; }
      ok := PutNext(Receipt(id, Ai), None, f, h, before, w, 2);
      if !ok { return; }
      ok := PutNext(Receipt(id, Human), None, f, h, before, w, 3);
      if !ok { return; }
      ok := PutNext(Index, Some(index), f, h, before, w, 4);
      if ok { PublicationReached(f, files, id, source, row, page, host); }
    }

    /** Replace a source's page and row and reset it to provisional, or leave everything as it was. */
    method AuthorTransition(id: SourceId, expected: Entry, source: Entry, draft: Draft) returns (outcome: Outcome)
      modifies this
      ensures outcome == Rejected <==>
                !(draft.acceptable && CanPublish(old(files), id, expected, source, RowFor(id, source, draft), host))
      ensures outcome == Done ==>
                CanPublish(old(files), id, expected, source, RowFor(id, source, draft), host) &&
                files == Publication(old(files), id, source, RowFor(id, source, draft), draft.page, host)
      ensures outcome == Rejected || outcome == RolledBack ==> files == old(files)
      ensures outcome != Unfinished && Kept(old(files), files, {id}, host)
      ensures outcome == Rejected ==> log == old(log)
      ensures outcome != Rejected ==>
        AllOrUndone(plan, old(log), log,
                    PublicationWrites(old(files), id, source, RowFor(id, source, draft), draft.page, host),
                    PublicationUndo(old(files), id), outcome.Done?, outcome.RolledBack?)
    {
      var row := RowFor(id, source, draft);
      if !draft.acceptable || !CanPublish(files, id, expected, source, row, host) { return Rejected; }
      var previous := Originals(files, PublishedFiles(id));
      var index := files[Index];
      ghost var before := files;
      OriginalPaths(files, PublishedFiles(id));
      PublishedPaths(id);
      var ok := PublishWrites(id, source, row, draft.page);
      PublicationMixKept(before, files, id, source, row, draft.page, host);
      ghost var w, undo := PublicationWrites(before, id, source, row, draft.page, host), PublicationUndo(before, id);
      if ok {
        DoneInSequence(plan, old(log), log, w, undo);
        return Done;
      }
      UndoneInSequence(plan, old(log), log, w, undo);
      ghost var broken := files;
      outcome := RollBack(previous, index, before);
      MixKept(before, broken, files, {id}, host);
    }

    // ---- retiring ----

    /** Remove one pointer, then the bindings it alone used; undone here if the second write fails.
        With an expected revision the pointer must still match it. */
    method RetirePointer(id: SourceId, expected: Option<Entry>) returns (ok: bool)
      modifies this
      ensures !HasIndex(old(files)) ==> !ok && files == old(files)
      ensures HasIndex(old(files)) ==> Mixes(old(files), PointerRetired(old(files), id, host), files)
      ensures ok ==> HasIndex(old(files)) && id in Entries(old(files)) && files == PointerRetired(old(files), id, host)
      ensures ok && Bindings in old(files) ==> old(files)[Bindings].BindingsDoc?
      ensures ok && expected.Some? ==> expected.value == Entries(old(files))[id]
      ensures var trace := PointerTrace(old(files), id, expected, plan, |old(log)|, host);
        log == old(log) + trace.writes && ok == trace.ok
    {
      if !HasIndex(files) || id !in Entries(files) { return false; }
      if expected.Some? && expected.value != Entries(files)[id] { return false; }
      if Bindings in files && !files[Bindings].BindingsDoc? { return false; }
      ghost var f := files;
      ghost var h := PointerRetired(files, id, host);
      var index := files[Index];
      var bindings := RetainedBindings(files, id, host);
      var previous := Stored(files, Bindings);
      ok := Put(Index, Some(IndexDoc(Entries(files) - {id})), f, h);
      if !ok || bindings.None? { return; }
      ok := Put(Bindings, Some(BindingsDoc(bindings.value)), f, h);
      if ok { return; }
      PutBack(previous, index, f, h);
    }

    /** The bindings and then, if that worked, the pointer. */
    method PutBack(previous: Option<Content>, index: Content, ghost f: Files, ghost h: Files)
      requires Mixes(f, h, files) && Stored(f, Bindings) == previous && Stored(f, Index) == Some(index)
      modifies this
      ensures Mixes(f, h, files)
      ensures log == old(log) + [Attempt(Bindings, previous)] +
                     if plan(|old(log)|).Fine? then [Attempt(Index, Some(index))] else []
    {
      var restored := Put(Bindings, previous, f, h);
      if restored { var _ := Put(Index, Some(index), f, h); }
    }

    method WithdrawWrites(id: SourceId) returns (ok: bool)
      requires Assignments in files ==> files[Assignments].AssignmentsDoc?
      modifies this
      ensures Sequenced(plan, old(log), log, WithdrawalWrites(old(files), id), ok)
      ensures ok ==> files == Withdrawn(old(files), id)
      ensures Mixes(old(files), Withdrawn(old(files), id), files)
    {
      ghost var f, before := files, log;
      ghost var h := Withdrawn(files, id);
      ghost var w := WithdrawalWrites(files, id);
      WithdrawnStored(f, id);
      ok := PutNext(Page(id), None, f, h, before, w, 0);
      if !ok { return; }
      ok := PutNext(Receipt(id, Ai), None, f, h, before, w, 1);
      if !ok { return; }
      ok := PutNext(Receipt(id, Human), None, f, h, before, w, 2);
      if !ok { return; }
      if Assignments in files {
        ok := PutNext(Assignments, Some(files[Assignments].(rows := Rows(files) - {id})), f, h, before, w, 3);
        if !ok { return; }
      }
      WithdrawalReached(f, files, id);
    }

    method RetireWrites(id: SourceId) returns (ok: bool)
      requires CanRetire(files, id, host)
      modifies this
      ensures ok ==> files == Retirement(old(files), id, host)
      ensures ok && Bindings in old(files) ==> old(files)[Bindings].BindingsDoc?
      ensures Mixes(old(files), Retirement(old(files), id, host), files)
      ensures log == old(log) + RetirementTrace(old(files), id, plan, |old(log)|, host).writes
      ensures ok == RetirementTrace(old(files), id, plan, |old(log)|, host).ok
    {
      ghost var f := files;
      RetirementStages(f, id, host);
      ok := WithdrawWrites(id);
      MixThen(f, Withdrawn(f, id), Retirement(f, id, host), files);
      if !ok { return; }
      ok := RetirePointer(id, None);
      MixThen(f, Withdrawn(f, id), Retirement(f, id, host), files);
    }

    /** Remove everything the source owns, or leave everything as it was. */
    method RetireSource(id: SourceId) returns (outcome: Outcome)
      modifies this
      ensures outcome == Rejected <==> !CanRetire(old(files), id, host)
      ensures !(HasIndex(old(files)) && id in Entries(old(files))) ==> outcome == Rejected
      ensures outcome == Done ==> CanRetire(old(files), id, host) && files == Retirement(old(files), id, host)
      ensures outcome == Rejected || outcome == RolledBack ==> files == old(files)
      ensures outcome != Unfinished && Kept(old(files), files, {id}, host)
      ensures outcome == Rejected ==> log == old(log)
      ensures outcome != Rejected ==>
        var trace := RetirementTrace(old(files), id, plan, |old(log)|, host);
        var tried, undo := old(log) + trace.writes, RetirementUndo(old(files), id);
        (if trace.ok then outcome == Done && log == tried
         else log == tried + undo &&
              outcome == if Clear(plan, |tried|, |undo|) then RolledBack else RollbackFailed)
    {
      if !CanRetire(files, id, host) { return Rejected; }
      var previous := Originals(files, RetiredFiles(id));
      var index := files[Index];
      ghost var before := files;
      OriginalPaths(files, RetiredFiles(id));
      RetiredPaths(id);
      var ok := RetireWrites(id);
      RetirementMixKept(before, files, id, host);
      if ok { return Done; }
      ghost var broken := files;
      outcome := RollBack(previous, index, before);
      MixKept(before, broken, files, {id}, host);
    }

    // ---- reviewing ----

    /** Write the receipt, then the status. Only a failed status write puts the receipt back; a
        status that was published before its write was reported as failed stays. */
    method RecordReview(id: SourceId, content: Digest, reviewer: Reviewer, at: string) returns (outcome: Outcome)
      modifies this
      ensures outcome == Rejected <==>
                !(CanReview(old(files), id, reviewer, host) && Entries(old(files))[id].content == content)
      ensures outcome == Rejected ==> files == old(files)
      ensures outcome != Rejected ==>
        RecordedAs(outcome, old(files), files, id, reviewer, at, host) &&
        files == Left(plan, |old(log)|, old(files), id, reviewer, at, host)
      ensures outcome == Rejected ==> log == old(log)
      ensures outcome != Rejected ==>
        ReviewedBy(outcome, plan, old(log), log, ReviewWrites(old(files), id, reviewer, at, host))
    {
      if !CanReview(files, id, reviewer, host) || Entries(files)[id].content != content { return Rejected; }
      ghost var before, n := files, |log|;
      var receipt := Receipt(id, KindOf(reviewer));
      var previous := Save(files, receipt);
      var index := IndexDoc(ReviewedEntries(files, id, reviewer));
      LeftRecorded(plan, n, before, id, reviewer, at, host);
      var ok := Restore(Saved(receipt, Some(ReceiptDoc(Attested(files, id, reviewer, at, host)))));
      AfterReceipt(before, files, plan(n), id, reviewer, at, host);
      if !ok { return Unfinished; }
      ok := Restore(Saved(Index, Some(index)));
      AfterStatus(before, files, plan(n + 1), id, reviewer, at, host);
      if ok { return Done; }
      ok := TakeBack(previous, before, id, reviewer, at);
      outcome := if ok then RolledBack else RollbackFailed;
    }

    /** Put the receipt back after a failed status. */
    method TakeBack(previous: Saved, ghost f: Files, ghost id: SourceId, ghost reviewer: Reviewer, ghost at: string)
      returns (ok: bool)
      requires CanReview(f, id, reviewer, host) && previous == Save(f, Receipt(id, KindOf(reviewer)))
      requires files == ReceiptOnly(f, id, reviewer, at, host) || files == Review(f, id, reviewer, at, host)
      modifies this
      ensures log == old(log) + [ReviewWrites(f, id, reviewer, at, host)[2]] && ok == plan(|old(log)|).Fine?
      ensures plan(|old(log)|).Lost? ==> files == old(files)
      ensures !plan(|old(log)|).Lost? && old(files) == ReceiptOnly(f, id, reviewer, at, host) ==> files == f
      ensures !plan(|old(log)|).Lost? && old(files) == Review(f, id, reviewer, at, host) ==>
                files == StatusOnly(f, id, reviewer)
    {
      ghost var g, n := files, |log|;
      ok := Restore(previous);
      AfterUndo(f, g, files, plan(n), id, reviewer, at, host);
      if g == ReceiptOnly(f, id, reviewer, at, host) && g == Review(f, id, reviewer, at, host) {
        SameUndone(f, id, reviewer, at, host);
      }
    }

    method AwaitModel(interference: Option<Files>)
      modifies this
      ensures files == After(old(files), interference) && log == old(log)
    {
      if interference.Some? { files := interference.value; }
    }

    /** Show the model the page and row, and record its approval only of what it was shown. */
    method ReviewSource(id: SourceId, source: Entry, readable: bool, approves: bool, model: Digest, at: string,
                        interference: Option<Files>) returns (outcome: Outcome)
      modifies this
      ensures outcome == Rejected <==>
                !ModelApproves(old(files), After(old(files), interference), id, source, readable, approves, host)
      ensures outcome == Rejected ==> files == old(files) || files == After(old(files), interference)
      ensures outcome != Rejected ==>
        ReviewedBy(outcome, plan, old(log), log,
                   ReviewWrites(After(old(files), interference), id, Model(model), at, host))
      ensures outcome != Rejected ==>
        readable && approves && CanPrompt(old(files), id, source, host) &&
        RecordedAs(outcome, After(old(files), interference), files, id, Model(model), at, host) &&
        files == Left(plan, |old(log)|, After(old(files), interference), id, Model(model), at, host)
      ensures outcome == Done ==>
        CanReview(old(files), id, Model(model), host) && Receipt(id, Ai) in files &&
        files[Receipt(id, Ai)] == ReceiptDoc(Attested(old(files), id, Model(model), at, host))
    {
      if !readable || !CanPrompt(files, id, source, host) { return Rejected; }
      var shown := files;
      AwaitModel(interference);
      if !approves || !SameDerived(shown, files, id) || !Loadable(files, host) { return Rejected; }
      assert Rows(files) == Rows(shown);
      ghost var resumed := files;
      outcome := RecordReview(id, source.content, Model(model), at);
      if outcome == Done {
        assert Attested(resumed, id, Model(model), at, host) == Attested(shown, id, Model(model), at, host);
      }
    }

    /** Only over a current approval by a model. */
    method HumanConfirm(id: SourceId, source: Entry, at: string) returns (outcome: Outcome)
      modifies this
      ensures outcome == Rejected ==> files == old(files)
      ensures outcome == Rejected <==>
                !PersonApproves(old(files), id, source, host)
      ensures outcome != Rejected ==>
        ReviewedBy(outcome, plan, old(log), log, ReviewWrites(old(files), id, Person, at, host))
      ensures outcome != Rejected ==>
        HasIndex(old(files)) && HasPolicy(old(files)) &&
        Approved(old(files), id, Ai, host) && RecordedAs(outcome, old(files), files, id, Person, at, host) &&
        files == Left(plan, |old(log)|, old(files), id, Person, at, host)
    {
      if !source.status.AiReviewed? || !Loadable(files, host) || !Approved(files, id, Ai, host) { return Rejected; }
      outcome := RecordReview(id, source.content, Person, at);
    }

    // ---- authoring ----

    method AuthorSource(id: SourceId, source: Entry, readable: bool, draft: Draft, interference: Option<Files>)
      returns (outcome: Outcome)
      modifies this
      ensures outcome == Rejected ==> files == old(files) || files == After(old(files), interference)
      ensures outcome != Rejected ==>
        SameDerived(old(files), After(old(files), interference), id) &&
        CanPublish(After(old(files), interference), id, source, source, RowFor(id, source, draft), host)
      ensures outcome == Done ==>
        HasIndex(After(old(files), interference)) && HasPolicy(After(old(files), interference)) &&
        files == Publication(After(old(files), interference), id, source, RowFor(id, source, draft), draft.page, host)
      ensures outcome == Rejected <==>
                !(readable && Loadable(old(files), host) && draft.acceptable &&
                  SameDerived(old(files), After(old(files), interference), id) &&
                  CanPublish(After(old(files), interference), id, source, source, RowFor(id, source, draft), host))
      ensures outcome != Rejected ==>
        AllOrUndone(plan, old(log), log,
                    PublicationWrites(After(old(files), interference), id, source, RowFor(id, source, draft),
                                      draft.page, host),
                    PublicationUndo(After(old(files), interference), id), outcome.Done?, outcome.RolledBack?)
      ensures outcome == Done ==> Fresh(files, id, source, draft)
      ensures outcome == RolledBack ==> files == After(old(files), interference)
      ensures outcome != Unfinished
      ensures interference.None? ==> Kept(old(files), files, {id}, host)
    {
      if !readable || !Loadable(files, host) { return Rejected; }
      var shown := files;
      AwaitModel(interference);
      if !SameDerived(shown, files, id) { return Rejected; }
      outcome := AuthorTransition(id, source, source, draft);
    }

    /** Read the source again. Reviewed and unchanged, or unavailable: only the pointer is rewritten.
        Otherwise the pointer advances together with its new page and row, or not at all. */
    method RefreshSource(id: SourceId, fetch: Fetch, again: Fetch, draft: Draft, interference: Option<Files>)
      returns (outcome: Outcome)
      modifies this
      ensures !(HasIndex(old(files)) && id in Entries(old(files))) ==> outcome == Rejected
      ensures outcome == Rejected ==> files == old(files) || files == After(old(files), interference)
      ensures outcome != Rejected && !Refreshed(Entries(old(files))[id], fetch).status.Provisional? ==>
        (outcome == if plan(|old(log)|).Fine? then Done else Unfinished) &&
        files == if plan(|old(log)|).Lost? then old(files)
                 else Repoint(old(files), id, Refreshed(Entries(old(files))[id], fetch))
      ensures HasIndex(old(files)) && id in Entries(old(files)) ==>
        var previous := Entries(old(files))[id];
        var refreshed := Refreshed(previous, fetch);
        var resumed := After(old(files), interference);
        (outcome == Rejected <==>
           refreshed.status.Provisional? &&
           !(Loadable(old(files), host) && again == fetch && SameDerived(old(files), resumed, id) &&
             draft.acceptable && CanPublish(resumed, id, previous, refreshed, RowFor(id, refreshed, draft), host))) &&
        (outcome != Rejected && refreshed.status.Provisional? ==>
           AllOrUndone(plan, old(log), log,
                       PublicationWrites(resumed, id, refreshed, RowFor(id, refreshed, draft), draft.page, host),
                       PublicationUndo(resumed, id), outcome.Done?, outcome.RolledBack?))
      ensures outcome != Rejected && Refreshed(Entries(old(files))[id], fetch).status.Provisional? ==>
        RefreshedBy(outcome, old(files), After(old(files), interference), files, id, fetch, draft, host)
      ensures outcome == Done ==>
        HasIndex(old(files)) && id in Entries(old(files)) && HasIndex(files) && id in Entries(files) &&
        PointsTo(Entries(files)[id], Entries(old(files))[id], fetch)
      ensures outcome == Done && Refreshed(Entries(old(files))[id], fetch).status.Provisional? ==>
        Fresh(files, id, Entries(files)[id], draft)
    {
      if !HasIndex(files) || id !in Entries(files) { return Rejected; }
      var previous := Entries(files)[id];
      var refreshed := Refreshed(previous, fetch);
      if !refreshed.status.Provisional? {
        var ok := Restore(Saved(Index, Some(IndexDoc(Entries(files)[id := refreshed]))));
        return if ok then Done else Unfinished;
      }
      if !Loadable(files, host) { return Rejected; }
      var shown := files;
      AwaitModel(interference);
      if !HasIndex(files) || id !in Entries(files) || Entries(files)[id] != previous || again != fetch ||
         !SameDerived(shown, files, id) { return Rejected; }
      outcome := AuthorTransition(id, previous, refreshed, draft);
    }

    // ---- new sources, all or none ----

    /** Remove one artifact of a source that must not stay. */
    method CleanArtifact(id: SourceId, artifact: Path) returns (ok: bool)
      requires artifact in ArtifactsOf(id)
      modifies this
      ensures Kept(old(files), files, {id}, host) && Agree(old(files), files, {artifact})
      ensures HasIndex(old(files)) ==> Shrinks(old(files), files)
      ensures ok ==> Cleaned(files, id, artifact)
      ensures ArtifactTried(old(files), files, old(log), log, ok, id, artifact, plan, host)
    {
      ghost var f := files;
      if artifact != Assignments {
        ok := Restore(Saved(artifact, None));
        CleaningKept(f, files, id, artifact, host);
        return;
      }
      if Assignments !in files { return true; }
      if !Loadable(files, host) || !host.admissible(files[Policy].text, Rows(files) - {id}) { return false; }
      var rows := files[Assignments].(rows := Rows(files) - {id});
      ok := Restore(Saved(Assignments, Some(rows)));
      OneMade(f, files, Attempt(Assignments, Some(rows)), plan, |old(log)|);
      CleaningKept(f, files, id, artifact, host);
    }

    /** Every artifact is attempted, whatever failed before, and the failures are the faults met and
        rows that cannot go. */
    method CleanSource(id: SourceId) returns (failures: nat)
      requires HasIndex(files)
      modifies this
      ensures Kept(old(files), files, {id}, host) && Shrinks(old(files), files)
      ensures log == old(log) + CleaningWrites(old(files), id, host)
      ensures failures == CleaningFailures(old(files), id, plan, |old(log)|, host)
      ensures AllMade(old(files), files, CleaningWrites(old(files), id, host), plan, |old(log)|)
      ensures failures == 0 ==> Stripped(files, id)
    {
      failures := 0;
      NoneMade(files, plan, |log|);
      for k := 0 to 4
        invariant Kept(old(files), files, {id}, host) && Shrinks(old(files), files)
        invariant CleanedTo(old(files), files, old(log), log, failures, id, k, plan, host)
      {
        ghost var f, done, so := files, log, failures;
        var ok := CleanArtifact(id, ArtifactsOf(id)[k]);
        if !ok { failures := failures + 1; }
        KeptTwice(old(files), f, files, {id}, host);
        CleanedNext(old(files), f, files, old(log), done, log, so, ok, id, k, plan, host);
      }
      if failures == 0 { NoFailuresStrip(old(files), files, id, plan, |old(log)|, host); }
    }

    /** Clean up every source of a failed admission, whatever fails on the way. */
    method CleanAll(ids: seq<SourceId>) returns (failures: nat, ghost stages: seq<Progress>)
      requires HasIndex(files)
      modifies this
      ensures Kept(old(files), files, Ids(ids), host) && Shrinks(old(files), files)
      ensures Stages(stages, |ids|, old(files), old(log), files, log, failures)
      ensures forall k :: 0 <= k < |ids| ==> SourceCleaned(stages[k], stages[k + 1], ids[k], plan, host)
      ensures failures == 0 ==> forall k :: 0 <= k < |ids| ==> Stripped(files, ids[k])
    {
      failures := 0;
      stages := [Progress(files, log, 0)];
      for k := 0 to |ids|
        invariant Kept(old(files), files, Ids(ids), host) && Shrinks(old(files), files)
        invariant Stages(stages, k, old(files), old(log), files, log, failures)
        invariant forall i :: 0 <= i < k ==> SourceCleaned(stages[i], stages[i + 1], ids[i], plan, host)
        invariant failures == 0 ==> forall i :: 0 <= i < k ==> Stripped(files, ids[i])
      {
        ghost var f := files;
        var failed := CleanSource(ids[k]);
        if failed > 0 { failures := failures + 1; }
        KeptInside(old(files), f, files, ids, ids[k], host);
        stages := stages + [Progress(files, log, failures)];
        if failures == 0 {
          forall i | 0 <= i < k ensures Stripped(files, ids[i]) { StrippedStays(f, files, ids[i]); }
        }
      }
    }

    /** Attempt to remove every pointer of the admission that is still the admitted revision. */
    method RollBackAdmission(ids: seq<SourceId>, admitted: map<SourceId, Entry>)
      returns (failures: nat, ghost stages: seq<Progress>)
      requires HasIndex(files) && forall id :: id in ids ==> id in admitted
      modifies this
      ensures Kept(old(files), files, Ids(ids), host) && Shrinks(old(files), files)
      ensures Stages(stages, |ids|, old(files), old(log), files, log, failures)
      ensures forall k :: 0 <= k < |ids| ==>
                PointerRemoved(stages[k], stages[k + 1], ids[k], admitted[ids[k]], plan, host)
      ensures failures == 0 ==> forall k :: 0 <= k < |ids| ==> ids[k] !in Entries(files)
    {
      failures := 0;
      stages := [Progress(files, log, 0)];
      for k := 0 to |ids|
        invariant Kept(old(files), files, Ids(ids), host) && Shrinks(old(files), files)
        invariant Stages(stages, k, old(files), old(log), files, log, failures)
        invariant forall i :: 0 <= i < k ==>
                    PointerRemoved(stages[i], stages[i + 1], ids[i], admitted[ids[i]], plan, host)
        invariant failures == 0 ==> forall i :: 0 <= i < k ==> ids[i] !in Entries(files)
      {
        ghost var f := files;
        var ok := RetirePointer(ids[k], Some(admitted[ids[k]]));
        if !ok { failures := failures + 1; }
        PointerMixKept(f, files, ids[k], host);
        KeptInside(old(files), f, files, ids, ids[k], host);
        stages := stages + [Progress(files, log, failures)];
      }
    }

    /** One source of the batch, and whether the batch goes on. */
    method AuthorNext(id: SourceId, source: Entry, reply: Reply) returns (ok: bool)
      requires HasIndex(files)
      modifies this
      ensures ok <==> AuthoredOne(old(files), id, source, reply, host).Some? && Clear(plan, |old(log)|, 5)
      ensures ok ==> AuthoredOne(old(files), id, source, reply, host) == Some(files) && |log| == |old(log)| + 5
      ensures ok ==> Fresh(files, id, source, reply.draft) && (Consistent(old(files), host) ==> Consistent(files, host))
      ensures Kept(old(files), files, {id}, host) && HasIndex(files)
    {
      ghost var f := files;
      var authored := AuthorSource(id, source, reply.readable, reply.draft, None);
      KeepsIndex(f, files, {id}, host);
      ok := authored == Done && !reply.cancelled;
      if ok { PublishedFresh(f, id, source, reply, host); }
    }

    /** Author every source of a sealed admission; on any failure remove them all again. */
    method AuthorBatch(ids: seq<SourceId>, admitted: map<SourceId, Entry>, replies: seq<Reply>)
      returns (outcome: Outcome)
      requires Sealed(ids, admitted) && |replies| == |ids|
      modifies this
      ensures outcome == Rejected <==> !(HasIndex(old(files)) && Entries(old(files)) == admitted)
      ensures outcome == Rejected ==> files == old(files)
      ensures outcome != Rejected ==>
        var authored := Authored(old(files), ids, admitted, replies, host);
        (outcome == Done <==> authored.Some? && Clear(plan, |old(log)|, 5 * |ids|)) &&
        (outcome == Done ==> files == authored.value && |log| == |old(log)| + 5 * |ids|)
      ensures outcome == Done ==>
        forall k :: 0 <= k < |ids| ==> Fresh(files, ids[k], admitted[ids[k]], replies[k].draft)
      ensures outcome == RolledBack ==> forall k :: 0 <= k < |ids| ==> Erased(files, ids[k])
      ensures outcome != Unfinished && Kept(old(files), files, Ids(ids), host)
      ensures Consistent(old(files), host) && outcome != RollbackFailed ==> Consistent(files, host)
    {
      if !HasIndex(files) || Entries(files) != admitted { return Rejected; }
      ghost var start := files;
      var ok := AuthorAll(ids, admitted, replies);
      if ok { return Done; }
      ghost var cleaning, removing;
      outcome, cleaning, removing := UndoBatch(ids, admitted, start);
    }

    /** One after the other, up to the first that is not authored. */
    method AuthorAll(ids: seq<SourceId>, admitted: map<SourceId, Entry>, replies: seq<Reply>) returns (ok: bool)
      requires Sealed(ids, admitted) && |replies| == |ids| && HasIndex(files)
      modifies this
      ensures HasIndex(files) && Kept(old(files), files, Ids(ids), host)
      ensures ok <==> Authored(old(files), ids, admitted, replies, host).Some? &&
                      Clear(plan, |old(log)|, 5 * |ids|)
      ensures ok ==> Authored(old(files), ids, admitted, replies, host) == Some(files) &&
                     |log| == |old(log)| + 5 * |ids|
      ensures ok ==> forall k :: 0 <= k < |ids| ==> Fresh(files, ids[k], admitted[ids[k]], replies[k].draft)
      ensures ok && Consistent(old(files), host) ==> Consistent(files, host)
    {
      ghost var start, before := files, |log|;
      for k := 0 to |ids|
        invariant BatchAt(start, before, files, |log|, ids, admitted, replies, k, plan, host)
      {
        ghost var f, now := files, |log|;
        ok := AuthorNext(ids[k], admitted[ids[k]], replies[k]);
        KeptInside(start, f, files, ids, ids[k], host);
        if !ok {
          BatchBroken(start, before, f, now, ids, admitted, replies, k, plan, host);
          return;
        }
        BatchNext(start, before, f, now, files, ids, admitted, replies, k, plan, host);
      }
      ok := true;
    }

    /** Both clean-ups run to their end, and the undo succeeded exactly when neither met a failure. */
    method UndoBatch(ids: seq<SourceId>, admitted: map<SourceId, Entry>, ghost start: Files)
      returns (outcome: Outcome, ghost cleaning: seq<Progress>, ghost removing: seq<Progress>)
      requires Sealed(ids, admitted) && HasIndex(files) && Kept(start, files, Ids(ids), host)
      modifies this
      ensures |cleaning| == |ids| + 1 && |removing| == |ids| + 1
      ensures cleaning[0] == Progress(old(files), old(log), 0)
      ensures removing[0] == cleaning[|ids|].(failures := 0)
      ensures removing[|ids|].files == files && removing[|ids|].log == log
      ensures forall k :: 0 <= k < |ids| ==>
                SourceCleaned(cleaning[k], cleaning[k + 1], ids[k], plan, host) &&
                PointerRemoved(removing[k], removing[k + 1], ids[k], admitted[ids[k]], plan, host)
      ensures outcome == if cleaning[|ids|].failures == 0 && removing[|ids|].failures == 0 then RolledBack
                         else RollbackFailed
      ensures outcome == RolledBack ==> forall k :: 0 <= k < |ids| ==> Erased(files, ids[k])
      ensures Kept(start, files, Ids(ids), host)
      ensures Consistent(start, host) && outcome == RolledBack ==> Consistent(files, host)
    {
      ghost var f := files;
      var artifacts, pointers;
      artifacts, cleaning := CleanAll(ids);
      ghost var g := files;
      pointers, removing := RollBackAdmission(ids, admitted);
      KeptTwice(start, f, g, Ids(ids), host);
      KeptTwice(start, g, files, Ids(ids), host);
      if artifacts > 0 || pointers > 0 {
        outcome := RollbackFailed;
        return;
      }
      forall k | 0 <= k < |ids| ensures Erased(files, ids[k]) { StrippedStays(g, files, ids[k]); }
      if Consistent(start, host) { ErasureConsistent(start, files, Ids(ids), host); }
      outcome := RolledBack;
    }
  }
}
