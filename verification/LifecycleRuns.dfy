/** The lifecycle invariant over whole runs of operations. */
module LifecycleRuns {
  import opened Wrappers
  import opened Knowledgebase
  import opened Faults
  import opened Lifecycle

  datatype Operation =
    | Author(id: SourceId, source: Entry, readable: bool, draft: Draft, interference: Option<Files>)
    | Refresh(id: SourceId, fetch: Fetch, again: Fetch, draft: Draft, interference: Option<Files>)
    | AiReview(id: SourceId, source: Entry, readable: bool, approves: bool, model: Digest, at: string,
               interference: Option<Files>)
    | Confirm(id: SourceId, source: Entry, at: string)
    | Retire(id: SourceId)
    | AuthorNew(ids: seq<SourceId>, admitted: map<SourceId, Entry>, replies: seq<Reply>)

  function Interference(op: Operation): Option<Files> {
    match op
    case Author(_, _, _, _, i) => i
    case Refresh(_, _, _, _, i) => i
    case AiReview(_, _, _, _, _, _, i) => i
    case _ => None
  }

  /** What others do while a model is asked keeps the invariant, and admissions are sealed. */
  ghost predicate Admitted(op: Operation, host: Host) {
    (Interference(op).Some? ==> Consistent(Interference(op).value, host)) &&
    (op.AuthorNew? ==> Sealed(op.ids, op.admitted) && |op.replies| == |op.ids|)
  }

  predicate IsReview(op: Operation) { op.AiReview? || op.Confirm? }

  /** A review that is recorded, under faults that leave its status without a receipt: decided by the
      files before it, the schedule, and the number `n` of its first attempt. */
  predicate LeakedBy(op: Operation, f: Files, plan: Schedule, n: nat, host: Host) {
    match op
    case AiReview(id, source, readable, approves, model, _, _) =>
      var resumed := After(f, Interference(op));
      ModelApproves(f, resumed, id, source, readable, approves, host) &&
      Leaks(plan, n, resumed, id, Model(model), host)
    case Confirm(id, source, _) => PersonApproves(f, id, source, host) && Leaks(plan, n, f, id, Person, host)
    case _ => false
  }

  /** Nothing is known of the files after a rollback that failed, except after a review. */
  predicate Settles(op: Operation, outcome: Outcome) { IsReview(op) || outcome != RollbackFailed }

  lemma RefreshedPointerConsistent(f: Files, id: SourceId, fetch: Fetch, host: Host)
    requires Consistent(f, host) && id in Entries(f) && !Refreshed(Entries(f)[id], fetch).status.Provisional?
    ensures Consistent(Repoint(f, id, Refreshed(Entries(f)[id], fetch)), host)
  {
    RepointConsistent(f, id, Refreshed(Entries(f)[id], fetch), host);
  }

  /** One operation: unless its own rollback failed, the invariant holds afterwards exactly when no
      review status leaked. */
  method Perform(store: Store, op: Operation) returns (outcome: Outcome)
    requires Admitted(op, store.host)
    modifies store
    ensures Consistent(old(store.files), store.host) && Settles(op, outcome) ==>
      (Consistent(store.files, store.host) <==>
       !LeakedBy(op, old(store.files), store.plan, |old(store.log)|, store.host))
  {
    ghost var f := store.files;
    ghost var host := store.host;
    ghost var plan, n := store.plan, |store.log|;
    ghost var resumed := After(f, Interference(op));
    match op
    case Author(id, source, readable, draft, interference) =>
      outcome := store.AuthorSource(id, source, readable, draft, interference);
      if Consistent(f, host) && outcome == Done {
        PublicationConsistent(resumed, id, source, source, RowFor(id, source, draft), draft.page, host);
      }
    case Refresh(id, fetch, again, draft, interference) =>
      outcome := store.RefreshSource(id, fetch, again, draft, interference);
      if Consistent(f, host) && outcome != Rejected && outcome != RollbackFailed {
        RefreshConsistent(f, resumed, store.files, outcome, id, fetch, draft, host);
      }
    case AiReview(id, source, readable, approves, model, at, interference) =>
      outcome := store.ReviewSource(id, source, readable, approves, model, at, interference);
      if Consistent(f, host) && outcome != Rejected {
        RecordingConsistent(plan, n, resumed, id, Model(model), at, host);
      }
    case Confirm(id, source, at) =>
      outcome := store.HumanConfirm(id, source, at);
      if Consistent(f, host) && outcome != Rejected {
        RecordingConsistent(plan, n, f, id, Person, at, host);
      }
    case Retire(id) =>
      outcome := store.RetireSource(id);
      if Consistent(f, host) && outcome == Done { RetirementConsistent(f, id, host); }
    case AuthorNew(ids, admitted, replies) =>
      outcome := store.AuthorBatch(ids, admitted, replies);
  }

  lemma RefreshConsistent(f: Files, resumed: Files, g: Files, outcome: Outcome, id: SourceId, fetch: Fetch,
                          draft: Draft, host: Host)
    requires Consistent(f, host) && Consistent(resumed, host) && id in Entries(f) && outcome != RollbackFailed
    requires Refreshed(Entries(f)[id], fetch).status.Provisional? ==>
      RefreshedBy(outcome, f, resumed, g, id, fetch, draft, host)
    requires !Refreshed(Entries(f)[id], fetch).status.Provisional? ==>
      g == f || g == Repoint(f, id, Refreshed(Entries(f)[id], fetch))
    ensures Consistent(g, host)
  {
    var previous := Entries(f)[id];
    var refreshed := Refreshed(previous, fetch);
    if refreshed.status.Provisional? {
      if outcome == Done {
        PublicationConsistent(resumed, id, previous, refreshed, RowFor(id, refreshed, draft), draft.page, host);
      }
    } else {
      RefreshedPointerConsistent(f, id, fetch, host);
    }
  }

  /** The files, and how many attempts were made so far. */
  datatype Moment = Moment(files: Files, attempts: nat)

  ghost predicate LeaksAt(ops: seq<Operation>, moments: seq<Moment>, k: nat, plan: Schedule, host: Host)
    requires k < |ops| && k < |moments|
  {
    LeakedBy(ops[k], moments[k].files, plan, moments[k].attempts, host)
  }

  ghost predicate AllSettle(ops: seq<Operation>, outcomes: seq<Outcome>) {
    |outcomes| <= |ops| && forall k :: 0 <= k < |outcomes| ==> Settles(ops[k], outcomes[k])
  }

  ghost predicate AllConsistent(moments: seq<Moment>, host: Host) {
    forall k :: 0 <= k < |moments| ==> Consistent(moments[k].files, host)
  }

  ghost predicate NoneLeaks(ops: seq<Operation>, moments: seq<Moment>, n: nat, plan: Schedule, host: Host)
    requires n <= |ops| && n <= |moments|
  {
    forall k :: 0 <= k < n ==> !LeaksAt(ops, moments, k, plan, host)
  }

  lemma NextMoment(ops: seq<Operation>, moments: seq<Moment>, m: Moment, plan: Schedule, host: Host)
    requires 0 < |moments| <= |ops|
    requires AllConsistent(moments, host) <==> NoneLeaks(ops, moments, |moments| - 1, plan, host)
    requires var n := |moments| - 1;
      Consistent(moments[n].files, host) ==> (Consistent(m.files, host) <==> !LeaksAt(ops, moments, n, plan, host))
    ensures AllConsistent(moments + [m], host) <==> NoneLeaks(ops, moments + [m], |moments|, plan, host)
  {
    var n, more := |moments| - 1, moments + [m];
    forall k | 0 <= k < |moments| ensures LeaksAt(ops, more, k, plan, host) == LeaksAt(ops, moments, k, plan, host) {
      assert more[k] == moments[k];
    }
    if AllConsistent(more, host) {
      forall k | 0 <= k < |moments| ensures Consistent(moments[k].files, host) { assert more[k] == moments[k]; }
      assert more[|moments|] == m;
    }
    if NoneLeaks(ops, more, |moments|, plan, host) {
      forall k | 0 <= k < n ensures !LeaksAt(ops, moments, k, plan, host) { assert !LeaksAt(ops, more, k, plan, host); }
      assert !LeaksAt(ops, more, n, plan, host);
    }
  }

  /** Any run of operations, under any schedule of faults: unless some rollback failed, every state of
      the run is consistent exactly when no review leaked. */
  method Run(store: Store, ops: seq<Operation>) returns (outcomes: seq<Outcome>, ghost moments: seq<Moment>)
    requires forall k :: 0 <= k < |ops| ==> Admitted(ops[k], store.host)
    requires Consistent(store.files, store.host)
    modifies store
    ensures |outcomes| == |ops| && |moments| == |ops| + 1
    ensures moments[0] == Moment(old(store.files), |old(store.log)|)
    ensures moments[|ops|] == Moment(store.files, |store.log|)
    ensures AllSettle(ops, outcomes) ==>
      (AllConsistent(moments, store.host) <==> NoneLeaks(ops, moments, |ops|, store.plan, store.host))
  {
    outcomes, moments := [], [Moment(store.files, |store.log|)];
    for n := 0 to |ops|
      invariant |outcomes| == n && |moments| == n + 1
      invariant moments[0] == Moment(old(store.files), |old(store.log)|)
      invariant moments[n] == Moment(store.files, |store.log|)
      invariant AllSettle(ops, outcomes) ==>
        (AllConsistent(moments, store.host) <==> NoneLeaks(ops, moments, n, store.plan, store.host))
    {
      ghost var until, before := moments, outcomes;
      var outcome := Perform(store, ops[n]);
      outcomes, moments := outcomes + [outcome], moments + [Moment(store.files, |store.log|)];
      if AllSettle(ops, outcomes) {
        SettledBefore(ops, before, outcome);
        NextMoment(ops, until, Moment(store.files, |store.log|), store.plan, store.host);
      }
    }
  }

  lemma SettledBefore(ops: seq<Operation>, outcomes: seq<Outcome>, outcome: Outcome)
    requires AllSettle(ops, outcomes + [outcome])
    ensures AllSettle(ops, outcomes) && Settles(ops[|outcomes|], outcome)
  {
    var more := outcomes + [outcome];
    assert more[|outcomes|] == outcome;
    forall k | 0 <= k < |outcomes| ensures Settles(ops[k], outcomes[k]) { assert more[k] == outcomes[k]; }
  }

  // ---- a review that leaks ----

  /** The first review of a freshly authored source, whose status write is reported as failed after it
      took effect: the review is rolled back, the status stays, and no receipt backs it. */
  method FirstReviewLeaks() returns (store: Store, outcome: Outcome)
    ensures fresh(store) && Consistent(SampleFiles(), store.host) && outcome == RolledBack
    ensures HasIndex(store.files) && "s" in Entries(store.files) && Entries(store.files)["s"].status.AiReviewed?
    ensures Receipt("s", Ai) !in store.files && !Consistent(store.files, store.host)
  {
    store := new Store(SampleFiles(), SampleHost(), n => if n == 1 then Late else Fine);
    SampleUnreviewed(Model("m"));
    outcome := store.ReviewSource("s", SAMPLE_ENTRY, true, true, "m", "now", None);
    RecordingConsistent(store.plan, 0, SampleFiles(), "s", Model("m"), "now", store.host);
  }
}
