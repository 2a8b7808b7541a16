/** What a run of the rebuild coordinator did, read off its history: what was queued and listed, that
    it never stops halfway, and where every changed path ends up. */
module RebuildHistory {
  import opened Wrappers
  import opened PendingJournal
  import opened RebuildProtocol

  lemma RunForm(run: seq<State>, schedule: seq<Pid>, k: nat)
    requires Run(run, schedule) && k < |run|
    ensures Exclusive(run[k]) && WellFormed(run[k])
  {
    RunKeepsInv(run, schedule, k);
  }

  lemma RunStep(run: seq<State>, schedule: seq<Pid>, k: nat)
    requires Run(run, schedule) && k < |schedule|
    ensures Step(run[k], run[k + 1], schedule[k])
  {}

  // ---- what is queued ----

  /** The paths a process wrote to the journal, in order. */
  function QueuedBy(history: seq<Event>, p: Pid): seq<string> {
    if history == [] then []
    else
      var e := history[|history| - 1];
      QueuedBy(history[..|history| - 1], p) + if e.Queued? && e.pid == p then [e.path] else []
  }

  lemma QueuedStep(history: seq<Event>, e: Event, p: Pid)
    ensures QueuedBy(history + [e], p) ==
            QueuedBy(history, p) + if e.Queued? && e.pid == p then [e.path] else []
  {
    assert (history + [e])[..|history|] == history;
  }

  lemma {:induction false} QueuedAt(history: seq<Event>, p: Pid, path: string) returns (i: nat)
    requires path in QueuedBy(history, p)
    ensures i < |history| && history[i] == Queued(p, path)
  {
    var n := |history| - 1;
    QueuedStep(history[..n], history[n], p);
    assert history == history[..n] + [history[n]];
    if path in QueuedBy(history[..n], p) { i := QueuedAt(history[..n], p, path); } else { i := n; }
  }

  /** What an invocation leaves to others: the changed paths, unless it waits for the lock itself. */
  function Asked(mode: Mode): seq<string> {
    if mode.changed.Some? && !mode.blocking then mode.changed.value else []
  }

  function Unqueued(pc: Pc, mode: Mode): seq<string> {
    match pc
    case Started => Asked(mode)
    case WantQueue => Asked(mode)
    case Queueing(rest) => rest
    case _ => []
  }

  /** Queued and not yet queued make up what was asked, in order. */
  predicate QueueOf(pc: Pc, mode: Mode, queued: seq<string>) {
    && queued + Unqueued(pc, mode) == Asked(mode)
    && (pc.WantQueue? ==> Asked(mode) != [])
    && (pc.Declined? ==> !mode.blocking)
  }

  ghost predicate Queues(s: State) {
    forall p :: p in s.pc && p in s.mode ==> QueueOf(s.pc[p], s.mode[p], QueuedBy(s.history, p))
  }

  lemma StepQueues(s: State, t: State, p: Pid, q: Pid)
    requires Step(s, t, p)
    ensures QueuedBy(t.history, q) ==
            QueuedBy(s.history, q) + if WriteLine(s, t, p) && p == q then [s.pc[p].rest[0]] else []
  {
    if WriteLine(s, t, p) {
      QueuedStep(s.history, Queued(p, s.pc[p].rest[0]), q);
    } else if RemoveJournal(s, t, p) {
      QueuedStep(s.history, Took(p, ParsePending(s.pc[p].raw)), q);
    } else if Begin(s, t, p) {
      QueuedStep(s.history, Began(p, s.pc[p].pass, s.pc[p].listed), q);
    } else if End(s, t, p) {
      QueuedStep(s.history, Ended(p, s.pc[p].pass), q);
    }
  }

  lemma OwnQueue(s: State, t: State, p: Pid, queued: seq<string>)
    requires Step(s, t, p) && p in s.mode && p in t.pc && QueueOf(s.pc[p], s.mode[p], queued)
    ensures QueueOf(t.pc[p], s.mode[p], queued + if WriteLine(s, t, p) then [s.pc[p].rest[0]] else [])
  {
    if WriteLine(s, t, p) {
      LineQueues(s, t, p, queued);
    } else {
      assert queued + [] == queued;
      OtherQueues(s, t, p, queued);
    }
  }

  lemma LineQueues(s: State, t: State, p: Pid, queued: seq<string>)
    requires WriteLine(s, t, p) && p in s.mode && QueueOf(s.pc[p], s.mode[p], queued)
    ensures p in t.pc && QueueOf(t.pc[p], s.mode[p], queued + [s.pc[p].rest[0]])
  {
    var rest := s.pc[p].rest;
    assert queued + [rest[0]] + rest[1..] == queued + rest;
  }

  lemma OtherQueues(s: State, t: State, p: Pid, queued: seq<string>)
    requires Step(s, t, p) && !WriteLine(s, t, p) && p in s.mode && p in t.pc
    requires QueueOf(s.pc[p], s.mode[p], queued)
    ensures QueueOf(t.pc[p], s.mode[p], queued)
  {
    assert queued + [] == queued;
  }

  lemma StepKeepsQueue(s: State, t: State, p: Pid)
    requires s.pc.Keys == s.mode.Keys && Queues(s) && Step(s, t, p)
    ensures Queues(t)
  {
    StepMoves(s, t, p);
    forall q | q in t.pc && q in t.mode ensures QueueOf(t.pc[q], t.mode[q], QueuedBy(t.history, q)) {
      assert QueueOf(s.pc[q], s.mode[q], QueuedBy(s.history, q));
      StepKeepsQueueOf(s, t, p, q);
    }
  }

  lemma StepKeepsQueueOf(s: State, t: State, p: Pid, q: Pid)
    requires Moves(s, t, p) && Step(s, t, p) && q in s.pc && q in s.mode
    requires QueueOf(s.pc[q], s.mode[q], QueuedBy(s.history, q))
    ensures QueueOf(t.pc[q], s.mode[q], QueuedBy(t.history, q))
  {
    StepQueues(s, t, p, q);
    if q == p {
      OwnQueue(s, t, p, QueuedBy(s.history, p));
    } else {
      assert QueuedBy(s.history, q) + [] == QueuedBy(s.history, q);
    }
  }

  lemma {:induction false} RunKeepsQueue(run: seq<State>, schedule: seq<Pid>, k: nat)
    requires Run(run, schedule) && k < |run|
    ensures run[k].pc.Keys == run[k].mode.Keys && Queues(run[k])
    decreases k
  {
    if k > 0 {
      RunKeepsQueue(run, schedule, k - 1);
      RunStep(run, schedule, k - 1);
      StepKeepsQueue(run[k - 1], run[k], schedule[k - 1]);
      StepMoves(run[k - 1], run[k], schedule[k - 1]);
    }
  }

  /** An invocation that may be turned away has written its changed paths to the journal, each once and
      in order, before it tries the rebuild lock; any other invocation writes nothing. */
  lemma ChangesAreQueued(run: seq<State>, schedule: seq<Pid>, k: nat, p: Pid)
    requires Run(run, schedule) && k < |run| && p in run[k].pc && p in run[k].mode
    requires !run[k].pc[p].Started? && !run[k].pc[p].WantQueue? && !run[k].pc[p].Queueing?
    ensures var mode := run[k].mode[p];
            QueuedBy(run[k].history, p) ==
            if mode.changed.Some? && !mode.blocking then mode.changed.value else []
  {
    RunKeepsQueue(run, schedule, k);
    assert QueueOf(run[k].pc[p], run[k].mode[p], QueuedBy(run[k].history, p));
    assert QueuedBy(run[k].history, p) + [] == QueuedBy(run[k].history, p);
  }

  /** A changed path is queued by the process, and is in the journal or was taken from it since. */
  ghost predicate Passed(s: State, p: Pid, path: string) {
    exists i: nat :: i < |s.history| && s.history[i] == Queued(p, path) &&
      (Journaled(s, path) || SafeAfter(s, i, path))
  }

  /** No clean path of an invocation that was turned away is lost; one that waits for the lock is
      never turned away. */
  lemma DeclinedIsSafe(run: seq<State>, schedule: seq<Pid>, k: nat, p: Pid)
    requires Run(run, schedule) && k < |run| && p in run[k].pc && p in run[k].mode && run[k].pc[p].Declined?
    ensures !run[k].mode[p].blocking
    ensures run[k].mode[p].changed.Some? ==>
      forall path :: path in run[k].mode[p].changed.value && Clean(path) ==> Passed(run[k], p, path)
  {
    var s := run[k];
    RunKeepsQueue(run, schedule, k);
    assert QueueOf(s.pc[p], s.mode[p], QueuedBy(s.history, p));
    ChangesAreQueued(run, schedule, k, p);
    if s.mode[p].changed.Some? {
      forall path | path in s.mode[p].changed.value && Clean(path) ensures Passed(s, p, path) {
        var i := QueuedAt(s.history, p, path);
        NothingIsLost(run, schedule, k, i);
      }
    }
  }

  lemma StepDeclines(s: State, t: State, p: Pid)
    requires Exclusive(s) && Step(s, t, p) && p in t.pc && !s.pc[p].Declined? && t.pc[p].Declined?
    ensures s.rebuildLock.Some? && s.rebuildLock.value in s.pc && s.rebuildLock.value != p
    ensures InsideRebuild(s.pc[s.rebuildLock.value])
  {
    assert Decline(s, t, p);
  }

  /** It is turned away only while another process holds the rebuild lock. */
  lemma DeclinedByHolder(run: seq<State>, schedule: seq<Pid>, k: nat, p: Pid)
    requires Run(run, schedule) && k < |schedule| && p in run[k].pc && p in run[k + 1].pc
    requires !run[k].pc[p].Declined? && run[k + 1].pc[p].Declined?
    ensures exists q :: q in run[k].pc && q != p && InsideRebuild(run[k].pc[q])
  {
    var s, t := run[k], run[k + 1];
    RunForm(run, schedule, k);
    RunStep(run, schedule, k);
    StepMoves(s, t, schedule[k]);
    StepDeclines(s, t, p);
  }

  // ---- what a pass lists ----

  /** What a pass lists: the first one what its invocation was asked for and what was in the journal,
      a later one what was in the journal meanwhile, and a full invocation's everything. */
  ghost predicate ListsAll(listed: Option<seq<string>>, pass: nat, mode: Mode, last: Option<seq<string>>) {
    if mode.changed.None? then listed.None?
    else
      listed.Some? && last.Some? && NoDuplicates(listed.value) &&
      forall x :: x in listed.value <==> x in last.value || (pass == 1 && x in mode.changed.value)
  }

  ghost predicate ListsAt(s: State, j: nat) {
    j < |s.history| && s.history[j].Began? ==>
      s.history[j].pid in s.mode &&
      ListsAll(s.history[j].listed, s.history[j].pass, s.mode[s.history[j].pid],
               LastTaken(s.history[..j], s.history[j].pid))
  }

  ghost predicate ReadyToList(pc: Pc, mode: Mode, last: Option<seq<string>>) {
    match pc
    case Drained(_, taken) => last == Some(taken) && NoDuplicates(taken)
    case Ready(pass, listed, _) => ListsAll(listed, pass, mode, last)
    case _ => true
  }

  ghost predicate Listing(s: State) {
    (forall p :: p in s.pc && p in s.mode ==> ReadyToList(s.pc[p], s.mode[p], LastTaken(s.history, p))) &&
    forall j: nat :: ListsAt(s, j)
  }

  lemma OwnListing(s: State, t: State, p: Pid, last: Option<seq<string>>)
    requires Step(s, t, p) && p in s.mode && p in t.pc && ReadyToList(s.pc[p], s.mode[p], last)
    requires !RemoveJournal(s, t, p) && PassBounds(s.pc[p], s.mode[p])
    ensures ReadyToList(t.pc[p], s.mode[p], last)
  {}

  lemma ListsStays(s: State, t: State, j: nat)
    requires s.history <= t.history && s.mode == t.mode && j < |s.history| && ListsAt(s, j)
    ensures ListsAt(t, j)
  {
    assert t.history[..j] == s.history[..j] && t.history[j] == s.history[j];
  }

  lemma NewListing(s: State, t: State, p: Pid, j: nat)
    requires Step(s, t, p) && p in s.mode && ReadyToList(s.pc[p], s.mode[p], LastTaken(s.history, p))
    requires |s.history| <= j
    ensures ListsAt(t, j)
  {
    if j < |t.history| && t.history[j].Began? {
      assert Begin(s, t, p);
      assert t.history[..j] == s.history;
    }
  }

  lemma StepKeepsListing(s: State, t: State, p: Pid)
    requires s.pc.Keys == s.mode.Keys && WellFormed(s) && Listing(s) && Step(s, t, p)
    ensures Listing(t)
  {
    StepMoves(s, t, p);
    HistoryGrows(s, t, p);
    assert PassBounds(s.pc[p], s.mode[p]);
    assert ReadyToList(s.pc[p], s.mode[p], LastTaken(s.history, p));
    forall q | q in t.pc && q in t.mode ensures ReadyToList(t.pc[q], t.mode[q], LastTaken(t.history, q)) {
      StepTakes(s, t, p, q);
      assert ReadyToList(s.pc[q], s.mode[q], LastTaken(s.history, q));
      if q == p && !RemoveJournal(s, t, p) { OwnListing(s, t, p, LastTaken(s.history, p)); }
    }
    forall j: nat ensures ListsAt(t, j) {
      if j < |s.history| { ListsStays(s, t, j); } else { NewListing(s, t, p, j); }
    }
  }

  lemma {:induction false} RunKeepsListing(run: seq<State>, schedule: seq<Pid>, k: nat)
    requires Run(run, schedule) && k < |run|
    ensures Listing(run[k])
    decreases k
  {
    if k > 0 {
      RunForm(run, schedule, k - 1);
      RunKeepsListing(run, schedule, k - 1);
      RunStep(run, schedule, k - 1);
      StepKeepsListing(run[k - 1], run[k], schedule[k - 1]);
    }
  }

  /** Every pass that began listed exactly what it had to. */
  lemma PassesList(run: seq<State>, schedule: seq<Pid>, k: nat, j: nat)
    requires Run(run, schedule) && k < |run| && j < |run[k].history| && run[k].history[j].Began?
    ensures run[k].history[j].pid in run[k].mode
    ensures ListsAll(run[k].history[j].listed, run[k].history[j].pass, run[k].mode[run[k].history[j].pid],
                     LastTaken(run[k].history[..j], run[k].history[j].pid))
  {
    RunKeepsListing(run, schedule, k);
    assert ListsAt(run[k], j);
  }

  // ---- runs end ----

  /** The steps a process has left at most. */
  function StepsLeft(pc: Pc, mode: Mode): int {
    match pc
    case Started => 131 + Size(mode)
    case WantQueue => 130 + Size(mode)
    case Queueing(rest) => 129 + |rest|
    case WantLock => 128
    case WantDrain(pass) => FromPass(pass)
    case Draining(pass) => FromPass(pass) - 1
    case DrainRead(pass, _) => FromPass(pass) - 2
    case Drained(pass, _) => FromPass(pass) - 3
    case Ready(pass, _, _) => FromPass(pass) - 4
    case Running(pass) => FromPass(pass) - 5
    case Releasing(_) => 1
    case Finished(_) => 0
    case Declined => 0
  }

  function FromPass(pass: nat): int { 133 - 6 * pass }

  function Size(mode: Mode): nat { if mode.changed.Some? then |mode.changed.value| else 0 }

  lemma StepUsesOne(s: State, t: State, p: Pid)
    requires Step(s, t, p) && p in s.mode && PassBounds(s.pc[p], s.mode[p])
    ensures p in t.pc && StepsLeft(t.pc[p], s.mode[p]) < StepsLeft(s.pc[p], s.mode[p])
  {
    if Start(s, t, p) || LockQueue(s, t, p) || WriteLine(s, t, p) || UnlockQueue(s, t, p) {
      QueueUsesOne(s, t, p);
    } else if Decide(s, t, p) || Begin(s, t, p) || End(s, t, p) {
      PassUsesOne(s, t, p);
    } else if Acquire(s, t, p) || Decline(s, t, p) || Release(s, t, p) {
      LockUsesOne(s, t, p);
    } else {
      DrainUsesOne(s, t, p);
    }
  }

  lemma QueueUsesOne(s: State, t: State, p: Pid)
    requires Start(s, t, p) || LockQueue(s, t, p) || WriteLine(s, t, p) || UnlockQueue(s, t, p)
    requires p in s.mode
    ensures p in t.pc && StepsLeft(t.pc[p], s.mode[p]) < StepsLeft(s.pc[p], s.mode[p])
  {}

  lemma PassUsesOne(s: State, t: State, p: Pid)
    requires Decide(s, t, p) || Begin(s, t, p) || End(s, t, p)
    requires p in s.mode && PassBounds(s.pc[p], s.mode[p])
    ensures p in t.pc && StepsLeft(t.pc[p], s.mode[p]) < StepsLeft(s.pc[p], s.mode[p])
  {}

  lemma LockUsesOne(s: State, t: State, p: Pid)
    requires Acquire(s, t, p) || Decline(s, t, p) || Release(s, t, p)
    requires p in s.mode
    ensures p in t.pc && StepsLeft(t.pc[p], s.mode[p]) < StepsLeft(s.pc[p], s.mode[p])
  {}

  lemma DrainUsesOne(s: State, t: State, p: Pid)
    requires LockDrain(s, t, p) || ReadJournal(s, t, p) || RemoveJournal(s, t, p)
    requires p in s.mode
    ensures p in t.pc && StepsLeft(t.pc[p], s.mode[p]) < StepsLeft(s.pc[p], s.mode[p])
  {}

  lemma StepUses(s: State, t: State, q: Pid, p: Pid)
    requires s.pc.Keys == s.mode.Keys && WellFormed(s) && Step(s, t, q) && p in s.pc
    ensures p in t.pc && p in t.mode && t.mode == s.mode
    ensures StepsLeft(t.pc[p], t.mode[p]) + (if p == q then 1 else 0) <= StepsLeft(s.pc[p], s.mode[p])
  {
    StepMoves(s, t, q);
    assert PassBounds(s.pc[q], s.mode[q]);
    StepUsesOne(s, t, q);
  }

  lemma NoneLeftBelow(pc: Pc, mode: Mode)
    requires PassBounds(pc, mode)
    ensures 0 <= StepsLeft(pc, mode)
  {}

  lemma {:induction false} StepsUsed(run: seq<State>, schedule: seq<Pid>, k: nat, p: Pid)
    requires Run(run, schedule) && k < |run| && p in run[0].pc && p in run[0].mode
    ensures p in run[k].pc && p in run[k].mode && run[k].mode[p] == run[0].mode[p]
    ensures multiset(schedule[..k])[p] + StepsLeft(run[k].pc[p], run[k].mode[p]) <= 131 + Size(run[0].mode[p])
    decreases k
  {
    if k > 0 {
      StepsUsed(run, schedule, k - 1, p);
      RunForm(run, schedule, k - 1);
      RunStep(run, schedule, k - 1);
      StepUses(run[k - 1], run[k], schedule[k - 1], p);
      assert schedule[..k] == schedule[..k - 1] + [schedule[k - 1]];
    }
  }

  /** Every run ends: no process takes more than 131 steps and one for each path it was given. */
  lemma RunsEnd(run: seq<State>, schedule: seq<Pid>, p: Pid)
    requires Run(run, schedule) && p in run[0].pc && p in run[0].mode
    ensures multiset(schedule)[p] <=
            131 + if run[0].mode[p].changed.Some? then |run[0].mode[p].changed.value| else 0
  {
    var k := |schedule|;
    StepsUsed(run, schedule, k, p);
    RunForm(run, schedule, k);
    NoneLeftBelow(run[k].pc[p], run[k].mode[p]);
    assert schedule[..k] == schedule;
  }

  predicate Over(pc: Pc) { pc.Finished? || pc.Declined? }

  ghost predicate CanStep(s: State, p: Pid) { exists t :: Step(s, t, p) }

  lemma Enabled(s: State, t: State, p: Pid)
    requires Step(s, t, p)
    ensures CanStep(s, p)
  {}

  ghost predicate SomeStep(s: State) { exists p :: CanStep(s, p) }

  /** Whoever holds the journal lock can go on. */
  lemma JournalHolderSteps(s: State, p: Pid)
    requires p in s.pc && p in s.mode && InsideJournal(s.pc[p])
    ensures CanStep(s, p)
  {
    match s.pc[p]
    case Queueing(rest) =>
      if rest == [] {
        var t := Set(s, p, WantLock).(journalLock := None);
        assert UnlockQueue(s, t, p);
        Enabled(s, t, p);
      } else {
        var t := Set(s, p, Queueing(rest[1..]))
          .(journal := s.journal + rest[0] + "\n", history := s.history + [Queued(p, rest[0])]);
        assert WriteLine(s, t, p);
        Enabled(s, t, p);
      }
    case Draining(pass) =>
      var t := Set(s, p, DrainRead(pass, s.journal));
      assert ReadJournal(s, t, p);
      Enabled(s, t, p);
    case DrainRead(pass, raw) =>
      var taken := ParsePending(raw);
      var t := Set(s, p, Drained(pass, taken))
        .(journal := "", journalLock := None, history := s.history + [Took(p, taken)]);
      assert RemoveJournal(s, t, p);
      Enabled(s, t, p);
  }

  /** Whoever holds the rebuild lock can go on, when nobody holds the journal lock. */
  lemma RebuildHolderSteps(s: State, p: Pid)
    requires p in s.pc && p in s.mode && InsideRebuild(s.pc[p]) && !InsideJournal(s.pc[p]) && s.journalLock.None?
    ensures CanStep(s, p)
  {
    match s.pc[p]
    case WantDrain(pass) =>
      var t := Set(s, p, Draining(pass)).(journalLock := Some(p));
      assert LockDrain(s, t, p);
      Enabled(s, t, p);
    case Drained(pass, taken) =>
      var next := if pass <= 1 then
          match s.mode[p].changed
          case Some(changed) => Ready(1, Some(Distinct(changed + taken)), taken)
          case None => Ready(1, None, taken)
        else if taken == [] then Releasing(pass - 1)
        else Ready(pass, Some(taken), taken);
      var t := Set(s, p, next);
      assert Decide(s, t, p);
      Enabled(s, t, p);
    case Ready(pass, listed, _) =>
      var t := Set(s, p, Running(pass)).(history := s.history + [Began(p, pass, listed)]);
      assert Begin(s, t, p);
      Enabled(s, t, p);
    case Running(pass) =>
      var next := if s.mode[p].changed.None? || pass == PENDING_DRAIN_MAX_PASSES + 1 then Releasing(pass)
        else WantDrain(pass + 1);
      var t := Set(s, p, next).(history := s.history + [Ended(p, pass)]);
      assert End(s, t, p);
      Enabled(s, t, p);
    case Releasing(passes) =>
      var t := Set(s, p, Finished(passes)).(rebuildLock := None);
      assert Release(s, t, p);
      Enabled(s, t, p);
  }

  /** Anyone else can go on, when nobody holds a lock. */
  lemma FreeSteps(s: State, p: Pid)
    requires p in s.pc && p in s.mode && !InsideRebuild(s.pc[p]) && !InsideJournal(s.pc[p]) && !Over(s.pc[p])
    requires s.journalLock.None? && s.rebuildLock.None?
    requires s.pc[p].WantQueue? ==> Asked(s.mode[p]) != []
    ensures CanStep(s, p)
  {
    match s.pc[p]
    case Started =>
      var mode := s.mode[p];
      var next := if mode.changed.Some? && mode.changed.value != [] && !mode.blocking then WantQueue else WantLock;
      var t := Set(s, p, next);
      assert Start(s, t, p);
      Enabled(s, t, p);
    case WantQueue =>
      var t := Set(s, p, Queueing(s.mode[p].changed.value)).(journalLock := Some(p));
      assert LockQueue(s, t, p);
      Enabled(s, t, p);
    case WantLock =>
      var t := Set(s, p, WantDrain(1)).(rebuildLock := Some(p));
      assert Acquire(s, t, p);
      Enabled(s, t, p);
  }

  /** No run stops halfway: as long as some invocation has not ended, some process can go on. */
  lemma NeverStuck(run: seq<State>, schedule: seq<Pid>, k: nat, p: Pid)
    requires Run(run, schedule) && k < |run| && p in run[k].pc && !run[k].pc[p].Finished? && !run[k].pc[p].Declined?
    ensures SomeStep(run[k])
  {
    var s := run[k];
    RunForm(run, schedule, k);
    RunKeepsQueue(run, schedule, k);
    assert QueueOf(s.pc[p], s.mode[p], QueuedBy(s.history, p));
    if s.journalLock.Some? {
      JournalHolderSteps(s, s.journalLock.value);
    } else if s.rebuildLock.Some? {
      RebuildHolderSteps(s, s.rebuildLock.value);
    } else {
      FreeSteps(s, p);
    }
  }

  /** A pass covered the path. */
  ghost predicate Covered(s: State, path: string) {
    exists j: nat :: j < |s.history| && Covers(s.history[j], path)
  }

  lemma SafeWhenOver(s: State, i: nat, path: string)
    requires forall p :: p in s.pc ==> Over(s.pc[p])
    requires SafeAfter(s, i, path)
    ensures Covered(s, path)
  {
    var e: nat :| i < e && SafeAt(s, e, path);
    var q := s.history[e].pid;
    assert !HeldBy(s, q, path);
    var j :| e < j < |s.history| && Covers(s.history[j], path) && s.history[j].pid == q;
  }

  /** When every invocation has ended, each clean path any of them was given was covered by a pass, or
      waits in the journal for the next one. */
  lemma ChangesEndUp(run: seq<State>, schedule: seq<Pid>, k: nat, p: Pid, path: string)
    requires Run(run, schedule) && k < |run| && p in run[k].pc && p in run[k].mode
    requires forall q :: q in run[k].pc ==> run[k].pc[q].Finished? || run[k].pc[q].Declined?
    requires run[k].mode[p].changed.Some? && path in run[k].mode[p].changed.value && Clean(path)
    ensures Journaled(run[k], path) || Covered(run[k], path)
  {
    var s := run[k];
    if s.pc[p].Declined? {
      DeclinedIsSafe(run, schedule, k, p);
      var i: nat :| i < |s.history| && s.history[i] == Queued(p, path) && (Journaled(s, path) || SafeAfter(s, i, path));
      if !Journaled(s, path) { SafeWhenOver(s, i, path); }
    } else {
      PassesBounded(run, schedule, k, p);
      var j :| 0 <= j < |s.history| && ListsOwn(s.history[j], p, s.mode[p].changed.value);
      assert Covers(s.history[j], path);
    }
  }
}
