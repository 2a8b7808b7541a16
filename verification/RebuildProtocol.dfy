/** The rebuild coordinator as interleaved steps of any number of processes: a rebuild lock, a
    journal lock, and the pending-change journal they share. */
module RebuildProtocol {
  import opened Wrappers
  import opened Text
  import opened PendingJournal

  const PENDING_DRAIN_MAX_PASSES := 20

  type Pid = nat

  /** What an invocation was asked for: a list of changed paths, or none for a full rebuild. */
  datatype Mode = Mode(changed: Option<seq<string>>, blocking: bool)

  datatype Pc =
    | Started
    | WantQueue
    | Queueing(rest: seq<string>)
    | WantLock
    | WantDrain(pass: nat)
    | Draining(pass: nat)
    | DrainRead(pass: nat, raw: string)
    | Drained(pass: nat, taken: seq<string>)
    | Ready(pass: nat, listed: Option<seq<string>>, taken: seq<string>)
    | Running(pass: nat)
    | Releasing(passes: nat)
    | Finished(passes: nat)
    | Declined

  datatype Event =
    | Queued(pid: Pid, path: string)
    | Took(pid: Pid, taken: seq<string>)
    | Began(pid: Pid, pass: nat, listed: Option<seq<string>>)
    | Ended(pid: Pid, pass: nat)

  datatype State = State(
    mode: map<Pid, Mode>, pc: map<Pid, Pc>, rebuildLock: Option<Pid>, journalLock: Option<Pid>,
    journal: string, history: seq<Event>)

  function Set(s: State, p: Pid, pc: Pc): State { s.(pc := s.pc[p := pc]) }

  // ---- steps ----

  /** A non-blocking invocation with changed paths queues them first; anything else goes for the lock. */
  ghost predicate Start(s: State, t: State, p: Pid) {
    p in s.pc && p in s.mode && s.pc[p].Started? &&
    var mode := s.mode[p];
    t == Set(s, p, if mode.changed.Some? && mode.changed.value != [] && !mode.blocking then WantQueue else WantLock)
  }

  ghost predicate LockQueue(s: State, t: State, p: Pid) {
    p in s.pc && p in s.mode && s.pc[p].WantQueue? && s.mode[p].changed.Some? && s.journalLock.None? &&
    t == Set(s, p, Queueing(s.mode[p].changed.value)).(journalLock := Some(p))
  }

  ghost predicate WriteLine(s: State, t: State, p: Pid) {
    p in s.pc && s.pc[p].Queueing? && s.pc[p].rest != [] &&
    var path := s.pc[p].rest[0];
    t == Set(s, p, Queueing(s.pc[p].rest[1..]))
           .(journal := s.journal + path + "\n", history := s.history + [Queued(p, path)])
  }

  ghost predicate UnlockQueue(s: State, t: State, p: Pid) {
    p in s.pc && s.pc[p] == Queueing([]) && t == Set(s, p, WantLock).(journalLock := None)
  }

  ghost predicate Acquire(s: State, t: State, p: Pid) {
    p in s.pc && s.pc[p].WantLock? && s.rebuildLock.None? &&
    t == Set(s, p, WantDrain(1)).(rebuildLock := Some(p))
  }

  ghost predicate Decline(s: State, t: State, p: Pid) {
    p in s.pc && p in s.mode && s.pc[p].WantLock? && s.rebuildLock.Some? && !s.mode[p].blocking &&
    t == Set(s, p, Declined)
  }

  ghost predicate LockDrain(s: State, t: State, p: Pid) {
    p in s.pc && s.pc[p].WantDrain? && s.journalLock.None? &&
    t == Set(s, p, Draining(s.pc[p].pass)).(journalLock := Some(p))
  }

  ghost predicate ReadJournal(s: State, t: State, p: Pid) {
    p in s.pc && s.pc[p].Draining? && t == Set(s, p, DrainRead(s.pc[p].pass, s.journal))
  }

  /** The journal file is removed and its lock dropped; the lines read earlier are now in hand. */
  ghost predicate RemoveJournal(s: State, t: State, p: Pid) {
    p in s.pc && s.pc[p].DrainRead? &&
    var taken := ParsePending(s.pc[p].raw);
    t == Set(s, p, Drained(s.pc[p].pass, taken))
           .(journal := "", journalLock := None, history := s.history + [Took(p, taken)])
  }

  /** The first pass lists the changed and the queued paths, or everything; later passes list what
      was queued meanwhile, and stop at the first empty journal. */
  ghost predicate Decide(s: State, t: State, p: Pid) {
    p in s.pc && p in s.mode && s.pc[p].Drained? &&
    var pass, taken := s.pc[p].pass, s.pc[p].taken;
    t == Set(s, p,
      if pass <= 1 then
        match s.mode[p].changed
        case Some(changed) => Ready(1, Some(Distinct(changed + taken)), taken)
        case None => Ready(1, None, taken)
      else if taken == [] then Releasing(pass - 1)
      else Ready(pass, Some(taken), taken))
  }

  ghost predicate Begin(s: State, t: State, p: Pid) {
    p in s.pc && s.pc[p].Ready? &&
    var ready := s.pc[p];
    t == Set(s, p, Running(ready.pass)).(history := s.history + [Began(p, ready.pass, ready.listed)])
  }

  ghost predicate End(s: State, t: State, p: Pid) {
    p in s.pc && p in s.mode && s.pc[p].Running? &&
    var pass := s.pc[p].pass;
    t == Set(s, p,
      if s.mode[p].changed.None? || pass == PENDING_DRAIN_MAX_PASSES + 1 then Releasing(pass)
      else WantDrain(pass + 1)).(history := s.history + [Ended(p, pass)])
  }

  ghost predicate Release(s: State, t: State, p: Pid) {
    p in s.pc && s.pc[p].Releasing? &&
    t == Set(s, p, Finished(s.pc[p].passes)).(rebuildLock := None)
  }

  ghost predicate Step(s: State, t: State, p: Pid) {
    Start(s, t, p) || LockQueue(s, t, p) || WriteLine(s, t, p) || UnlockQueue(s, t, p) || Acquire(s, t, p) ||
    Decline(s, t, p) || LockDrain(s, t, p) || ReadJournal(s, t, p) || RemoveJournal(s, t, p) ||
    Decide(s, t, p) || Begin(s, t, p) || End(s, t, p) || Release(s, t, p)
  }

  ghost predicate Init(s: State) {
    && s.pc.Keys == s.mode.Keys && (forall p :: p in s.pc ==> s.pc[p].Started?)
    && s.rebuildLock.None? && s.journalLock.None? && Terminated(s.journal) && s.history == []
  }

  /** A run: each state follows from the one before by one step of the process scheduled. */
  ghost predicate Run(run: seq<State>, schedule: seq<Pid>) {
    |run| == |schedule| + 1 && Init(run[0]) &&
    forall k :: 0 <= k < |schedule| ==> Step(run[k], run[k + 1], schedule[k])
  }

  // ---- the invariant ----

  predicate InsideRebuild(pc: Pc) {
    pc.WantDrain? || pc.Draining? || pc.DrainRead? || pc.Drained? || pc.Ready? || pc.Running? || pc.Releasing?
  }

  predicate InsideJournal(pc: Pc) { pc.Queueing? || pc.Draining? || pc.DrainRead? }

  /** Each lock is held exactly by the process inside the section it guards. */
  ghost predicate Exclusive(s: State) {
    && s.pc.Keys == s.mode.Keys
    && (forall p :: p in s.pc ==> (InsideRebuild(s.pc[p]) <==> s.rebuildLock == Some(p)))
    && (forall p :: p in s.pc ==> (InsideJournal(s.pc[p]) <==> s.journalLock == Some(p)))
    && (s.rebuildLock.Some? ==> s.rebuildLock.value in s.pc)
    && (s.journalLock.Some? ==> s.journalLock.value in s.pc)
  }

  ghost predicate JournalRead(s: State) {
    Terminated(s.journal) && forall p :: p in s.pc && s.pc[p].DrainRead? ==> s.pc[p].raw == s.journal
  }

  predicate ReadyListsTaken(pc: Pc) {
    pc.Ready? && pc.listed.Some? ==> forall x :: x in pc.taken ==> x in pc.listed.value
  }

  predicate PassBounds(pc: Pc, mode: Mode) {
    match pc
    case WantDrain(k) => 1 <= k <= PENDING_DRAIN_MAX_PASSES + 1 && (k > 1 ==> mode.changed.Some?)
    case Draining(k) => 1 <= k <= PENDING_DRAIN_MAX_PASSES + 1 && (k > 1 ==> mode.changed.Some?)
    case DrainRead(k, _) => 1 <= k <= PENDING_DRAIN_MAX_PASSES + 1 && (k > 1 ==> mode.changed.Some?)
    case Drained(k, _) => 1 <= k <= PENDING_DRAIN_MAX_PASSES + 1 && (k > 1 ==> mode.changed.Some?)
    case Ready(k, listed, _) =>
      1 <= k <= PENDING_DRAIN_MAX_PASSES + 1 && (k > 1 ==> mode.changed.Some?) && (listed.Some? <==> mode.changed.Some?)
    case Running(k) => 1 <= k <= PENDING_DRAIN_MAX_PASSES + 1 && (k > 1 ==> mode.changed.Some?)
    case Releasing(n) => 1 <= n <= PENDING_DRAIN_MAX_PASSES + 1 && (mode.changed.None? ==> n == 1)
    case Finished(n) => 1 <= n <= PENDING_DRAIN_MAX_PASSES + 1 && (mode.changed.None? ==> n == 1)
    case _ => true
  }

  ghost predicate WellFormed(s: State) {
    forall p :: p in s.pc && p in s.mode ==> ReadyListsTaken(s.pc[p]) && PassBounds(s.pc[p], s.mode[p])
  }

  predicate InHand(pc: Pc, path: string) {
    (pc.Drained? || pc.Ready?) && path in pc.taken
  }

  /** A pass that processes the path: it lists it, or it is a full pass. */
  predicate Covers(e: Event, path: string) {
    e.Began? && (e.listed.None? || path in e.listed.value)
  }

  ghost predicate Journaled(s: State, path: string) { path in ParsePending(s.journal) }

  ghost predicate HeldBy(s: State, p: Pid, path: string) {
    p in s.pc && s.rebuildLock == Some(p) && InHand(s.pc[p], path)
  }

  /** The process began a pass covering the path after event `t`. */
  ghost predicate CoveredBy(s: State, t: nat, p: Pid, path: string) {
    exists j :: t < j < |s.history| && Covers(s.history[j], path) && s.history[j].pid == p
  }

  predicate TookPath(e: Event, path: string) { e.Took? && path in e.taken }

  /** A process took the path from the journal at event `t`, and has it in hand or began a pass
      covering it since. */
  ghost predicate SafeAt(s: State, t: nat, path: string) {
    t < |s.history| && TookPath(s.history[t], path) &&
    (HeldBy(s, s.history[t].pid, path) || CoveredBy(s, t, s.history[t].pid, path))
  }

  ghost predicate SafeAfter(s: State, i: nat, path: string) { exists t: nat :: i < t && SafeAt(s, t, path) }

  /** Where a queued path is: still journaled, or taken from the journal after it was queued, by a
      process that has it in hand or began a pass covering it after that. */
  ghost predicate Accounted(s: State, i: nat) {
    i < |s.history| && s.history[i].Queued? && Clean(s.history[i].path) ==>
      Journaled(s, s.history[i].path) || SafeAfter(s, i, s.history[i].path)
  }

  ghost predicate Conserved(s: State) {
    forall i: nat :: i < |s.history| ==> Accounted(s, i)
  }

  function BeganCount(history: seq<Event>, p: Pid): nat {
    if history == [] then 0
    else
      var e := history[|history| - 1];
      BeganCount(history[..|history| - 1], p) + if e.Began? && e.pid == p then 1 else 0
  }

  /** How many passes a process has begun, by where it is. */
  function BegunAt(pc: Pc): nat {
    match pc
    case WantDrain(k) => Before(k)
    case Draining(k) => Before(k)
    case DrainRead(k, _) => Before(k)
    case Drained(k, _) => Before(k)
    case Ready(k, _, _) => Before(k)
    case Running(k) => k
    case Releasing(n) => n
    case Finished(n) => n
    case _ => 0
  }

  function Before(k: nat): nat { if k == 0 then 0 else k - 1 }

  ghost predicate Counted(s: State) {
    forall p :: p in s.pc ==> BeganCount(s.history, p) == BegunAt(s.pc[p])
  }

  /** What a process took from the journal last. */
  function LastTaken(history: seq<Event>, p: Pid): Option<seq<string>> {
    if history == [] then None
    else
      var e := history[|history| - 1];
      if e.Took? && e.pid == p then Some(e.taken) else LastTaken(history[..|history| - 1], p)
  }

  /** What a process remembers of its last drain: an incremental one stops early only after an empty
      one. */
  ghost predicate Remembers(pc: Pc, mode: Mode, last: Option<seq<string>>) {
    match pc
    case Drained(_, taken) => last == Some(taken)
    case Releasing(n) => mode.changed.Some? && n < PENDING_DRAIN_MAX_PASSES + 1 ==> last == Some([])
    case Finished(n) => mode.changed.Some? && n < PENDING_DRAIN_MAX_PASSES + 1 ==> last == Some([])
    case _ => true
  }

  ghost predicate DrainsRemembered(s: State) {
    forall p :: p in s.pc && p in s.mode ==> Remembers(s.pc[p], s.mode[p], LastTaken(s.history, p))
  }

  /** The first pass of an incremental invocation listed every path it was asked for. */
  predicate ListsOwn(e: Event, p: Pid, changed: seq<string>) {
    e.Began? && e.pid == p && e.pass == 1 && e.listed.Some? && forall x :: x in changed ==> x in e.listed.value
  }

  ghost predicate OwnListed(s: State, p: Pid) {
    p in s.pc && p in s.mode && s.mode[p].changed.Some? ==>
      var changed := s.mode[p].changed.value;
      && (s.pc[p].Ready? && s.pc[p].pass == 1 ==>
            s.pc[p].listed.Some? && forall x :: x in changed ==> x in s.pc[p].listed.value)
      && (BegunAt(s.pc[p]) >= 1 ==> exists j :: 0 <= j < |s.history| && ListsOwn(s.history[j], p, changed))
  }

  ghost predicate Inv(s: State) {
    Exclusive(s) && JournalRead(s) && WellFormed(s) && Conserved(s) && Counted(s) &&
    DrainsRemembered(s) &&
    forall p :: OwnListed(s, p)
  }

  // ---- preservation ----

  /** A step moves one process and leaves every other where it was. */
  ghost predicate Moves(s: State, t: State, p: Pid) {
    && p in s.pc && t.pc.Keys == s.pc.Keys && t.mode == s.mode
    && forall q :: q in s.pc && q != p ==> t.pc[q] == s.pc[q]
  }

  lemma StepSets(s: State, t: State, p: Pid)
    requires Step(s, t, p)
    ensures t.mode == s.mode && p in s.pc && p in t.pc && t.pc == s.pc[p := t.pc[p]]
  {}

  lemma StepMoves(s: State, t: State, p: Pid)
    requires Step(s, t, p)
    ensures Moves(s, t, p)
  {
    StepSets(s, t, p);
    UpdateMoves(s.pc, t.pc, p);
  }

  lemma UpdateMoves(before: map<Pid, Pc>, after: map<Pid, Pc>, p: Pid)
    requires p in before && p in after && after == before[p := after[p]]
    ensures after.Keys == before.Keys && forall q :: q in before && q != p ==> after[q] == before[q]
  {}

  /** How a step treats the rebuild lock, seen from the process it moves. */
  lemma StepRebuildLock(s: State, t: State, p: Pid)
    requires Exclusive(s) && Step(s, t, p)
    ensures (t.rebuildLock == s.rebuildLock && InsideRebuild(t.pc[p]) == InsideRebuild(s.pc[p])) ||
            (s.rebuildLock.None? && t.rebuildLock == Some(p) && InsideRebuild(t.pc[p])) ||
            (s.rebuildLock == Some(p) && t.rebuildLock.None? && !InsideRebuild(t.pc[p]))
  {
    if !Acquire(s, t, p) && !Release(s, t, p) { RebuildLockStays(s, t, p); }
  }

  lemma RebuildLockStays(s: State, t: State, p: Pid)
    requires Step(s, t, p) && !Acquire(s, t, p) && !Release(s, t, p)
    ensures p in s.pc && p in t.pc && t.rebuildLock == s.rebuildLock
    ensures InsideRebuild(t.pc[p]) == InsideRebuild(s.pc[p])
  {}

  /** How a step treats the journal lock. */
  lemma StepJournalLock(s: State, t: State, p: Pid)
    requires Exclusive(s) && Step(s, t, p)
    ensures (t.journalLock == s.journalLock && InsideJournal(t.pc[p]) == InsideJournal(s.pc[p])) ||
            (s.journalLock.None? && t.journalLock == Some(p) && InsideJournal(t.pc[p])) ||
            (s.journalLock == Some(p) && t.journalLock.None? && !InsideJournal(t.pc[p]))
  {}

  lemma StepKeepsExclusive(s: State, t: State, p: Pid)
    requires Exclusive(s) && Step(s, t, p)
    ensures Exclusive(t)
  {
    StepMoves(s, t, p);
    StepRebuildLock(s, t, p);
    StepJournalLock(s, t, p);
  }

  lemma StepKeepsJournal(s: State, t: State, p: Pid)
    requires Exclusive(s) && JournalRead(s) && Step(s, t, p)
    ensures JournalRead(t)
  {
    StepMoves(s, t, p);
    forall q | q in t.pc && t.pc[q].DrainRead? ensures t.pc[q].raw == t.journal {
      if q != p {
        assert s.pc[q].DrainRead? && s.journalLock == Some(q);
        assert !InsideJournal(s.pc[p]);
      }
    }
  }

  lemma StepKeepsOwnForm(s: State, t: State, p: Pid)
    requires s.pc.Keys == s.mode.Keys && WellFormed(s) && Step(s, t, p)
    ensures p in t.pc && p in t.mode && ReadyListsTaken(t.pc[p]) && PassBounds(t.pc[p], t.mode[p])
  {
    assert ReadyListsTaken(s.pc[p]) && PassBounds(s.pc[p], s.mode[p]);
  }

  lemma StepKeepsWellFormed(s: State, t: State, p: Pid)
    requires s.pc.Keys == s.mode.Keys && WellFormed(s) && Step(s, t, p)
    ensures WellFormed(t)
  {
    StepMoves(s, t, p);
    StepKeepsOwnForm(s, t, p);
  }

  // ---- conservation, action by action ----

  lemma CoverageStays(s: State, t: State, e: nat, p: Pid, path: string)
    requires s.history <= t.history && CoveredBy(s, e, p, path)
    ensures CoveredBy(t, e, p, path)
  {
    var j :| e < j < |s.history| && Covers(s.history[j], path) && s.history[j].pid == p;
    assert Covers(t.history[j], path) && t.history[j].pid == p;
  }

  /** What the holder has in hand it keeps in hand, as long as the process that moves does. */
  lemma HandStays(s: State, t: State, p: Pid, q: Pid, path: string)
    requires Exclusive(s) && Exclusive(t) && Moves(s, t, p)
    requires InHand(s.pc[p], path) ==> InHand(t.pc[p], path)
    requires HeldBy(s, q, path)
    ensures HeldBy(t, q, path)
  {
    assert InHand(t.pc[q], path);
    assert InsideRebuild(t.pc[q]);
  }

  /** Emptying the journal puts all its paths in the hands of the lock holder. */
  lemma RemoveTakes(s: State, t: State, p: Pid, i: nat, path: string)
    requires Exclusive(s) && JournalRead(s) && Exclusive(t) && RemoveJournal(s, t, p)
    requires i < |s.history| && Journaled(s, path)
    ensures SafeAfter(t, i, path)
  {
    var e := |s.history|;
    assert TookPath(t.history[e], path) && t.history[e].pid == p;
    assert InHand(t.pc[p], path) && t.rebuildLock == Some(p);
    assert SafeAt(t, e, path);
  }

  /** A pass that begins covers everything its holder had in hand. */
  lemma BeginCovers(s: State, t: State, p: Pid, q: Pid, e: nat, path: string)
    requires Exclusive(s) && WellFormed(s) && Begin(s, t, p) && e < |s.history|
    requires HeldBy(s, q, path)
    ensures CoveredBy(t, e, q, path)
  {
    assert InsideRebuild(s.pc[p]) && q == p;
    assert ReadyListsTaken(s.pc[p]);
    assert Covers(t.history[|s.history|], path);
  }

  /** Whoever holds a path before any other step still holds it. */
  lemma HolderStays(s: State, t: State, p: Pid, q: Pid, path: string)
    requires Exclusive(s) && Exclusive(t) && Step(s, t, p) && !Begin(s, t, p) && HeldBy(s, q, path)
    ensures HeldBy(t, q, path)
  {
    StepMoves(s, t, p);
    if !Decide(s, t, p) { NothingInHand(s, t, p); }
    HandStays(s, t, p, q, path);
  }

  predicate EmptyHanded(pc: Pc) { !pc.Drained? && !pc.Ready? }

  /** Only a process that decides or begins has something in hand. */
  lemma NothingInHand(s: State, t: State, p: Pid)
    requires Step(s, t, p) && !Decide(s, t, p) && !Begin(s, t, p)
    ensures p in s.pc && EmptyHanded(s.pc[p])
  {}

  /** Only writing and removing change the journal. */
  lemma JournalStays(s: State, t: State, p: Pid)
    requires Step(s, t, p) && !WriteLine(s, t, p) && !RemoveJournal(s, t, p)
    ensures t.journal == s.journal
  {}

  lemma SafeStays(s: State, t: State, p: Pid, e: nat, path: string)
    requires Exclusive(s) && WellFormed(s) && Exclusive(t) && Step(s, t, p) && SafeAt(s, e, path)
    ensures SafeAt(t, e, path)
  {
    HistoryGrows(s, t, p);
    var q := s.history[e].pid;
    assert t.history[e] == s.history[e];
    if CoveredBy(s, e, q, path) {
      CoverageStays(s, t, e, q, path);
    } else if Begin(s, t, p) {
      BeginCovers(s, t, p, q, e, path);
    } else {
      HolderStays(s, t, p, q, path);
    }
  }

  lemma PathStays(s: State, t: State, p: Pid, i: nat, path: string)
    requires Exclusive(s) && JournalRead(s) && WellFormed(s) && Exclusive(t) && Step(s, t, p)
    requires i < |s.history| && (Journaled(s, path) || SafeAfter(s, i, path))
    ensures Journaled(t, path) || SafeAfter(t, i, path)
  {
    if SafeAfter(s, i, path) {
      var e: nat :| i < e && SafeAt(s, e, path);
      SafeStays(s, t, p, e, path);
    } else if RemoveJournal(s, t, p) {
      RemoveTakes(s, t, p, i, path);
    } else if WriteLine(s, t, p) {
      AppendKeeps(s.journal, s.pc[p].rest[0], path);
    } else {
      JournalStays(s, t, p);
    }
  }

  lemma StepKeepsConserved(s: State, t: State, p: Pid)
    requires Inv(s) && Exclusive(t) && Step(s, t, p)
    ensures Conserved(t)
  {
    forall i: nat | i < |t.history| && t.history[i].Queued? && Clean(t.history[i].path) ensures Accounted(t, i) {
      var path := t.history[i].path;
      if i < |s.history| {
        HistoryGrows(s, t, p);
        assert t.history[i] == s.history[i];
        assert Accounted(s, i);
        PathStays(s, t, p, i, path);
      } else {
        NewlyQueued(s, t, p, i);
      }
    }
  }

  lemma HistoryGrows(s: State, t: State, p: Pid)
    requires Step(s, t, p)
    ensures s.history <= t.history
  {}

  lemma NewlyQueued(s: State, t: State, p: Pid, i: nat)
    requires JournalRead(s) && Step(s, t, p)
    requires |s.history| <= i < |t.history| && t.history[i].Queued? && Clean(t.history[i].path)
    ensures Journaled(t, t.history[i].path)
  {
    assert WriteLine(s, t, p);
    AppendKeeps(s.journal, t.history[i].path, "");
  }

  lemma BeganStep(history: seq<Event>, e: Event, p: Pid)
    ensures BeganCount(history + [e], p) == BeganCount(history, p) + if e.Began? && e.pid == p then 1 else 0
  {
    assert (history + [e])[..|history|] == history;
  }

  /** Only beginning a pass adds to a process's count, by one, and it adds to nobody else's. */
  lemma StepCounts(s: State, t: State, p: Pid, q: Pid)
    requires Step(s, t, p)
    ensures BeganCount(t.history, q) == BeganCount(s.history, q) + if Begin(s, t, p) && p == q then 1 else 0
  {
    if WriteLine(s, t, p) {
      BeganStep(s.history, Queued(p, s.pc[p].rest[0]), q);
    } else if RemoveJournal(s, t, p) {
      BeganStep(s.history, Took(p, ParsePending(s.pc[p].raw)), q);
    } else if Begin(s, t, p) {
      BeganStep(s.history, Began(p, s.pc[p].pass, s.pc[p].listed), q);
    } else if End(s, t, p) {
      BeganStep(s.history, Ended(p, s.pc[p].pass), q);
    }
  }

  lemma OwnCount(s: State, t: State, p: Pid)
    requires Step(s, t, p) && p in s.mode && PassBounds(s.pc[p], s.mode[p])
    ensures p in t.pc && BegunAt(t.pc[p]) == BegunAt(s.pc[p]) + if Begin(s, t, p) then 1 else 0
  {}

  lemma StepKeepsCount(s: State, t: State, p: Pid, q: Pid)
    requires Step(s, t, p) && Moves(s, t, p) && q in s.pc && BeganCount(s.history, q) == BegunAt(s.pc[q])
    requires BegunAt(t.pc[p]) == BegunAt(s.pc[p]) + if Begin(s, t, p) then 1 else 0
    ensures BeganCount(t.history, q) == BegunAt(t.pc[q])
  {
    StepCounts(s, t, p, q);
  }

  lemma StepKeepsCounted(s: State, t: State, p: Pid)
    requires s.pc.Keys == s.mode.Keys && WellFormed(s) && Counted(s) && Step(s, t, p)
    ensures Counted(t)
  {
    StepMoves(s, t, p);
    assert PassBounds(s.pc[p], s.mode[p]);
    OwnCount(s, t, p);
    forall q | q in t.pc ensures BeganCount(t.history, q) == BegunAt(t.pc[q]) { StepKeepsCount(s, t, p, q); }
  }

  lemma TakenStep(history: seq<Event>, e: Event, p: Pid)
    ensures LastTaken(history + [e], p) == if e.Took? && e.pid == p then Some(e.taken) else LastTaken(history, p)
  {
    assert (history + [e])[..|history|] == history;
  }

  /** Only emptying the journal changes what a process took last, and nobody else's. */
  lemma StepTakes(s: State, t: State, p: Pid, q: Pid)
    requires Step(s, t, p)
    ensures LastTaken(t.history, q) ==
            if RemoveJournal(s, t, p) && p == q then Some(ParsePending(s.pc[p].raw)) else LastTaken(s.history, q)
  {
    if WriteLine(s, t, p) {
      TakenStep(s.history, Queued(p, s.pc[p].rest[0]), q);
    } else if RemoveJournal(s, t, p) {
      TakenStep(s.history, Took(p, ParsePending(s.pc[p].raw)), q);
    } else if Begin(s, t, p) {
      TakenStep(s.history, Began(p, s.pc[p].pass, s.pc[p].listed), q);
    } else if End(s, t, p) {
      TakenStep(s.history, Ended(p, s.pc[p].pass), q);
    }
  }

  lemma OwnRemembered(s: State, t: State, p: Pid, last: Option<seq<string>>)
    requires Step(s, t, p) && p in s.mode && p in t.pc && Remembers(s.pc[p], s.mode[p], last)
    requires !RemoveJournal(s, t, p) && PassBounds(s.pc[p], s.mode[p])
    ensures Remembers(t.pc[p], s.mode[p], last)
  {}

  lemma StepKeepsRemembered(s: State, t: State, p: Pid)
    requires s.pc.Keys == s.mode.Keys && WellFormed(s) && DrainsRemembered(s) && Step(s, t, p)
    ensures DrainsRemembered(t)
  {
    StepMoves(s, t, p);
    assert PassBounds(s.pc[p], s.mode[p]);
    forall q | q in t.pc && q in t.mode ensures Remembers(t.pc[q], t.mode[q], LastTaken(t.history, q)) {
      StepTakes(s, t, p, q);
      assert Remembers(s.pc[q], s.mode[q], LastTaken(s.history, q));
      if q == p && !RemoveJournal(s, t, p) { OwnRemembered(s, t, p, LastTaken(s.history, p)); }
    }
  }

  lemma OwnStays(s: State, t: State, p: Pid, changed: seq<string>)
    requires s.history <= t.history
    requires exists j :: 0 <= j < |s.history| && ListsOwn(s.history[j], p, changed)
    ensures exists j :: 0 <= j < |t.history| && ListsOwn(t.history[j], p, changed)
  {
    var j :| 0 <= j < |s.history| && ListsOwn(s.history[j], p, changed);
    assert ListsOwn(t.history[j], p, changed);
  }

  lemma StepKeepsOwnListed(s: State, t: State, p: Pid, q: Pid)
    requires s.pc.Keys == s.mode.Keys && WellFormed(s) && OwnListed(s, q) && Step(s, t, p)
    ensures OwnListed(t, q)
  {
    StepMoves(s, t, p);
    HistoryGrows(s, t, p);
    if q in t.pc && q in t.mode && t.mode[q].changed.Some? {
      var changed := t.mode[q].changed.value;
      if BegunAt(s.pc[q]) >= 1 { OwnStays(s, t, q, changed); }
      if q == p {
        assert PassBounds(s.pc[p], s.mode[p]);
        if Begin(s, t, p) && s.pc[p].pass == 1 {
          assert ListsOwn(t.history[|s.history|], p, changed);
        }
        assert BegunAt(t.pc[p]) >= 1 ==> BegunAt(s.pc[p]) >= 1 || (Begin(s, t, p) && s.pc[p].pass == 1);
      }
    }
  }

  lemma StepKeepsInv(s: State, t: State, p: Pid)
    requires Inv(s) && Step(s, t, p)
    ensures Inv(t)
  {
    StepKeepsExclusive(s, t, p);
    StepKeepsJournal(s, t, p);
    StepKeepsWellFormed(s, t, p);
    StepKeepsConserved(s, t, p);
    StepKeepsCounted(s, t, p);
    StepKeepsRemembered(s, t, p);
    forall q ensures OwnListed(t, q) { StepKeepsOwnListed(s, t, p, q); }
  }

  lemma {:induction false} RunKeepsInv(run: seq<State>, schedule: seq<Pid>, k: nat)
    requires Run(run, schedule) && k < |run|
    ensures Inv(run[k])
    decreases k
  {
    if k > 0 {
      RunKeepsInv(run, schedule, k - 1);
      StepKeepsInv(run[k - 1], run[k], schedule[k - 1]);
    }
  }

  // ---- what holds in every run ----

  /** No queued path is ever lost: in every state of every run, each clean path that was queued is in
      the journal, or was taken from it afterwards by a process that has it in hand or has since begun
      a pass covering it: an incremental pass listing it or a full one. */
  lemma NothingIsLost(run: seq<State>, schedule: seq<Pid>, k: nat, i: nat)
    requires Run(run, schedule) && k < |run|
    requires i < |run[k].history| && run[k].history[i].Queued? && Clean(run[k].history[i].path)
    ensures var path := run[k].history[i].path;
            Journaled(run[k], path) || SafeAfter(run[k], i, path)
  {
    RunKeepsInv(run, schedule, k);
    assert Accounted(run[k], i);
  }

  /** Passes never overlap. */
  lemma PassesExclude(run: seq<State>, schedule: seq<Pid>, k: nat, p: Pid, q: Pid)
    requires Run(run, schedule) && k < |run|
    requires p in run[k].pc && q in run[k].pc && run[k].pc[p].Running? && run[k].pc[q].Running?
    ensures p == q
  {
    RunKeepsInv(run, schedule, k);
    assert InsideRebuild(run[k].pc[p]) && InsideRebuild(run[k].pc[q]);
  }

  /** An incremental holder begins at most 21 passes, and fewer only if it last took nothing from the
      journal; its first pass lists every path it was asked for. A full holder begins exactly
      one pass. */
  lemma PassesBounded(run: seq<State>, schedule: seq<Pid>, k: nat, p: Pid)
    requires Run(run, schedule) && k < |run| && p in run[k].pc && p in run[k].mode && run[k].pc[p].Finished?
    ensures var s := run[k];
            && 1 <= BeganCount(s.history, p) <= 21
            && (s.mode[p].changed.None? ==> BeganCount(s.history, p) == 1)
            && (s.mode[p].changed.Some? && BeganCount(s.history, p) < 21 ==> LastTaken(s.history, p) == Some([]))
            && (s.mode[p].changed.Some? ==>
                  exists j :: 0 <= j < |s.history| && ListsOwn(s.history[j], p, s.mode[p].changed.value))
  {
    RunKeepsInv(run, schedule, k);
    assert PassBounds(run[k].pc[p], run[k].mode[p]);
    assert Remembers(run[k].pc[p], run[k].mode[p], LastTaken(run[k].history, p));
    assert OwnListed(run[k], p);
  }
}
