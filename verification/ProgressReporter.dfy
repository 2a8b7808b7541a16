/** The event stream of one build: started, phases, and one terminal event. */
module ProgressReporter {
  import opened Wrappers
  import opened ProgressThrottle

  datatype Phase =
    | Waiting | Auditing | Scanning | Extracting | Building | Reconciling | MergingNodes | ResolvingEdges
    | Deduplicating | Clustering | Publishing

  datatype Counts = Counts(processed: nat, total: nat)

  datatype Status = Rebuilt | Unchanged | NoTrackedChanges | Queued | RefusedShrink

  datatype Event =
    | Started
    | InPhase(phase: Phase, counts: Option<Counts>)
    | Completed(status: Status)
    | NotCompleted(status: Status)
    | Failed

  /** A build that was put off or refused is not reported as completed. */
  function EventFor(status: Status): Event {
    if status == Queued || status == RefusedShrink then NotCompleted(status) else Completed(status)
  }

  predicate Terminal(e: Event) { e.Completed? || e.NotCompleted? || e.Failed? }

  /** Within a phase only counts follow, of one total and never falling. */
  predicate Follows(a: Event, b: Event) {
    a.InPhase? && b.InPhase? && a.phase == b.phase ==>
      b.counts.Some? &&
      (a.counts.Some? ==>
         a.counts.value.total == b.counts.value.total && a.counts.value.processed <= b.counts.value.processed)
  }

  ghost predicate Orderly(log: seq<Event>) {
    forall i :: 0 < i < |log| ==> Follows(log[i - 1], log[i])
  }

  /** Started first and only first, no terminal event yet. */
  ghost predicate Open(log: seq<Event>) {
    log != [] && log[0] == Started && forall i :: 0 < i < |log| ==> log[i].InPhase?
  }

  /** A whole stream: nothing at all, or started, phases, and exactly one terminal event at the end. */
  ghost predicate Whole(log: seq<Event>) {
    log == [] || (Terminal(log[|log| - 1]) && Open(log[..|log| - 1]))
  }

  ghost predicate Broken(log: seq<Event>) {
    log != [] && (log[0] != Started || exists i :: 0 <= i < |log| - 1 && Terminal(log[i]))
  }

  class Reporter {
    const json: bool
    const human: bool
    var started: bool
    var finished: bool
    var lastPhase: Option<Phase>
    var lastProcessed: Option<nat>
    var lastTotal: Option<nat>
    var lastCounterEmit: Option<int>
    var log: seq<Event>
    /** The owner completed a build that had not started, or completed it again. */
    ghost var misused: bool

    ghost predicate Valid() reads this {
      Orderly(log) && (!json ==> log == []) && (json && misused ==> Broken(log)) &&
      (json && !misused ==>
         (!started ==> log == [] && !finished) && (started && !finished ==> Open(log)) &&
         (finished ==> log != [] && Whole(log))) &&
      LastShown()
    }

    /** The fields remember the phase last shown and at least its count. */
    ghost predicate LastShown() reads this {
      log != [] && log[|log| - 1].InPhase? ==>
        var last := log[|log| - 1];
        lastPhase == Some(last.phase) &&
        (last.counts.Some? ==>
           lastTotal == Some(last.counts.value.total) &&
           lastProcessed.Some? && last.counts.value.processed <= lastProcessed.value)
    }

    /** The last count of the total being shown, not yet seen. */
    predicate FinalCount(counts: Counts) reads this {
      counts.processed == counts.total && lastTotal == Some(counts.total) &&
      lastProcessed.Some? && lastProcessed.value < counts.processed
    }

    predicate InOrder(counts: Counts) reads this {
      (lastTotal.None? || lastTotal.value == counts.total) &&
      (lastProcessed.None? || lastProcessed.value <= counts.processed)
    }

    /** A new phase always shows; within one, only counts that do not fall and are final or due. */
    predicate Shows(phase: Phase, counts: Option<Counts>, now: int) reads this {
      started && !finished &&
      (lastPhase != Some(phase) ||
       (counts.Some? && InOrder(counts.value) &&
        ((counts.value.processed == counts.value.total && lastProcessed != Some(counts.value.processed)) ||
         lastCounterEmit.None? || Saturating(lastCounterEmit.value, now) >= EMIT_INTERVAL)))
    }

    constructor (json: bool, human: bool)
      ensures Valid() && !misused && !started && !finished && log == [] && this.json == json
    {
      this.json, this.human := json, human;
      started, finished, misused := false, false, false;
      lastPhase, lastProcessed, lastTotal, lastCounterEmit := None, None, None, None;
      log := [];
    }

    method Emit(e: Event)
      modifies this`log
      ensures log == if json then old(log) + [e] else old(log)
    {
      if json { log := log + [e]; }
    }

    method Start()
      requires Valid()
      modifies this
      ensures Valid() && started && finished == old(finished) && misused == old(misused)
      ensures log == if json && !old(started) then old(log) + [Started] else old(log)
    {
      if started { return; }
      started := true;
      Emit(Started);
      BrokenStays(old(log), log);
    }

    /** Shown when the phase changes; within a phase only counts that are final or due. */
    method EnterPhase(phase: Phase, counts: Option<Counts>, now: int)
      requires Valid()
      modifies this
      ensures Valid() && started == old(started) && finished == old(finished) && misused == old(misused)
      ensures log == if json && old(Shows(phase, counts, now)) then old(log) + [InPhase(phase, counts)] else old(log)
      ensures json && started && !finished && counts.Some? && old(FinalCount(counts.value)) ==>
        log == old(log) + [InPhase(phase, counts)]
    {
      if !started || finished || !(json || human) { return; }
      if lastPhase == Some(phase) {
        if counts.None? { return; }
        var processed, total := counts.value.processed, counts.value.total;
        if (lastTotal.Some? && lastTotal.value != total) || (lastProcessed.Some? && processed < lastProcessed.value) {
          return;
        }
        var final := processed == total && lastProcessed != Some(processed);
        var due := lastCounterEmit.None? || Saturating(lastCounterEmit.value, now) >= EMIT_INTERVAL;
        if !final && !due {
          lastProcessed := Some(processed);
          return;
        }
      }
      Show(phase, counts, now);
    }

    method Show(phase: Phase, counts: Option<Counts>, now: int)
      requires Valid() && started && !finished
      requires lastPhase == Some(phase) ==> counts.Some? && InOrder(counts.value)
      modifies this`log, this`lastPhase, this`lastProcessed, this`lastTotal, this`lastCounterEmit
      ensures Valid() && log == if json then old(log) + [InPhase(phase, counts)] else old(log)
    {
      Emit(InPhase(phase, counts));
      lastPhase := Some(phase);
      lastProcessed := if counts.Some? then Some(counts.value.processed) else None;
      lastTotal := if counts.Some? then Some(counts.value.total) else None;
      lastCounterEmit := if counts.Some? then Some(now) else None;
      BrokenStays(old(log), log);
    }

    method Complete(status: Status)
      requires Valid()
      modifies this
      ensures Valid() && finished && started == old(started)
      ensures log == if json then old(log) + [EventFor(status)] else old(log)
      ensures misused == (old(misused) || !old(started) || old(finished))
    {
      misused := misused || !started || finished;
      EmitFinal(status);
      finished := true;
      BrokenStays(old(log), log);
      if json { FinalEvent(old(log), EventFor(status)); }
    }

    method EmitFinal(status: Status)
      modifies this`log
      ensures log == if json then old(log) + [EventFor(status)] else old(log)
    {
      match status {
        case Queued => Emit(NotCompleted(status));
        case RefusedShrink => Emit(NotCompleted(status));
        case _ => Emit(Completed(status));
      }
    }

    /** Leaving scope: the stream is whole exactly when completion was reported properly. */
    method Drop()
      requires Valid()
      modifies this
      ensures log == if json && old(started && !finished) then old(log) + [Failed] else old(log)
      ensures misused == old(misused) && (json ==> (Whole(log) <==> !misused))
      ensures Orderly(log)
    {
      if started && !finished { Emit(Failed); }
      BrokenStays(old(log), log);
      if Whole(log) { WholeIsNotBroken(log); }
    }
  }

  /** A terminal event follows anything, and makes an open stream whole and any other one broken. */
  lemma FinalEvent(log: seq<Event>, e: Event)
    requires Orderly(log) && Terminal(e)
    ensures Orderly(log + [e]) && (Open(log) ==> Whole(log + [e])) && (log == [] ==> Broken(log + [e]))
  {
    assert (log + [e])[..|log|] == log;
  }

  lemma BrokenStays(log: seq<Event>, longer: seq<Event>)
    requires log <= longer
    ensures Broken(log) ==> Broken(longer)
    ensures log != [] && Terminal(log[|log| - 1]) && |log| < |longer| ==> Broken(longer)
  {
    if Broken(log) && log[0] == Started {
      var i :| 0 <= i < |log| - 1 && Terminal(log[i]);
      assert Terminal(longer[i]);
    }
    if log != [] && Terminal(log[|log| - 1]) && |log| < |longer| { assert Terminal(longer[|log| - 1]); }
  }

  lemma WholeIsNotBroken(log: seq<Event>)
    requires Whole(log)
    ensures !Broken(log)
  {
    if log != [] {
      var open := log[..|log| - 1];
      assert open[0] == log[0];
      forall i | 0 <= i < |log| - 1 ensures !Terminal(log[i]) { assert open[i] == log[i]; }
    }
  }
}
