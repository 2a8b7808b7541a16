/** Taking the inline code out of one line of Markdown. */
module InlineCode {
  import opened Wrappers

  predicate Ticks(s: string, i: nat, k: nat)
    requires i <= k <= |s|
  {
    forall j :: i <= j < k ==> s[j] == '`'
  }

  predicate NoTicks(s: string, i: nat, k: nat)
    requires i <= k <= |s|
  {
    forall j :: i <= j < k ==> s[j] != '`'
  }

  /** A maximal run of exactly `n` backticks at `i`. */
  predicate RunAt(s: string, i: nat, n: nat) {
    n > 0 && i + n <= |s| && Ticks(s, i, i + n) && (i > 0 ==> s[i - 1] != '`') && (i + n < |s| ==> s[i + n] != '`')
  }

  /** No run of that length starts there. */
  ghost predicate NoRun(s: string, from: nat, until: nat, n: nat) {
    forall j: nat :: from <= j < until ==> !RunAt(s, j, n)
  }

  /** The first run from `from` on. */
  ghost predicate Opens(s: string, from: nat, i: nat, n: nat) {
    from <= i <= |s| && NoTicks(s, from, i) && RunAt(s, i, n)
  }

  /** Inline code: a run, and the next run of the same length. */
  datatype Span = Span(start: nat, count: nat, closing: nat)

  function After(span: Span): nat { span.closing + span.count }

  ghost predicate IsSpan(s: string, from: nat, span: Span) {
    Opens(s, from, span.start, span.count) && span.start + span.count <= span.closing &&
    RunAt(s, span.closing, span.count) && NoRun(s, span.start + span.count, span.closing, span.count)
  }

  /** A run no later run matches. */
  datatype Run = Run(start: nat, count: nat)

  ghost predicate IsUnmatched(s: string, from: nat, run: Run) {
    Opens(s, from, run.start, run.count) && NoRun(s, run.start + run.count, |s|, run.count)
  }

  /** The spans of a line from left to right, and the unmatched run that ends the search, if one does. */
  ghost predicate CodeSpans(s: string, from: nat, spans: seq<Span>, stuck: Option<Run>)
    decreases |spans|
  {
    from <= |s| &&
    if spans != [] then IsSpan(s, from, spans[0]) && CodeSpans(s, After(spans[0]), spans[1..], stuck)
    else match stuck
         case None => NoTicks(s, from, |s|)
         case Some(run) => IsUnmatched(s, from, run)
  }

  /** The line without the spans. */
  function Without(s: string, from: nat, spans: seq<Span>): string
    decreases |spans|
  {
    if spans == [] then if from <= |s| then s[from..] else ""
    else
      (if from <= spans[0].start <= |s| then s[from..spans[0].start] else "") +
      Without(s, After(spans[0]), spans[1..])
  }

  // ---- the scan ----

  method FindTick(line: string, from: nat) returns (k: nat)
    requires from <= |line|
    ensures from <= k <= |line| && NoTicks(line, from, k) && (k < |line| ==> line[k] == '`')
  {
    k := from;
    while k < |line| && line[k] != '`'
      invariant from <= k <= |line| && NoTicks(line, from, k)
    {
      k := k + 1;
    }
  }

  method CountTicks(line: string, from: nat) returns (n: nat)
    requires from <= |line|
    ensures from + n <= |line| && Ticks(line, from, from + n) && (from + n < |line| ==> line[from + n] != '`')
  {
    n := 0;
    while from + n < |line| && line[from + n] == '`'
      invariant from + n <= |line| && Ticks(line, from, from + n)
    {
      n := n + 1;
    }
  }

  /** Not inside a run of backticks. */
  predicate Between(s: string, i: nat) {
    i <= |s| && (i == 0 || i == |s| || s[i - 1] != '`' || s[i] != '`')
  }

  lemma SameRun(s: string, i: nat, n: nat, m: nat)
    requires RunAt(s, i, n) && RunAt(s, i, m)
    ensures n == m
  {}

  lemma NoRunBeforeTick(s: string, from: nat, k: nat, n: nat)
    requires from <= k <= |s| && NoTicks(s, from, k)
    ensures NoRun(s, from, k, n)
  {
    forall j: nat | from <= j < k ensures !RunAt(s, j, n) { assert s[j] != '`'; }
  }

  lemma NoRunInside(s: string, i: nat, n: nat, m: nat)
    requires RunAt(s, i, n) && n != m
    ensures NoRun(s, i, i + n, m)
  {
    forall j: nat | i <= j < i + n ensures !RunAt(s, j, m) {
      if j > i { assert s[j - 1] == '`'; } else if RunAt(s, i, m) { SameRun(s, i, n, m); }
    }
  }

  /** Going from run to run, the next one of the same length. */
  method MatchingRun(line: string, opening: nat, count: nat) returns (closing: Option<nat>)
    requires RunAt(line, opening, count)
    ensures closing.Some? ==>
      opening + count <= closing.value && RunAt(line, closing.value, count) &&
      NoRun(line, opening + count, closing.value, count)
    ensures closing.None? ==> NoRun(line, opening + count, |line|, count)
  {
    var search := opening + count;
    while search < |line|
      invariant opening + count <= search <= |line| && (search < |line| ==> line[search] != '`')
      invariant NoRun(line, opening + count, search, count)
    {
      var candidate := FindTick(line, search);
      NoRunBeforeTick(line, search, candidate, count);
      if candidate == |line| { break; }
      var length := CountTicks(line, candidate);
      if length == count { return Some(candidate); }
      NoRunInside(line, candidate, length, count);
      search := candidate + length;
    }
    closing := None;
  }

  /** The next inline code from the cursor on, or how the search ends there. */
  method NextCode(line: string, cursor: nat) returns (span: Option<Span>, stuck: Option<Run>)
    requires Between(line, cursor)
    ensures span.Some? ==> IsSpan(line, cursor, span.value) && Between(line, After(span.value))
    ensures span.None? ==> CodeSpans(line, cursor, [], stuck)
  {
    stuck := None;
    var opening := FindTick(line, cursor);
    if opening == |line| { return None, None; }
    var count := CountTicks(line, opening);
    var closing := MatchingRun(line, opening, count);
    if closing.None? { return None, Some(Run(opening, count)); }
    span := Some(Span(opening, count, closing.value));
  }

  method WithoutInlineCode(line: string) returns (visible: string, spans: seq<Span>, stuck: Option<Run>)
    ensures CodeSpans(line, 0, spans, stuck) && visible == Without(line, 0, spans)
  {
    visible, spans := "", [];
    var cursor := 0;
    var span;
    span, stuck := NextCode(line, cursor);
    while span.Some?
      invariant Between(line, cursor) && Done(line, spans, cursor, visible)
      invariant if span.Some? then IsSpan(line, cursor, span.value) && Between(line, After(span.value))
                else CodeSpans(line, cursor, [], stuck)
      decreases |line| - cursor, span
    {
      DoneNext(line, spans, cursor, visible, span.value);
      spans := spans + [span.value];
      visible := visible + line[cursor..span.value.start];
      cursor := After(span.value);
      span, stuck := NextCode(line, cursor);
    }
    Finish(line, spans, cursor, visible, stuck);
    visible := visible + line[cursor..];
  }

  /** The spans found so far, and what is kept before the cursor. */
  ghost predicate Done(s: string, spans: seq<Span>, cursor: nat, visible: string) {
    cursor <= |s| && Chain(InLine(s), 0, spans, cursor) && Before(s, 0, spans) == visible
  }

  /** Spans each of which stands behind the one before it. */
  ghost predicate Chain(ok: (nat, Span) -> bool, from: nat, spans: seq<Span>, cursor: nat)
    decreases |spans|
  {
    if spans == [] then from == cursor else ok(from, spans[0]) && Chain(ok, After(spans[0]), spans[1..], cursor)
  }

  ghost function InLine(s: string): (nat, Span) -> bool { (from: nat, span: Span) => IsSpan(s, from, span) }

  ghost function Before(s: string, from: nat, spans: seq<Span>): string
    decreases |spans|
  {
    if spans == [] then ""
    else
      (if from <= spans[0].start <= |s| then s[from..spans[0].start] else "") +
      Before(s, After(spans[0]), spans[1..])
  }

  lemma DoneNext(s: string, spans: seq<Span>, cursor: nat, visible: string, span: Span)
    requires Done(s, spans, cursor, visible) && IsSpan(s, cursor, span)
    ensures Done(s, spans + [span], After(span), visible + s[cursor..span.start])
  {
    ChainNext(InLine(s), 0, spans, cursor, span);
    BeforeNext(InLine(s), s, 0, spans, cursor, span);
  }

  lemma {:induction false} ChainNext(ok: (nat, Span) -> bool, from: nat, spans: seq<Span>, cursor: nat, span: Span)
    requires Chain(ok, from, spans, cursor) && ok(cursor, span)
    ensures Chain(ok, from, spans + [span], After(span))
    decreases |spans|
  {
    var more := spans + [span];
    if spans == [] {
      assert more[0] == span && more[1..] == [];
    } else {
      assert more[0] == spans[0] && more[1..] == spans[1..] + [span];
      ChainNext(ok, After(spans[0]), spans[1..], cursor, span);
    }
  }

  lemma {:induction false} BeforeNext(
    ok: (nat, Span) -> bool, s: string, from: nat, spans: seq<Span>, cursor: nat, span: Span)
    requires Chain(ok, from, spans, cursor) && cursor <= span.start <= |s|
    ensures Before(s, from, spans + [span]) == Before(s, from, spans) + s[cursor..span.start]
    decreases |spans|
  {
    var more := spans + [span];
    if spans == [] {
      assert more[0] == span && more[1..] == [];
    } else {
      assert more[0] == spans[0] && more[1..] == spans[1..] + [span];
      BeforeNext(ok, s, After(spans[0]), spans[1..], cursor, span);
    }
  }

  lemma {:induction false} WithoutBefore(ok: (nat, Span) -> bool, s: string, from: nat, spans: seq<Span>, cursor: nat)
    requires Chain(ok, from, spans, cursor) && cursor <= |s|
    ensures Without(s, from, spans) == Before(s, from, spans) + s[cursor..]
    decreases |spans|
  {
    if spans != [] { WithoutBefore(ok, s, After(spans[0]), spans[1..], cursor); }
  }

  lemma {:induction false} ChainEnds(s: string, from: nat, spans: seq<Span>, cursor: nat, stuck: Option<Run>)
    requires Chain(InLine(s), from, spans, cursor) && CodeSpans(s, cursor, [], stuck)
    ensures CodeSpans(s, from, spans, stuck)
    decreases |spans|
  {
    if spans != [] {
      assert IsSpan(s, from, spans[0]);
      ChainEnds(s, After(spans[0]), spans[1..], cursor, stuck);
    }
  }

  lemma Finish(s: string, spans: seq<Span>, cursor: nat, visible: string, stuck: Option<Run>)
    requires Done(s, spans, cursor, visible) && CodeSpans(s, cursor, [], stuck)
    ensures CodeSpans(s, 0, spans, stuck) && Without(s, 0, spans) == visible + s[cursor..]
  {
    ChainEnds(s, 0, spans, cursor, stuck);
    WithoutBefore(InLine(s), s, 0, spans, cursor);
  }

  // ---- the spans are determined by the line ----

  lemma SameOpening(s: string, from: nat, i: nat, n: nat, j: nat, m: nat)
    requires Opens(s, from, i, n) && Opens(s, from, j, m)
    ensures i == j && n == m
  {
    assert s[i] == '`' && s[j] == '`';
    SameRun(s, i, n, m);
  }

  lemma SameSpan(s: string, from: nat, a: Span, b: Span)
    requires IsSpan(s, from, a) && IsSpan(s, from, b)
    ensures a == b
  {
    SameOpening(s, from, a.start, a.count, b.start, b.count);
  }

  /** A line has one reading: no other spans, and no other unmatched run. */
  lemma {:induction false} OneReading(s: string, from: nat, a: seq<Span>, x: Option<Run>, b: seq<Span>, y: Option<Run>)
    requires CodeSpans(s, from, a, x) && CodeSpans(s, from, b, y)
    ensures a == b && x == y
    decreases |a|
  {
    if a == [] && b == [] {
      StuckTick(s, from, x);
      StuckTick(s, from, y);
    }
    if a != [] && b != [] {
      SameSpan(s, from, a[0], b[0]);
      OneReading(s, After(a[0]), a[1..], x, b[1..], y);
      assert a == [a[0]] + a[1..] && b == [b[0]] + b[1..];
    } else if a != [] {
      NotBoth(s, from, a[0], y);
    } else if b != [] {
      NotBoth(s, from, b[0], x);
    } else if x.Some? && y.Some? {
      SameOpening(s, from, x.value.start, x.value.count, y.value.start, y.value.count);
    }
  }

  lemma StuckTick(s: string, from: nat, stuck: Option<Run>)
    requires CodeSpans(s, from, [], stuck)
    ensures stuck == None <==> NoTicks(s, from, |s|)
  {
    if stuck.Some? { assert s[stuck.value.start] == '`'; }
  }

  lemma NotBoth(s: string, from: nat, span: Span, stuck: Option<Run>)
    requires IsSpan(s, from, span)
    ensures !CodeSpans(s, from, [], stuck)
  {
    assert s[span.start] == '`';
    if stuck.Some? && IsUnmatched(s, from, stuck.value) {
      SameOpening(s, from, span.start, span.count, stuck.value.start, stuck.value.count);
    }
  }

  /** Every line has a reading. */
  lemma {:induction false} ReadingExists(s: string, from: nat) returns (spans: seq<Span>, stuck: Option<Run>)
    requires Between(s, from)
    ensures CodeSpans(s, from, spans, stuck)
    decreases |s| - from
  {
    spans, stuck := [], None;
    if !NoTicks(s, from, |s|) {
      var run := FirstRun(s, from);
      var i, n := run.start, run.count;
      if k: nat :| i + n <= k < |s| && RunAt(s, k, n) {
        var next := FirstOf(s, i + n, k, n);
        var rest;
        rest, stuck := ReadingExists(s, next + n);
        spans := [Span(i, n, next)] + rest;
        assert spans[1..] == rest && IsSpan(s, from, spans[0]);
      } else {
        stuck := Some(run);
      }
    }
  }

  lemma FirstRun(s: string, from: nat) returns (run: Run)
    requires Between(s, from) && !NoTicks(s, from, |s|)
    ensures Opens(s, from, run.start, run.count)
  {
    var i := from;
    while s[i] != '`'
      invariant from <= i < |s| && NoTicks(s, from, i) && !NoTicks(s, from, |s|)
      decreases |s| - i
    {
      if i + 1 == |s| { assert NoTicks(s, from, |s|); }
      i := i + 1;
    }
    var n := 1;
    while i + n < |s| && s[i + n] == '`'
      invariant i + n <= |s| && n > 0 && Ticks(s, i, i + n)
    {
      n := n + 1;
    }
    run := Run(i, n);
  }

  lemma FirstOf(s: string, from: nat, k: nat, n: nat) returns (first: nat)
    requires from <= k && RunAt(s, k, n)
    ensures from <= first <= k && RunAt(s, first, n) && NoRun(s, from, first, n)
  {
    first := from;
    while !RunAt(s, first, n)
      invariant from <= first <= k && NoRun(s, from, first, n)
      decreases k - first
    {
      first := first + 1;
    }
  }

  /** Nothing is added. */
  lemma {:induction false} NothingAdded(s: string, from: nat, spans: seq<Span>, c: char)
    requires c in Without(s, from, spans)
    ensures c in s
    decreases |spans|
  {
    if spans != [] {
      if c in Without(s, After(spans[0]), spans[1..]) { NothingAdded(s, After(spans[0]), spans[1..], c); }
    }
  }

  // ---- against CommonMark 0.31.2, section 6.1 ----

  /** There an unmatched run is literal text, and the search goes on behind it. */
  datatype Step = Code(span: Span) | Literal(run: Run)

  ghost predicate CommonMark(s: string, from: nat, steps: seq<Step>)
    decreases |steps|
  {
    from <= |s| &&
    if steps == [] then NoTicks(s, from, |s|)
    else match steps[0]
         case Code(span) => IsSpan(s, from, span) && CommonMark(s, After(span), steps[1..])
         case Literal(run) => IsUnmatched(s, from, run) && CommonMark(s, run.start + run.count, steps[1..])
  }

  function CommonText(s: string, from: nat, steps: seq<Step>): string
    decreases |steps|
  {
    if steps == [] then Slice(s, from, |s|)
    else match steps[0]
         case Code(span) => Slice(s, from, span.start) + CommonText(s, After(span), steps[1..])
         case Literal(run) => Slice(s, from, run.start + run.count) + CommonText(s, run.start + run.count, steps[1..])
  }

  function Slice(s: string, from: nat, until: nat): string {
    if from <= until <= |s| then s[from..until] else ""
  }

  /** Every line can be read that way. */
  lemma {:induction false} CommonMarkExists(s: string, from: nat) returns (steps: seq<Step>)
    requires Between(s, from)
    ensures CommonMark(s, from, steps)
    decreases |s| - from
  {
    if NoTicks(s, from, |s|) {
      steps := [];
    } else {
      var run := FirstRun(s, from);
      var i, n := run.start, run.count;
      if k: nat :| i + n <= k < |s| && RunAt(s, k, n) {
        var next := FirstOf(s, i + n, k, n);
        var rest := CommonMarkExists(s, next + n);
        steps := [Code(Span(i, n, next))] + rest;
        assert steps[1..] == rest && IsSpan(s, from, Span(i, n, next));
      } else {
        var rest := CommonMarkExists(s, i + n);
        steps := [Literal(run)] + rest;
        assert steps[1..] == rest && IsUnmatched(s, from, run);
      }
    }
  }

  /** Two runs of one length. */
  ghost predicate Twins(s: string, from: nat, j: nat, k: nat, m: nat) {
    from <= j < k && RunAt(s, j, m) && RunAt(s, k, m)
  }

  ghost predicate HasTwins(s: string, from: nat) { exists j: nat, k: nat, m: nat :: Twins(s, from, j, k, m) }

  lemma {:induction false} NoLonger(s: string, from: nat, steps: seq<Step>)
    requires CommonMark(s, from, steps)
    ensures |CommonText(s, from, steps)| <= |s| - from
    decreases |steps|
  {
    if steps != [] {
      match steps[0]
      case Code(span) => NoLonger(s, After(span), steps[1..]);
      case Literal(run) => NoLonger(s, run.start + run.count, steps[1..]);
    }
  }

  lemma RunsApart(s: string, i: nat, n: nat, j: nat, m: nat)
    requires RunAt(s, i, n) && RunAt(s, j, m) && i < j
    ensures i + n < j
  {
    assert s[j - 1] != '`' && s[j] == '`';
  }

  /** Behind an unmatched run its length does not occur again. */
  lemma TwinsBehind(s: string, from: nat, run: Run, j: nat, k: nat, m: nat)
    requires IsUnmatched(s, from, run) && Twins(s, from, j, k, m)
    ensures Twins(s, run.start + run.count, j, k, m)
  {
    assert s[j] == '`' && j >= run.start;
    if j == run.start {
      SameRun(s, j, run.count, m);
      RunsApart(s, j, m, k, m);
    } else {
      RunsApart(s, run.start, run.count, j, m);
    }
  }

  /** With two runs of one length something is taken out. */
  lemma {:induction false} TwinsAreTaken(s: string, from: nat, steps: seq<Step>, j: nat, k: nat, m: nat)
    requires CommonMark(s, from, steps) && Twins(s, from, j, k, m)
    ensures |CommonText(s, from, steps)| < |s| - from
    decreases |steps|
  {
    assert s[j] == '`';
    match steps[0]
    case Code(span) => NoLonger(s, After(span), steps[1..]);
    case Literal(run) =>
      TwinsBehind(s, from, run, j, k, m);
      TwinsAreTaken(s, run.start + run.count, steps[1..], j, k, m);
  }

  lemma NoTwinsLater(s: string, from: nat, next: nat)
    requires from <= next && !HasTwins(s, from)
    ensures !HasTwins(s, next)
  {
    forall j: nat, k: nat, m: nat ensures !Twins(s, next, j, k, m) { assert !Twins(s, from, j, k, m); }
  }

  lemma NoTwinsEarlier(s: string, from: nat, next: nat)
    requires from <= next <= |s| && NoTicks(s, from, next) && !HasTwins(s, next)
    ensures !HasTwins(s, from)
  {
    forall j: nat, k: nat, m: nat ensures !Twins(s, from, j, k, m) {
      assert !Twins(s, next, j, k, m);
      if from <= j < next { assert s[j] != '`'; }
    }
  }

  lemma SpanIsTwins(s: string, from: nat, span: Span)
    requires IsSpan(s, from, span)
    ensures HasTwins(s, from)
  {
    assert Twins(s, from, span.start, span.closing, span.count);
  }

  lemma Resliced(s: string, from: nat, next: nat)
    requires from <= next <= |s|
    ensures Slice(s, from, next) + s[next..] == s[from..]
  {}

  function Behind(step: Step): nat { if step.Code? then After(step.span) else step.run.start + step.run.count }

  /** Without them the first step is a literal run. */
  lemma LiteralFirst(s: string, from: nat, steps: seq<Step>)
    requires CommonMark(s, from, steps) && steps != [] && !HasTwins(s, from)
    ensures var next := Behind(steps[0]);
      from <= next <= |s| && CommonMark(s, next, steps[1..]) && !HasTwins(s, next) &&
      CommonText(s, from, steps) == Slice(s, from, next) + CommonText(s, next, steps[1..])
  {
    if steps[0].Code? { SpanIsTwins(s, from, steps[0].span); } else { NoTwinsLater(s, from, Behind(steps[0])); }
  }

  /** Without them the text is left as it is. */
  lemma {:induction false} NothingTaken(s: string, from: nat, steps: seq<Step>)
    requires CommonMark(s, from, steps) && !HasTwins(s, from)
    ensures CommonText(s, from, steps) == s[from..]
    decreases |steps|
  {
    if steps != [] {
      LiteralFirst(s, from, steps);
      NothingTaken(s, Behind(steps[0]), steps[1..]);
      Resliced(s, from, Behind(steps[0]));
    }
  }

  lemma SamePrefix(a: string, x: string, y: string)
    ensures a + x == a + y <==> x == y
  {
    if a + x == a + y { assert x == (a + x)[|a|..] && y == (a + y)[|a|..]; }
  }

  /** Where the search stops. */
  function StopsAt(s: string, stuck: Option<Run>): nat { if stuck.Some? then stuck.value.start else |s| }

  /** The line keeps what CommonMark keeps exactly when no two runs from the first unmatched one on have
      the same length. */
  lemma {:induction false} AgreesWithCommonMark(
    s: string, from: nat, spans: seq<Span>, stuck: Option<Run>, steps: seq<Step>)
    requires CodeSpans(s, from, spans, stuck) && CommonMark(s, from, steps)
    ensures Without(s, from, spans) == CommonText(s, from, steps) <==> !HasTwins(s, StopsAt(s, stuck))
    decreases |spans|
  {
    if spans != [] {
      CodeFirst(s, from, spans[0], steps);
      AgreesWithCommonMark(s, After(spans[0]), spans[1..], stuck, steps[1..]);
      SamePrefix(s[from..spans[0].start], Without(s, After(spans[0]), spans[1..]),
                 CommonText(s, After(spans[0]), steps[1..]));
    } else {
      StuckAgrees(s, from, stuck, steps);
    }
  }

  lemma CodeFirst(s: string, from: nat, span: Span, steps: seq<Step>)
    requires IsSpan(s, from, span) && CommonMark(s, from, steps)
    ensures steps != [] && steps[0] == Code(span)
  {
    assert s[span.start] == '`';
    match steps[0]
    case Code(other) => SameSpan(s, from, span, other);
    case Literal(run) => SameOpening(s, from, span.start, span.count, run.start, run.count);
  }

  lemma StuckAgrees(s: string, from: nat, stuck: Option<Run>, steps: seq<Step>)
    requires CodeSpans(s, from, [], stuck) && CommonMark(s, from, steps)
    ensures s[from..] == CommonText(s, from, steps) <==> !HasTwins(s, StopsAt(s, stuck))
  {
    if HasTwins(s, StopsAt(s, stuck)) {
      var j: nat, k: nat, m: nat :| Twins(s, StopsAt(s, stuck), j, k, m);
      assert Twins(s, from, j, k, m);
      TwinsAreTaken(s, from, steps, j, k, m);
    } else {
      NoTwinsEarlier(s, from, StopsAt(s, stuck));
      NothingTaken(s, from, steps);
    }
  }

  /** A line where they differ: the double run is unmatched, so all that follows it is kept. */
  lemma KeepsMoreThanCommonMark(steps: seq<Step>)
    requires CommonMark("``a`b`", 0, steps)
    ensures CodeSpans("``a`b`", 0, [], Some(Run(0, 2)))
    ensures Without("``a`b`", 0, []) == "``a`b`" != CommonText("``a`b`", 0, steps)
  {
    var s := "``a`b`";
    assert RunAt(s, 0, 2) && RunAt(s, 3, 1) && RunAt(s, 5, 1);
    forall j: nat | 2 <= j < |s| ensures !RunAt(s, j, 2) {
      if j + 2 <= |s| { assert s[j] != '`' || s[j + 1] != '`'; }
    }
    assert Twins(s, 0, 3, 5, 1);
    AgreesWithCommonMark(s, 0, [], Some(Run(0, 2)), steps);
    assert s[0..] == s;
  }
}
