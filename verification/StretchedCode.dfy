/** Inline code does not depend on what stands between the backticks: two lines with the same backticks
    in the same order have corresponding inline code. */
module StretchedCode {
  import opened Wrappers
  import opened InlineCode

  /** Each character of `m` stands for a part of `s`: a backtick for itself, any other for some text
      without backticks. */
  ghost predicate Stretched(m: string, s: string, pos: nat -> nat) {
    pos(0) == 0 && pos(|m|) == |s| && forall i: nat :: i < |m| ==> PartAt(m, s, pos, i)
  }

  ghost predicate PartAt(m: string, s: string, pos: nat -> nat, i: nat)
    requires i < |m|
  {
    pos(i) < pos(i + 1) <= |s| &&
    if m[i] == '`' then pos(i + 1) == pos(i) + 1 && s[pos(i)] == '`' else NoTicks(s, pos(i), pos(i + 1))
  }

  lemma {:induction false} Monotone(m: string, s: string, pos: nat -> nat, i: nat, j: nat)
    requires Stretched(m, s, pos) && i <= j <= |m|
    ensures pos(i) <= pos(j) <= |s| && (i < j ==> pos(i) < pos(j))
    decreases j
  {
    if j > 0 { assert PartAt(m, s, pos, j - 1); }
    if i < j { Monotone(m, s, pos, i, j - 1); }
  }

  lemma Between(m: string, s: string, pos: nat -> nat, a: nat, b: nat, i: nat)
    requires Stretched(m, s, pos) && a <= |m| && b <= |m| && i <= |m| && pos(a) <= pos(i) < pos(b)
    ensures a <= i < b
  {
    if i <= a { Monotone(m, s, pos, i, a); }
    if b <= i { Monotone(m, s, pos, b, i); }
  }

  lemma {:induction false} LocateBelow(m: string, s: string, pos: nat -> nat, p: nat, n: nat) returns (i: nat)
    requires Stretched(m, s, pos) && n <= |m| && p < pos(n)
    ensures i < n && pos(i) <= p < pos(i + 1)
    decreases n
  {
    if p >= pos(n - 1) { return n - 1; }
    i := LocateBelow(m, s, pos, p, n - 1);
  }

  lemma NoTicksUp(m: string, s: string, pos: nat -> nat, a: nat, b: nat)
    requires Stretched(m, s, pos) && a <= b <= |m| && NoTicks(m, a, b)
    ensures pos(a) <= pos(b) <= |s| && NoTicks(s, pos(a), pos(b))
  {
    Monotone(m, s, pos, a, b);
    forall p | pos(a) <= p < pos(b) ensures s[p] != '`' {
      var i := LocateBelow(m, s, pos, p, b);
      if i < a { Monotone(m, s, pos, i + 1, a); }
      assert PartAt(m, s, pos, i);
    }
  }

  lemma {:induction false} TicksUp(m: string, s: string, pos: nat -> nat, a: nat, b: nat)
    requires Stretched(m, s, pos) && a <= b <= |m| && Ticks(m, a, b)
    ensures pos(b) == pos(a) + (b - a) && pos(b) <= |s| && Ticks(s, pos(a), pos(b))
    decreases b
  {
    Monotone(m, s, pos, a, b);
    if a < b {
      TicksUp(m, s, pos, a, b - 1);
      assert PartAt(m, s, pos, b - 1);
    }
  }

  lemma RunUp(m: string, s: string, pos: nat -> nat, i: nat, n: nat)
    requires Stretched(m, s, pos) && RunAt(m, i, n)
    ensures pos(i + n) == pos(i) + n && RunAt(s, pos(i), n)
  {
    TicksUp(m, s, pos, i, i + n);
    if i > 0 { assert PartAt(m, s, pos, i - 1); }
    if i + n < |m| { assert PartAt(m, s, pos, i + n); }
  }

  lemma {:induction false} TicksDown(m: string, s: string, pos: nat -> nat, i: nat, n: nat)
    requires Stretched(m, s, pos) && i <= |m| && pos(i) + n <= |s| && Ticks(s, pos(i), pos(i) + n)
    ensures i + n <= |m| && pos(i + n) == pos(i) + n && Ticks(m, i, i + n)
    decreases n
  {
    if n > 0 {
      TicksDown(m, s, pos, i, n - 1);
      var j := i + n - 1;
      assert s[pos(j)] == '`';
      assert j < |m|;
      assert PartAt(m, s, pos, j);
    }
  }

  lemma RunDown(m: string, s: string, pos: nat -> nat, p: nat, n: nat) returns (i: nat)
    requires Stretched(m, s, pos) && RunAt(s, p, n)
    ensures i < |m| && pos(i) == p && RunAt(m, i, n)
  {
    i := LocateBelow(m, s, pos, p, |m|);
    assert PartAt(m, s, pos, i);
    assert s[p] == '`';
    TicksDown(m, s, pos, i, n);
    if i > 0 { assert PartAt(m, s, pos, i - 1); }
    if i + n < |m| { assert PartAt(m, s, pos, i + n); }
  }

  lemma NoRunUp(m: string, s: string, pos: nat -> nat, a: nat, b: nat, n: nat)
    requires Stretched(m, s, pos) && a <= |m| && b <= |m| && NoRun(m, a, b, n)
    ensures NoRun(s, pos(a), pos(b), n)
  {
    forall p: nat | pos(a) <= p < pos(b) ensures !RunAt(s, p, n) {
      if RunAt(s, p, n) {
        var i := RunDown(m, s, pos, p, n);
        Between(m, s, pos, a, b, i);
      }
    }
  }

  lemma OpensUp(m: string, s: string, pos: nat -> nat, from: nat, i: nat, n: nat)
    requires Stretched(m, s, pos) && Opens(m, from, i, n)
    ensures Opens(s, pos(from), pos(i), n) && pos(i + n) == pos(i) + n
  {
    NoTicksUp(m, s, pos, from, i);
    RunUp(m, s, pos, i, n);
  }

  function MoveSpan(pos: nat -> nat, span: Span): Span { Span(pos(span.start), span.count, pos(span.closing)) }

  function MoveSpans(pos: nat -> nat, spans: seq<Span>): seq<Span> {
    if spans == [] then [] else [MoveSpan(pos, spans[0])] + MoveSpans(pos, spans[1..])
  }

  function MoveRun(pos: nat -> nat, stuck: Option<Run>): Option<Run> {
    match stuck
    case None => None
    case Some(run) => Some(Run(pos(run.start), run.count))
  }

  lemma SpanUp(m: string, s: string, pos: nat -> nat, from: nat, span: Span)
    requires Stretched(m, s, pos) && IsSpan(m, from, span)
    ensures IsSpan(s, pos(from), MoveSpan(pos, span)) && After(MoveSpan(pos, span)) == pos(After(span))
  {
    OpensUp(m, s, pos, from, span.start, span.count);
    RunUp(m, s, pos, span.closing, span.count);
    NoRunUp(m, s, pos, span.start + span.count, span.closing, span.count);
    Monotone(m, s, pos, span.start + span.count, span.closing);
  }

  lemma StuckUp(m: string, s: string, pos: nat -> nat, from: nat, run: Run)
    requires Stretched(m, s, pos) && IsUnmatched(m, from, run)
    ensures IsUnmatched(s, pos(from), Run(pos(run.start), run.count))
  {
    OpensUp(m, s, pos, from, run.start, run.count);
    NoRunUp(m, s, pos, run.start + run.count, |m|, run.count);
  }

  /** The inline code of the stretched line is that of the other one, moved. */
  lemma {:induction false} SpansUp(
    m: string, s: string, pos: nat -> nat, from: nat, spans: seq<Span>, stuck: Option<Run>)
    requires Stretched(m, s, pos) && CodeSpans(m, from, spans, stuck)
    ensures CodeSpans(s, pos(from), MoveSpans(pos, spans), MoveRun(pos, stuck))
    decreases |spans|
  {
    Monotone(m, s, pos, from, |m|);
    if spans != [] {
      SpanUp(m, s, pos, from, spans[0]);
      SpansUp(m, s, pos, After(spans[0]), spans[1..], stuck);
      assert MoveSpans(pos, spans)[1..] == MoveSpans(pos, spans[1..]);
    } else {
      match stuck
      case None => NoTicksUp(m, s, pos, from, |m|);
      case Some(run) => StuckUp(m, s, pos, from, run);
    }
  }
}
