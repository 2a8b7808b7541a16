/** Taking the inline code out of a line and replacing its addresses go together. */
module EditedCode {
  import opened Wrappers
  import opened ModelText
  import opened InlineCode
  import opened StretchedCode
  import opened ActiveMarkdown
  import opened Addresses

  function Mark(p: Piece): char { if p == Char('`') then '`' else '-' }

  /** One character a piece, the backticks kept. */
  function Marks(ps: seq<Piece>): string { seq(|ps|, i requires 0 <= i < |ps| => Mark(ps[i])) }

  function PosOf(ps: seq<Piece>, edited: bool): nat -> nat {
    (i: nat) => if i <= |ps| then |Line(ps[..i], edited)| else 0
  }

  /** The part of the line that some pieces make up. */
  lemma LineSlice(ps: seq<Piece>, edited: bool, a: nat, b: nat)
    requires a <= b <= |ps|
    ensures var pos, line := PosOf(ps, edited), Line(ps, edited);
      pos(a) <= pos(b) <= |line| && line[pos(a)..pos(b)] == Line(ps[a..b], edited)
  {
    LineConcat(ps[..a], ps[a..b], edited);
    LineConcat(ps[..b], ps[b..], edited);
    assert ps[..a] + ps[a..b] == ps[..b] && ps[..b] + ps[b..] == ps;
  }

  lemma LineOfOne(p: Piece, edited: bool)
    ensures Line([p], edited) == Grown(p, edited)
  {
    assert Line([p][1..], edited) == "";
  }

  lemma ReplacementHasNoTick()
    ensures '`' !in REPLACEMENT
  {
    var r := REPLACEMENT;
    assert r == "external reference";
    forall k | 0 <= k < |r| ensures 'a' <= r[k] <= 'z' || r[k] == ' ' {}
  }

  lemma GrownTicks(p: Piece, edited: bool)
    requires p.Address? ==> IsAddress(p.text)
    ensures Grown(p, edited) != ""
    ensures if Mark(p) == '`' then Grown(p, edited) == "`" else '`' !in Grown(p, edited)
  {
    ReplacementHasNoTick();
  }

  lemma PartOfLine(line: string, a: nat, b: nat, part: string)
    requires a <= b <= |line| && line[a..b] == part && part != ""
    ensures a < b && line[a] == part[0] && b == a + |part|
    ensures '`' !in part ==> NoTicks(line, a, b)
  {
    assert line[a] == line[a..b][0];
    forall p | a <= p < b ensures line[p] in part { assert line[p] == line[a..b][p - a]; }
  }

  lemma PieceStretch(ps: seq<Piece>, edited: bool, i: nat)
    requires IsEdit(ps) && i < |ps|
    ensures PartAt(Marks(ps), Line(ps, edited), PosOf(ps, edited), i)
  {
    var pos, line := PosOf(ps, edited), Line(ps, edited);
    LineSlice(ps, edited, i, i + 1);
    assert ps[i..i + 1] == [ps[i]];
    LineOfOne(ps[i], edited);
    GrownTicks(ps[i], edited);
    PartOfLine(line, pos(i), pos(i + 1), Grown(ps[i], edited));
  }

  lemma MarksStretch(ps: seq<Piece>, edited: bool)
    requires IsEdit(ps)
    ensures Stretched(Marks(ps), Line(ps, edited), PosOf(ps, edited))
  {
    assert ps[..0] == [] && ps[..|ps|] == ps;
    forall i: nat | i < |Marks(ps)| ensures PartAt(Marks(ps), Line(ps, edited), PosOf(ps, edited), i) {
      PieceStretch(ps, edited, i);
    }
  }

  /** The pieces outside the spans. */
  function Unspanned(ps: seq<Piece>, from: nat, spans: seq<Span>): seq<Piece>
    decreases |spans|
  {
    if spans == [] then if from <= |ps| then ps[from..] else []
    else
      (if from <= spans[0].start <= |ps| then ps[from..spans[0].start] else []) +
      Unspanned(ps, After(spans[0]), spans[1..])
  }

  lemma {:induction false} UnspannedFrom(ps: seq<Piece>, from: nat, spans: seq<Span>)
    requires IsEdit(ps)
    ensures IsEdit(Unspanned(ps, from, spans))
    decreases |spans|
  {
    if spans != [] { UnspannedFrom(ps, After(spans[0]), spans[1..]); }
  }

  lemma {:induction false} WithoutLine(
    ps: seq<Piece>, edited: bool, from: nat, spans: seq<Span>, stuck: Option<Run>)
    requires IsEdit(ps) && CodeSpans(Marks(ps), from, spans, stuck)
    requires Stretched(Marks(ps), Line(ps, edited), PosOf(ps, edited))
    ensures Without(Line(ps, edited), PosOf(ps, edited)(from), MoveSpans(PosOf(ps, edited), spans)) ==
            Line(Unspanned(ps, from, spans), edited)
    decreases |spans|
  {
    var pos, line := PosOf(ps, edited), Line(ps, edited);
    if spans == [] {
      LineSlice(ps, edited, from, |ps|);
      assert ps[..|ps|] == ps && ps[from..|ps|] == ps[from..];
    } else {
      SpanUp(Marks(ps), line, pos, from, spans[0]);
      WithoutLine(ps, edited, After(spans[0]), spans[1..], stuck);
      LineSlice(ps, edited, from, spans[0].start);
      LineConcat(ps[from..spans[0].start], Unspanned(ps, After(spans[0]), spans[1..]), edited);
      assert MoveSpans(pos, spans)[1..] == MoveSpans(pos, spans[1..]);
    }
  }

  lemma CodeFreeLine(ps: seq<Piece>, edited: bool, spans: seq<Span>, stuck: Option<Run>)
    requires IsEdit(ps) && CodeSpans(Marks(ps), 0, spans, stuck)
    ensures IsCodeFree(Line(ps, edited), Line(Unspanned(ps, 0, spans), edited))
  {
    var pos := PosOf(ps, edited);
    MarksStretch(ps, edited);
    SpansUp(Marks(ps), Line(ps, edited), pos, 0, spans, stuck);
    WithoutLine(ps, edited, 0, spans, stuck);
    assert pos(0) == 0;
  }

  /** What shows of a line whose addresses are replaced is what shows of the line, its addresses
      replaced. */
  lemma CodeFreeEdit(ps: seq<Piece>) returns (qs: seq<Piece>)
    requires IsEdit(ps)
    ensures IsEdit(qs) && IsCodeFree(Source(ps), Source(qs)) && IsCodeFree(Target(ps), Target(qs))
  {
    var spans, stuck := ReadingExists(Marks(ps), 0);
    qs := Unspanned(ps, 0, spans);
    UnspannedFrom(ps, 0, spans);
    CodeFreeLine(ps, false, spans, stuck);
    CodeFreeLine(ps, true, spans, stuck);
  }
}
