/** Normalising an identifier again when composition may change it first. */
module IdComposition {
  import opened Splitting
  import opened Ids

  /** What composition makes of what one character becomes. */
  function Recomposed(t: Tables, c: char): string { t.nfkc(LowerFolded(t, c)) }

  /** What a second pass writes for a character, if it kept the ones that are not alphanumeric. */
  function OnceMore(t: Tables, c: char): string { if t.alphanumeric(c) then LowerFolded(t, c) else [c] }

  function Again(t: Tables, s: string): string {
    if s == "" then "" else Again(t, Init(s)) + OnceMore(t, Last(s))
  }

  /** Composing what a character becomes, and lower-casing and folding that, gives it back. */
  ghost predicate Undone(t: Tables) {
    forall c :: t.alphanumeric(c) ==> Again(t, Recomposed(t, c)) == LowerFolded(t, c)
  }

  function ComposedRun(t: Tables, run: string): string {
    if run == "" then "" else ComposedRun(t, Init(run)) + Recomposed(t, Last(run))
  }

  ghost function Composing(t: Tables): string -> string { run => ComposedRun(t, run) }

  function RunsOf(t: Tables, s: string): seq<string> { NonEmpty(Pieces(t.alphanumeric, s)) }

  /** The identifier composed, character by character of the input. */
  ghost function ComposedId(t: Tables, value: string): string {
    Join("_", Mapped(Composing(t), RunsOf(t, t.nfkc(value))))
  }

  /** Every alphanumeric character becomes, composed, alphanumeric characters only. */
  ghost predicate KeepsComposed(t: Tables, composed: string) {
    forall c :: c in composed && t.alphanumeric(c) ==> AllKept(t.alphanumeric, Recomposed(t, c))
  }

  // ---- the second pass on the composed identifier ----

  lemma {:induction false} AgainConcat(t: Tables, a: string, b: string)
    ensures Again(t, a + b) == Again(t, a) + Again(t, b)
  {
    if b == "" {
      assert a + b == a;
    } else {
      assert Init(a + b) == a + Init(b) && Last(a + b) == Last(b);
      AgainConcat(t, a, Init(b));
    }
  }

  lemma {:induction false} AgainChar(t: Tables, s: string, c: char)
    requires c in s && !t.alphanumeric(c)
    ensures c in Again(t, s)
  {
    assert Init(s) + [Last(s)] == s;
    if c in Init(s) { AgainChar(t, Init(s), c); } else { assert c == Last(s); }
  }

  lemma LowerFoldedWord(t: Tables, c: char)
    requires Lawful(t) && t.alphanumeric(c)
    ensures LowerFolded(t, c) != "" && AllKept(NotUnderscore, LowerFolded(t, c))
  {
    FoldedWord(t, t.lower(c));
  }

  lemma RecomposedWord(t: Tables, c: char)
    requires Lawful(t) && Undone(t) && t.alphanumeric(c)
    ensures Recomposed(t, c) != "" && AllKept(NotUnderscore, Recomposed(t, c))
  {
    LowerFoldedWord(t, c);
    assert Again(t, Recomposed(t, c)) == LowerFolded(t, c);
    NoUnderscore(LowerFolded(t, c));
    NotAgain(t, Recomposed(t, c), '_');
    NoUnderscore(Recomposed(t, c));
  }

  lemma NoUnderscore(s: string)
    ensures AllKept(NotUnderscore, s) <==> '_' !in s
  {
    if '_' !in s {
      forall k | 0 <= k < |s| ensures NotUnderscore(s[k]) { assert s[k] in s; }
    }
  }

  lemma NotAgain(t: Tables, s: string, c: char)
    requires !t.alphanumeric(c) && c !in Again(t, s)
    ensures c !in s
  {
    if c in s { AgainChar(t, s, c); }
  }

  lemma KeptConcat(keep: char -> bool, a: string, b: string)
    ensures AllKept(keep, a + b) <==> AllKept(keep, a) && AllKept(keep, b)
  {
    if AllKept(keep, a + b) {
      forall k | 0 <= k < |a| ensures keep(a[k]) { assert (a + b)[k] == a[k]; }
      forall k | 0 <= k < |b| ensures keep(b[k]) { assert (a + b)[|a| + k] == b[k]; }
    }
  }

  lemma {:induction false} ComposedRunWord(t: Tables, run: string)
    requires Lawful(t) && Undone(t) && AllKept(t.alphanumeric, run)
    ensures AllKept(NotUnderscore, ComposedRun(t, run)) && (run != "" ==> ComposedRun(t, run) != "")
    ensures Again(t, ComposedRun(t, run)) == Folded(t, Lowered(t, run))
  {
    if run != "" {
      assert run == Init(run) + [Last(run)] && t.alphanumeric(run[|run| - 1]);
      KeptConcat(t.alphanumeric, Init(run), [Last(run)]);
      ComposedRunWord(t, Init(run));
      RecomposedWord(t, Last(run));
      KeptConcat(NotUnderscore, ComposedRun(t, Init(run)), Recomposed(t, Last(run)));
      AgainConcat(t, ComposedRun(t, Init(run)), Recomposed(t, Last(run)));
      LowerFoldedSnoc(t, Init(run), Last(run));
    }
  }

  ghost predicate AreRuns(t: Tables, runs: seq<string>) {
    forall k :: 0 <= k < |runs| ==> runs[k] != "" && AllKept(t.alphanumeric, runs[k])
  }

  lemma RunsAreRuns(t: Tables, s: string)
    ensures AreRuns(t, RunsOf(t, s))
  {
    forall k | 0 <= k < |RunsOf(t, s)| ensures RunsOf(t, s)[k] != "" && AllKept(t.alphanumeric, RunsOf(t, s)[k]) {
      NonEmptyFrom(Pieces(t.alphanumeric, s), RunsOf(t, s)[k]);
      PiecesKept(t.alphanumeric, s, RunsOf(t, s)[k]);
    }
  }

  lemma ComposedDistinguishable(t: Tables, runs: seq<string>)
    requires Lawful(t) && Undone(t) && AreRuns(t, runs)
    ensures Distinguishable(Mapped(Composing(t), runs))
  {
    var words := Mapped(Composing(t), runs);
    forall k | 0 <= k < |words| ensures words[k] != "" && AllKept(NotUnderscore, words[k]) {
      MappedAt(Composing(t), runs, k);
      ComposedRunWord(t, runs[k]);
    }
  }

  ghost function LowerFolding(t: Tables): string -> string { run => Folded(t, Lowered(t, run)) }

  lemma {:induction false} WordsAre(t: Tables, runs: seq<string>)
    ensures Mapped(Folding(t), Mapped(Lowering(t), runs)) == Mapped(LowerFolding(t), runs)
  {
    if runs != [] { WordsAre(t, Init(runs)); }
  }

  /** Written once more with nothing left out, the composed identifier gives the identifier back. */
  lemma {:induction false} AgainId(t: Tables, runs: seq<string>)
    requires Lawful(t) && Undone(t) && AreRuns(t, runs)
    ensures Again(t, Join("_", Mapped(Composing(t), runs))) == Join("_", Mapped(LowerFolding(t), runs))
  {
    if runs != [] {
      var composed := Mapped(Composing(t), Init(runs));
      AgainId(t, Init(runs));
      ComposedRunWord(t, Last(runs));
      AgainConcat(t, Join("_", composed) + "_", ComposedRun(t, Last(runs)));
      AgainConcat(t, Join("_", composed), "_");
      assert Init("_") == "" && Again(t, "_") == "_";
      JoinAppend("_", composed, ComposedRun(t, Last(runs)));
      JoinAppend("_", Mapped(LowerFolding(t), Init(runs)), Folded(t, Lowered(t, Last(runs))));
    }
  }

  // ---- what a pass leaves out ----

  function Content(s: string): nat { if s == "" then 0 else Content(Init(s)) + if Last(s) == '_' then 0 else 1 }

  lemma {:induction false} ContentConcat(a: string, b: string)
    ensures Content(a + b) == Content(a) + Content(b)
  {
    if b == "" {
      assert a + b == a;
    } else {
      assert Init(a + b) == a + Init(b) && Last(a + b) == Last(b);
      ContentConcat(a, Init(b));
    }
  }

  /** The characters a pass leaves out. */
  function Dropped(t: Tables, s: string): nat {
    if s == "" then 0
    else Dropped(t, Init(s)) + if t.alphanumeric(Last(s)) || Last(s) == '_' then 0 else 1
  }

  lemma {:induction false} NoneDropped(t: Tables, s: string)
    ensures Dropped(t, s) == 0 <==> Wordy(t, s)
  {
    if s != "" {
      NoneDropped(t, Init(s));
      assert s[|s| - 1] == Last(s);
      forall k | 0 <= k < |s| - 1 ensures s[k] == Init(s)[k] {}
    }
  }

  lemma SeparatorContent(t: Tables, more: bool)
    requires Lawful(t)
    ensures Content(Folded(t, if more then "_" else "")) == 0
  {
    assert Init("_") == "" && Folded(t, "_") == "_" && Content("_") == Content("");
  }

  /** A pass writes all that would be written without leaving anything out, but for what it drops. */
  lemma {:induction false} PassContent(t: Tables, s: string)
    requires Lawful(t)
    ensures Content(Folded(t, RunText(t, s))) + Dropped(t, s) == Content(Again(t, s))
  {
    if s == "" {
      NoRuns(t);
      assert RunText(t, s) == "";
    } else {
      var init, c := Init(s), Last(s);
      assert init + [c] == s;
      PassContent(t, init);
      ContentConcat(Again(t, init), OnceMore(t, c));
      if t.alphanumeric(c) {
        var more := Apart(t, init) && LoweredRuns(t, init) != [];
        RunGrows(t, init, c);
        FoldedConcat(t, RunText(t, init) + (if more then "_" else ""), t.lower(c));
        FoldedConcat(t, RunText(t, init), if more then "_" else "");
        ContentConcat(Folded(t, RunText(t, init)) + Folded(t, if more then "_" else ""), LowerFolded(t, c));
        ContentConcat(Folded(t, RunText(t, init)), Folded(t, if more then "_" else ""));
        SeparatorContent(t, more);
      } else {
        RunEnds(t, init, c);
        assert Init([c]) == "";
      }
    }
  }

  // ---- idempotence ----

  lemma {:induction false} ComposedChar(t: Tables, run: string, d: char) returns (c: char)
    requires d in ComposedRun(t, run)
    ensures c in run && d in Recomposed(t, c)
  {
    assert run == Init(run) + [Last(run)];
    if d in Recomposed(t, Last(run)) { c := Last(run); } else { c := ComposedChar(t, Init(run), d); }
  }

  lemma {:induction false} CharInComposed(t: Tables, run: string, c: char, d: char)
    requires c in run && d in Recomposed(t, c)
    ensures d in ComposedRun(t, run)
  {
    assert run == Init(run) + [Last(run)];
    if c in Init(run) { CharInComposed(t, Init(run), c, d); } else { assert c == Last(run); }
  }

  lemma ComposedFrom(t: Tables, s: string, d: char) returns (c: char)
    requires d in Join("_", Mapped(Composing(t), RunsOf(t, s))) && d != '_'
    ensures c in s && t.alphanumeric(c) && d in Recomposed(t, c)
  {
    var words := Mapped(Composing(t), RunsOf(t, s));
    JoinChars(words, d);
    var w :| w in words && d in w;
    var k :| 0 <= k < |words| && words[k] == w;
    MappedAt(Composing(t), RunsOf(t, s), k);
    c := ComposedChar(t, RunsOf(t, s)[k], d);
    NonEmptyFrom(Pieces(t.alphanumeric, s), RunsOf(t, s)[k]);
    PieceChars(t.alphanumeric, s, RunsOf(t, s)[k], c);
  }

  lemma ComposedHas(t: Tables, s: string, c: char, d: char)
    requires c in s && t.alphanumeric(c) && d in Recomposed(t, c)
    ensures d in Join("_", Mapped(Composing(t), RunsOf(t, s)))
  {
    var w := CharInPiece(t.alphanumeric, s, c);
    NonEmptyHas(Pieces(t.alphanumeric, s), w);
    var k :| 0 <= k < |RunsOf(t, s)| && RunsOf(t, s)[k] == w;
    MappedAt(Composing(t), RunsOf(t, s), k);
    CharInComposed(t, w, c, d);
    CharInJoin(Mapped(Composing(t), RunsOf(t, s)), ComposedRun(t, w), d);
  }

  lemma AllIn(keep: char -> bool, s: string, d: char)
    requires AllKept(keep, s) && d in s
    ensures keep(d)
  {
    var k :| 0 <= k < |s| && s[k] == d;
  }

  lemma WordyWhenComposed(t: Tables, s: string)
    requires Lawful(t) && Undone(t)
    ensures Wordy(t, Join("_", Mapped(Composing(t), RunsOf(t, s)))) <==> KeepsComposed(t, s)
  {
    var x := Join("_", Mapped(Composing(t), RunsOf(t, s)));
    if KeepsComposed(t, s) {
      forall k | 0 <= k < |x| ensures x[k] == '_' || t.alphanumeric(x[k]) {
        if x[k] != '_' {
          var c := ComposedFrom(t, s, x[k]);
          AllIn(t.alphanumeric, Recomposed(t, c), x[k]);
        }
      }
    }
    if Wordy(t, x) {
      forall c | c in s && t.alphanumeric(c) ensures AllKept(t.alphanumeric, Recomposed(t, c)) {
        RecomposedWord(t, c);
        forall k | 0 <= k < |Recomposed(t, c)| ensures t.alphanumeric(Recomposed(t, c)[k]) {
          ComposedHas(t, s, c, Recomposed(t, c)[k]);
          WordyHas(t, x, Recomposed(t, c)[k]);
          assert NotUnderscore(Recomposed(t, c)[k]);
        }
      }
    }
  }

  lemma WordyHas(t: Tables, x: string, d: char)
    requires Wordy(t, x) && d in x
    ensures d == '_' || t.alphanumeric(d)
  {
    var k :| 0 <= k < |x| && x[k] == d;
  }

  lemma {:induction false} AgainWord(t: Tables, w: string)
    requires AllKept(t.alphanumeric, w)
    ensures Again(t, w) == Folded(t, Lowered(t, w))
  {
    if w != "" {
      assert w == Init(w) + [Last(w)] && t.alphanumeric(w[|w| - 1]);
      KeptConcat(t.alphanumeric, Init(w), [Last(w)]);
      AgainWord(t, Init(w));
      LowerFoldedSnoc(t, Init(w), Last(w));
    }
  }

  lemma {:induction false} SameMapped(f: string -> string, g: string -> string, a: seq<string>, b: seq<string>)
    requires |a| == |b| && forall k :: 0 <= k < |a| ==> f(a[k]) == g(b[k])
    ensures Mapped(f, a) == Mapped(g, b)
  {
    if a != [] {
      forall k | 0 <= k < |Init(a)| ensures f(Init(a)[k]) == g(Init(b)[k]) { assert Init(a)[k] == a[k]; }
      SameMapped(f, g, Init(a), Init(b));
      assert Last(a) == a[|a| - 1] && Last(b) == b[|b| - 1];
    }
  }

  /** The runs of a composed identifier without other characters become the words again. */
  lemma SameWordsAgain(t: Tables, runs: seq<string>)
    requires Lawful(t) && Undone(t) && AreRuns(t, runs)
    requires Wordy(t, Join("_", Mapped(Composing(t), runs)))
    ensures var x := Join("_", Mapped(Composing(t), runs));
      Mapped(LowerFolding(t), RunsOf(t, x)) == Mapped(LowerFolding(t), runs)
  {
    var words := Mapped(Composing(t), runs);
    ComposedDistinguishable(t, runs);
    RunsOfJoin(t, words);
    RunsAreRuns(t, Join("_", words));
    forall k | 0 <= k < |runs| ensures LowerFolding(t)(words[k]) == LowerFolding(t)(runs[k]) {
      MappedAt(Composing(t), runs, k);
      ComposedRunWord(t, runs[k]);
      AgainWord(t, words[k]);
    }
    SameMapped(LowerFolding(t), LowerFolding(t), words, runs);
  }

  lemma NormalizedRuns(t: Tables, value: string)
    requires Lawful(t)
    ensures Normalized(t, value) == Join("_", Mapped(LowerFolding(t), RunsOf(t, t.nfkc(value))))
    ensures Normalized(t, value) == Folded(t, RunText(t, t.nfkc(value)))
  {
    WordsAre(t, RunsOf(t, t.nfkc(value)));
    Finished(t, t.nfkc(value));
  }

  /** When an identifier is composed character by character of its input, and composing is undone by
      lower-casing and folding, normalising it again changes nothing exactly when every alphanumeric
      character of the composed input becomes, composed again, alphanumeric characters only. */
  lemma IdempotentComposed(t: Tables, value: string)
    requires Lawful(t) && Undone(t) && t.nfkc(Normalized(t, value)) == ComposedId(t, value)
    ensures Normalized(t, Normalized(t, value)) == Normalized(t, value) <==> KeepsComposed(t, t.nfkc(value))
  {
    var id, x, runs := Normalized(t, value), ComposedId(t, value), RunsOf(t, t.nfkc(value));
    RunsAreRuns(t, t.nfkc(value));
    NormalizedRuns(t, value);
    NormalizedRuns(t, id);
    AgainId(t, runs);
    PassContent(t, x);
    NoneDropped(t, x);
    WordyWhenComposed(t, t.nfkc(value));
    if Wordy(t, x) { SameWordsAgain(t, runs); }
  }
}
