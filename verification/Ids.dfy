/** Node identifiers: normalisation and joining. */
module Ids {
  import opened Splitting

  /** The Unicode tables: compatibility composition of a text, and per-character properties. */
  datatype Tables = Tables(
    nfkc: string -> string, alphanumeric: char -> bool, lower: char -> string, fold: char -> string)

  predicate NotUnderscore(c: char) { c != '_' }

  function Lowered(t: Tables, s: string): string {
    if s == "" then "" else Lowered(t, Init(s)) + t.lower(Last(s))
  }

  function Folded(t: Tables, s: string): string {
    if s == "" then "" else Folded(t, Init(s)) + t.fold(Last(s))
  }

  ghost function Lowering(t: Tables): string -> string { s => Lowered(t, s) }

  ghost function Folding(t: Tables): string -> string { s => Folded(t, s) }

  /** Lower-casing an alphanumeric character, or folding any other than the underscore, gives some
      text without underscores; folding keeps the underscore. */
  ghost predicate Lawful(t: Tables) {
    !t.alphanumeric('_') && t.fold('_') == "_" &&
    (forall c :: t.alphanumeric(c) ==> t.lower(c) != "" && AllKept(NotUnderscore, t.lower(c))) &&
    (forall c :: c != '_' ==> t.fold(c) != "" && AllKept(NotUnderscore, t.fold(c)))
  }

  /** The alphanumeric runs of a composed text, lower-cased. */
  ghost function LoweredRuns(t: Tables, composed: string): seq<string> {
    Mapped(Lowering(t), NonEmpty(Pieces(t.alphanumeric, composed)))
  }

  /** The words of an identifier: each alphanumeric run lower-cased, then folded. */
  ghost function Words(t: Tables, value: string): seq<string> {
    Mapped(Folding(t), LoweredRuns(t, t.nfkc(value)))
  }

  ghost function Normalized(t: Tables, value: string): string { Join("_", Words(t, value)) }

  /** Words can be told apart in an identifier: none is empty and none holds an underscore. */
  predicate Distinguishable(words: seq<string>) {
    forall k :: 0 <= k < |words| ==> words[k] != "" && AllKept(NotUnderscore, words[k])
  }

  // ---- the streaming loop ----

  /** What the loop has written after a prefix. */
  ghost function RunText(t: Tables, prefix: string): string { Join("_", LoweredRuns(t, prefix)) }

  /** A separator has been seen since the last character kept. */
  predicate Apart(t: Tables, prefix: string) { prefix != "" && !t.alphanumeric(Last(prefix)) }

  function TrimUnderscores(s: string): string
    decreases |s|
  {
    if s != "" && s[0] == '_' then TrimUnderscores(s[1..])
    else if s != "" && Last(s) == '_' then TrimUnderscores(Init(s))
    else s
  }

  method NormalizeId(t: Tables, value: string) returns (id: string)
    requires Lawful(t)
    ensures id == Normalized(t, value)
  {
    var composed := t.nfkc(value);
    var normalized, pending := "", false;
    NoRuns(t);
    for n := 0 to |composed|
      invariant normalized == RunText(t, composed[..n])
      invariant pending == Apart(t, composed[..n])
    {
      var c := composed[n];
      assert composed[..n + 1] == composed[..n] + [c];
      if t.alphanumeric(c) {
        Grown(t, composed[..n], c, normalized, pending);
        if pending && normalized != "" { normalized := normalized + "_"; }
        normalized := normalized + t.lower(c);
        pending := false;
      } else {
        RunEnds(t, composed[..n], c);
        pending := true;
      }
    }
    assert composed[..|composed|] == composed;
    Finished(t, composed);
    id := FoldText(t, TrimUnderscores(normalized));
  }

  /** What the loop writes for a further alphanumeric character. */
  lemma Grown(t: Tables, prefix: string, c: char, normalized: string, pending: bool)
    requires Lawful(t) && t.alphanumeric(c) && normalized == RunText(t, prefix) && pending == Apart(t, prefix)
    ensures RunText(t, prefix + [c]) ==
            (if pending && normalized != "" then normalized + "_" else normalized) + t.lower(c)
    ensures !Apart(t, prefix + [c])
  {
    RunsNonEmpty(t, prefix);
    RunGrows(t, prefix, c);
    assert normalized + "" == normalized;
  }

  /** Trimming finds nothing to trim, and folding the text folds its words. */
  lemma Finished(t: Tables, composed: string)
    requires Lawful(t)
    ensures TrimUnderscores(RunText(t, composed)) == RunText(t, composed)
    ensures Folded(t, RunText(t, composed)) == Join("_", Mapped(Folding(t), LoweredRuns(t, composed)))
  {
    var runs := LoweredRuns(t, composed);
    RunsDistinguishable(t, composed);
    TidyJoin(runs);
    FoldedJoin(t, runs);
  }

  method FoldText(t: Tables, s: string) returns (folded: string)
    ensures folded == Folded(t, s)
  {
    folded := "";
    for n := 0 to |s|
      invariant folded == Folded(t, s[..n])
    {
      assert Init(s[..n + 1]) == s[..n] && Last(s[..n + 1]) == s[n];
      folded := folded + t.fold(s[n]);
    }
    assert s[..|s|] == s;
  }

  /** The runs before and after a further alphanumeric character: only the last one differs. */
  lemma GrownRuns(t: Tables, s: string, c: char) returns (done: seq<string>, word: string)
    requires t.alphanumeric(c)
    ensures LoweredRuns(t, s + [c]) == done + [Lowered(t, word) + t.lower(c)]
    ensures LoweredRuns(t, s) == if word == "" then done else done + [Lowered(t, word)]
    ensures word == Last(Pieces(t.alphanumeric, s))
  {
    assert Init(s + [c]) == s && Last(s + [c]) == c;
    var p := Pieces(t.alphanumeric, s);
    var front := Init(p);
    word := Last(p);
    assert p == front + [word];
    NonEmptyConcat(front, [word]);
    NonEmptyConcat(front, [word + [c]]);
    assert NonEmpty([word + [c]]) == [word + [c]] && NonEmpty([word]) == if word == "" then [] else [word];
    assert NonEmpty(front) + [] == NonEmpty(front);
    var runs := NonEmpty(front);
    done := Mapped(Lowering(t), runs);
    MappedConcat(Lowering(t), runs, [word + [c]]);
    MappedConcat(Lowering(t), runs, [word]);
    assert Init(word + [c]) == word;
    MappedOne(Lowering(t), word + [c]);
    MappedOne(Lowering(t), word);
  }

  lemma NoRuns(t: Tables)
    ensures LoweredRuns(t, "") == []
  {
    assert Pieces(t.alphanumeric, "") == [""] && NonEmpty([""]) == [];
  }

  /** A further alphanumeric character extends the last run, or starts one after a separator. */
  lemma RunGrows(t: Tables, s: string, c: char)
    requires t.alphanumeric(c)
    ensures RunText(t, s + [c]) ==
            RunText(t, s) + (if Apart(t, s) && LoweredRuns(t, s) != [] then "_" else "") + t.lower(c)
  {
    var done, word := GrownRuns(t, s, c);
    LastPieceEmpty(t.alphanumeric, s);
    if word == "" {
      JoinAppend("_", done, t.lower(c));
      if s == "" { NoRuns(t); }
      assert Lowered(t, word) + t.lower(c) == t.lower(c);
    } else {
      JoinLast("_", done, Lowered(t, word), t.lower(c));
    }
  }

  lemma LastPieceEmpty(keep: char -> bool, s: string)
    ensures Last(Pieces(keep, s)) == "" <==> s == "" || !keep(Last(s))
  {}

  lemma RunEnds(t: Tables, s: string, c: char)
    requires !t.alphanumeric(c)
    ensures LoweredRuns(t, s + [c]) == LoweredRuns(t, s)
  {
    assert Init(s + [c]) == s && Last(s + [c]) == c;
    NonEmptyConcat(Pieces(t.alphanumeric, s), [""]);
    assert NonEmpty([""]) == [];
    assert NonEmpty(Pieces(t.alphanumeric, s)) + [] == NonEmpty(Pieces(t.alphanumeric, s));
  }

  lemma {:induction false} LoweredWord(t: Tables, w: string)
    requires Lawful(t) && AllKept(t.alphanumeric, w)
    ensures AllKept(NotUnderscore, Lowered(t, w)) && (w != "" ==> Lowered(t, w) != "")
  {
    if w != "" {
      assert t.alphanumeric(w[|w| - 1]);
      assert AllKept(t.alphanumeric, Init(w));
      LoweredWord(t, Init(w));
    }
  }

  lemma {:induction false} FoldedWord(t: Tables, w: string)
    requires Lawful(t) && AllKept(NotUnderscore, w)
    ensures AllKept(NotUnderscore, Folded(t, w)) && (w != "" ==> Folded(t, w) != "")
  {
    if w != "" {
      assert NotUnderscore(w[|w| - 1]);
      FoldedWord(t, Init(w));
    }
  }

  lemma RunsDistinguishable(t: Tables, s: string)
    requires Lawful(t)
    ensures Distinguishable(LoweredRuns(t, s))
  {
    var runs := NonEmpty(Pieces(t.alphanumeric, s));
    forall k | 0 <= k < |runs|
      ensures Lowered(t, runs[k]) != "" && AllKept(NotUnderscore, Lowered(t, runs[k]))
    {
      NonEmptyFrom(Pieces(t.alphanumeric, s), runs[k]);
      PiecesKept(t.alphanumeric, s, runs[k]);
      LoweredWord(t, runs[k]);
    }
    forall k | 0 <= k < |runs|
      ensures LoweredRuns(t, s)[k] != "" && AllKept(NotUnderscore, LoweredRuns(t, s)[k])
    {
      MappedAt(Lowering(t), runs, k);
    }
  }

  lemma RunsNonEmpty(t: Tables, s: string)
    requires Lawful(t)
    ensures RunText(t, s) == "" <==> LoweredRuns(t, s) == []
  {
    RunsDistinguishable(t, s);
    TidyJoin(LoweredRuns(t, s));
  }

  lemma WordsDistinguishable(t: Tables, value: string)
    requires Lawful(t)
    ensures Distinguishable(Words(t, value))
  {
    var runs := LoweredRuns(t, t.nfkc(value));
    RunsDistinguishable(t, t.nfkc(value));
    forall k | 0 <= k < |runs| ensures Folded(t, runs[k]) != "" && AllKept(NotUnderscore, Folded(t, runs[k])) {
      FoldedWord(t, runs[k]);
    }
    forall k | 0 <= k < |runs| ensures Words(t, value)[k] != "" && AllKept(NotUnderscore, Words(t, value)[k]) {
      MappedAt(Folding(t), runs, k);
    }
  }

  lemma {:induction false} FoldedConcat(t: Tables, a: string, b: string)
    ensures Folded(t, a + b) == Folded(t, a) + Folded(t, b)
  {
    if b == "" {
      assert a + b == a;
    } else {
      assert Init(a + b) == a + Init(b) && Last(a + b) == Last(b);
      FoldedConcat(t, a, Init(b));
    }
  }

  /** Folding the joined text folds each word. */
  lemma {:induction false} FoldedJoin(t: Tables, words: seq<string>)
    requires Lawful(t)
    ensures Folded(t, Join("_", words)) == Join("_", Mapped(Folding(t), words))
  {
    if words != [] {
      FoldedJoin(t, Init(words));
      FoldedConcat(t, Join("_", Init(words)) + "_", Last(words));
      FoldedConcat(t, Join("_", Init(words)), "_");
      assert Init("_") == "" && Folded(t, "_") == "_";
      JoinAppend("_", Mapped(Folding(t), Init(words)), Folded(t, Last(words)));
    }
  }

  // ---- the shape of identifiers ----

  predicate Tidy(id: string) {
    (id != "" ==> id[0] != '_' && Last(id) != '_') &&
    forall k :: 0 < k < |id| && id[k] == '_' ==> id[k - 1] != '_'
  }

  lemma {:induction false} TidyJoin(words: seq<string>)
    requires Distinguishable(words)
    ensures Tidy(Join("_", words)) && (Join("_", words) == "" <==> words == [])
  {
    if |words| == 1 {
      assert words[0] != "" && NotUnderscore(words[0][0]) && NotUnderscore(words[0][|words[0]| - 1]);
    } else if words != [] {
      TidyJoin(Init(words));
      var w := Last(words);
      assert w == words[|words| - 1] && w != "" && NotUnderscore(w[0]) && NotUnderscore(w[|w| - 1]);
    }
  }

  /** No identifier starts, ends or doubles an underscore. */
  lemma NormalizedIsTidy(t: Tables, value: string)
    requires Lawful(t)
    ensures Tidy(Normalized(t, value))
  {
    WordsDistinguishable(t, value);
    TidyJoin(Words(t, value));
  }

  /** Two names get one identifier exactly when they have the same words. */
  lemma SameIdSameWords(t: Tables, a: string, b: string)
    requires Lawful(t)
    ensures Normalized(t, a) == Normalized(t, b) <==> Words(t, a) == Words(t, b)
  {
    WordsDistinguishable(t, a);
    WordsDistinguishable(t, b);
    TidyJoin(Words(t, a));
    TidyJoin(Words(t, b));
    if Words(t, a) != [] { PiecesOfJoin(NotUnderscore, '_', Words(t, a)); }
    if Words(t, b) != [] { PiecesOfJoin(NotUnderscore, '_', Words(t, b)); }
  }

  // ---- idempotence ----

  /** What one alphanumeric character becomes. */
  function LowerFolded(t: Tables, c: char): string { Folded(t, t.lower(c)) }

  /** Alphanumeric characters that lower-casing and folding produce, they leave alone. */
  ghost predicate Stable(t: Tables) {
    forall c, d {:trigger d in LowerFolded(t, c)} ::
      t.alphanumeric(c) && d in LowerFolded(t, c) && t.alphanumeric(d) ==> LowerFolded(t, d) == [d]
  }

  /** Every alphanumeric character becomes alphanumeric characters only. */
  ghost predicate KeepsWords(t: Tables, composed: string) {
    forall c :: c in composed && t.alphanumeric(c) ==> AllKept(t.alphanumeric, LowerFolded(t, c))
  }

  predicate Wordy(t: Tables, id: string) {
    forall k :: 0 <= k < |id| ==> id[k] == '_' || t.alphanumeric(id[k])
  }

  /** Lower-casing and folding leaves the alphanumeric characters of the identifier alone. */
  ghost predicate Settled(t: Tables, id: string) {
    forall k :: 0 <= k < |id| && t.alphanumeric(id[k]) ==> LowerFolded(t, id[k]) == [id[k]]
  }

  lemma LowerFoldedSnoc(t: Tables, w: string, c: char)
    ensures Folded(t, Lowered(t, w + [c])) == Folded(t, Lowered(t, w)) + LowerFolded(t, c)
  {
    assert Init(w + [c]) == w && Last(w + [c]) == c;
    FoldedConcat(t, Lowered(t, w), t.lower(c));
  }

  lemma {:induction false} FixedWord(t: Tables, w: string)
    requires forall k :: 0 <= k < |w| ==> LowerFolded(t, w[k]) == [w[k]]
    ensures Folded(t, Lowered(t, w)) == w
  {
    if w != "" {
      FixedWord(t, Init(w));
      LowerFoldedSnoc(t, Init(w), Last(w));
      assert w[|w| - 1] == Last(w);
      assert Init(w) + [Last(w)] == w;
    }
  }

  lemma {:induction false} FixedWords(t: Tables, words: seq<string>)
    requires forall w :: w in words ==> Folded(t, Lowered(t, w)) == w
    ensures Mapped(Folding(t), Mapped(Lowering(t), words)) == words
  {
    if words != [] {
      FixedWords(t, Init(words));
      assert Last(words) in words;
      assert Init(words) + [Last(words)] == words;
    }
  }

  /** The characters of a word come from those of its run. */
  lemma {:induction false} WordChar(t: Tables, w: string, d: char) returns (c: char)
    requires d in Folded(t, Lowered(t, w))
    ensures c in w && d in LowerFolded(t, c)
  {
    assert Init(w) + [Last(w)] == w;
    LowerFoldedSnoc(t, Init(w), Last(w));
    if d in LowerFolded(t, Last(w)) {
      c := Last(w);
      assert w[|w| - 1] == c;
    } else {
      c := WordChar(t, Init(w), d);
    }
  }

  lemma {:induction false} CharInWord(t: Tables, w: string, c: char, d: char)
    requires c in w && d in LowerFolded(t, c)
    ensures d in Folded(t, Lowered(t, w))
  {
    assert Init(w) + [Last(w)] == w;
    LowerFoldedSnoc(t, Init(w), Last(w));
    if c in Init(w) { CharInWord(t, Init(w), c, d); } else { assert c == Last(w); }
  }

  lemma {:induction false} CharInJoin(words: seq<string>, w: string, c: char)
    requires w in words && c in w
    ensures c in Join("_", words)
  {
    if |words| > 1 {
      assert words == Init(words) + [Last(words)];
      if w in Init(words) { CharInJoin(Init(words), w, c); } else { assert w == Last(words); }
    }
  }

  /** Where a character of an identifier comes from. */
  lemma IdChar(t: Tables, value: string, d: char) returns (c: char)
    requires d in Normalized(t, value) && d != '_'
    ensures c in t.nfkc(value) && t.alphanumeric(c) && d in LowerFolded(t, c)
  {
    var composed := t.nfkc(value);
    var runs := NonEmpty(Pieces(t.alphanumeric, composed));
    JoinChars(Words(t, value), d);
    var word :| word in Words(t, value) && d in word;
    var k :| 0 <= k < |Words(t, value)| && Words(t, value)[k] == word;
    MappedAt(Folding(t), LoweredRuns(t, composed), k);
    MappedAt(Lowering(t), runs, k);
    c := WordChar(t, runs[k], d);
    assert runs[k] in runs;
    NonEmptyFrom(Pieces(t.alphanumeric, composed), runs[k]);
    PieceChars(t.alphanumeric, composed, runs[k], c);
  }

  /** What every alphanumeric character becomes is in the identifier. */
  lemma CharInId(t: Tables, value: string, c: char, d: char)
    requires c in t.nfkc(value) && t.alphanumeric(c) && d in LowerFolded(t, c)
    ensures d in Normalized(t, value)
  {
    var composed := t.nfkc(value);
    var runs := NonEmpty(Pieces(t.alphanumeric, composed));
    var w := CharInPiece(t.alphanumeric, composed, c);
    NonEmptyHas(Pieces(t.alphanumeric, composed), w);
    var k :| 0 <= k < |runs| && runs[k] == w;
    MappedAt(Lowering(t), runs, k);
    MappedAt(Folding(t), LoweredRuns(t, composed), k);
    CharInWord(t, w, c, d);
    CharInJoin(Words(t, value), Words(t, value)[k], d);
  }

  /** The identifier holds only alphanumeric characters and underscores exactly when every
      alphanumeric character of the input becomes alphanumeric characters. */
  lemma WordyWhenKept(t: Tables, value: string)
    requires Lawful(t)
    ensures Wordy(t, Normalized(t, value)) <==> KeepsWords(t, t.nfkc(value))
  {
    var id := Normalized(t, value);
    if KeepsWords(t, t.nfkc(value)) {
      forall k | 0 <= k < |id| ensures id[k] == '_' || t.alphanumeric(id[k]) {
        if id[k] != '_' {
          var c := IdChar(t, value, id[k]);
          KeptAt(t, c, id[k]);
        }
      }
    }
    if Wordy(t, id) {
      forall c | c in t.nfkc(value) && t.alphanumeric(c) ensures AllKept(t.alphanumeric, LowerFolded(t, c)) {
        var s := LowerFolded(t, c);
        FoldedWord(t, t.lower(c));
        forall k | 0 <= k < |s| ensures t.alphanumeric(s[k]) {
          CharInId(t, value, c, s[k]);
          var i :| 0 <= i < |id| && id[i] == s[k];
          assert NotUnderscore(s[k]);
        }
      }
    }
  }

  lemma KeptAt(t: Tables, c: char, d: char)
    requires AllKept(t.alphanumeric, LowerFolded(t, c)) && d in LowerFolded(t, c)
    ensures t.alphanumeric(d)
  {
    var k :| 0 <= k < |LowerFolded(t, c)| && LowerFolded(t, c)[k] == d;
  }

  lemma SettledId(t: Tables, value: string)
    requires Lawful(t) && Stable(t)
    ensures Settled(t, Normalized(t, value))
  {
    var id := Normalized(t, value);
    forall k | 0 <= k < |id| && t.alphanumeric(id[k]) ensures LowerFolded(t, id[k]) == [id[k]] {
      var c := IdChar(t, value, id[k]);
    }
  }

  lemma {:induction false} PieceChars(keep: char -> bool, s: string, w: string, c: char)
    requires w in Pieces(keep, s) && c in w
    ensures c in s && keep(c)
  {
    if s != "" {
      var rest := Pieces(keep, Init(s));
      if w !in rest {
        assert keep(Last(s)) ==> w == Last(rest) + [Last(s)];
        if c in Last(rest) { PieceChars(keep, Init(s), Last(rest), c); }
      } else {
        PieceChars(keep, Init(s), w, c);
      }
    }
  }

  /** The pieces do not depend on which characters count as separators beyond those that occur. */
  lemma {:induction false} SamePieces(keep: char -> bool, other: char -> bool, s: string)
    requires forall k :: 0 <= k < |s| ==> (keep(s[k]) <==> other(s[k]))
    ensures Pieces(keep, s) == Pieces(other, s)
  {
    if s != "" { SamePieces(keep, other, Init(s)); }
  }

  lemma {:induction false} JoinChars(words: seq<string>, c: char)
    requires c in Join("_", words) && c != '_'
    ensures exists w :: w in words && c in w
  {
    if |words| == 1 {
      assert words[0] in words;
    } else if words != [] {
      if c in Last(words) { assert Last(words) in words; } else { JoinChars(Init(words), c); }
    }
  }

  /** Every word of a settled identifier is one of its runs, unchanged. */
  lemma SettledWords(t: Tables, id: string)
    requires t.nfkc(id) == id && Settled(t, id)
    ensures Words(t, id) == NonEmpty(Pieces(t.alphanumeric, id))
  {
    var runs := NonEmpty(Pieces(t.alphanumeric, id));
    forall w | w in runs ensures Folded(t, Lowered(t, w)) == w {
      forall k | 0 <= k < |w| ensures LowerFolded(t, w[k]) == [w[k]] {
        NonEmptyFrom(Pieces(t.alphanumeric, id), w);
        PieceChars(t.alphanumeric, id, w, w[k]);
      }
      FixedWord(t, w);
    }
    FixedWords(t, runs);
  }

  /** The runs of a joined text of alphanumeric words are those words. */
  lemma RunsOfJoin(t: Tables, words: seq<string>)
    requires Distinguishable(words) && !t.alphanumeric('_') && Wordy(t, Join("_", words))
    ensures NonEmpty(Pieces(t.alphanumeric, Join("_", words))) == words
  {
    var id := Join("_", words);
    if words != [] {
      forall k | 0 <= k < |id| ensures t.alphanumeric(id[k]) <==> NotUnderscore(id[k]) {}
      SamePieces(t.alphanumeric, NotUnderscore, id);
      PiecesOfJoin(NotUnderscore, '_', words);
      AllNonEmpty(words);
    } else {
      assert Pieces(t.alphanumeric, id) == [""] && NonEmpty([""]) == [];
    }
  }

  lemma RunsAreAlphanumeric(t: Tables, s: string, c: char)
    requires c in Join("_", NonEmpty(Pieces(t.alphanumeric, s))) && c != '_'
    ensures t.alphanumeric(c)
  {
    var runs := NonEmpty(Pieces(t.alphanumeric, s));
    JoinChars(runs, c);
    var w :| w in runs && c in w;
    NonEmptyFrom(Pieces(t.alphanumeric, s), w);
    PieceChars(t.alphanumeric, s, w, c);
  }

  /** Normalising an identifier that is still composed changes nothing exactly when every alphanumeric
      character of the composed input lower-cases and folds to alphanumeric characters only. */
  lemma Idempotent(t: Tables, value: string)
    requires Lawful(t) && Stable(t) && t.nfkc(Normalized(t, value)) == Normalized(t, value)
    ensures Normalized(t, Normalized(t, value)) == Normalized(t, value) <==> KeepsWords(t, t.nfkc(value))
  {
    var id := Normalized(t, value);
    SettledId(t, value);
    SettledWords(t, id);
    WordyWhenKept(t, value);
    if Wordy(t, id) {
      WordsDistinguishable(t, value);
      RunsOfJoin(t, Words(t, value));
    } else if Normalized(t, id) == id {
      forall k | 0 <= k < |id| ensures id[k] == '_' || t.alphanumeric(id[k]) {
        if id[k] != '_' { RunsAreAlphanumeric(t, id, id[k]); }
      }
    }
  }

  /** With tables that keep identifiers composed and alphanumeric characters alphanumeric, normalising
      again never changes anything. */
  lemma AlwaysIdempotent(t: Tables, value: string)
    requires Lawful(t) && Stable(t)
    requires forall v :: t.nfkc(Normalized(t, v)) == Normalized(t, v)
    requires forall c :: t.alphanumeric(c) ==> AllKept(t.alphanumeric, LowerFolded(t, c))
    ensures Normalized(t, Normalized(t, value)) == Normalized(t, value)
  {
    Idempotent(t, value);
  }

  // ---- identifiers of several parts ----

  predicate IsJoint(c: char) { c == '_' || c == '.' }

  /** Underscores and full stops are separators that composition leaves alone. */
  ghost predicate Separable(t: Tables) {
    t.nfkc("") == "" && !t.alphanumeric('_') && !t.alphanumeric('.') &&
    forall a: string, c: char, b: string {:trigger t.nfkc(a + [c] + b)} ::
      IsJoint(c) ==> t.nfkc(a + [c] + b) == t.nfkc(a) + [c] + t.nfkc(b)
  }

  function TrimJoints(s: string): string
    decreases |s|
  {
    if s != "" && IsJoint(s[0]) then TrimJoints(s[1..])
    else if s != "" && IsJoint(Last(s)) then TrimJoints(Init(s))
    else s
  }

  function JoinedParts(parts: seq<string>): string { Join("_", Mapped(TrimJoints, NonEmpty(parts))) }

  ghost function MakeId(t: Tables, parts: seq<string>): string { Normalized(t, JoinedParts(parts)) }

  ghost function NodeId(t: Tables, sourceFile: string, symbol: string): string { MakeId(t, [sourceFile, symbol]) }

  ghost function WordsOfAll(t: Tables, parts: seq<string>): seq<string> {
    if parts == [] then [] else WordsOfAll(t, Init(parts)) + Words(t, Last(parts))
  }

  lemma WordsConcat(t: Tables, a: string, c: char, b: string)
    requires Separable(t) && IsJoint(c)
    ensures Words(t, a + [c] + b) == Words(t, a) + Words(t, b)
  {
    var x, y := t.nfkc(a), t.nfkc(b);
    assert t.nfkc(a + [c] + b) == x + [c] + y;
    PiecesConcat(t.alphanumeric, x, c, y);
    NonEmptyConcat(Pieces(t.alphanumeric, x), Pieces(t.alphanumeric, y));
    MappedConcat(Lowering(t), NonEmpty(Pieces(t.alphanumeric, x)), NonEmpty(Pieces(t.alphanumeric, y)));
    MappedConcat(Folding(t), LoweredRuns(t, x), LoweredRuns(t, y));
  }

  lemma NoWords(t: Tables)
    requires Separable(t)
    ensures Words(t, "") == []
  {
    NoRuns(t);
  }

  lemma {:induction false} TrimKeepsWords(t: Tables, s: string)
    requires Separable(t)
    ensures Words(t, TrimJoints(s)) == Words(t, s)
    decreases |s|
  {
    NoWords(t);
    if s != "" && IsJoint(s[0]) {
      assert s == "" + [s[0]] + s[1..];
      WordsConcat(t, "", s[0], s[1..]);
      TrimKeepsWords(t, s[1..]);
    } else if s != "" && IsJoint(Last(s)) {
      assert s == Init(s) + [Last(s)] + "";
      WordsConcat(t, Init(s), Last(s), "");
      TrimKeepsWords(t, Init(s));
    }
  }

  lemma JoinedAppend(parts: seq<string>, last: string)
    ensures JoinedParts(parts + [last]) ==
      if last == "" then JoinedParts(parts)
      else if NonEmpty(parts) == [] then TrimJoints(last)
      else JoinedParts(parts) + "_" + TrimJoints(last)
  {
    if last == "" {
      NonEmptyConcat(parts, [""]);
      assert NonEmpty([""]) == [] && NonEmpty(parts) + [] == NonEmpty(parts);
    } else {
      JoinedWith(TrimJoints, "_", parts, last);
    }
  }

  lemma AllWordsAppend(t: Tables, parts: seq<string>, last: string)
    ensures WordsOfAll(t, parts + [last]) == WordsOfAll(t, parts) + Words(t, last)
  {
    assert Init(parts + [last]) == parts;
  }

  /** The words of a made identifier are those of its parts, in order: dropping empty parts, trimming
      and joining lose and merge nothing. */
  lemma {:induction false} MadeWords(t: Tables, parts: seq<string>)
    requires Separable(t)
    ensures Words(t, JoinedParts(parts)) == WordsOfAll(t, parts)
  {
    NoWords(t);
    if parts == [] {
      assert JoinedParts(parts) == "";
    } else {
      var init, last := Init(parts), Last(parts);
      assert parts == init + [last];
      MadeWords(t, init);
      JoinedAppend(init, last);
      AllWordsAppend(t, init, last);
      MadeStep(t, init, last);
    }
  }

  lemma MadeStep(t: Tables, init: seq<string>, last: string)
    requires Separable(t)
    ensures Words(t, JoinedParts(init + [last])) == Words(t, JoinedParts(init)) + Words(t, last)
  {
    JoinedAppend(init, last);
    NoWords(t);
    TrimKeepsWords(t, last);
    if last != "" {
      if NonEmpty(init) == [] {
        assert JoinedParts(init) == "";
      } else {
        WordsConcat(t, JoinedParts(init), '_', TrimJoints(last));
      }
    }
  }

  lemma JoinTwo(a: seq<string>, b: seq<string>)
    requires Distinguishable(a) && Distinguishable(b)
    ensures Join("_", a + b) ==
      if Join("_", a) == "" then Join("_", b) else if Join("_", b) == "" then Join("_", a)
      else Join("_", a) + "_" + Join("_", b)
  {
    TidyJoin(a);
    TidyJoin(b);
    if a == [] {
      assert a + b == b;
    } else if b == [] {
      assert a + b == a;
    } else {
      JoinConcat("_", a, b);
    }
  }

  /** So an identifier of two parts is the identifiers of the parts, joined. */
  lemma NodeIdJoins(t: Tables, sourceFile: string, symbol: string)
    requires Lawful(t) && Separable(t)
    ensures var a, b := Normalized(t, sourceFile), Normalized(t, symbol);
      NodeId(t, sourceFile, symbol) == if a == "" then b else if b == "" then a else a + "_" + b
  {
    TwoParts(t, sourceFile, symbol);
    WordsDistinguishable(t, sourceFile);
    WordsDistinguishable(t, symbol);
    JoinTwo(Words(t, sourceFile), Words(t, symbol));
  }

  lemma TwoParts(t: Tables, sourceFile: string, symbol: string)
    requires Separable(t)
    ensures Words(t, JoinedParts([sourceFile, symbol])) == Words(t, sourceFile) + Words(t, symbol)
  {
    MadeWords(t, [sourceFile, symbol]);
    AllWordsOfTwo(t, sourceFile, symbol);
  }

  lemma AllWordsOfTwo(t: Tables, a: string, b: string)
    ensures WordsOfAll(t, [a, b]) == Words(t, a) + Words(t, b)
  {
    AllWordsAppend(t, [], a);
    AllWordsAppend(t, [a], b);
    assert [] + [a] == [a] && [a] + [b] == [a, b];
    assert WordsOfAll(t, []) + Words(t, a) == Words(t, a);
  }

  // ---- a table for which normalisation is not idempotent ----

  const DOTTED_CAPITAL_I: char := '\U{0130}'
  const COMBINING_DOT: char := '\U{0307}'

  /** Tables that agree with Unicode on the capital I with a dot, the letter i and the combining dot. */
  function DottedTables(): Tables {
    Tables(s => s, c => c == DOTTED_CAPITAL_I || c == 'i',
           c => if c == DOTTED_CAPITAL_I then ['i', COMBINING_DOT] else [c], c => [c])
  }

  lemma {:induction false} DottedNormalized()
    ensures Normalized(DottedTables(), [DOTTED_CAPITAL_I]) == ['i', COMBINING_DOT]
  {
    var t, s, id := DottedTables(), [DOTTED_CAPITAL_I], ['i', COMBINING_DOT];
    OnePiece(t.alphanumeric, s);
    assert NonEmpty([s]) == [s];
    assert Init(s) == "" && Lowered(t, s) == id;
    MappedOne(Lowering(t), s);
    assert Init(id) == ['i'] && Init(['i']) == "" && Folded(t, id) == id;
    MappedOne(Folding(t), id);
  }

  lemma DottedStable()
    ensures Stable(DottedTables()) && Lawful(DottedTables())
    ensures LowerFolded(DottedTables(), DOTTED_CAPITAL_I) == ['i', COMBINING_DOT]
  {
    var t, id := DottedTables(), ['i', COMBINING_DOT];
    assert Init(id) == ['i'] && Init(['i']) == "" && Folded(t, id) == id;
    assert Init(['i']) == "" && LowerFolded(t, 'i') == ['i'];
  }

  /** The dotted capital I: its lower case holds a combining mark, which the next pass drops. */
  lemma NotAlwaysIdempotent()
    ensures Lawful(DottedTables()) && Stable(DottedTables())
    ensures Normalized(DottedTables(), [DOTTED_CAPITAL_I]) == ['i', COMBINING_DOT]
    ensures Normalized(DottedTables(), ['i', COMBINING_DOT]) != ['i', COMBINING_DOT]
  {
    var t, s, id := DottedTables(), [DOTTED_CAPITAL_I], ['i', COMBINING_DOT];
    DottedNormalized();
    DottedStable();
    assert DOTTED_CAPITAL_I in s && id[1] == COMBINING_DOT && !AllKept(t.alphanumeric, id);
    assert !KeepsWords(t, s);
    Idempotent(t, s);
  }
}
