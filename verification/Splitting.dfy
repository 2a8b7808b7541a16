/** Splitting text at separator characters, and joining it again. */
module Splitting {

  function Last<T>(s: seq<T>): T requires s != [] { s[|s| - 1] }

  function Init<T>(s: seq<T>): seq<T> requires s != [] { s[..|s| - 1] }

  predicate NotNewline(c: char) { c != '\n' }

  /** The pieces between separators, a separator being any character not kept. */
  function Pieces(keep: char -> bool, s: string): (out: seq<string>)
    ensures out != []
  {
    if s == "" then [""]
    else
      var rest := Pieces(keep, Init(s));
      if keep(Last(s)) then Init(rest) + [Last(rest) + [Last(s)]] else rest + [""]
  }

  predicate AllKept(keep: char -> bool, w: string) { forall k :: 0 <= k < |w| ==> keep(w[k]) }

  function Join(separator: string, words: seq<string>): string {
    if words == [] then ""
    else if |words| == 1 then words[0]
    else Join(separator, Init(words)) + separator + Last(words)
  }

  function NonEmpty(words: seq<string>): (out: seq<string>)
    ensures |out| <= |words|
  {
    if words == [] then []
    else NonEmpty(Init(words)) + if Last(words) == "" then [] else [Last(words)]
  }

  function Mapped(f: string -> string, words: seq<string>): (out: seq<string>)
    ensures |out| == |words|
  {
    if words == [] then [] else Mapped(f, Init(words)) + [f(Last(words))]
  }

  lemma {:induction false} MappedAt(f: string -> string, words: seq<string>, k: nat)
    requires k < |words|
    ensures Mapped(f, words)[k] == f(words[k])
  {
    if k < |words| - 1 { MappedAt(f, Init(words), k); }
  }

  lemma MappedOne(f: string -> string, w: string)
    ensures Mapped(f, [w]) == [f(w)]
  {
    assert Init([w]) == [];
  }

  lemma {:induction false} PiecesKept(keep: char -> bool, s: string, w: string)
    requires w in Pieces(keep, s)
    ensures AllKept(keep, w)
  {
    if s != "" {
      var rest := Pieces(keep, Init(s));
      if w in rest {
        PiecesKept(keep, Init(s), w);
      } else if keep(Last(s)) {
        PiecesKept(keep, Init(s), Last(rest));
        assert w == Last(rest) + [Last(s)];
      }
    }
  }

  lemma {:induction false} NonEmptyFrom(words: seq<string>, w: string)
    requires w in NonEmpty(words)
    ensures w != "" && w in words
  {
    if words != [] {
      if w in NonEmpty(Init(words)) { NonEmptyFrom(Init(words), w); } else { assert w == Last(words); }
    }
  }

  lemma {:induction false} AllNonEmpty(words: seq<string>)
    requires forall k :: 0 <= k < |words| ==> words[k] != ""
    ensures NonEmpty(words) == words
  {
    if words != [] {
      AllNonEmpty(Init(words));
      assert Last(words) == words[|words| - 1];
      assert Init(words) + [Last(words)] == words;
    }
  }

  lemma {:induction false} NonEmptyHas(words: seq<string>, w: string)
    requires w in words && w != ""
    ensures w in NonEmpty(words)
  {
    if w != Last(words) {
      var k :| 0 <= k < |words| && words[k] == w;
      assert Init(words)[k] == w;
      NonEmptyHas(Init(words), w);
    }
  }

  lemma {:induction false} NonEmptyConcat(a: seq<string>, b: seq<string>)
    ensures NonEmpty(a + b) == NonEmpty(a) + NonEmpty(b)
  {
    if b == [] {
      assert a + b == a;
    } else {
      assert Init(a + b) == a + Init(b) && Last(a + b) == Last(b);
      NonEmptyConcat(a, Init(b));
    }
  }

  lemma {:induction false} MappedConcat(f: string -> string, a: seq<string>, b: seq<string>)
    ensures Mapped(f, a + b) == Mapped(f, a) + Mapped(f, b)
  {
    if b == [] {
      assert a + b == a;
    } else {
      assert Init(a + b) == a + Init(b) && Last(a + b) == Last(b);
      MappedConcat(f, a, Init(b));
    }
  }

  lemma PiecesSnoc(keep: char -> bool, s: string, d: char)
    ensures Pieces(keep, s + [d]) ==
      if keep(d) then Extended(Pieces(keep, s), d) else Pieces(keep, s) + [""]
  {
    assert Init(s + [d]) == s;
  }

  /** The last word one character longer. */
  function Extended(words: seq<string>, d: char): seq<string>
    requires words != []
  {
    Init(words) + [Last(words) + [d]]
  }

  lemma ExtendedConcat(left: seq<string>, right: seq<string>, d: char)
    requires right != []
    ensures Extended(left + right, d) == left + Extended(right, d)
  {
    assert Init(left + right) == left + Init(right);
  }

  /** A separator between two texts separates their pieces. */
  lemma {:induction false} PiecesConcat(keep: char -> bool, a: string, c: char, b: string)
    requires !keep(c)
    ensures Pieces(keep, a + [c] + b) == Pieces(keep, a) + Pieces(keep, b)
  {
    if b == "" {
      PiecesSnoc(keep, a, c);
      assert a + [c] + b == a + [c];
    } else {
      PiecesConcat(keep, a, c, Init(b));
      PiecesStep(keep, a + [c] + Init(b), Pieces(keep, a), Init(b), Last(b));
      assert a + [c] + b == (a + [c] + Init(b)) + [Last(b)] && Init(b) + [Last(b)] == b;
    }
  }

  lemma PiecesStep(keep: char -> bool, s: string, left: seq<string>, b: string, d: char)
    requires Pieces(keep, s) == left + Pieces(keep, b)
    ensures Pieces(keep, s + [d]) == left + Pieces(keep, b + [d])
  {
    PiecesSnoc(keep, s, d);
    PiecesSnoc(keep, b, d);
    ExtendedConcat(left, Pieces(keep, b), d);
  }

  /** Text with no separator is one piece. */
  lemma {:induction false} OnePiece(keep: char -> bool, s: string)
    requires AllKept(keep, s)
    ensures Pieces(keep, s) == [s]
  {
    if s != "" {
      assert AllKept(keep, Init(s)) && keep(s[|s| - 1]);
      OnePiece(keep, Init(s));
      assert Init(s) + [Last(s)] == s;
    }
  }

  lemma LineAndRest(line: string, rest: string)
    requires AllKept(NotNewline, line)
    ensures Pieces(NotNewline, line + ['\n'] + rest) == [line] + Pieces(NotNewline, rest)
  {
    OnePiece(NotNewline, line);
    PiecesConcat(NotNewline, line, '\n', rest);
  }

  lemma SplitAt(s: string, cut: nat)
    requires cut < |s|
    ensures s == s[..cut] + [s[cut]] + s[cut + 1..]
  {}

  /** A text from a line start on: its first line, and the rest if there is any. */
  lemma FirstPiece(s: string, cut: nat)
    requires cut <= |s| && (cut < |s| ==> s[cut] == '\n') && forall j :: 0 <= j < cut ==> s[j] != '\n'
    ensures Pieces(NotNewline, s) == [s[..cut]] + if cut < |s| then Pieces(NotNewline, s[cut + 1..]) else []
  {
    assert AllKept(NotNewline, s[..cut]);
    if cut < |s| {
      SplitAt(s, cut);
      LineAndRest(s[..cut], s[cut + 1..]);
    } else {
      assert s == s[..cut];
      OnePiece(NotNewline, s);
    }
  }

  /** Splitting undoes joining with a separator the words do not contain. */
  lemma {:induction false} PiecesOfJoin(keep: char -> bool, c: char, words: seq<string>)
    requires !keep(c) && words != [] && forall k :: 0 <= k < |words| ==> AllKept(keep, words[k])
    ensures Pieces(keep, Join([c], words)) == words
  {
    if |words| == 1 {
      OnePiece(keep, words[0]);
    } else {
      PiecesOfJoin(keep, c, Init(words));
      PiecesConcat(keep, Join([c], Init(words)), c, Last(words));
      OnePiece(keep, Last(words));
      assert Init(words) + [Last(words)] == words;
    }
  }

  /** Joining the pieces gives the text back when only one character separates. */
  lemma {:induction false} JoinOfPieces(keep: char -> bool, c: char, s: string)
    requires forall d :: keep(d) <==> d != c
    ensures Join([c], Pieces(keep, s)) == s
  {
    if s != "" {
      JoinOfPieces(keep, c, Init(s));
      var rest := Pieces(keep, Init(s));
      assert Init(s) + [Last(s)] == s;
      if keep(Last(s)) {
        JoinLast([c], Init(rest), Last(rest), [Last(s)]);
        assert Init(rest) + [Last(rest)] == rest;
      } else {
        JoinAppend([c], rest, "");
      }
    }
  }

  lemma JoinLast(separator: string, words: seq<string>, w: string, more: string)
    ensures Join(separator, words + [w + more]) == Join(separator, words + [w]) + more
  {
    assert Init(words + [w]) == words && Init(words + [w + more]) == words;
  }

  lemma JoinAppend(separator: string, words: seq<string>, w: string)
    ensures Join(separator, words + [w]) == if words == [] then w else Join(separator, words) + separator + w
  {
    assert Init(words + [w]) == words;
  }

  lemma {:induction false} JoinConcat(separator: string, a: seq<string>, b: seq<string>)
    requires a != [] && b != []
    ensures Join(separator, a + b) == Join(separator, a) + separator + Join(separator, b)
  {
    var ab := a + b;
    assert Init(ab) == a + Init(b) && Last(ab) == Last(b);
    if |b| == 1 {
      assert Init(b) == [] && a + [] == a;
    } else {
      JoinConcat(separator, a, Init(b));
    }
  }

  /** Joining the non-empty words, each changed: a further word goes behind a separator. */
  lemma JoinedWith(f: string -> string, separator: string, words: seq<string>, w: string)
    requires w != ""
    ensures Join(separator, Mapped(f, NonEmpty(words + [w]))) ==
      if NonEmpty(words) == [] then f(w) else Join(separator, Mapped(f, NonEmpty(words))) + separator + f(w)
  {
    NonEmptyConcat(words, [w]);
    assert NonEmpty([w]) == [w];
    MappedConcat(f, NonEmpty(words), [w]);
    MappedOne(f, w);
    JoinAppend(separator, Mapped(f, NonEmpty(words)), f(w));
  }

  lemma {:induction false} CharInPiece(keep: char -> bool, s: string, c: char) returns (w: string)
    requires c in s && keep(c)
    ensures w in Pieces(keep, s) && c in w
  {
    var rest := Pieces(keep, Init(s));
    assert Init(s) + [Last(s)] == s && Init(rest) + [Last(rest)] == rest;
    PiecesSnoc(keep, Init(s), Last(s));
    if c in Init(s) {
      w := CharInPiece(keep, Init(s), c);
      if keep(Last(s)) {
        if w !in Init(rest) { w := Last(rest) + [Last(s)]; }
      }
    } else {
      w := Last(rest) + [Last(s)];
    }
  }
}
