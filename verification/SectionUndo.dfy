/** Removing a section that was appended gives the text back. */
module SectionUndo {
  import opened Wrappers
  import opened Text
  import opened Splitting
  import opened ManagedSections
  import opened SectionRemoval

  /** The first line is the marker and nothing else. */
  predicate Heads(section: string, marker: string) { IsExactly(SplitLines(section)[0], marker) }

  lemma ExactIsMarked(line: string, marker: string)
    requires IsMarkerText(marker) && IsExactly(line, marker)
    ensures Marks(marker)(line)
  {
    TrimBare(marker);
    if line != marker {
      assert line == marker + ['\r'];
      TrimExtend(marker, '\r');
    }
  }

  lemma {:induction false} UnmarkedTrimmed(s: string, marker: string)
    requires IsMarkerText(marker) && Unmarked(SplitLines(s), Marks(marker))
    ensures Unmarked(SplitLines(TrimEnd(s)), Marks(marker))
    decreases |s|
  {
    if s != "" && IsWhitespace(Last(s)) {
      UnmarkedInit(s, marker);
      UnmarkedTrimmed(Init(s), marker);
    }
  }

  lemma UnmarkedInit(s: string, marker: string)
    requires s != "" && IsWhitespace(Last(s)) && Unmarked(SplitLines(s), Marks(marker))
    ensures Unmarked(SplitLines(Init(s)), Marks(marker))
  {
    var rest := SplitLines(Init(s));
    PiecesSnoc(NotNewline, Init(s), Last(s));
    assert Init(s) + [Last(s)] == s;
    TrimExtend(Last(rest), Last(s));
    UnmarkedShorter(rest, Last(s), Marks(marker));
  }

  lemma UnmarkedShorter(rest: seq<string>, c: char, hit: string -> bool)
    requires rest != [] && hit(Last(rest) + [c]) == hit(Last(rest))
    requires Unmarked(if c == '\n' then rest + [""] else Extended(rest, c), hit)
    ensures Unmarked(rest, hit)
  {
    var lines := if c == '\n' then rest + [""] else Extended(rest, c);
    var n := |rest| - 1;
    assert lines[n] == if c == '\n' then rest[n] else rest[n] + [c];
    forall k | 0 <= k < |rest| ensures !hit(rest[k]) {
      if k < n { assert lines[k] == rest[k]; }
    }
  }

  /** Trimming the end of a section leaves its first line the marker. */
  lemma {:induction false} HeadsTrimmed(s: string, marker: string)
    requires IsMarkerText(marker) && Heads(s, marker)
    ensures Heads(TrimEnd(s), marker)
    decreases |s|
  {
    if s != "" && IsWhitespace(Last(s)) {
      PiecesSnoc(NotNewline, Init(s), Last(s));
      assert Init(s) + [Last(s)] == s;
      HeadsShorter(SplitLines(Init(s)), Last(s), marker);
      HeadsTrimmed(Init(s), marker);
    }
  }

  lemma HeadsShorter(rest: seq<string>, c: char, marker: string)
    requires rest != [] && marker != "" && !IsWhitespace(Last(marker)) && IsWhitespace(c)
    requires IsExactly((if c == '\n' then rest + [""] else Extended(rest, c))[0], marker)
    ensures IsExactly(rest[0], marker)
  {
    if c != '\n' && |rest| == 1 {
      var line := rest[0] + [c];
      assert Last(line) == c;
      assert Init(line) == rest[0];
    }
  }

  lemma {:induction false} EndedUnlines(lines: seq<string>)
    requires lines != []
    ensures Ended(lines) == Unlines(lines) + "\n"
  {
    EndedInit(lines);
  }

  /** The lines before the section, each ended: the head and one blank line. */
  lemma EndedHead(head: string)
    ensures Ended(HeadLines(head)) == if head == "" then "" else head + "\n\n"
  {
    if head != "" {
      var lines := SplitLines(head);
      EndedUnlines(lines);
      JoinOfPieces(NotNewline, '\n', head);
      assert Init(lines + [""]) == lines;
      assert head + "\n" + "" + "\n" == head + "\n\n";
    }
  }

  /** In a composed text whose head has no marker, the section is found and runs to the end. */
  lemma RemovedComposed(head: string, middle: string, ended: bool, marker: string)
    requires IsMarkerText(marker) && Unmarked(SplitLines(head), Marks(marker))
    requires Proper(SplitLines(middle), Marks(marker)) && Heads(middle, marker)
    ensures RemoveSection(Compose(head, middle, "") + Ending(ended), marker) == Some(Collapsed(Ended(HeadLines(head))))
  {
    EmptyIsNoMarker(marker);
    ComposedLines(head, middle, "", ended);
    assert Unmarked(TailLines("", ended), Marks(marker)) &&
           NextHeading(TailLines("", ended), 0) == |TailLines("", ended)|;
    HeadLinesUnmarked(head, Marks(marker));
    RemovedFrom(Compose(head, middle, "") + Ending(ended), HeadLines(head), SplitLines(middle),
                TailLines("", ended), marker);
  }

  lemma HeadLinesUnmarked(head: string, hit: string -> bool)
    requires Unmarked(SplitLines(head), hit)
    ensures forall k :: 0 <= k < |HeadLines(head)| ==> HeadLines(head)[k] == "" || !hit(HeadLines(head)[k])
  {}

  lemma RemovedFrom(text: string, pre: seq<string>, mid: seq<string>, post: seq<string>, marker: string)
    requires IsMarkerText(marker) && SplitLines(text) == pre + mid + post
    requires Proper(mid, Marks(marker)) && IsExactly(mid[0], marker)
    requires Unmarked(post, Marks(marker)) && NextHeading(post, 0) == |post|
    requires forall k :: 0 <= k < |pre| ==> pre[k] == "" || !Marks(marker)(pre[k])
    ensures RemoveSection(text, marker) == Some(Collapsed(Ended(pre)))
  {
    RunsToEnd(pre, mid, post, Marks(marker));
    StartsWith(pre, mid, post);
    FirstInComposed(text, pre, mid, post, marker);
    RemovedToEnd(text, pre, marker);
  }

  lemma RunsToEnd(pre: seq<string>, mid: seq<string>, post: seq<string>, hit: string -> bool)
    requires Proper(mid, hit) && Unmarked(post, hit) && NextHeading(post, 0) == |post|
    ensures NextHeading(pre + mid + post, |pre| + 1) == |pre + mid + post|
  {
    Located(pre, mid, post, hit);
  }

  lemma StartsWith(pre: seq<string>, mid: seq<string>, post: seq<string>)
    ensures (pre + mid + post)[..|pre|] == pre
  {}

  lemma RemovedToEnd(text: string, pre: seq<string>, marker: string)
    requires |pre| < |SplitLines(text)| && SplitLines(text)[..|pre|] == pre
    requires FirstExact(Segments(text), marker, 0) == Some(|pre|)
    requires NextHeading(SplitLines(text), |pre| + 1) == |SplitLines(text)|
    ensures RemoveSection(text, marker) == Some(Collapsed(Ended(pre)))
  {
    var lines := SplitLines(text);
    RemoveAt(text, marker, |pre|);
    assert lines[|lines|..] == [];
    assert Ended(pre) + "" == Ended(pre);
  }

  lemma FirstInComposed(text: string, pre: seq<string>, mid: seq<string>, post: seq<string>, marker: string)
    requires IsMarkerText(marker) && SplitLines(text) == pre + mid + post
    requires mid != [] && IsExactly(mid[0], marker)
    requires forall k :: 0 <= k < |pre| ==> pre[k] == "" || !Marks(marker)(pre[k])
    ensures FirstExact(Segments(text), marker, 0) == Some(|pre|)
  {
    var lines := SplitLines(text);
    forall j | 0 <= j < |pre| ensures !IsExactly(lines[j], marker) {
      assert lines[j] == pre[j];
      if IsExactly(pre[j], marker) { ExactIsMarked(pre[j], marker); }
    }
    assert lines[|pre|] == mid[0] && mid[0] != "";
    if Last(lines) == "" { assert |pre| < |lines| - 1; }
    FirstExactIn(Segments(text), lines, |pre| + 1, marker, |pre|);
  }

  /** Uninstalling what installing put into a text without the marker: the text up to white space at
      its end, with runs of newlines shortened; exactly the text and a blank line when it has none. */
  lemma RemoveUndoesAppend(content: string, marker: string, section: string)
    requires IsSection(section, marker) && Heads(TrimStart(section), marker) && !HasMarker(content, marker)
    ensures var kept := TrimEnd(content);
      RemoveSection(ReplaceOrAppend(content, marker, section), marker) ==
        Some(if kept == "" then "" else Collapsed(kept + "\n\n")) &&
      (kept != "" ==> (Collapsed(kept + "\n\n") == kept + "\n\n" <==> NoTriple(kept)))
  {
    var kept, middle := TrimEnd(content), Placed(content, marker, section);
    AppliedOnce(content, marker, section);
    PlacedProper(content, marker, section);
    HeadsTrimmed(TrimStart(section), marker);
    assert Heads(middle, marker);
    UnmarkedTrimmed(content, marker);
    TerminateEnding(Compose(kept, middle, ""));
    RemovedComposed(kept, middle, !IsEnded(Compose(kept, middle, "")), marker);
    EndedHead(kept);
    if kept != "" {
      TrimEndTrimmed(content);
      BlankEnd(kept);
    }
  }

  lemma BlankEnd(s: string)
    requires s != "" && !IsWhitespace(Last(s))
    ensures Collapsed(s + "\n\n") == s + "\n\n" <==> NoTriple(s)
  {
    var t := s + "\n\n";
    if NoTriple(s) {
      forall k | 0 <= k < |t| ensures !TripleAt(t, k) {
        if k < |s| { assert !TripleAt(s, k); }
      }
      NothingToCollapse(t);
    }
    CollapsedHasNoTriple(t);
    if Collapsed(t) == t {
      forall k | 0 <= k < |s| ensures !TripleAt(s, k) { assert !TripleAt(t, k); }
    }
  }
}
