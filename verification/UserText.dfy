/** What the user wrote around a managed section stays, character by character. */
module UserText {
  import opened Wrappers
  import opened Text
  import opened Splitting
  import opened ManagedSections

  /** The managed section as it stands in the content: from its marker line up to the next heading,
      or to the end. */
  function Managed(content: string, hit: string -> bool): string {
    var lines := SplitLines(content);
    match LastMarker(lines, hit, |lines|)
    case None => ""
    case Some(k) =>
      var end := NextHeading(lines, k + 1);
      Unlines(lines[k..end]) + if end < |lines| then "\n" else ""
  }

  predicate Blank(s: string) { forall c | c in s :: IsWhitespace(c) }

  lemma {:induction false} TrimEndGap(s: string)
    ensures Blank(s[|TrimEnd(s)|..])
    decreases |s|
  {
    if s != "" && IsWhitespace(Last(s)) {
      TrimEndGap(Init(s));
      assert s[|TrimEnd(s)|..] == Init(s)[|TrimEnd(s)|..] + [Last(s)];
    }
  }

  /** The text before a line, with the newline in front of it. */
  lemma TextBefore(content: string, k: nat)
    requires k < |SplitLines(content)|
    ensures var lines := SplitLines(content);
      content == (if k == 0 then "" else Unlines(lines[..k]) + "\n") + Unlines(lines[k..])
  {
    var lines := SplitLines(content);
    JoinOfPieces(NotNewline, '\n', content);
    assert lines[..k] + lines[k..] == lines;
    if k > 0 { JoinConcat("\n", lines[..k], lines[k..]); } else { assert lines[0..] == lines; }
  }

  lemma TextBetween(lines: seq<string>, k: nat, end: nat)
    requires k < end <= |lines|
    ensures Unlines(lines[k..]) ==
      Unlines(lines[k..end]) + (if end < |lines| then "\n" else "") + Unlines(lines[end..])
  {
    assert lines[k..] == lines[k..end] + lines[end..];
    if end < |lines| {
      JoinConcat("\n", lines[k..end], lines[end..]);
    } else {
      assert lines[end..] == [] && lines[k..] == lines[k..end];
    }
  }

  lemma GapBefore(lines: seq<string>, k: nat) returns (gap: string)
    requires k <= |lines|
    ensures Blank(gap)
    ensures (if k == 0 then "" else Unlines(lines[..k]) + "\n") == TrimEnd(Unlines(lines[..k])) + gap
  {
    var text := Unlines(lines[..k]);
    TrimEndGap(text);
    if k == 0 {
      assert lines[..0] == [];
      return "";
    }
    gap := text[|TrimEnd(text)|..] + "\n";
    assert text == TrimEnd(text) + text[|TrimEnd(text)|..];
  }

  lemma Regrouped(before: string, head: string, gap: string, middle: string, tail: string)
    requires before == head + gap
    ensures before + (middle + tail) == head + gap + middle + tail
  {}

  lemma RestAround(content: string, hit: string -> bool, k: nat) returns (gap: string)
    requires LastMarker(SplitLines(content), hit, |SplitLines(content)|) == Some(k)
    ensures Blank(gap) && content == HeadBy(content, hit) + gap + Managed(content, hit) + TailBy(content, hit)
  {
    var lines := SplitLines(content);
    TextBefore(content, k);
    TextBetween(lines, k, NextHeading(lines, k + 1));
    gap := GapBefore(lines, k);
    Regrouped(if k == 0 then "" else Unlines(lines[..k]) + "\n", HeadBy(content, hit), gap,
              Managed(content, hit), TailBy(content, hit));
  }

  /** The content is the text that is kept before the section, white space, the section, and the text
      that is kept after it: nothing else is the user's. */
  lemma UserTextIsTheRest(content: string, hit: string -> bool) returns (gap: string)
    ensures Blank(gap) && content == HeadBy(content, hit) + gap + Managed(content, hit) + TailBy(content, hit)
  {
    match LastMarker(SplitLines(content), hit, |SplitLines(content)|)
    case None =>
      TrimEndGap(content);
      gap := content[|TrimEnd(content)|..];
    case Some(k) =>
      gap := RestAround(content, hit, k);
  }

  lemma HeadOf(content: string, hit: string -> bool, head: string, tail: string, ended: bool)
    requires EndTrimmed(head) && IsTail(tail, hit)
    requires Surrounds(SplitLines(content), hit, HeadLines(head), TailLines(tail, ended))
    ensures HeadBy(content, hit) == head
    ensures TailBy(content, hit) == if tail == "" then "" else tail + Ending(ended)
  {
    HeadText(head);
    var post := TailLines(tail, ended);
    if tail == "" {
      assert post[NextHeading(post, 0)..] == [];
    } else {
      HeadingFirst(tail);
      assert post[0] == "" && post[1] == SplitLines(tail)[0] && NextHeading(post, 0) == 1;
      TailJoined(tail, ended);
    }
  }

  lemma TailEnding(head: string, middle: string, tail: string)
    requires tail != ""
    ensures tail + Ending(!IsEnded(Compose(head, middle, tail))) == Terminate(tail)
  {
    var text := Compose(head, middle, tail);
    assert Last(text) == Last(tail);
    assert tail + "" == tail;
  }

  /** Managing a section leaves the text before it and after it as it was, except that the file then
      ends in a newline. */
  lemma UserLinesStay(content: string, marker: string, section: string)
    requires IsSection(section, marker)
    ensures var hit := Marks(marker);
      var managed := ReplaceOrAppend(content, marker, section);
      HeadBy(managed, hit) == HeadBy(content, hit) &&
      TailBy(managed, hit) == if TailBy(content, hit) == "" then "" else Terminate(TailBy(content, hit))
  {
    var hit := Marks(marker);
    var head, tail, middle := HeadBy(content, hit), TailBy(content, hit), Placed(content, marker, section);
    var text := Compose(head, middle, tail);
    AppliedOnce(content, marker, section);
    PlacedProper(content, marker, section);
    EmptyIsNoMarker(marker);
    TerminateEnding(text);
    Recomposed(head, middle, tail, !IsEnded(text), hit);
    HeadOf(Terminate(text), hit, head, tail, !IsEnded(text));
    if tail != "" { TailEnding(head, middle, tail); }
  }
}
