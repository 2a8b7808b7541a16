/** Removing a managed section: the scan, the collapsing of newlines, and removal as an undo. */
module SectionRemoval {
  import opened Wrappers
  import opened Text
  import opened Splitting
  import opened ManagedSections

  // ---- collapsing newlines ----

  ghost predicate NoTriple(s: string) { forall k :: 0 <= k < |s| ==> !TripleAt(s, k) }

  /** What one more character adds. */
  function Pushed(r: string, c: char): string { if c == '\n' && EndsBlank(r) then r else r + [c] }

  lemma CollapsedSnoc(s: string, c: char)
    ensures Collapsed(s + [c]) == Pushed(Collapsed(s), c)
  {
    assert Init(s + [c]) == s;
  }

  lemma {:induction false} CollapsedOn(x: string, y: string, b: string)
    requires Collapsed(x) == Collapsed(y)
    ensures Collapsed(x + b) == Collapsed(y + b)
  {
    if b == "" {
      assert x + b == x && y + b == y;
    } else {
      CollapsedOn(x, y, Init(b));
      CollapsedSnoc(x + Init(b), Last(b));
      CollapsedSnoc(y + Init(b), Last(b));
      assert x + b == (x + Init(b)) + [Last(b)] && y + b == (y + Init(b)) + [Last(b)];
    }
  }

  /** Shortening one run of three newlines does not change the outcome. */
  lemma ShortenedOnce(a: string, b: string)
    ensures Collapsed(a + "\n\n\n" + b) == Collapsed(a + "\n\n" + b)
  {
    var one, two, three := a + ['\n'], a + ['\n'] + ['\n'], a + ['\n'] + ['\n'] + ['\n'];
    CollapsedSnoc(a, '\n');
    CollapsedSnoc(one, '\n');
    CollapsedSnoc(two, '\n');
    assert EndsBlank(Collapsed(two));
    assert a + "\n\n" == two && a + "\n\n\n" == three;
    CollapsedOn(three, two, b);
  }

  lemma {:induction false} NothingToCollapse(s: string)
    requires NoTriple(s)
    ensures Collapsed(s) == s
  {
    if s != "" {
      forall k | 0 <= k < |Init(s)| ensures !TripleAt(Init(s), k) { assert !TripleAt(s, k); }
      NothingToCollapse(Init(s));
      assert Init(s) + [Last(s)] == s;
      if |s| >= 3 { assert !TripleAt(s, |s| - 3); }
    }
  }

  lemma {:induction false} CollapsedHasNoTriple(s: string)
    ensures NoTriple(Collapsed(s))
  {
    if s != "" {
      CollapsedHasNoTriple(Init(s));
      var r := Collapsed(Init(s));
      forall k | 0 <= k < |Collapsed(s)| ensures !TripleAt(Collapsed(s), k) {
        if k < |r| { assert !TripleAt(r, k); }
      }
    }
  }

  /** Replace the first run of three newlines by two until there is none. */
  method Collapse(s: string) returns (r: string)
    ensures r == Collapsed(s)
  {
    r := s;
    var k := FindTriple(r);
    while k.Some?
      invariant Collapsed(r) == Collapsed(s)
      invariant k.Some? ==> TripleAt(r, k.value)
      invariant k.None? ==> NoTriple(r)
      decreases |r|
    {
      ghost var before := r;
      var a, b := r[..k.value], r[k.value + 3..];
      r := a + "\n\n" + b;
      assert before == a + "\n\n\n" + b;
      ShortenedOnce(a, b);
      k := FindTriple(r);
    }
    NothingToCollapse(r);
  }

  method FindTriple(s: string) returns (k: Option<nat>)
    ensures k.Some? ==> TripleAt(s, k.value) && forall j :: 0 <= j < k.value ==> !TripleAt(s, j)
    ensures k.None? ==> NoTriple(s)
  {
    for n := 0 to |s|
      invariant forall j :: 0 <= j < n ==> !TripleAt(s, j)
    {
      if TripleAt(s, n) { return Some(n); }
    }
    k := None;
  }

  // ---- the scan ----

  lemma HeadingIgnoresReturn(line: string)
    ensures "## " <= StripReturn(line) <==> IsHeading(line)
    ensures IsHeading(line) ==> !("### " <= StripReturn(line))
  {
    if IsHeading(line) {
      assert line[2] == "## "[2] == ' ';
      assert StripReturn(line)[2] == ' ' && "### "[2] == '#';
    }
  }

  /** Where the scan stands: the lines read, and the text still to read. */
  ghost predicate At(content: string, offset: nat, lines: seq<string>, i: nat) {
    offset <= |content| && i < |lines| && content[..offset] == Ended(lines[..i]) &&
    SplitLines(content[offset..]) == lines[i..]
  }

  /** The text at a line start: that line, and the lines after its newline. */
  lemma LineAt(content: string, offset: nat, cut: nat)
    requires offset <= |content| && cut == Cut(content[offset..])
    ensures offset + cut <= |content|
    ensures offset + cut == |content| ==> SplitLines(content[offset..]) == [content[offset..offset + cut]]
    ensures offset + cut < |content| ==>
      content[offset + cut] == '\n' &&
      SplitLines(content[offset..]) == [content[offset..offset + cut]] + SplitLines(content[offset + cut + 1..])
  {
    var s := content[offset..];
    forall j | 0 <= j < cut ensures s[j] != '\n' { CutClean(s, j); }
    FirstPiece(s, cut);
    assert s[..cut] == content[offset..offset + cut];
    if cut < |s| { assert s[cut + 1..] == content[offset + cut + 1..]; }
  }

  lemma HeadLine(lines: seq<string>, i: nat, line: string, rest: seq<string>)
    requires i < |lines| && lines[i..] == [line] + rest
    ensures lines[i] == line && lines[i + 1..] == rest
  {
    assert lines[i..][0] == line && lines[i..][1..] == rest;
  }

  lemma EndedNext(content: string, offset: nat, cut: nat, lines: seq<string>, i: nat)
    requires offset + cut < |content| && i < |lines| && content[..offset] == Ended(lines[..i])
    requires lines[i] == content[offset..offset + cut] && content[offset + cut] == '\n'
    ensures content[..offset + cut + 1] == Ended(lines[..i + 1])
  {
    EndedSnoc(lines, i);
    assert content[..offset + cut + 1] == content[..offset] + content[offset..offset + cut] + "\n";
  }

  lemma NextAt(content: string, offset: nat, cut: nat, lines: seq<string>, i: nat)
    requires At(content, offset, lines, i) && offset < |content|
    requires cut == Cut(content[offset..])
    ensures offset + cut <= |content| && lines[i] == content[offset..offset + cut]
    ensures offset + cut < |content| ==> At(content, offset + cut + 1, lines, i + 1)
    ensures offset + cut == |content| ==> i + 1 == |lines| && lines[i] != ""
  {
    LineAt(content, offset, cut);
    var line := content[offset..offset + cut];
    if offset + cut < |content| {
      HeadLine(lines, i, line, SplitLines(content[offset + cut + 1..]));
      EndedNext(content, offset, cut, lines, i);
    } else {
      HeadLine(lines, i, line, []);
      assert |lines[i + 1..]| == 0;
    }
  }

  lemma EndedSnoc(lines: seq<string>, i: nat)
    requires i < |lines|
    ensures Ended(lines[..i + 1]) == Ended(lines[..i]) + lines[i] + "\n"
  {
    assert Init(lines[..i + 1]) == lines[..i];
  }

  /** What has been found among the lines before `i`. */
  ghost predicate Found(start: Option<nat>, lines: seq<string>, i: nat, marker: string, k: nat) {
    i <= |lines| &&
    match start
    case None => forall j :: 0 <= j < i ==> !IsExactly(lines[j], marker)
    case Some(offset) =>
      k < i && IsExactly(lines[k], marker) && offset == |Ended(lines[..k])| &&
      (forall j :: 0 <= j < k ==> !IsExactly(lines[j], marker)) && (forall j :: k < j < i ==> !IsHeading(lines[j]))
  }

  ghost predicate Scanned(content: string, offset: nat, lines: seq<string>, i: nat) {
    At(content, offset, lines, i) ||
    (offset == |content| && i == |lines| && lines != [] && Last(lines) != "")
  }

  lemma SegmentsAre(content: string, offset: nat, i: nat)
    requires Scanned(content, offset, SplitLines(content), i)
    ensures i <= |Segments(content)| && Segments(content)[..i] == SplitLines(content)[..i]
    ensures offset == |content| ==> i == |Segments(content)|
  {
    var lines := SplitLines(content);
    if At(content, offset, lines, i) && offset == |content| {
      assert content[offset..] == "" && lines[i..] == [""];
      assert |lines| == i + 1 && lines[i..][0] == lines[i];
    }
  }

  lemma NothingFound(content: string, i: nat, marker: string)
    requires Scanned(content, |content|, SplitLines(content), i) && Found(None, SplitLines(content), i, marker, 0)
    ensures RemoveSection(content, marker) == None
  {
    SegmentsAre(content, |content|, i);
    forall j | 0 <= j < i ensures !IsExactly(Segments(content)[j], marker) {
      assert Segments(content)[..i][j] == SplitLines(content)[..i][j];
    }
  }

  lemma SectionFound(content: string, start: nat, end: nat, i: nat, marker: string, k: nat)
    requires Found(Some(start), SplitLines(content), i, marker, k) && Scanned(content, end, SplitLines(content), i)
    requires end == |content| || IsHeading(SplitLines(content)[i])
    ensures start <= |content| && RemoveSection(content, marker) == Some(Collapsed(content[..start] + content[end..]))
  {
    SectionAt(content, end, i, marker, k, start);
    EndedBefore(content, end, SplitLines(content), i, k);
    TextAfter(content, end, i, NextHeading(SplitLines(content), k + 1), k);
    RemoveAt(content, marker, k);
    assert content[..start] == Ended(SplitLines(content)[..k]);
  }

  lemma RemoveAt(content: string, marker: string, k: nat)
    requires FirstExact(Segments(content), marker, 0) == Some(k)
    ensures var lines := SplitLines(content);
      RemoveSection(content, marker) == Some(Collapsed(Ended(lines[..k]) + Unlines(lines[NextHeading(lines, k + 1)..])))
  {}

  lemma SectionAt(content: string, end: nat, i: nat, marker: string, k: nat, start: nat)
    requires Found(Some(start), SplitLines(content), i, marker, k) && Scanned(content, end, SplitLines(content), i)
    ensures FirstExact(Segments(content), marker, 0) == Some(k)
  {
    SegmentsAre(content, end, i);
    FirstExactIn(Segments(content), SplitLines(content), i, marker, k);
  }

  lemma FirstExactIn(segments: seq<string>, lines: seq<string>, i: nat, marker: string, k: nat)
    requires k < i <= |segments| && i <= |lines| && segments[..i] == lines[..i]
    requires IsExactly(lines[k], marker) && forall j :: 0 <= j < k ==> !IsExactly(lines[j], marker)
    ensures FirstExact(segments, marker, 0) == Some(k)
  {
    forall j | 0 <= j < i ensures segments[j] == lines[j] {
      assert segments[..i][j] == lines[..i][j];
    }
  }

  lemma {:induction false} EndedPrefix(lines: seq<string>, k: nat, i: nat)
    requires k <= i <= |lines|
    ensures Ended(lines[..k]) <= Ended(lines[..i])
  {
    if k < i {
      EndedPrefix(lines, k, i - 1);
      EndedSnoc(lines, i - 1);
    }
  }

  lemma EndedBefore(content: string, end: nat, lines: seq<string>, i: nat, k: nat)
    requires lines == SplitLines(content) && Scanned(content, end, lines, i) && k < i
    ensures Ended(lines[..k]) <= content
  {
    if At(content, end, lines, i) {
      EndedPrefix(lines, k, i);
    } else {
      JoinOfPieces(NotNewline, '\n', content);
      EndedPrefix(lines, k, i - 1);
      EndedInit(lines);
    }
  }

  lemma {:induction false} EndedInit(lines: seq<string>)
    requires lines != []
    ensures Unlines(lines) == Ended(Init(lines)) + Last(lines)
  {
    if |lines| > 1 { EndedInit(Init(lines)); }
  }

  lemma TextAfter(content: string, end: nat, i: nat, heading: nat, k: nat)
    requires var lines := SplitLines(content);
      Scanned(content, end, lines, i) && k < i && heading == NextHeading(lines, k + 1) &&
      (forall j :: k < j < i ==> !IsHeading(lines[j])) && (end == |content| || IsHeading(lines[i]))
    ensures Unlines(SplitLines(content)[heading..]) == content[end..]
  {
    var lines := SplitLines(content);
    if end < |content| {
      assert heading == i;
      JoinOfPieces(NotNewline, '\n', content[end..]);
    } else {
      if At(content, end, lines, i) {
        assert content[end..] == "" && lines[i..] == [""] && lines[i..][0] == lines[i];
      }
      assert heading == |lines| && lines[heading..] == [];
    }
  }

  /** Reading one more line. */
  lemma FoundNext(start: Option<nat>, lines: seq<string>, i: nat, marker: string, k: nat, offset: nat)
    requires i < |lines| && Found(start, lines, i, marker, k) && offset == |Ended(lines[..i])|
    ensures start.None? && IsExactly(lines[i], marker) ==> Found(Some(offset), lines, i + 1, marker, i)
    ensures start.None? && !IsExactly(lines[i], marker) ==> Found(None, lines, i + 1, marker, k)
    ensures start.Some? && !IsHeading(lines[i]) ==> Found(start, lines, i + 1, marker, k)
  {}

  /** The line at an offset without its ending, and the offset behind it. */
  method ReadSegment(content: string, offset: nat, ghost lines: seq<string>, ghost i: nat)
    returns (line: string, next: nat)
    requires At(content, offset, lines, i) && offset < |content|
    ensures line == StripReturn(lines[i])
    ensures offset < next <= |content| && Scanned(content, next, lines, i + 1)
  {
    var cut := Cut(content[offset..]);
    NextAt(content, offset, cut, lines, i);
    line := StripReturn(content[offset..offset + cut]);
    next := if offset + cut < |content| then offset + cut + 1 else |content|;
  }

  method RemoveMarkerSection(content: string, marker: string) returns (result: Option<string>)
    ensures result == RemoveSection(content, marker)
  {
    var start: Option<nat> := None;
    var end, offset := |content|, 0;
    ghost var lines := SplitLines(content);
    ghost var i, k := 0, 0;
    assert content[0..] == content && lines[0..] == lines;
    while offset < |content|
      invariant offset <= |content| && end == |content|
      invariant Scanned(content, offset, lines, i) && Found(start, lines, i, marker, k)
    {
      FoundNext(start, lines, i, marker, k, offset);
      HeadingIgnoresReturn(lines[i]);
      var line, next := ReadSegment(content, offset, lines, i);
      if start.None? {
        if line == marker {
          start := Some(offset);
          k := i;
        }
      } else if "## " <= line && !("### " <= line) {
        end := offset;
        break;
      }
      offset := next;
      i := i + 1;
    }
    if start.None? {
      NothingFound(content, i, marker);
      return None;
    }
    SectionFound(content, start.value, end, i, marker, k);
    var output := Collapse(content[..start.value] + content[end..]);
    result := Some(output);
  }
}
