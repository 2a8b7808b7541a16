/** Replacing, appending and removing one managed section of a text file. */
module ManagedSections {
  import opened Wrappers
  import opened Text
  import opened Splitting

  function SplitLines(s: string): seq<string> { Pieces(NotNewline, s) }

  function Unlines(lines: seq<string>): string { Join("\n", lines) }

  predicate IsHeading(line: string) { "## " <= line }

  /** Whether a line is the marker, up to surrounding white space. */
  function Marks(marker: string): string -> bool { line => Trim(line) == marker }

  /** The last hit before a position. */
  function LastMarker(lines: seq<string>, hit: string -> bool, before: nat): (k: Option<nat>)
    requires before <= |lines|
    ensures k.Some? ==> k.value < before && hit(lines[k.value])
    ensures forall i :: (if k.Some? then k.value + 1 else 0) <= i < before ==> !hit(lines[i])
  {
    if before == 0 then None
    else if hit(lines[before - 1]) then Some(before - 1)
    else LastMarker(lines, hit, before - 1)
  }

  /** The first heading at or after a position, or the end. */
  function NextHeading(lines: seq<string>, from: nat): (k: nat)
    requires from <= |lines|
    ensures from <= k <= |lines| && (k < |lines| ==> IsHeading(lines[k]))
    ensures forall i :: from <= i < k ==> !IsHeading(lines[i])
    decreases |lines| - from
  {
    if from == |lines| || IsHeading(lines[from]) then from else NextHeading(lines, from + 1)
  }

  function Terminate(s: string): string { if s != "" && Last(s) == '\n' then s else s + "\n" }

  /** Head, section and tail, blank lines between those that are there. */
  function Compose(head: string, section: string, tail: string): string {
    (if head == "" then "" else head + "\n\n") + section + (if tail == "" then "" else "\n\n" + tail)
  }

  function ReplaceOrAppend(content: string, marker: string, section: string): string {
    var lines := SplitLines(content);
    match LastMarker(lines, Marks(marker), |lines|)
    case None =>
      if Trim(content) == "" then Terminate(Trim(section))
      else Terminate(TrimEnd(content) + "\n\n" + TrimStart(section))
    case Some(start) => Replaced(lines[..start], section, lines[NextHeading(lines, start + 1)..])
  }

  function Replaced(before: seq<string>, section: string, after: seq<string>): string {
    Terminate(Compose(TrimEnd(Unlines(before)), Trim(section), TrimStart(Unlines(after))))
  }

  // ---- removing ----

  predicate IsExactly(line: string, marker: string) { StripReturn(line) == marker }

  function FirstExact(lines: seq<string>, marker: string, from: nat): (k: Option<nat>)
    requires from <= |lines|
    ensures k.Some? ==> from <= k.value < |lines| && IsExactly(lines[k.value], marker)
    ensures forall i :: from <= i < (if k.Some? then k.value else |lines|) ==> !IsExactly(lines[i], marker)
    decreases |lines| - from
  {
    if from == |lines| then None
    else if IsExactly(lines[from], marker) then Some(from)
    else FirstExact(lines, marker, from + 1)
  }

  /** Lines each followed by a newline. */
  function Ended(lines: seq<string>): string {
    if lines == [] then "" else Ended(Init(lines)) + Last(lines) + "\n"
  }

  /** Runs of more than two newlines shortened to two. */
  function Collapsed(s: string): string {
    if s == "" then ""
    else
      var r := Collapsed(Init(s));
      if Last(s) == '\n' && EndsBlank(r) then r else r + [Last(s)]
  }

  predicate EndsBlank(s: string) { |s| >= 2 && s[|s| - 1] == '\n' && s[|s| - 2] == '\n' }

  predicate TripleAt(s: string, k: nat) { k + 3 <= |s| && s[k] == '\n' && s[k + 1] == '\n' && s[k + 2] == '\n' }

  /** Lines without the nothing behind a last newline. */
  function Segments(content: string): seq<string> {
    var lines := SplitLines(content);
    if Last(lines) == "" then Init(lines) else lines
  }

  /** Everything from the first exact marker line to the next heading removed. */
  function RemoveSection(content: string, marker: string): Option<string> {
    var lines := SplitLines(content);
    match FirstExact(Segments(content), marker, 0)
    case None => None
    case Some(start) =>
      Some(Collapsed(Ended(lines[..start]) + Unlines(lines[NextHeading(lines, start + 1)..])))
  }

  // ---- where the section stands ----

  /** The marker is a line of its own without surrounding white space. */
  predicate IsMarkerText(marker: string) { marker != "" && Bare(marker) && AllKept(NotNewline, marker) }

  ghost predicate Unmarked(lines: seq<string>, hit: string -> bool) {
    forall k :: 0 <= k < |lines| ==> !hit(lines[k])
  }

  /** The first line is the marker; no other line is the marker or a heading. */
  ghost predicate Proper(lines: seq<string>, hit: string -> bool) {
    lines != [] && hit(lines[0]) &&
    forall k :: 1 <= k < |lines| ==> !hit(lines[k]) && !IsHeading(lines[k])
  }

  lemma Located(pre: seq<string>, mid: seq<string>, post: seq<string>, hit: string -> bool)
    requires Proper(mid, hit) && Unmarked(post, hit)
    ensures var lines := pre + mid + post;
      LastMarker(lines, hit, |lines|) == Some(|pre|) &&
      NextHeading(lines, |pre| + 1) == |pre| + |mid| + NextHeading(post, 0)
  {
    var lines := pre + mid + post;
    assert lines[|pre|] == mid[0];
    forall i | |pre| < i < |lines| ensures !hit(lines[i]) {
      if i < |pre| + |mid| { assert lines[i] == mid[i - |pre|]; } else { assert lines[i] == post[i - |pre| - |mid|]; }
    }
    var k, j := NextHeading(lines, |pre| + 1), NextHeading(post, 0);
    forall i | |pre| < i < |pre| + |mid| + j ensures !IsHeading(lines[i]) {
      if i < |pre| + |mid| { assert lines[i] == mid[i - |pre|]; } else { assert lines[i] == post[i - |pre| - |mid|]; }
    }
    if j < |post| { assert lines[|pre| + |mid| + j] == post[j]; }
  }

  // ---- composed texts ----

  function HeadLines(head: string): seq<string> { if head == "" then [] else SplitLines(head) + [""] }

  function TailLines(tail: string, ended: bool): seq<string> {
    (if tail == "" then [] else [""] + SplitLines(tail)) + (if ended then [""] else [])
  }

  function Ending(ended: bool): string { if ended then "\n" else "" }

  lemma NoLine()
    ensures SplitLines("") == [""]
  {}

  lemma BlankLineBetween(a: string, b: string)
    ensures SplitLines(a + "\n\n" + b) == SplitLines(a) + [""] + SplitLines(b)
  {
    NoLine();
    PiecesConcat(NotNewline, a, '\n', "\n" + b);
    PiecesConcat(NotNewline, "", '\n', b);
    assert a + ['\n'] + ("\n" + b) == a + "\n\n" + b && "" + ['\n'] + b == "\n" + b;
  }

  lemma OneMoreLine(a: string)
    ensures SplitLines(a + "\n") == SplitLines(a) + [""]
  {
    NoLine();
    PiecesConcat(NotNewline, a, '\n', "");
    assert a + ['\n'] + "" == a + "\n";
  }

  lemma SectionLines(section: string, tail: string, ended: bool)
    ensures SplitLines(Compose("", section, tail) + Ending(ended)) == SplitLines(section) + TailLines(tail, ended)
  {
    var body := Compose("", section, tail);
    if tail != "" {
      BlankLineBetween(section, tail);
      assert body == section + "\n\n" + tail;
    } else {
      assert body == section;
    }
    if ended { OneMoreLine(body); } else { assert body + "" == body; }
  }

  lemma ComposedText(head: string, section: string, tail: string, end: string)
    requires head != ""
    ensures Compose(head, section, tail) + end == head + "\n\n" + (Compose("", section, tail) + end)
  {
    assert "" + section == section;
  }

  lemma ComposedLines(head: string, section: string, tail: string, ended: bool)
    ensures SplitLines(Compose(head, section, tail) + Ending(ended)) ==
      HeadLines(head) + SplitLines(section) + TailLines(tail, ended)
  {
    SectionLines(section, tail, ended);
    if head != "" {
      ComposedText(head, section, tail, Ending(ended));
      BlankLineBetween(head, Compose("", section, tail) + Ending(ended));
      Associates(SplitLines(head) + [""], SplitLines(section), TailLines(tail, ended));
    }
  }

  lemma Associates(a: seq<string>, b: seq<string>, c: seq<string>)
    ensures a + (b + c) == a + b + c
  {}

  /** No white space at the end, or nothing at all. */
  predicate EndTrimmed(s: string) { s == "" || !IsWhitespace(Last(s)) }

  /** Nothing, or text that starts with a heading and has no marker line. */
  ghost predicate IsTail(tail: string, hit: string -> bool) {
    tail == "" || (IsHeading(tail) && Unmarked(SplitLines(tail), hit))
  }

  lemma HeadText(head: string)
    requires EndTrimmed(head)
    ensures TrimEnd(Unlines(HeadLines(head))) == head
  {
    if head != "" {
      JoinOfPieces(NotNewline, '\n', head);
      JoinAppend("\n", SplitLines(head), "");
      assert Unlines(HeadLines(head)) == head + ['\n'];
      TrimEndExtend(head, '\n');
    }
  }

  lemma TailText(tail: string, ended: bool, hit: string -> bool)
    requires IsTail(tail, hit)
    ensures var post := TailLines(tail, ended);
      TrimStart(Unlines(post[NextHeading(post, 0)..])) == if tail == "" then "" else tail + Ending(ended)
  {
    var post := TailLines(tail, ended);
    if tail == "" {
      assert NextHeading(post, 0) == |post|;
    } else {
      HeadingFirst(tail);
      assert post[0] == "" && post[1] == SplitLines(tail)[0];
      assert NextHeading(post, 0) == 1;
      TailJoined(tail, ended);
    }
  }

  lemma UnlinesEnded(lines: seq<string>)
    requires lines != []
    ensures Unlines(lines + [""]) == Unlines(lines) + "\n"
  {
    JoinAppend("\n", lines, "");
    assert Unlines(lines) + "\n" + "" == Unlines(lines) + "\n";
  }

  lemma DropBlank(lines: seq<string>, more: seq<string>)
    ensures ([""] + lines + more)[1..] == lines + more
  {}

  lemma TailJoined(tail: string, ended: bool)
    requires tail != ""
    ensures Unlines(TailLines(tail, ended)[1..]) == tail + Ending(ended)
  {
    var lines := SplitLines(tail);
    JoinOfPieces(NotNewline, '\n', tail);
    UnlinesEnded(lines);
    DropBlank(lines, if ended then [""] else []);
    assert lines + [] == lines;
  }

  /** A text that starts with a heading has a heading as its first line. */
  lemma {:induction false} HeadingFirst(s: string)
    requires IsHeading(s)
    ensures IsHeading(SplitLines(s)[0])
  {
    if |s| == 3 {
      assert s == "## ";
      OnePiece(NotNewline, s);
    } else {
      HeadingFirst(Init(s));
    }
  }

  lemma TailUnmarked(tail: string, ended: bool, hit: string -> bool)
    requires !hit("") && IsTail(tail, hit)
    ensures Unmarked(TailLines(tail, ended), hit)
  {
    var post := TailLines(tail, ended);
    forall k | 0 <= k < |post| ensures !hit(post[k]) {
      if post[k] != "" { assert post[k] == SplitLines(tail)[k - 1]; }
    }
  }

  /** Where the section of a composed text stands, and what surrounds it. */
  lemma Recomposed(head: string, middle: string, tail: string, ended: bool, hit: string -> bool)
    requires !hit("") && EndTrimmed(head) && IsTail(tail, hit) && Proper(SplitLines(middle), hit)
    ensures Surrounds(SplitLines(Compose(head, middle, tail) + Ending(ended)), hit,
                      HeadLines(head), TailLines(tail, ended))
  {
    ComposedLines(head, middle, tail, ended);
    TailUnmarked(tail, ended, hit);
    SurroundedBy(HeadLines(head), SplitLines(middle), TailLines(tail, ended), hit);
  }

  lemma SurroundedBy(pre: seq<string>, mid: seq<string>, post: seq<string>, hit: string -> bool)
    requires Proper(mid, hit) && Unmarked(post, hit)
    ensures Surrounds(pre + mid + post, hit, pre, post)
  {
    Located(pre, mid, post, hit);
    var lines := pre + mid + post;
    assert lines[..|pre|] == pre;
    assert lines[|pre| + |mid| + NextHeading(post, 0)..] == post[NextHeading(post, 0)..];
  }

  ghost predicate Surrounds(lines: seq<string>, hit: string -> bool, pre: seq<string>, post: seq<string>) {
    LastMarker(lines, hit, |lines|) == Some(|pre|) && |pre| < |lines| && lines[..|pre|] == pre &&
    lines[NextHeading(lines, |pre| + 1)..] == post[NextHeading(post, 0)..]
  }

  // ---- replacing twice ----

  lemma EmptyIsNoMarker(marker: string)
    requires IsMarkerText(marker)
    ensures !Marks(marker)("")
  {
    assert Trim("") == "";
  }

  lemma ReplaceAt(content: string, marker: string, section: string, start: nat)
    requires var lines := SplitLines(content); LastMarker(lines, Marks(marker), |lines|) == Some(start)
    ensures var lines := SplitLines(content);
      ReplaceOrAppend(content, marker, section) ==
      Replaced(lines[..start], section, lines[NextHeading(lines, start + 1)..])
  {}

  lemma ReplacedSurrounded(
    head: string, tail: string, ended: bool, lines: seq<string>, hit: string -> bool, section: string)
    requires EndTrimmed(head) && IsTail(tail, hit)
    requires Surrounds(lines, hit, HeadLines(head), TailLines(tail, ended))
    ensures var k := |HeadLines(head)|;
      Replaced(lines[..k], section, lines[NextHeading(lines, k + 1)..]) ==
      Terminate(Compose(head, Trim(section), if tail == "" then "" else tail + Ending(ended)))
  {
    HeadText(head);
    TailText(tail, ended, hit);
  }

  /** Replacing the section of a composed text puts the new section between the same head and tail. */
  lemma ReplacedComposed(head: string, middle: string, tail: string, ended: bool, marker: string, section: string)
    requires IsMarkerText(marker) && EndTrimmed(head) && IsTail(tail, Marks(marker))
    requires Proper(SplitLines(middle), Marks(marker))
    ensures ReplaceOrAppend(Compose(head, middle, tail) + Ending(ended), marker, section) ==
      Terminate(Compose(head, Trim(section), if tail == "" then "" else tail + Ending(ended)))
  {
    EmptyIsNoMarker(marker);
    var hit := Marks(marker);
    Recomposed(head, middle, tail, ended, hit);
    var lines := SplitLines(Compose(head, middle, tail) + Ending(ended));
    ReplacedSurrounded(head, tail, ended, lines, hit, section);
    ReplaceAt(Compose(head, middle, tail) + Ending(ended), marker, section, |HeadLines(head)|);
  }

  predicate IsEnded(s: string) { s != "" && Last(s) == '\n' }

  lemma TerminateTwice(head: string, section: string, tail: string)
    requires section != "" && !IsWhitespace(Last(section))
    ensures var text := Compose(head, section, tail); var ended := !IsEnded(text);
      Terminate(text) == text + Ending(ended) &&
      Terminate(Compose(head, section, if tail == "" then "" else tail + Ending(ended))) == Terminate(text)
  {
    var text := Compose(head, section, tail);
    if tail != "" {
      assert Last(text) == Last(tail);
      assert Compose(head, section, tail + "\n") == text + "\n";
      assert tail + "" == tail;
    } else {
      assert Last(text) == Last(section);
    }
  }

  lemma {:induction false} HeadingOfLines(lines: seq<string>)
    requires lines != [] && IsHeading(lines[0])
    ensures IsHeading(Unlines(lines))
  {
    if |lines| > 1 { HeadingOfLines(Init(lines)); }
  }

  lemma {:induction false} LinesOfLines(s: string, lines: seq<string>)
    requires lines != [] && forall w :: w in lines ==> w in SplitLines(s)
    ensures SplitLines(Unlines(lines)) == lines
  {
    forall k | 0 <= k < |lines| ensures AllKept(NotNewline, lines[k]) {
      assert lines[k] in lines;
      PiecesKept(NotNewline, s, lines[k]);
    }
    PiecesOfJoin(NotNewline, '\n', lines);
  }

  lemma TrimEndTrimmed(s: string)
    ensures EndTrimmed(TrimEnd(s))
  {}

  lemma HeadingTrimmed(s: string)
    requires IsHeading(s)
    ensures TrimStart(s) == s
  {
    assert s[0] == "## "[0];
  }

  /** The text from a heading on: it needs no trimming, and its lines are the lines there. */
  lemma TailAt(content: string, end: nat, hit: string -> bool)
    requires end <= |SplitLines(content)|
    requires end < |SplitLines(content)| ==> IsHeading(SplitLines(content)[end])
    requires forall i :: end <= i < |SplitLines(content)| ==> !hit(SplitLines(content)[i])
    ensures var tail := Unlines(SplitLines(content)[end..]);
      TrimStart(tail) == tail && IsTail(tail, hit) && (tail != "" ==> SplitLines(tail) == SplitLines(content)[end..]) &&
      (tail == "" <==> end == |SplitLines(content)|)
  {
    var lines := SplitLines(content);
    var rest := lines[end..];
    if rest != [] {
      HeadingOfLines(rest);
      HeadingTrimmed(Unlines(rest));
      LinesOfLines(content, rest);
    }
  }

  lemma {:induction false} ProperTrimmed(s: string, marker: string)
    requires IsMarkerText(marker) && Proper(SplitLines(s), Marks(marker))
    ensures Proper(SplitLines(TrimEnd(s)), Marks(marker))
    decreases |s|
  {
    if s == "" {
      EmptyIsNoMarker(marker);
      NoLine();
    } else if IsWhitespace(Last(s)) {
      ProperShorter(s, marker);
      ProperTrimmed(Init(s), marker);
    }
  }

  lemma ProperShorter(s: string, marker: string)
    requires s != "" && IsWhitespace(Last(s)) && Proper(SplitLines(s), Marks(marker))
    ensures Proper(SplitLines(Init(s)), Marks(marker))
  {
    var rest := SplitLines(Init(s));
    TrimExtend(Last(rest), Last(s));
    ProperSplit(rest, Last(s), Marks(marker));
  }

  /** A line more, or a character more on the last line, is no less proper. */
  lemma ProperSplit(rest: seq<string>, c: char, hit: string -> bool)
    requires rest != [] && hit(Last(rest) + [c]) == hit(Last(rest))
    requires Proper(if c == '\n' then rest + [""] else Init(rest) + [Last(rest) + [c]], hit)
    ensures Proper(rest, hit)
  {
    var n := |rest| - 1;
    var lines := if c == '\n' then rest + [""] else Init(rest) + [Last(rest) + [c]];
    assert forall k :: 0 <= k < n ==> lines[k] == rest[k];
    assert lines[n] == if c == '\n' then rest[n] else rest[n] + [c];
  }

  predicate HasMarker(content: string, marker: string) {
    LastMarker(SplitLines(content), Marks(marker), |SplitLines(content)|).Some?
  }

  /** A section whose first line is the marker and whose other lines are neither marker nor heading. */
  ghost predicate IsSection(section: string, marker: string) {
    IsMarkerText(marker) && Proper(SplitLines(TrimStart(section)), Marks(marker))
  }

  /** Untrimmed when it goes behind other text. */
  function Placed(content: string, marker: string, section: string): string {
    if !HasMarker(content, marker) && Trim(content) != "" then TrimStart(section) else Trim(section)
  }

  /** What stays of the text before the section, and after it. */
  function HeadBy(content: string, hit: string -> bool): string {
    var lines := SplitLines(content);
    match LastMarker(lines, hit, |lines|)
    case None => TrimEnd(content)
    case Some(k) => TrimEnd(Unlines(lines[..k]))
  }

  function TailBy(content: string, hit: string -> bool): string {
    var lines := SplitLines(content);
    match LastMarker(lines, hit, |lines|)
    case None => ""
    case Some(k) => Unlines(lines[NextHeading(lines, k + 1)..])
  }

  lemma AppliedWithin(content: string, marker: string, section: string)
    requires HasMarker(content, marker)
    ensures var head, tail := HeadBy(content, Marks(marker)), TailBy(content, Marks(marker));
      EndTrimmed(head) && IsTail(tail, Marks(marker)) &&
      ReplaceOrAppend(content, marker, section) == Terminate(Compose(head, Trim(section), tail))
  {
    var lines, hit := SplitLines(content), Marks(marker);
    var start := LastMarker(lines, hit, |lines|).value;
    TrimEndTrimmed(Unlines(lines[..start]));
    TailAt(content, NextHeading(lines, start + 1), hit);
    ReplaceAt(content, marker, section, start);
  }

  lemma AppliedBehind(content: string, marker: string, section: string)
    requires !HasMarker(content, marker)
    ensures var head := TrimEnd(content);
      EndTrimmed(head) && (head == "" <==> Trim(content) == "") &&
      ReplaceOrAppend(content, marker, section) == Terminate(Compose(head, Placed(content, marker, section), ""))
  {
    TrimEndTrimmed(content);
    BlankEitherWay(content);
    AppendedComposed(TrimEnd(content), section);
  }

  lemma AppliedOnce(content: string, marker: string, section: string)
    ensures var head, tail := HeadBy(content, Marks(marker)), TailBy(content, Marks(marker));
      EndTrimmed(head) && IsTail(tail, Marks(marker)) &&
      ReplaceOrAppend(content, marker, section) == Terminate(Compose(head, Placed(content, marker, section), tail)) &&
      (!HasMarker(content, marker) ==> tail == "" && (head == "" <==> Trim(content) == ""))
  {
    if HasMarker(content, marker) {
      AppliedWithin(content, marker, section);
    } else {
      AppliedBehind(content, marker, section);
    }
  }

  lemma AppendedComposed(head: string, section: string)
    ensures Compose("", Trim(section), "") == Trim(section)
    ensures head != "" ==> Compose(head, TrimStart(section), "") == head + "\n\n" + TrimStart(section)
  {
    ComposedAlone(Trim(section));
    if head != "" { ComposedBehind(head, TrimStart(section)); }
  }

  lemma ComposedAlone(section: string)
    ensures Compose("", section, "") == section
  {
    assert "" + section + "" == section;
  }

  lemma ComposedBehind(head: string, section: string)
    requires head != ""
    ensures Compose(head, section, "") == head + "\n\n" + section
  {
    assert head + "\n\n" + section + "" == head + "\n\n" + section;
  }

  /** Nothing but white space, seen from either end. */
  lemma {:induction false} BlankEitherWay(s: string)
    ensures TrimEnd(s) == "" <==> Trim(s) == ""
    decreases |s|
  {
    if s != "" && IsWhitespace(Last(s)) {
      assert Init(s) + [Last(s)] == s;
      TrimExtend(Init(s), Last(s));
      BlankEitherWay(Init(s));
    } else if s != "" {
      NotBlank(s);
    }
  }

  lemma {:induction false} NotBlank(s: string)
    requires s != "" && !IsWhitespace(Last(s))
    ensures TrimStart(s) != "" && Last(TrimStart(s)) == Last(s) && Trim(s) == TrimStart(s)
    decreases |s|
  {
    if IsWhitespace(s[0]) { NotBlank(s[1..]); }
  }

  lemma SectionEnds(section: string, marker: string)
    requires IsSection(section, marker)
    ensures Trim(section) != "" && !IsWhitespace(Last(Trim(section)))
    ensures Proper(SplitLines(Trim(section)), Marks(marker))
  {
    ProperTrimmed(TrimStart(section), marker);
    EmptyIsNoMarker(marker);
    NoLine();
    TrimEndTrimmed(TrimStart(section));
  }

  lemma AppliedTwice(head: string, middle: string, tail: string, marker: string, section: string)
    requires IsSection(section, marker) && EndTrimmed(head) && IsTail(tail, Marks(marker))
    requires middle == Trim(section) || (middle == TrimStart(section) && tail == "")
    ensures ReplaceOrAppend(Terminate(Compose(head, middle, tail)), marker, section) ==
      Terminate(Compose(head, Trim(section), tail))
  {
    SectionEnds(section, marker);
    var text := Compose(head, middle, tail);
    var ended := !IsEnded(text);
    assert text + Ending(ended) == Terminate(text);
    ReplacedComposed(head, middle, tail, ended, marker, section);
    if tail != "" { TerminateTwice(head, middle, tail); }
  }

  /** Whether what follows the trimmed section is nothing, or one newline. */
  predicate EndsPlainly(section: string) {
    TrimStart(section) == Trim(section) || TrimStart(section) == Trim(section) + "\n"
  }

  lemma SameTerminated(head: string, section: string, marker: string)
    requires IsSection(section, marker)
    ensures Terminate(Compose(head, TrimStart(section), "")) == Terminate(Compose(head, Trim(section), "")) <==>
      EndsPlainly(section)
  {
    SectionEnds(section, marker);
    SameComposed(head, TrimStart(section), Trim(section));
  }

  lemma SameComposed(head: string, t: string, u: string)
    requires t != "" && u != "" && Last(u) != '\n'
    ensures Terminate(Compose(head, t, "")) == Terminate(Compose(head, u, "")) <==> t == u || t == u + "\n"
  {
    var before := if head == "" then "" else head + "\n\n";
    assert Compose(head, t, "") == before + t && Compose(head, u, "") == before + u;
    SamePrefix(before, t, u);
  }

  lemma SamePrefix(before: string, t: string, u: string)
    requires t != "" && u != "" && Last(u) != '\n'
    ensures Terminate(before + t) == Terminate(before + u) <==> t == u || t == u + "\n"
  {
    assert Terminate(before + u) == before + (u + "\n");
    assert Terminate(before + t) == before + (if Last(t) == '\n' then t else t + "\n");
    var v := if Last(t) == '\n' then t else t + "\n";
    assert (before + v)[|before|..] == v && (before + (u + "\n"))[|before|..] == u + "\n";
    if v == u + "\n" && Last(t) != '\n' {
      assert v[..|t|] == t && (u + "\n")[..|u|] == u;
    }
  }

  /** Managing the section again changes nothing exactly when it was not first put behind other text
      with further white space at its end. */
  lemma Idempotent(content: string, marker: string, section: string)
    requires IsSection(section, marker)
    ensures var once := ReplaceOrAppend(content, marker, section);
      ReplaceOrAppend(once, marker, section) == once <==>
      HasMarker(content, marker) || Trim(content) == "" || EndsPlainly(section)
  {
    var head, tail := HeadBy(content, Marks(marker)), TailBy(content, Marks(marker));
    AppliedOnce(content, marker, section);
    AppliedTwice(head, Placed(content, marker, section), tail, marker, section);
    if !HasMarker(content, marker) && Trim(content) != "" { SameTerminated(head, section, marker); }
  }

  lemma TerminateEnding(text: string)
    ensures Terminate(text) == text + Ending(!IsEnded(text))
  {
    assert text + "" == text;
  }

  lemma PlacedProper(content: string, marker: string, section: string)
    requires IsSection(section, marker)
    ensures Proper(SplitLines(Placed(content, marker, section)), Marks(marker))
  {
    SectionEnds(section, marker);
  }

  /** Sections that end in one newline, as those the installer writes do, settle at once. */
  lemma ShippedSectionsSettle(content: string, marker: string, body: string)
    requires IsSection(body + "\n", marker) && Bare(body) && body != ""
    ensures var once := ReplaceOrAppend(content, marker, body + "\n");
      ReplaceOrAppend(once, marker, body + "\n") == once
  {
    TrimBare(body);
    TrimStartExtend(body, '\n');
    TrimExtend(body, '\n');
    assert body + "\n" == body + ['\n'];
    Idempotent(content, marker, body + "\n");
  }

  lemma TwoNewlines(marker: string)
    requires IsMarkerText(marker)
    ensures SplitLines(marker + "\n\n") == [marker, "", ""]
  {
    OnePiece(NotNewline, marker);
    NoLine();
    BlankLineBetween(marker, "");
    assert marker + "\n\n" + "" == marker + "\n\n";
  }

  lemma TrimStartKept(s: string, more: string)
    requires s != "" && !IsWhitespace(s[0])
    ensures TrimStart(s + more) == s + more
  {
    assert (s + more)[0] == s[0];
  }

  lemma TrimTwice(s: string)
    ensures Trim(s + "\n\n") == Trim(s)
  {
    var one := s + ['\n'];
    TrimExtend(s, '\n');
    TrimExtend(one, '\n');
    assert one + ['\n'] == s + "\n\n";
  }

  lemma NotPlain(marker: string)
    requires IsMarkerText(marker)
    ensures !EndsPlainly(marker + "\n\n")
  {
    TrimBare(marker);
    TrimStartKept(marker, "\n\n");
    TrimTwice(marker);
    assert |marker + "\n\n"| == |marker| + 2 && |marker + "\n"| == |marker| + 1;
  }

  lemma ProperLines(marker: string)
    requires IsMarkerText(marker)
    ensures Proper([marker, "", ""], Marks(marker))
  {
    TrimBare(marker);
    EmptyIsNoMarker(marker);
  }

  lemma BlankLineAfter(marker: string)
    requires IsMarkerText(marker)
    ensures IsSection(marker + "\n\n", marker)
  {
    TrimStartKept(marker, "\n\n");
    TwoNewlines(marker);
    ProperLines(marker);
    SectionOf(marker + "\n\n", marker, [marker, "", ""]);
  }

  lemma SectionOf(section: string, marker: string, lines: seq<string>)
    requires IsMarkerText(marker) && TrimStart(section) == section && SplitLines(section) == lines
    requires Proper(lines, Marks(marker))
    ensures IsSection(section, marker)
  {}

  /** A section with a further blank line, put behind other text, is written differently the second
      time. */
  lemma SettlesLater(content: string, marker: string)
    requires IsMarkerText(marker) && !HasMarker(content, marker) && Trim(content) != ""
    ensures var section := marker + "\n\n";
      var once := ReplaceOrAppend(content, marker, section);
      IsSection(section, marker) && ReplaceOrAppend(once, marker, section) != once
  {
    BlankLineAfter(marker);
    NotPlain(marker);
    Idempotent(content, marker, marker + "\n\n");
  }

  lemma OtherText()
    ensures !HasMarker("x", "## g") && Trim("x") != ""
  {
    TrimBare("x");
    OnePiece(NotNewline, "x");
    assert SplitLines("x") == ["x"];
  }

  lemma NotAlwaysIdempotent()
    ensures var section := "## g" + "\n\n";
      var once := ReplaceOrAppend("x", "## g", section);
      IsSection(section, "## g") && ReplaceOrAppend(once, "## g", section) != once
  {
    OtherText();
    SettlesLater("x", "## g");
  }
}
