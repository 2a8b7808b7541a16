/** The part of a Markdown body that is read as Markdown, and the link checks on it. */
module ActiveMarkdown {
  import opened Wrappers
  import opened Text
  import opened Delimiters
  import opened InlineCode
  import opened ModelText
  import opened Splitting
  import opened ModelMarkdown

  datatype Fence = Fence(marker: char, count: nat, suffix: string)

  /** At least three backticks or tildes behind at most three spaces. */
  function FenceOf(line: string): Option<Fence> {
    var indent := Leading(line, ' ');
    var rest := line[indent..];
    if indent > 3 || rest == "" || (rest[0] != '`' && rest[0] != '~') then None
    else
      var count := Leading(rest, rest[0]);
      if count >= 3 then Some(Fence(rest[0], count, rest[count..])) else None
  }

  predicate ClosesFence(line: string, open: Fence) {
    FenceOf(line).Some? &&
    var fence := FenceOf(line).value;
    fence.marker == open.marker && fence.count >= open.count && Trim(fence.suffix) == ""
  }

  /** A line without its inline code: the reading is unique. */
  ghost predicate IsCodeFree(line: string, visible: string) {
    exists spans: seq<Span>, stuck: Option<Run> ::
      CodeSpans(line, 0, spans, stuck) && visible == Without(line, 0, spans)
  }

  lemma CodeFreeIsUnique(line: string, a: string, b: string)
    requires IsCodeFree(line, a) && IsCodeFree(line, b)
    ensures a == b
  {
    var x: seq<Span>, p: Option<Run> :| CodeSpans(line, 0, x, p) && a == Without(line, 0, x);
    var y: seq<Span>, q: Option<Run> :| CodeSpans(line, 0, y, q) && b == Without(line, 0, y);
    OneReading(line, 0, x, p, y, q);
  }

  function FenceAfter(line: string, fence: Option<Fence>): Option<Fence> {
    match fence
    case Some(open) => if ClosesFence(line, open) then None else fence
    case None => FenceOf(line)
  }

  predicate Shown(line: string, fence: Option<Fence>) { fence.None? && FenceOf(line).None? }

  /** The lines without their endings. */
  function BodyLines(text: string): seq<string> { Mapped(StripReturn, Pieces(NotNewline, text)) }

  /** The fence open before each line, none being open at first. */
  ghost predicate FenceTrace(lines: seq<string>, fences: seq<Option<Fence>>) {
    |fences| == |lines| && (lines != [] ==> fences[0] == None) &&
    forall k :: 0 < k < |lines| ==> fences[k] == FenceAfter(lines[k - 1], fences[k - 1])
  }

  ghost predicate ShownAs(line: string, fence: Option<Fence>, shown: string) {
    if Shown(line, fence) then IsCodeFree(line, shown) else shown == ""
  }

  /** The active text: lines outside fences without their inline code, every line break kept. */
  ghost predicate IsActive(text: string, active: string, shown: seq<string>, fences: seq<Option<Fence>>) {
    FenceTrace(BodyLines(text), fences) && |shown| == |fences| && active == Join("\n", shown) &&
    forall k :: 0 <= k < |shown| ==> ShownAs(BodyLines(text)[k], fences[k], shown[k])
  }

  lemma {:induction false} TraceIsUnique(lines: seq<string>, a: seq<Option<Fence>>, b: seq<Option<Fence>>, k: nat)
    requires FenceTrace(lines, a) && FenceTrace(lines, b) && k < |lines|
    ensures a[k] == b[k]
  {
    if k > 0 { TraceIsUnique(lines, a, b, k - 1); }
  }

  /** A body has one active text. */
  lemma ActiveIsUnique(
    text: string, a: string, s: seq<string>, f: seq<Option<Fence>>, b: string, t: seq<string>, g: seq<Option<Fence>>)
    requires IsActive(text, a, s, f) && IsActive(text, b, t, g)
    ensures a == b
  {
    forall k | 0 <= k < |s| ensures s[k] == t[k] {
      TraceIsUnique(BodyLines(text), f, g, k);
      assert ShownAs(BodyLines(text)[k], f[k], s[k]) && ShownAs(BodyLines(text)[k], f[k], t[k]);
      if Shown(BodyLines(text)[k], f[k]) { CodeFreeIsUnique(BodyLines(text)[k], s[k], t[k]); }
    }
    assert s == t;
  }

  method ShowLine(line: string, fence: Option<Fence>) returns (shown: string)
    ensures ShownAs(line, fence, shown)
  {
    shown := "";
    if Shown(line, fence) {
      var spans, stuck;
      shown, spans, stuck := WithoutInlineCode(line);
    }
  }

  /** Line by line, the open fence carried along. */
  method ActiveText(text: string) returns (active: string, shown: seq<string>, fences: seq<Option<Fence>>)
    ensures IsActive(text, active, shown, fences)
  {
    var lines := BodyLines(text);
    var fence: Option<Fence> := None;
    shown, fences := [], [];
    for k := 0 to |lines|
      invariant FenceTrace(lines[..k], fences) && |shown| == k
      invariant fence == if k == 0 then None else FenceAfter(lines[k - 1], fences[k - 1])
      invariant forall j :: 0 <= j < k ==> ShownAs(lines[j], fences[j], shown[j])
    {
      var piece := ShowLine(lines[k], fence);
      shown, fences := shown + [piece], fences + [fence];
      fence := FenceAfter(lines[k], fence);
    }
    assert lines[..|lines|] == lines;
    active := Join("\n", shown);
  }

  lemma {:induction false} JoinedFrom(words: seq<string>, c: char)
    requires c in Join("\n", words)
    ensures c == '\n' || exists k :: 0 <= k < |words| && c in words[k]
  {
    if |words| > 1 {
      if c in Last(words) {
        assert c in words[|words| - 1];
      } else if c in Join("\n", Init(words)) {
        JoinedFrom(Init(words), c);
        if c != '\n' {
          var k :| 0 <= k < |Init(words)| && c in Init(words)[k];
          assert c in words[k];
        }
      }
    } else if words != [] {
      assert c in words[0];
    }
  }

  lemma {:induction false} PiecesFrom(s: string, w: string, c: char)
    requires w in Pieces(NotNewline, s) && c in w
    ensures c in s
  {
    if s != "" {
      var rest := Pieces(NotNewline, Init(s));
      if w in rest {
        PiecesFrom(Init(s), w, c);
      } else if NotNewline(Last(s)) {
        assert w == Last(rest) + [Last(s)];
        if c in Last(rest) { PiecesFrom(Init(s), Last(rest), c); }
      }
    }
  }

  /** Every character of the active text comes from the body, or is a line break. */
  lemma ActiveFromBody(text: string, active: string, shown: seq<string>, fences: seq<Option<Fence>>, c: char)
    requires IsActive(text, active, shown, fences) && c in active
    ensures c in text || c == '\n'
  {
    JoinedFrom(shown, c);
    if c != '\n' {
      var k :| 0 <= k < |shown| && c in shown[k];
      assert ShownAs(BodyLines(text)[k], fences[k], shown[k]);
      CodeFreeFromLine(BodyLines(text)[k], shown[k], c);
      var piece := Pieces(NotNewline, text)[k];
      MappedAt(StripReturn, Pieces(NotNewline, text), k);
      assert c in StripReturn(piece) && c in piece;
      PiecesFrom(text, piece, c);
    }
  }

  lemma CodeFreeFromLine(line: string, shown: string, c: char)
    requires IsCodeFree(line, shown) && c in shown
    ensures c in line
  {
    var spans: seq<Span>, stuck: Option<Run> :| CodeSpans(line, 0, spans, stuck) && shown == Without(line, 0, spans);
    NothingAdded(line, 0, spans, c);
  }

  // ---- the checks ----

  predicate OpensTag(c: char) { IsAsciiLetter(c) || c == '/' || c == '!' || c == '?' }

  ghost predicate HasTag(active: string) {
    exists k :: 0 <= k < |active| - 1 && active[k] == '<' && OpensTag(active[k + 1])
  }

  ghost predicate HasReference(active: string) { exists c: nat, k: nat, m: nat :: ReferenceAt(active, c, k, m) }

  ghost predicate HasDefinition(active: string) { exists line :: line in Lines(active) && DefinesReference(line) }

  /** No inline link, reference link, reference definition or raw HTML. */
  ghost predicate LinkFree(active: string) {
    !HasInlineLink(active) && !HasReference(active) && !HasDefinition(active) && !HasTag(active)
  }

  method FindTag(active: string) returns (found: bool)
    ensures found <==> HasTag(active)
  {
    for k := 0 to |active|
      invariant forall j :: 0 <= j < k && j < |active| - 1 ==> !(active[j] == '<' && OpensTag(active[j + 1]))
    {
      if active[k] == '<' && k + 1 < |active| && OpensTag(active[k + 1]) { return true; }
    }
    found := false;
  }

  /** The part of the validator that looks for links and raw HTML. */
  method CheckLinks(body: string)
    returns (accepted: bool, active: string, shown: seq<string>, fences: seq<Option<Fence>>)
    ensures IsActive(body, active, shown, fences) && (accepted <==> LinkFree(active))
  {
    active, shown, fences := ActiveText(body);
    var destinations;
    ghost var links;
    destinations, links := InlineLinkDestinations(active);
    var reference := HasReferenceLink(active);
    var definition := HasReferenceDefinition(active);
    var tag := FindTag(active);
    accepted := destinations == [] && !reference && !definition && !tag;
  }

  lemma {:induction false} LinesFromText(s: string, line: string, c: char)
    requires line in Lines(s) && c in line
    ensures c in s
    decreases |s|
  {
    if s != "" && Cut(s) < |s| {
      if line in Lines(s[Cut(s) + 1..]) { LinesFromText(s[Cut(s) + 1..], line, c); }
    }
  }

  lemma PlainIsLinkFree(active: string)
    requires NoMarkup(active)
    ensures LinkFree(active)
  {
    forall line | line in Lines(active) ensures !DefinesReference(line) {
      if DefinesReference(line) { LinesFromText(active, line, '['); }
    }
  }

  /** Normalised model output passes those checks, whatever the model wrote. */
  lemma NormalizedPassesLinkChecks(body: string, active: string, shown: seq<string>, fences: seq<Option<Fence>>)
    requires IsActive(Normalized(body), active, shown, fences)
    ensures LinkFree(active)
  {
    NormalizedHasNoMarkup(body);
    forall k | 0 <= k < |active| ensures !IsMarkup(active[k]) {
      ActiveFromBody(Normalized(body), active, shown, fences, active[k]);
    }
    PlainIsLinkFree(active);
  }

  /** Only one heading marker is taken off: a title that is itself a heading stays one. */
  lemma OneMarkerOff(title: string)
    requires title != "" && Bare(title) && Last(title) != '#'
    ensures StripAtx("# " + title) == title
  {
    var line := "# " + title;
    assert line[1..] == " " + title && line[0..] == line && (" " + title)[1..] == title;
    assert Leading(" " + title, '#') == 0;
    assert Leading(line, '#') == 1 && Leading(line, ' ') == 0;
    assert TitleStart(line) == Some(1);
    TitleTrimmed(title);
  }

  lemma TitleTrimmed(title: string)
    requires title != "" && Bare(title) && Last(title) != '#'
    ensures StripClosing(Trim(" " + title)) == title
  {
    assert (" " + title)[1..] == title;
    TrimBare(title);
    assert TrimStart(" " + title) == TrimStart(title);
    assert Trailing(title, '#') == 0 && title[..|title|] == title;
  }
}
