/** Which model output passes the heading check once it is normalised. */
module HeadingCheck {
  import opened Wrappers
  import opened Text
  import opened Splitting
  import opened InlineCode
  import opened ModelText
  import opened ModelMarkdown
  import opened ActiveMarkdown
  import opened Addresses
  import opened EditedCode
  import opened ModelHeadings

  // ---- the lines of the active text ----

  /** The lines are the pieces, up to carriage returns and an empty last piece. */
  ghost predicate LinesOf(lines: seq<string>, pieces: seq<string>) {
    SameUpToReturn(lines, pieces) ||
    (pieces != [] && Last(pieces) == "" && SameUpToReturn(lines, Init(pieces)))
  }

  lemma LinesOfSnoc(line: string, piece: string, lines: seq<string>, pieces: seq<string>)
    requires ReturnApart(line, piece) && LinesOf(lines, pieces)
    ensures LinesOf([line] + lines, [piece] + pieces)
  {
    if SameUpToReturn(lines, pieces) {
      assert SameUpToReturn([line] + lines, [piece] + pieces);
    } else {
      assert Init([piece] + pieces) == [piece] + Init(pieces);
      assert SameUpToReturn([line] + lines, [piece] + Init(pieces));
    }
  }

  lemma StrippedApart(s: string)
    ensures ReturnApart(StripReturn(s), s)
  {
    if s != "" { assert s == s[..|s| - 1] + [s[|s| - 1]]; }
  }

  lemma {:induction false} LinesArePieces(s: string)
    ensures LinesOf(Lines(s), Pieces(NotNewline, s))
    decreases |s|
  {
    var cut := Cut(s);
    forall j | 0 <= j < cut ensures s[j] != '\n' { CutClean(s, j); }
    FirstPiece(s, cut);
    if s == "" {
      assert Pieces(NotNewline, s) == [""];
      assert Init([""]) == [];
    } else if cut == |s| {
      assert s[..cut] == s;
    } else {
      LinesArePieces(s[cut + 1..]);
      StrippedApart(s[..cut]);
      LinesOfSnoc(StripReturn(s[..cut]), s[..cut], Lines(s[cut + 1..]), Pieces(NotNewline, s[cut + 1..]));
    }
  }

  lemma BlankLast(pieces: seq<string>, bad: (Option<string>, string) -> bool)
    requires pieces != [] && Last(pieces) == "" && forall p :: !bad(p, "")
    ensures AnyLine(Init(pieces), bad) <==> AnyLine(pieces, bad)
  {
    var init := Init(pieces);
    forall k | 0 <= k < |init| ensures bad(Above(init, k), init[k]) == bad(Above(pieces, k), pieces[k]) {}
    if AnyLine(init, bad) {
      var k :| 0 <= k < |init| && bad(Above(init, k), init[k]);
      assert bad(Above(pieces, k), pieces[k]);
    }
    if AnyLine(pieces, bad) {
      var k :| 0 <= k < |pieces| && bad(Above(pieces, k), pieces[k]);
      assert k < |init| && bad(Above(init, k), init[k]);
    }
  }

  lemma BlankIsSafe()
    ensures forall p :: !Unsafe()(p, "")
  {}

  lemma AnyLineOfPieces(lines: seq<string>, pieces: seq<string>, bad: (Option<string>, string) -> bool)
    requires LinesOf(lines, pieces) && IgnoresReturn(bad) && forall p :: !bad(p, "")
    ensures AnyLine(lines, bad) <==> AnyLine(pieces, bad)
  {
    if SameUpToReturn(lines, pieces) {
      SameAnyLine(lines, pieces, bad);
    } else {
      SameAnyLine(lines, Init(pieces), bad);
      BlankLast(pieces, bad);
    }
  }

  /** The check on the active text is one on the lines that show. */
  lemma ReservedAmongShown(text: string, active: string, shown: seq<string>, fences: seq<Option<Fence>>)
    requires IsActive(text, active, shown, fences)
    ensures HasReserved(Lines(active)) <==> HasReserved(shown)
  {
    ShownPieces(text, active, shown, fences);
    LinesArePieces(active);
    UnsafeIgnoresReturn();
    BlankIsSafe();
    AnyLineOfPieces(Lines(active), shown, Unsafe());
  }

  lemma ShownPieces(text: string, active: string, shown: seq<string>, fences: seq<Option<Fence>>)
    requires IsActive(text, active, shown, fences)
    ensures Pieces(NotNewline, active) == shown
  {
    forall k | 0 <= k < |shown| ensures AllKept(NotNewline, shown[k]) {
      ShownIsOneLine(text, active, shown, fences, k);
    }
    assert BodyLines(text) != [];
    PiecesOfJoin(NotNewline, '\n', shown);
    assert ['\n'] == "\n";
  }

  lemma ShownIsOneLine(text: string, active: string, shown: seq<string>, fences: seq<Option<Fence>>, k: nat)
    requires IsActive(text, active, shown, fences) && k < |shown|
    ensures AllKept(NotNewline, shown[k])
  {
    var line := BodyLines(text)[k];
    assert ShownAs(line, fences[k], shown[k]);
    MappedAt(StripReturn, Pieces(NotNewline, text), k);
    var piece := Pieces(NotNewline, text)[k];
    PiecesKept(NotNewline, text, piece);
    forall j | 0 <= j < |shown[k]| ensures NotNewline(shown[k][j]) {
      CodeFreeFromLine(line, shown[k], shown[k][j]);
      assert shown[k][j] in piece;
    }
  }

  // ---- fences ----

  /** What matters of a line that opens or closes a fence. */
  datatype Shape = Shape(marker: char, count: nat, blank: bool)

  function ShapeOf(line: string): Option<Shape> {
    match FenceOf(line)
    case None => None
    case Some(f) => Some(Shape(f.marker, f.count, Trim(f.suffix) == ""))
  }

  /** The fence open before line `k`. */
  function OpenBefore(shape: string -> Option<Shape>, lines: seq<string>, k: nat): Option<Shape>
    requires k <= |lines|
  {
    if k == 0 then None
    else
      match OpenBefore(shape, lines, k - 1)
      case None => shape(lines[k - 1])
      case Some(open) =>
        var f := shape(lines[k - 1]);
        if f.Some? && f.value.marker == open.marker && f.value.count >= open.count && f.value.blank then None
        else Some(open)
  }

  predicate IsVisible(shape: string -> Option<Shape>, lines: seq<string>, k: nat)
    requires k < |lines|
  {
    OpenBefore(shape, lines, k).None? && shape(lines[k]).None?
  }

  lemma CodeFreeExists(line: string)
    ensures exists visible :: IsCodeFree(line, visible)
  {
    var spans, stuck := ReadingExists(line, 0);
    assert IsCodeFree(line, Without(line, 0, spans));
  }

  /** The line without its inline code. */
  ghost function CodeFree(line: string): (visible: string)
    ensures IsCodeFree(line, visible)
  {
    CodeFreeExists(line);
    var visible :| IsCodeFree(line, visible);
    visible
  }

  /** What shows of the lines: outside fences, those lines without their inline code; blanks inside. */
  ghost function Visible(lines: seq<string>): seq<string> {
    seq(|lines|, k requires 0 <= k < |lines| =>
      if IsVisible(ShapeOf, lines, k) then CodeFree(StripReturn(lines[k])) else "")
  }

  predicate SameFence(f: Option<Fence>, s: Option<Shape>) {
    f.Some? == s.Some? && (f.Some? ==> f.value.marker == s.value.marker && f.value.count == s.value.count)
  }

  lemma SameFenceAfter(line: string, f: Option<Fence>, s: Option<Shape>)
    requires SameFence(f, s)
    ensures SameFence(FenceAfter(line, f),
                      match s
                      case None => ShapeOf(line)
                      case Some(open) =>
                        var g := ShapeOf(line);
                        if g.Some? && g.value.marker == open.marker && g.value.count >= open.count && g.value.blank
                        then None else Some(open))
  {}

  lemma {:induction false} TraceIsOpen(lines: seq<string>, fences: seq<Option<Fence>>, k: nat)
    requires FenceTrace(lines, fences) && k < |lines|
    ensures SameFence(fences[k], OpenBefore(ShapeOf, lines, k))
  {
    if k > 0 {
      TraceIsOpen(lines, fences, k - 1);
      SameFenceAfter(lines[k - 1], fences[k - 1], OpenBefore(ShapeOf, lines, k - 1));
    }
  }

  lemma {:induction false} SameOpenBefore(shape: string -> Option<Shape>, a: seq<string>, b: seq<string>, k: nat)
    requires |a| == |b| && k <= |a| && forall i :: 0 <= i < |a| ==> shape(a[i]) == shape(b[i])
    ensures OpenBefore(shape, a, k) == OpenBefore(shape, b, k)
  {
    if k > 0 { SameOpenBefore(shape, a, b, k - 1); }
  }

  lemma SameVisible(shape: string -> Option<Shape>, a: seq<string>, b: seq<string>, k: nat)
    requires |a| == |b| && k < |a| && forall i :: 0 <= i < |a| ==> shape(a[i]) == shape(b[i])
    ensures IsVisible(shape, a, k) == IsVisible(shape, b, k)
  {
    SameOpenBefore(shape, a, b, k);
  }

  /** The part of a line that a fence may start. */
  function FenceRun(rest: string): Option<Shape> {
    if rest == "" || (rest[0] != '`' && rest[0] != '~') then None
    else
      var count := Leading(rest, rest[0]);
      if count >= 3 then Some(Shape(rest[0], count, Trim(rest[count..]) == "")) else None
  }

  lemma ShapeIsRun(line: string)
    ensures ShapeOf(line) == if Leading(line, ' ') > 3 then None else FenceRun(line[Leading(line, ' ')..])
  {}

  lemma SuffixKept(ps: seq<Piece>, c: char)
    requires IsEdit(ps) && StartsNoUrl(c)
    ensures var n := Leading(Source(ps), c);
      n <= |Target(ps)| && (Trim(Target(ps)[n..]) == "" <==> Trim(Source(ps)[n..]) == "")
  {
    LeadingKept(ps, c);
    TitlesKeep();
    EditTail(ps, Leading(Source(ps), c));
    SameEmpty(Trim, ps[Leading(Source(ps), c)..]);
  }

  lemma FenceRunKept(ps: seq<Piece>)
    requires IsEdit(ps)
    ensures FenceRun(Target(ps)) == FenceRun(Source(ps))
  {
    if ps != [] {
      FirstKept(ps);
      var c := Source(ps)[0];
      if c == '`' || c == '~' {
        LeadingKept(ps, c);
        SuffixKept(ps, c);
      }
    }
  }

  lemma ShapeKept(ps: seq<Piece>)
    requires IsEdit(ps)
    ensures ShapeOf(Target(ps)) == ShapeOf(Source(ps))
  {
    LeadingKept(ps, ' ');
    EditTail(ps, Leading(Source(ps), ' '));
    FenceRunKept(ps[Leading(Source(ps), ' ')..]);
    ShapeIsRun(Source(ps));
    ShapeIsRun(Target(ps));
  }

  lemma FenceRunReturn(rest: string)
    ensures FenceRun(rest + ['\r']) == FenceRun(rest)
  {
    if rest != "" && (rest[0] == '`' || rest[0] == '~') {
      var count := Leading(rest, rest[0]);
      LeadingReturn(rest, rest[0]);
      assert (rest + ['\r'])[count..] == rest[count..] + ['\r'];
      TrimExtend(rest[count..], '\r');
    }
  }

  lemma ShapeReturn(line: string)
    ensures ShapeOf(StripReturn(line)) == ShapeOf(line)
  {
    var s := StripReturn(line);
    if s != line {
      var indent := Leading(s, ' ');
      assert line == s + ['\r'];
      LeadingReturn(s, ' ');
      assert line[indent..] == s[indent..] + ['\r'];
      FenceRunReturn(s[indent..]);
      ShapeIsRun(line);
      ShapeIsRun(s);
    }
  }

  // ---- the lines of normalised output ----

  /** A line of the projected body before its addresses are replaced: no underline, and no heading
      marker but one that was behind another. */
  function Stripped(line: string): string {
    if IsSetextMarker(TrimBlanks(line)) then "" else StripAtx(TrimBlanks(line))
  }

  function StrippedLines(body: string): seq<string> {
    Mapped(Stripped, Pieces(NotNewline, Truncated(Projected(body), MAX_MODEL_PLAIN_TEXT_BYTES)))
  }

  lemma ProjectedIsReplaced(line: string)
    ensures ProjectedLine(line) == ReplaceUrls(Stripped(line))
  {}

  lemma {:induction false} ReplaceUrlsFrom(s: string, c: char)
    requires c in ReplaceUrls(s)
    ensures c in s || c in REPLACEMENT
    decreases |s|
  {
    if s != "" {
      ReplaceUrlsStep(s);
      match UrlLength(s)
      case Some(n) => if c !in REPLACEMENT { ReplaceUrlsFrom(s[n..], c); }
      case None => if c != s[0] { ReplaceUrlsFrom(s[1..], c); }
    }
  }

  lemma OccursChar(s: string, t: string, c: char)
    requires Occurs(s, t) && c in t
    ensures c in s
  {}

  /** Every character of a projected line is from the line or from the replacement. */
  lemma LineFrom(line: string, c: char)
    requires c in ProjectedLine(line)
    ensures c in line || c in REPLACEMENT
  {
    ProjectedIsReplaced(line);
    ReplaceUrlsFrom(Stripped(line), c);
    if c !in REPLACEMENT {
      StripAtxOccurs(TrimBlanks(line));
      OccursChar(TrimBlanks(line), StripAtx(TrimBlanks(line)), c);
    }
  }

  lemma ReplacementChars()
    ensures '\n' !in REPLACEMENT && '`' !in REPLACEMENT
  {
    var r := REPLACEMENT;
    assert r == "external reference";
    forall k | 0 <= k < |r| ensures 'a' <= r[k] <= 'z' || r[k] == ' ' {}
  }

  lemma OneLineStays(line: string)
    requires AllKept(NotNewline, line)
    ensures AllKept(NotNewline, ProjectedLine(line))
  {
    var p := ProjectedLine(line);
    ReplacementChars();
    forall k | 0 <= k < |p| ensures NotNewline(p[k]) { LineFrom(line, p[k]); }
  }

  lemma MappedFirst(f: string -> string, w: string, words: seq<string>)
    ensures Mapped(f, [w] + words) == [f(w)] + Mapped(f, words)
  {
    MappedConcat(f, [w], words);
    MappedOne(f, w);
  }

  lemma {:induction false} ProjectedPieces(s: string)
    ensures Pieces(NotNewline, ProjectedMarkdown(s)) == Mapped(ProjectedLine, Pieces(NotNewline, s))
    decreases |s|
  {
    var cut := Cut(s);
    forall j | 0 <= j < cut ensures s[j] != '\n' { CutClean(s, j); }
    FirstPiece(s, cut);
    OneLineStays(s[..cut]);
    if cut < |s| {
      ProjectedPieces(s[cut + 1..]);
      LineAndRest(ProjectedLine(s[..cut]), ProjectedMarkdown(s[cut + 1..]));
      MappedFirst(ProjectedLine, s[..cut], Pieces(NotNewline, s[cut + 1..]));
      assert ProjectedMarkdown(s) == ProjectedLine(s[..cut]) + ['\n'] + ProjectedMarkdown(s[cut + 1..]);
    } else {
      assert s[..cut] == s;
      MappedOne(ProjectedLine, s);
      OnePiece(NotNewline, ProjectedLine(s));
      assert s == "" ==> ProjectedMarkdown(s) == "" == ProjectedLine(s);
    }
  }

  lemma NormalizedLine(body: string, k: nat)
    requires k < |StrippedLines(body)|
    ensures |BodyLines(Normalized(body))| == |StrippedLines(body)|
    ensures BodyLines(Normalized(body))[k] == StripReturn(ReplaceUrls(StrippedLines(body)[k]))
  {
    var projected := Truncated(Projected(body), MAX_MODEL_PLAIN_TEXT_BYTES);
    var lines := Pieces(NotNewline, projected);
    ProjectedPieces(projected);
    MappedAt(ProjectedLine, lines, k);
    MappedAt(Stripped, lines, k);
    MappedAt(StripReturn, Mapped(ProjectedLine, lines), k);
    ProjectedIsReplaced(lines[k]);
  }

  lemma SameShapes(body: string)
    ensures |BodyLines(Normalized(body))| == |StrippedLines(body)|
    ensures forall k :: 0 <= k < |StrippedLines(body)| ==>
              ShapeOf(BodyLines(Normalized(body))[k]) == ShapeOf(StrippedLines(body)[k])
  {
    assert |StrippedLines(body)| > 0;
    NormalizedLine(body, 0);
    forall k | 0 <= k < |StrippedLines(body)|
      ensures ShapeOf(BodyLines(Normalized(body))[k]) == ShapeOf(StrippedLines(body)[k])
    {
      NormalizedLine(body, k);
      ShapeReturn(ReplaceUrls(StrippedLines(body)[k]));
      LineOfPieces(StrippedLines(body)[k]);
      ShapeKept(UrlPieces(StrippedLines(body)[k]));
    }
  }

  lemma LastIsNoReturn(p: Piece, edited: bool)
    requires (p.Address? ==> IsAddress(p.text)) && p != Char('\r')
    ensures Grown(p, edited) != "" && Last(Grown(p, edited)) != '\r'
  {
    assert Last(REPLACEMENT) == 'e';
  }

  /** Taking the carriage return off the line takes its piece off. */
  lemma ReturnPiece(ps: seq<Piece>, last: Piece, edited: bool)
    requires last.Address? ==> IsAddress(last.text)
    ensures StripReturn(Line(ps + [last], edited)) ==
            if last == Char('\r') then Line(ps, edited) else Line(ps + [last], edited)
  {
    LineConcat(ps, [last], edited);
    LineOfOne(last, edited);
    var line := Line(ps + [last], edited);
    if last == Char('\r') {
      assert line == Line(ps, edited) + ['\r'];
    } else {
      LastIsNoReturn(last, edited);
      assert Last(line) == Last(Grown(last, edited));
    }
  }

  /** A carriage return at the end of a line is no part of an address. */
  lemma PiecesReturn(ps: seq<Piece>) returns (qs: seq<Piece>)
    requires IsEdit(ps)
    ensures IsEdit(qs) && Source(qs) == StripReturn(Source(ps)) && Target(qs) == StripReturn(Target(ps))
  {
    if ps == [] { return []; }
    var n := |ps| - 1;
    assert ps == ps[..n] + [ps[n]];
    ReturnPiece(ps[..n], ps[n], false);
    ReturnPiece(ps[..n], ps[n], true);
    qs := if ps[n] == Char('\r') then ps[..n] else ps;
  }

  /** What shows of a line of the output is what shows of the stripped line, addresses replaced. */
  lemma ShownRewritten(line: string, visible: string)
    requires IsCodeFree(StripReturn(ReplaceUrls(line)), visible)
    ensures Rewritten(CodeFree(StripReturn(line)), visible)
  {
    LineOfPieces(line);
    var ps := PiecesReturn(UrlPieces(line));
    var qs := CodeFreeEdit(ps);
    CodeFreeIsUnique(StripReturn(line), Source(qs), CodeFree(StripReturn(line)));
    CodeFreeIsUnique(StripReturn(ReplaceUrls(line)), Target(qs), visible);
  }

  lemma BlankRewritten()
    ensures Rewritten("", "")
  {
    assert IsEdit([]) && Source([]) == "" && Target([]) == "";
  }

  lemma ShownLine(body: string, active: string, shown: seq<string>, fences: seq<Option<Fence>>, k: nat)
    requires IsActive(Normalized(body), active, shown, fences) && k < |shown|
    ensures |shown| == |StrippedLines(body)| && Rewritten(Visible(StrippedLines(body))[k], shown[k])
  {
    var lines, stripped := BodyLines(Normalized(body)), StrippedLines(body);
    SameShapes(body);
    TraceIsOpen(lines, fences, k);
    SameVisible(ShapeOf, lines, stripped, k);
    NormalizedLine(body, k);
    assert ShownAs(lines[k], fences[k], shown[k]);
    if IsVisible(ShapeOf, stripped, k) {
      ShownRewritten(stripped[k], shown[k]);
    } else {
      BlankRewritten();
    }
  }

  /** Normalised output fails the heading check exactly when, of what shows of the body's lines after
      they lost one heading marker each, a line is still a reserved heading, or stands over an
      underline that is left. */
  lemma NormalizedHeadings(body: string, active: string, shown: seq<string>, fences: seq<Option<Fence>>)
    requires IsActive(Normalized(body), active, shown, fences)
    ensures HasReserved(Lines(active)) <==> HasReserved(Visible(StrippedLines(body)))
  {
    ReservedAmongShown(Normalized(body), active, shown, fences);
    SameShapes(body);
    forall k | 0 <= k < |shown| ensures Rewritten(Visible(StrippedLines(body))[k], shown[k]) {
      ShownLine(body, active, shown, fences, k);
    }
    UnsafeIgnoresRewriting();
    AnyLineKept(Visible(StrippedLines(body)), shown, Unsafe());
  }

  // ---- output that fails ----

  lemma {:induction false} ProjectedAsIs(s: string)
    requires forall k :: 0 <= k < |s| ==> !IsMarkup(s[k]) && AsciiLower(s[k]) != 'h'
    ensures Projected(s) == s
    decreases |s|
  {
    if s != "" {
      assert AsciiLower(s[0]) != 'h';
      ProjectedAsIs(s[1..]);
      assert [s[0]] + s[1..] == s;
    }
  }

  /** One short line of ASCII that the first pass leaves alone. */
  predicate IsSimple(s: string) {
    |s| <= MAX_MODEL_PLAIN_TEXT_BYTES &&
    forall k :: 0 <= k < |s| ==>
      !IsMarkup(s[k]) && AsciiLower(s[k]) != 'h' && s[k] < '\U{0080}' && s[k] != '\n' && s[k] != '`'
  }

  lemma SimpleLine(s: string)
    requires IsSimple(s)
    ensures StrippedLines(s) == [Stripped(s)] && '`' !in s
  {
    ProjectedAsIs(s);
    BytesOfAscii(s);
    OnePiece(NotNewline, s);
    MappedOne(Stripped, s);
  }

  lemma NothingTrimmed(line: string)
    requires line != "" && !IsWhitespace(Last(line))
    ensures TrimBlanks(line) == line
  {}

  lemma NoUnderline(line: string)
    requires line != "" && line[0] == '#'
    ensures !IsSetextMarker(line)
  {
    assert Leading(line, ' ') == 0;
  }

  lemma OneMarkerLeft(title: string)
    requires title != "" && Bare(title) && Last(title) != '#'
    ensures Stripped("# " + title) == title
  {
    assert Last("# " + title) == Last(title);
    NothingTrimmed("# " + title);
    NoUnderline("# " + title);
    OneMarkerOff(title);
  }

  lemma TitleLine(title: string)
    ensures UnsafeLine(None, "# " + title) && ShapeOf("# " + title) == None
  {
    var line := "# " + title;
    assert line[0] == '#' && line[1] == ' ' && line[0..] == line && line[1..][0] == ' ';
    assert Leading(line, ' ') == 0 && Leading(line[1..], '#') == 0 && Leading(line, '#') == 1;
    assert TitleStart(line) == Some(1);
    ShapeIsRun(line);
  }

  lemma NoRunWithoutTick(line: string, i: nat, n: nat)
    requires '`' !in line
    ensures !RunAt(line, i, n)
  {
    assert i < |line| ==> line[i] != '`';
  }

  /** A line without backticks shows as it is. */
  lemma AllShows(line: string, visible: string)
    requires IsCodeFree(line, visible) && '`' !in line
    ensures visible == line
  {
    var spans: seq<Span>, stuck: Option<Run> :| CodeSpans(line, 0, spans, stuck) && visible == Without(line, 0, spans);
    forall i: nat, n: nat ensures !RunAt(line, i, n) { NoRunWithoutTick(line, i, n); }
    assert spans == [];
    assert line[0..] == line;
  }

  lemma StillReserved(line: string)
    requires UnsafeLine(None, line) && ShapeOf(line) == None && StripReturn(line) == line && '`' !in line
    ensures HasReserved(Visible([line]))
  {
    assert IsVisible(ShapeOf, [line], 0);
    AllShows(line, CodeFree(line));
    var lines := Visible([line]);
    assert lines[0] == line && Unsafe()(Above(lines, 0), lines[0]);
  }

  lemma DoubleMarked(body: string, title: string)
    requires body == "# " + ("# " + title) && IsSimple(body) && title != "" && Bare(title) && Last(title) != '#'
    ensures StrippedLines(body) == ["# " + title] && StripReturn("# " + title) == "# " + title && '`' !in "# " + title
  {
    var line := "# " + title;
    assert line[0] == '#' && Last(line) == Last(title);
    SimpleLine(body);
    OneMarkerLeft(line);
    assert body[2..] == line;
  }

  /** A heading behind a heading marker: normalising takes one marker off, and the check refuses the
      result. */
  lemma DoubleMarkedFails(
    body: string, title: string, active: string, shown: seq<string>, fences: seq<Option<Fence>>)
    requires body == "# " + ("# " + title) && IsSimple(body) && title != "" && Bare(title) && Last(title) != '#'
    requires IsActive(Normalized(body), active, shown, fences)
    ensures HasReserved(Lines(active))
  {
    DoubleMarked(body, title);
    TitleLine(title);
    StillReserved("# " + title);
    NormalizedHeadings(body, active, shown, fences);
  }

  lemma Sample(body: string, title: string)
    requires body == "# # T" && title == body[4..]
    ensures body == "# " + ("# " + title) && IsSimple(body) && title != "" && Bare(title) && Last(title) != '#'
  {}

  lemma NotAlwaysPassing(body: string, active: string, shown: seq<string>, fences: seq<Option<Fence>>)
    requires body == "# # T" && IsActive(Normalized(body), active, shown, fences)
    ensures HasReserved(Lines(active))
  {
    Sample(body, body[4..]);
    DoubleMarkedFails(body, body[4..], active, shown, fences);
  }
}
