/** The heading check on model output, and when normalised output passes it. */
module ModelHeadings {
  import opened Wrappers
  import opened Text
  import opened Splitting
  import opened ModelText
  import opened ModelMarkdown
  import opened Addresses

  datatype Heading = Heading(level: nat, title: string)

  function TrimHashes(s: string): string { s[..|s| - Trailing(s, '#')] }

  function HeadingTitle(rest: string): string { TrimEnd(TrimHashes(Trim(rest))) }

  function LevelOf(line: string): nat { Leading(line[Leading(line, ' ')..], '#') }

  /** A line of hashes: its level and its title. */
  function AtxHeading(line: string): Option<Heading> {
    match TitleStart(line)
    case None => None
    case Some(k) => Some(Heading(LevelOf(line), HeadingTitle(line[k..])))
  }

  /** A run of equals signs or of dashes, with white space around it. */
  predicate IsUnderline(line: string) { Leading(line, ' ') <= 3 && IsMarkerRun(line[Leading(line, ' ')..]) }

  predicate IsMarkerRun(s: string) {
    s != "" && (s[0] == '=' || s[0] == '-') && Trim(s[Leading(s, s[0])..]) == ""
  }

  function RunLevel(s: string): nat { if !IsMarkerRun(s) then 0 else if s[0] == '-' then 2 else 1 }

  /** The level an underline gives the line above it; zero if it is none. */
  function UnderlineLevel(line: string): nat {
    if Leading(line, ' ') > 3 then 0 else RunLevel(line[Leading(line, ' ')..])
  }

  function Underlined(title: string, level: nat): Option<Heading> {
    if title == "" || level == 0 then None else Some(Heading(level, title))
  }

  /** A line of text made a heading by the line under it. */
  function SetextHeading(title: string, underline: string): Option<Heading> {
    Underlined(Trim(title), UnderlineLevel(underline))
  }

  predicate IsSources(title: string) { |title| == 7 && StartsWith(title, "sources") }

  predicate IsReserved(heading: Option<Heading>) {
    heading.Some? && (heading.value.level == 1 || IsSources(heading.value.title))
  }

  /** The line is a heading of level one or one of the sources, by itself or under the line before. */
  predicate UnsafeLine(previous: Option<string>, line: string) {
    IsReserved(AtxHeading(line)) || (previous.Some? && IsReserved(SetextHeading(previous.value, line)))
  }

  function Unsafe(): (Option<string>, string) -> bool { (previous, line) => UnsafeLine(previous, line) }

  function Above(lines: seq<string>, k: nat): Option<string>
    requires k < |lines|
  {
    if k == 0 then None else Some(lines[k - 1])
  }

  ghost predicate AnyLine(lines: seq<string>, bad: (Option<string>, string) -> bool) {
    exists k :: 0 <= k < |lines| && bad(Above(lines, k), lines[k])
  }

  ghost predicate HasReserved(lines: seq<string>) { AnyLine(lines, Unsafe()) }

  /** Line by line, the one before at hand. */
  method FindLine(lines: seq<string>, bad: (Option<string>, string) -> bool) returns (found: bool)
    ensures found <==> AnyLine(lines, bad)
  {
    var previous: Option<string> := None;
    for k := 0 to |lines|
      invariant k < |lines| ==> previous == Above(lines, k)
      invariant forall j :: 0 <= j < k ==> !bad(Above(lines, j), lines[j])
    {
      if bad(previous, lines[k]) { return true; }
      previous := Some(lines[k]);
    }
    found := false;
  }

  method HasUnsafeModelHeading(active: string) returns (unsafe: bool)
    ensures unsafe <==> HasReserved(Lines(active))
  {
    unsafe := FindLine(Lines(active), Unsafe());
  }

  // ---- what a check sees is what it would have seen before the addresses went ----

  lemma {:induction false} TrimStartKeeps(s: string, c: char)
    requires c in s && !IsWhitespace(c)
    ensures c in TrimStart(s)
    decreases |s|
  {
    if IsWhitespace(s[0]) {
      assert s == [s[0]] + s[1..];
      TrimStartKeeps(s[1..], c);
    }
  }

  lemma {:induction false} TrimEndKeeps(s: string, c: char)
    requires c in s && !IsWhitespace(c)
    ensures c in TrimEnd(s)
    decreases |s|
  {
    if IsWhitespace(s[|s| - 1]) {
      assert s == s[..|s| - 1] + [s[|s| - 1]];
      TrimEndKeeps(s[..|s| - 1], c);
    }
  }

  lemma TrimKeeps(s: string, c: char)
    requires c in s && !IsWhitespace(c)
    ensures c in Trim(s)
  {
    TrimStartKeeps(s, c);
    TrimEndKeeps(TrimStart(s), c);
  }

  lemma {:induction false} TrimHashesKeeps(s: string, c: char)
    requires c in s && c != '#'
    ensures c in TrimHashes(s)
    decreases |s|
  {
    if Last(s) == '#' {
      assert s == Init(s) + [Last(s)];
      TrimHashesKeeps(Init(s), c);
      assert TrimHashes(s) == TrimHashes(Init(s));
    } else {
      assert s[..|s|] == s;
    }
  }

  lemma TitleKeeps(rest: string, c: char)
    requires c in rest && c != '#' && !IsWhitespace(c)
    ensures c in HeadingTitle(rest)
  {
    TrimKeeps(rest, c);
    TrimHashesKeeps(Trim(rest), c);
    TrimEndKeeps(TrimHashes(Trim(rest)), c);
  }

  lemma SourcesQuiet(title: string)
    requires IsSources(title)
    ensures '.' !in title && ':' !in title && 'x' !in title
  {
    forall k | 0 <= k < 7 ensures title[k] != '.' && title[k] != ':' && title[k] != 'x' {
      assert AsciiLower(title[k]) == "sources"[k];
      assert "sources"[k] == 's' || "sources"[k] == 'o' || "sources"[k] == 'u' || "sources"[k] == 'r' ||
             "sources"[k] == 'c' || "sources"[k] == 'e';
    }
  }

  /** Texts of which `of` makes the same as long as no address is replaced in them. */
  ghost predicate Keeps(of: string -> string) {
    forall s, c {:trigger c in of(s)} {:trigger c in s, of(s)} ::
      c in s && (c == '.' || c == ':' || c == 'x') ==> c in of(s)
  }

  lemma TitlesKeep()
    ensures Keeps(Trim) && Keeps(HeadingTitle)
  {
    forall s: string, c | c in s && (c == '.' || c == ':' || c == 'x') ensures c in Trim(s) && c in HeadingTitle(s) {
      TrimKeeps(s, c);
      TitleKeeps(s, c);
    }
  }

  lemma SameSources(of: string -> string, ps: seq<Piece>)
    requires Keeps(of) && IsEdit(ps)
    ensures IsSources(of(Target(ps))) <==> IsSources(of(Source(ps)))
  {
    if IsSources(of(Source(ps))) {
      SourcesQuiet(of(Source(ps)));
      QuietStays(ps);
    }
    if IsSources(of(Target(ps))) {
      SourcesQuiet(of(Target(ps)));
      ReplacedHasX(ps);
    }
  }

  lemma EmptyQuiet(of: string -> string, s: string)
    requires Keeps(of) && of(s) == ""
    ensures Quiet(s) && 'x' !in s
  {
    assert '.' !in of(s) && ':' !in of(s) && 'x' !in of(s);
  }

  lemma SameEmpty(of: string -> string, ps: seq<Piece>)
    requires Keeps(of) && IsEdit(ps)
    ensures of(Target(ps)) == "" <==> of(Source(ps)) == ""
  {
    if of(Source(ps)) == "" {
      EmptyQuiet(of, Source(ps));
      QuietStays(ps);
    } else if of(Target(ps)) == "" {
      EmptyQuiet(of, Target(ps));
      ReplacedHasX(ps);
    }
  }

  /** How many pieces the markers of a heading take. */
  function MarkersEnd(s: string): nat { Leading(s, ' ') + LevelOf(s) }

  lemma DropTwice<T>(s: seq<T>, i: nat, j: nat)
    requires i + j <= |s|
    ensures s[i..][j..] == s[i + j..]
  {}

  lemma HashesKept(ps: seq<Piece>, indent: nat)
    requires IsEdit(ps) && Apart(ps, indent)
    ensures Leading(Target(ps)[indent..], '#') == Leading(Source(ps)[indent..], '#')
    ensures Apart(ps, indent + Leading(Source(ps)[indent..], '#'))
  {
    var hashes := Leading(Source(ps)[indent..], '#');
    EditTail(ps, indent);
    LeadingKept(ps[indent..], '#');
    DropTwice(Source(ps), indent, hashes);
    DropTwice(Target(ps), indent, hashes);
    DropTwice(ps, indent, hashes);
  }

  /** What follows the first `k` pieces is treated by itself. */
  ghost predicate Apart(ps: seq<Piece>, k: nat) {
    k <= |ps| && k <= |Source(ps)| && k <= |Target(ps)| &&
    Source(ps)[k..] == Source(ps[k..]) && Target(ps)[k..] == Target(ps[k..])
  }

  lemma SameLevel(s: string, t: string, indent: nat)
    requires indent == Leading(s, ' ') == Leading(t, ' ') && Leading(s[indent..], '#') == Leading(t[indent..], '#')
    ensures LevelOf(s) == LevelOf(t) && MarkersEnd(s) == indent + Leading(s[indent..], '#')
  {}

  /** Indent and hashes are kept, and what follows them is treated by itself. */
  lemma MarkersKept(ps: seq<Piece>)
    requires IsEdit(ps)
    ensures Leading(Target(ps), ' ') == Leading(Source(ps), ' ') && LevelOf(Target(ps)) == LevelOf(Source(ps))
    ensures Apart(ps, MarkersEnd(Source(ps)))
  {
    var indent := Leading(Source(ps), ' ');
    LeadingKept(ps, ' ');
    HashesKept(ps, indent);
    SameLevel(Source(ps), Target(ps), indent);
  }

  lemma SpaceKept(ps: seq<Piece>)
    requires IsEdit(ps)
    ensures Target(ps) == "" <==> Source(ps) == ""
    ensures Source(ps) != "" ==> (IsWhitespace(Target(ps)[0]) <==> IsWhitespace(Source(ps)[0]))
  {
    if ps != [] { FirstKept(ps); }
  }

  /** Whether a title starts depends on the markers and on the character behind them. */
  lemma SameTitleStart(s: string, t: string, indent: nat, hashes: nat)
    requires Leading(s, ' ') == indent == Leading(t, ' ')
    requires Leading(s[indent..], '#') == hashes == Leading(t[indent..], '#')
    requires var a, b := s[indent + hashes..], t[indent + hashes..];
      (a == "" <==> b == "") && (a != "" ==> (IsWhitespace(a[0]) <==> IsWhitespace(b[0])))
    ensures TitleStart(s) == TitleStart(t) && (TitleStart(s).Some? ==> TitleStart(s).value == indent + hashes)
  {}

  lemma TitleStartKept(ps: seq<Piece>)
    requires IsEdit(ps)
    ensures TitleStart(Target(ps)) == TitleStart(Source(ps))
    ensures TitleStart(Source(ps)).Some? ==> TitleStart(Source(ps)).value == MarkersEnd(Source(ps))
  {
    MarkersKept(ps);
    EditTail(ps, MarkersEnd(Source(ps)));
    SpaceKept(ps[MarkersEnd(Source(ps))..]);
    SameTitleStart(Source(ps), Target(ps), Leading(Source(ps), ' '), LevelOf(Source(ps)));
  }

  lemma SameAtx(s: string, t: string)
    requires TitleStart(s) == TitleStart(t) && LevelOf(s) == LevelOf(t)
    requires TitleStart(s).Some? ==>
      (IsSources(HeadingTitle(s[TitleStart(s).value..])) <==> IsSources(HeadingTitle(t[TitleStart(s).value..])))
    ensures IsReserved(AtxHeading(s)) <==> IsReserved(AtxHeading(t))
  {}

  lemma AtxKept(ps: seq<Piece>)
    requires IsEdit(ps)
    ensures IsReserved(AtxHeading(Target(ps))) <==> IsReserved(AtxHeading(Source(ps)))
  {
    TitleStartKept(ps);
    MarkersKept(ps);
    TitlesKeep();
    EditTail(ps, MarkersEnd(Source(ps)));
    SameSources(HeadingTitle, ps[MarkersEnd(Source(ps))..]);
    SameAtx(Source(ps), Target(ps));
  }

  lemma {:induction false} LeadingIs(s: string, c: char, k: nat)
    requires k < Leading(s, c)
    ensures s[k] == c
  {
    if k > 0 { LeadingIs(s[1..], c, k - 1); }
  }

  predicate UnderlineChar(c: char) { c == ' ' || c == '=' || c == '-' || IsWhitespace(c) }

  predicate UnderlineOnly(line: string) { forall k :: 0 <= k < |line| ==> UnderlineChar(line[k]) }

  lemma MarkerRunChars(s: string)
    requires IsMarkerRun(s)
    ensures UnderlineOnly(s)
  {
    var count := Leading(s, s[0]);
    forall k | 0 <= k < |s| ensures UnderlineChar(s[k]) {
      if k < count {
        LeadingIs(s, s[0], k);
      } else if !IsWhitespace(s[k]) {
        assert s[k] == s[count..][k - count];
        TrimKeeps(s[count..], s[k]);
      }
    }
  }

  lemma AfterIndent(line: string, indent: nat)
    requires indent <= |line| && UnderlineOnly(line[indent..])
    requires forall k :: 0 <= k < indent ==> line[k] == ' '
    ensures UnderlineOnly(line)
  {
    forall k | 0 <= k < |line| ensures UnderlineChar(line[k]) {
      if k >= indent { assert line[k] == line[indent..][k - indent]; }
    }
  }

  /** An underline holds spaces, its marker and other white space only. */
  lemma UnderlineChars(line: string)
    requires IsUnderline(line)
    ensures UnderlineOnly(line)
  {
    var indent := Leading(line, ' ');
    MarkerRunChars(line[indent..]);
    forall k | 0 <= k < indent ensures line[k] == ' ' { LeadingIs(line, ' ', k); }
    AfterIndent(line, indent);
  }

  lemma UnderlinePlain(line: string)
    requires UnderlineOnly(line)
    ensures Quiet(line) && 'x' !in line
  {
    NotAmong(line, '.');
    NotAmong(line, ':');
    NotAmong(line, 'x');
  }

  lemma NotAmong(line: string, c: char)
    requires UnderlineOnly(line) && !UnderlineChar(c)
    ensures c !in line
  {}

  lemma UnderlineKept(ps: seq<Piece>)
    requires IsEdit(ps)
    ensures IsUnderline(Source(ps)) || IsUnderline(Target(ps)) ==> Target(ps) == Source(ps)
  {
    if IsUnderline(Source(ps)) {
      UnderlineChars(Source(ps));
      UnderlinePlain(Source(ps));
      QuietStays(ps);
    } else if IsUnderline(Target(ps)) {
      UnderlineChars(Target(ps));
      UnderlinePlain(Target(ps));
      ReplacedHasX(ps);
    }
  }

  lemma SameUnderlined(t: string, u: string, level: nat)
    requires (t == "" <==> u == "") && (IsSources(t) <==> IsSources(u))
    ensures IsReserved(Underlined(t, level)) <==> IsReserved(Underlined(u, level))
  {}

  lemma LevelOfUnderlineKept(ps: seq<Piece>)
    requires IsEdit(ps)
    ensures UnderlineLevel(Target(ps)) == UnderlineLevel(Source(ps))
  {
    UnderlineKept(ps);
    NoUnderlineLevel(Source(ps));
    NoUnderlineLevel(Target(ps));
  }

  lemma NoUnderlineLevel(line: string)
    ensures !IsUnderline(line) ==> UnderlineLevel(line) == 0
  {}

  lemma SetextKept(title: seq<Piece>, line: seq<Piece>)
    requires IsEdit(title) && IsEdit(line)
    ensures IsReserved(SetextHeading(Target(title), Target(line))) <==>
            IsReserved(SetextHeading(Source(title), Source(line)))
  {
    LevelOfUnderlineKept(line);
    TitlesKeep();
    SameEmpty(Trim, title);
    SameSources(Trim, title);
    SameUnderlined(Trim(Source(title)), Trim(Target(title)), UnderlineLevel(Source(line)));
  }

  /** The second line is the first with some of its addresses replaced. */
  ghost predicate Rewritten(s: string, t: string) {
    exists ps :: IsEdit(ps) && Source(ps) == s && Target(ps) == t
  }

  /** Replacing addresses never changes the verdict on a line. */
  ghost predicate IgnoresRewriting(bad: (Option<string>, string) -> bool) {
    (forall s, t :: Rewritten(s, t) ==> bad(None, s) == bad(None, t)) &&
    forall p, q, s, t :: Rewritten(p, q) && Rewritten(s, t) ==> bad(Some(p), s) == bad(Some(q), t)
  }

  lemma AtxRewritten(s: string, t: string)
    requires Rewritten(s, t)
    ensures IsReserved(AtxHeading(s)) == IsReserved(AtxHeading(t))
  {
    var ps :| IsEdit(ps) && Source(ps) == s && Target(ps) == t;
    AtxKept(ps);
  }

  lemma SetextRewritten(p: string, q: string, s: string, t: string)
    requires Rewritten(p, q) && Rewritten(s, t)
    ensures IsReserved(SetextHeading(p, s)) == IsReserved(SetextHeading(q, t))
  {
    var ps :| IsEdit(ps) && Source(ps) == s && Target(ps) == t;
    var qs :| IsEdit(qs) && Source(qs) == p && Target(qs) == q;
    SetextKept(qs, ps);
  }

  lemma LineKept(s: string, t: string)
    requires Rewritten(s, t)
    ensures UnsafeLine(None, s) == UnsafeLine(None, t)
  {
    AtxRewritten(s, t);
  }

  lemma LinesKept(p: string, q: string, s: string, t: string)
    requires Rewritten(p, q) && Rewritten(s, t)
    ensures UnsafeLine(Some(p), s) == UnsafeLine(Some(q), t)
  {
    AtxRewritten(s, t);
    SetextRewritten(p, q, s, t);
  }

  lemma UnsafeIgnoresRewriting()
    ensures IgnoresRewriting(Unsafe())
  {
    forall s, t | Rewritten(s, t) ensures Unsafe()(None, s) == Unsafe()(None, t) { LineKept(s, t); }
    forall p, q, s, t | Rewritten(p, q) && Rewritten(s, t) ensures Unsafe()(Some(p), s) == Unsafe()(Some(q), t) {
      LinesKept(p, q, s, t);
    }
  }

  lemma AnyLineKept(a: seq<string>, b: seq<string>, bad: (Option<string>, string) -> bool)
    requires IgnoresRewriting(bad) && |a| == |b| && forall k :: 0 <= k < |a| ==> Rewritten(a[k], b[k])
    ensures AnyLine(a, bad) <==> AnyLine(b, bad)
  {
    forall k | 0 <= k < |a| ensures bad(Above(a, k), a[k]) == bad(Above(b, k), b[k]) {
      if k > 0 { assert Rewritten(a[k - 1], b[k - 1]); }
    }
  }

  // ---- a carriage return at the end of a line does not matter ----

  lemma {:induction false} LeadingReturn(s: string, c: char)
    requires c != '\r'
    ensures Leading(s + ['\r'], c) == Leading(s, c)
    decreases |s|
  {
    if s != "" && s[0] == c {
      assert (s + ['\r'])[1..] == s[1..] + ['\r'];
      LeadingReturn(s[1..], c);
    }
  }

  lemma TitleStartReturn(s: string)
    ensures TitleStart(s + ['\r']) == TitleStart(s)
  {
    LeadingReturn(s, ' ');
    var indent := Leading(s, ' ');
    assert (s + ['\r'])[indent..] == s[indent..] + ['\r'];
    LeadingReturn(s[indent..], '#');
  }

  lemma AtxReturn(s: string)
    ensures AtxHeading(s + ['\r']) == AtxHeading(s)
  {
    TitleStartReturn(s);
    LeadingReturn(s, ' ');
    var indent := Leading(s, ' ');
    assert (s + ['\r'])[indent..] == s[indent..] + ['\r'];
    LeadingReturn(s[indent..], '#');
    match TitleStart(s)
    case None =>
    case Some(k) =>
      assert (s + ['\r'])[k..] == s[k..] + ['\r'];
      TrimExtend(s[k..], '\r');
  }

  lemma MarkerRunReturn(s: string)
    ensures IsMarkerRun(s + ['\r']) <==> IsMarkerRun(s)
  {
    if s != "" && s[0] != '\r' {
      var count := Leading(s, s[0]);
      LeadingReturn(s, s[0]);
      assert (s + ['\r'])[count..] == s[count..] + ['\r'];
      TrimExtend(s[count..], '\r');
    }
  }

  lemma RunLevelReturn(s: string)
    ensures RunLevel(s + ['\r']) == RunLevel(s)
  {
    MarkerRunReturn(s);
  }

  lemma UnderlineReturn(s: string)
    ensures UnderlineLevel(s + ['\r']) == UnderlineLevel(s)
  {
    var indent := Leading(s, ' ');
    LeadingReturn(s, ' ');
    assert (s + ['\r'])[indent..] == s[indent..] + ['\r'];
    RunLevelReturn(s[indent..]);
  }

  lemma SetextReturn(title: string, line: string)
    ensures SetextHeading(title, line + ['\r']) == SetextHeading(title, line)
  {
    UnderlineReturn(line);
  }

  lemma TitleReturn(title: string, line: string)
    ensures SetextHeading(title + ['\r'], line) == SetextHeading(title, line)
  {
    TrimExtend(title, '\r');
  }

  /** The lines are the same up to a carriage return at their ends. */
  ghost predicate SameUpToReturn(a: seq<string>, b: seq<string>) {
    |a| == |b| && forall k :: 0 <= k < |a| ==> ReturnApart(a[k], b[k])
  }

  predicate ReturnApart(x: string, y: string) { x == y || x == y + ['\r'] || y == x + ['\r'] }

  lemma LineReturn(previous: Option<string>, line: string)
    ensures UnsafeLine(previous, line + ['\r']) <==> UnsafeLine(previous, line)
    ensures previous.Some? ==> (UnsafeLine(Some(previous.value + ['\r']), line) <==> UnsafeLine(previous, line))
  {
    AtxReturn(line);
    if previous.Some? {
      SetextReturn(previous.value, line);
      TitleReturn(previous.value, line);
    }
  }

  ghost predicate IgnoresReturn(bad: (Option<string>, string) -> bool) {
    (forall previous, line {:trigger bad(previous, line + ['\r'])} ::
       bad(previous, line + ['\r']) == bad(previous, line)) &&
    forall previous: string, line {:trigger bad(Some(previous + ['\r']), line)} ::
      bad(Some(previous + ['\r']), line) == bad(Some(previous), line)
  }

  lemma UnsafeIgnoresReturn()
    ensures IgnoresReturn(Unsafe())
  {
    forall previous: Option<string>, line: string
      ensures Unsafe()(previous, line + ['\r']) == Unsafe()(previous, line)
    {
      LineReturn(previous, line);
    }
    forall previous: string, line: string
      ensures Unsafe()(Some(previous + ['\r']), line) == Unsafe()(Some(previous), line)
    {
      LineReturn(Some(previous), line);
    }
  }

  lemma SameLine(bad: (Option<string>, string) -> bool, p: Option<string>, x: string, y: string)
    requires IgnoresReturn(bad) && ReturnApart(x, y)
    ensures bad(p, x) == bad(p, y)
  {}

  lemma SamePrevious(bad: (Option<string>, string) -> bool, p: string, q: string, x: string)
    requires IgnoresReturn(bad) && ReturnApart(p, q)
    ensures bad(Some(p), x) == bad(Some(q), x)
  {}

  lemma SameAnyLine(a: seq<string>, b: seq<string>, bad: (Option<string>, string) -> bool)
    requires IgnoresReturn(bad) && SameUpToReturn(a, b)
    ensures AnyLine(a, bad) <==> AnyLine(b, bad)
  {
    forall k | 0 <= k < |a| ensures bad(Above(a, k), a[k]) == bad(Above(b, k), b[k]) {
      SameLine(bad, Above(a, k), a[k], b[k]);
      if k > 0 { SamePrevious(bad, a[k - 1], b[k - 1], b[k]); }
    }
  }
}
