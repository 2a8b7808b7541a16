/** The second pass over model output, line by line, and what it guarantees. */
module ModelMarkdown {
  import opened Wrappers
  import opened Text
  import opened Splitting
  import opened ModelText

  // ---- one line ----

  function Trailing(s: string, c: char): (n: nat)
    ensures n <= |s|
  {
    if s != "" && Last(s) == c then 1 + Trailing(Init(s), c) else 0
  }

  /** Where the title of a heading starts: behind at most three spaces and one to six hashes. */
  function TitleStart(line: string): (k: Option<nat>)
    ensures k.Some? ==> k.value <= |line|
  {
    var indent := Leading(line, ' ');
    var hashes := Leading(line[indent..], '#');
    var rest := line[indent + hashes..];
    if indent > 3 || !(1 <= hashes <= 6) || (rest != "" && !IsWhitespace(rest[0])) then None else Some(indent + hashes)
  }

  /** A heading without its markers; any other line as it is. */
  function StripAtx(line: string): string {
    match TitleStart(line)
    case None => line
    case Some(k) => StripClosing(Trim(line[k..]))
  }

  /** A title without the hashes that close it, if white space sets them apart. */
  function StripClosing(title: string): string {
    var before := title[..|title| - Trailing(title, '#')];
    if before != title && before != "" && IsWhitespace(Last(before)) then TrimEnd(before) else title
  }

  predicate IsSlice(s: string, i: nat, j: nat, t: string) { i <= j <= |s| && t == s[i..j] }

  /** The text occurs in one piece. */
  ghost predicate Occurs(s: string, t: string) { exists i: nat, j: nat :: IsSlice(s, i, j, t) }

  lemma OccursIn(s: string, t: string, u: string)
    requires Occurs(s, t) && Occurs(t, u)
    ensures Occurs(s, u)
  {
    var i: nat, j: nat :| IsSlice(s, i, j, t);
    var a: nat, b: nat :| IsSlice(t, a, b, u);
    assert |u| == b - a && i + b <= |s|;
    forall k | 0 <= k < |u| ensures u[k] == s[i + a..i + b][k] { assert u[k] == t[a + k] == s[i + a + k]; }
    assert u == s[i + a..i + b];
    assert IsSlice(s, i + a, i + b, u);
  }

  lemma PrefixOccurs(s: string, k: nat)
    requires k <= |s|
    ensures Occurs(s, s[..k]) && Occurs(s, s[k..])
  {
    assert IsSlice(s, 0, k, s[..k]) && IsSlice(s, k, |s|, s[k..]);
  }

  lemma TrimOccurs(s: string)
    ensures Occurs(s, Trim(s)) && Occurs(s, TrimEnd(s))
  {
    var t := TrimStart(s);
    PrefixOccurs(s, |s| - |t|);
    PrefixOccurs(t, |TrimEnd(t)|);
    OccursIn(s, t, Trim(s));
    PrefixOccurs(s, |TrimEnd(s)|);
  }

  lemma StripClosingOccurs(title: string)
    ensures Occurs(title, StripClosing(title))
  {
    var k := |title| - Trailing(title, '#');
    PrefixOccurs(title, k);
    TrimOccurs(title[..k]);
    OccursIn(title, title[..k], TrimEnd(title[..k]));
    PrefixOccurs(title, 0);
    assert title[0..] == title;
  }

  lemma TitleOccurs(line: string, rest: string)
    requires Occurs(line, rest)
    ensures Occurs(line, StripClosing(Trim(rest)))
  {
    TrimOccurs(rest);
    OccursIn(line, rest, Trim(rest));
    StripClosingOccurs(Trim(rest));
    OccursIn(line, Trim(rest), StripClosing(Trim(rest)));
  }

  lemma WholeOccurs(line: string)
    ensures Occurs(line, line)
  {
    PrefixOccurs(line, 0);
    assert line[0..] == line;
  }

  lemma StripAtxOccurs(line: string)
    ensures Occurs(line, StripAtx(line))
  {
    match TitleStart(line)
    case None => WholeOccurs(line);
    case Some(k) =>
      PrefixOccurs(line, k);
      TitleOccurs(line, line[k..]);
  }

  /** An underline that would make the line above it a heading. */
  predicate IsSetextMarker(line: string) {
    var indent := Leading(line, ' ');
    indent <= 3 && indent < |line| && (line[indent] == '=' || line[indent] == '-') &&
    forall k :: indent <= k < |line| ==> line[k] == line[indent] || line[k] == ' '
  }

  function TrimBlanks(s: string): (t: string)
    ensures |t| <= |s| && t == s[..|t|]
  {
    if s != "" && (Last(s) == ' ' || Last(s) == '\t') then TrimBlanks(Init(s)) else s
  }

  function ReplaceUrls(s: string): string
    decreases |s|
  {
    if s == "" then ""
    else match UrlLength(s)
         case Some(n) => UrlLengthAtLeast(s); REPLACEMENT + ReplaceUrls(s[n..])
         case None => [s[0]] + ReplaceUrls(s[1..])
  }

  function ProjectedLine(line: string): string {
    var trimmed := TrimBlanks(line);
    if IsSetextMarker(trimmed) then "" else ReplaceUrls(StripAtx(trimmed))
  }

  method ProjectModelLine(line: string) returns (output: string)
    ensures output == ProjectedLine(line)
  {
    var trimmed := TrimBlanks(line);
    if IsSetextMarker(trimmed) { return ""; }
    var title := StripAtx(trimmed);
    output := "";
    var remaining := title;
    while remaining != ""
      invariant ReplaceUrls(title) == output + ReplaceUrls(remaining)
      decreases |remaining|
    {
      ReplaceUrlsStep(remaining);
      var length := UrlLength(remaining);
      if length.Some? {
        UrlLengthAtLeast(remaining);
        output := output + REPLACEMENT;
        remaining := remaining[length.value..];
      } else {
        output := output + [remaining[0]];
        remaining := remaining[1..];
      }
    }
  }

  lemma ReplaceUrlsStep(s: string)
    requires s != ""
    ensures UrlLength(s).Some? ==>
      5 <= UrlLength(s).value <= |s| && ReplaceUrls(s) == REPLACEMENT + ReplaceUrls(s[UrlLength(s).value..])
    ensures UrlLength(s).None? ==> ReplaceUrls(s) == [s[0]] + ReplaceUrls(s[1..])
  {
    if UrlLength(s).Some? { UrlLengthAtLeast(s); }
  }

  // ---- all lines ----

  function ProjectedMarkdown(s: string): string
    decreases |s|
  {
    if s == "" then ""
    else if Cut(s) == |s| then ProjectedLine(s)
    else ProjectedLine(s[..Cut(s)]) + "\n" + ProjectedMarkdown(s[Cut(s) + 1..])
  }

  function Normalized(body: string): string {
    ProjectedMarkdown(Truncated(Projected(body), MAX_MODEL_PLAIN_TEXT_BYTES))
  }

  // ---- no markup ----

  lemma {:induction false} ReplaceUrlsPlain(s: string)
    requires NoMarkup(s)
    ensures NoMarkup(ReplaceUrls(s))
    decreases |s|
  {
    if s != "" {
      ReplacementIsPlain();
      match UrlLength(s)
      case Some(n) => UrlLengthAtLeast(s); ReplaceUrlsPlain(s[n..]);
      case None => ReplaceUrlsPlain(s[1..]);
    }
  }

  lemma SlicePlain(s: string, t: string)
    requires NoMarkup(s) && Occurs(s, t)
    ensures NoMarkup(t)
  {}

  lemma LinePlain(line: string)
    requires NoMarkup(line)
    ensures NoMarkup(ProjectedLine(line))
  {
    var trimmed := TrimBlanks(line);
    StripAtxOccurs(trimmed);
    SlicePlain(trimmed, StripAtx(trimmed));
    ReplaceUrlsPlain(StripAtx(trimmed));
  }

  lemma {:induction false} MarkdownPlain(s: string)
    requires NoMarkup(s)
    ensures NoMarkup(ProjectedMarkdown(s))
    decreases |s|
  {
    if s != "" {
      LinePlain(s[..Cut(s)]);
      if Cut(s) == |s| { assert s[..Cut(s)] == s; } else { MarkdownPlain(s[Cut(s) + 1..]); }
    }
  }

  /** No square or angle bracket survives, whatever the model wrote. */
  lemma NormalizedHasNoMarkup(body: string)
    ensures NoMarkup(Normalized(body))
  {
    ProjectedIsPlain(body);
    TruncatedIsLongest(Projected(body), MAX_MODEL_PLAIN_TEXT_BYTES);
    MarkdownPlain(Truncated(Projected(body), MAX_MODEL_PLAIN_TEXT_BYTES));
  }

  // ---- size ----

  lemma {:induction false} ReplaceUrlsSize(s: string)
    ensures 5 * Bytes(ReplaceUrls(s)) <= 18 * Bytes(s)
    decreases |s|
  {
    if s != "" {
      ReplacementIsPlain();
      match UrlLength(s)
      case Some(n) =>
        UrlLengthAtLeast(s);
        ReplaceUrlsSize(s[n..]);
        BytesConcat(REPLACEMENT, ReplaceUrls(s[n..]));
        BytesConcat(s[..n], s[n..]);
        BytesAtLeast(s[..n]);
        assert s == s[..n] + s[n..];
      case None =>
        ReplaceUrlsSize(s[1..]);
        BytesConcat([s[0]], ReplaceUrls(s[1..]));
        BytesConcat([s[0]], s[1..]);
        assert s == [s[0]] + s[1..];
    }
  }

  lemma SliceSize(s: string, t: string)
    requires Occurs(s, t)
    ensures Bytes(t) <= Bytes(s)
  {
    var i: nat, j: nat :| IsSlice(s, i, j, t);
    BytesSlice(s, i, j);
  }

  lemma LineSize(line: string)
    ensures 5 * Bytes(ProjectedLine(line)) <= 18 * Bytes(line)
  {
    var trimmed := TrimBlanks(line);
    PrefixOccurs(line, |trimmed|);
    StripAtxOccurs(trimmed);
    SliceSize(line, trimmed);
    SliceSize(trimmed, StripAtx(trimmed));
    ReplaceUrlsSize(StripAtx(trimmed));
  }

  lemma {:induction false} MarkdownSize(s: string)
    ensures 5 * Bytes(ProjectedMarkdown(s)) <= 18 * Bytes(s)
    decreases |s|
  {
    if s != "" {
      var cut := Cut(s);
      LineSize(s[..cut]);
      if cut == |s| {
        assert s[..cut] == s;
      } else {
        MarkdownSize(s[cut + 1..]);
        BytesConcat(ProjectedLine(s[..cut]) + "\n", ProjectedMarkdown(s[cut + 1..]));
        BytesConcat(ProjectedLine(s[..cut]), "\n");
        BytesSlice(s, cut, cut + 1);
        assert s[cut..cut + 1] == "\n";
      }
    }
  }

  /** At most four times the plain-text limit: an address of at least 5 bytes becomes 18. */
  lemma NormalizedSize(body: string)
    ensures 5 * Bytes(Normalized(body)) <= 18 * MAX_MODEL_PLAIN_TEXT_BYTES
    ensures Bytes(Normalized(body)) <= 4 * MAX_MODEL_PLAIN_TEXT_BYTES
  {
    TruncatedIsLongest(Projected(body), MAX_MODEL_PLAIN_TEXT_BYTES);
    MarkdownSize(Truncated(Projected(body), MAX_MODEL_PLAIN_TEXT_BYTES));
  }
}
