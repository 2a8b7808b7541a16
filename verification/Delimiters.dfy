/** Backslash escapes, matching delimiters, and the Markdown links built from them. */
module Delimiters {
  import opened Wrappers
  import opened Text

  /** A character is escaped when the one before it, from `from` on, is an unescaped backslash. */
  predicate Escaped(text: string, from: nat, i: nat)
    requires from <= i <= |text|
  {
    i > from && text[i - 1] == '\\' && !Escaped(text, from, i - 1)
  }

  /** Open delimiters not yet closed before `i`, one being open at `from`; escaped ones do not count. */
  function Depth(text: string, from: nat, i: nat, open: char, close: char): int
    requires from <= i <= |text|
  {
    if i == from then 1
    else
      Depth(text, from, i - 1, open, close) +
      if Escaped(text, from, i - 1) then 0
      else if text[i - 1] == open then 1 else if text[i - 1] == close then -1 else 0
  }

  /** The delimiter at `k` is where the depth first returns to zero. */
  ghost predicate Closes(text: string, from: nat, k: nat, open: char, close: char) {
    from <= k < |text| && Depth(text, from, k + 1, open, close) == 0 &&
    forall j :: from <= j <= k ==> Depth(text, from, j, open, close) > 0
  }

  ghost predicate NeverCloses(text: string, from: nat, open: char, close: char) {
    from <= |text| && forall j :: from <= j <= |text| ==> Depth(text, from, j, open, close) > 0
  }

  lemma ClosesOnce(text: string, from: nat, k: nat, m: nat, open: char, close: char)
    requires Closes(text, from, k, open, close) && Closes(text, from, m, open, close)
    ensures m == k
  {
    assert Depth(text, from, k + 1, open, close) == 0 && Depth(text, from, m + 1, open, close) == 0;
  }

  lemma ClosesNowhere(text: string, from: nat, open: char, close: char)
    requires NeverCloses(text, from, open, close)
    ensures forall k: nat :: !Closes(text, from, k, open, close)
  {
    forall k: nat ensures !Closes(text, from, k, open, close) {
      if from <= k < |text| { assert Depth(text, from, k + 1, open, close) > 0; }
    }
  }

  /** The position of the matching delimiter, escapes skipped, or none. */
  method ClosingDelimiter(text: string, opening: nat, open: char, close: char) returns (found: Option<nat>)
    requires opening < |text| && open != close && open != '\\' && close != '\\'
    ensures found.Some? ==> Closes(text, opening + 1, found.value, open, close) && text[found.value] == close
    ensures found.None? ==> NeverCloses(text, opening + 1, open, close)
  {
    var depth: nat := 1;
    var from := opening + 1;
    var cursor := from;
    while cursor < |text|
      invariant from <= cursor <= |text| + 1
      invariant cursor <= |text| ==> !Escaped(text, from, cursor) && depth == Depth(text, from, cursor, open, close)
      invariant forall j :: from <= j <= cursor && j <= |text| ==> Depth(text, from, j, open, close) > 0
    {
      if text[cursor] == '\\' {
        SkipsEscape(text, from, cursor, open, close);
        cursor := cursor + 2;
      } else if text[cursor] == open {
        depth := depth + 1;
        cursor := cursor + 1;
      } else if text[cursor] == close {
        depth := depth - 1;
        if depth == 0 { return Some(cursor); }
        cursor := cursor + 1;
      } else {
        cursor := cursor + 1;
      }
    }
    found := None;
  }

  lemma SkipsEscape(text: string, from: nat, i: nat, open: char, close: char)
    requires from <= i < |text| && text[i] == '\\' && !Escaped(text, from, i) && open != '\\' && close != '\\'
    ensures Depth(text, from, i + 1, open, close) == Depth(text, from, i, open, close)
    ensures i + 2 <= |text| ==>
      !Escaped(text, from, i + 2) && Depth(text, from, i + 2, open, close) == Depth(text, from, i, open, close)
  {
    if i + 2 <= |text| { assert Escaped(text, from, i + 1); }
  }

  // ---- links ----

  predicate IsAsciiWhitespace(c: char) { c == ' ' || c == '\t' || c == '\n' || c == '\r' || c == '\U{000C}' }

  function SkipSpace(text: string, i: nat): (k: nat)
    requires i <= |text|
    ensures i <= k <= |text| && (k < |text| ==> !IsAsciiWhitespace(text[k]))
    decreases |text| - i
  {
    if i < |text| && IsAsciiWhitespace(text[i]) then SkipSpace(text, i + 1) else i
  }

  /** A closed label in square brackets at `c`, closed at `k`. */
  ghost predicate LabelAt(text: string, c: nat, k: nat) {
    c < |text| && !Escaped(text, 0, c) && text[c] == '[' && Closes(text, c + 1, k, '[', ']')
  }

  ghost predicate ReferenceAt(text: string, c: nat, k: nat, m: nat) {
    LabelAt(text, c, k) &&
    var r := SkipSpace(text, k + 1);
    r < |text| && text[r] == '[' && Closes(text, r + 1, m, '[', ']')
  }

  ghost predicate InlineAt(text: string, c: nat, k: nat, m: nat) {
    LabelAt(text, c, k) &&
    var r := SkipSpace(text, k + 1);
    r < |text| && text[r] == '(' && Closes(text, r + 1, m, '(', ')')
  }

  method SkipSpaces(text: string, i: nat) returns (k: nat)
    requires i <= |text|
    ensures k == SkipSpace(text, i)
  {
    k := i;
    while k < |text| && IsAsciiWhitespace(text[k])
      invariant i <= k <= |text| && SkipSpace(text, i) == SkipSpace(text, k)
    {
      k := k + 1;
    }
  }

  lemma NotLabel(text: string, c: nat)
    requires c < |text| && NeverCloses(text, c + 1, '[', ']')
    ensures forall k: nat :: !LabelAt(text, c, k)
  {
    ClosesNowhere(text, c + 1, '[', ']');
  }

  lemma OnlyLabel(text: string, c: nat, k: nat)
    requires LabelAt(text, c, k)
    ensures forall j: nat :: LabelAt(text, c, j) ==> j == k
  {
    forall j: nat | LabelAt(text, c, j) ensures j == k { ClosesOnce(text, c + 1, k, j, '[', ']'); }
  }

  /** The cursor steps over an escape, and so visits exactly the unescaped positions. */
  lemma NextUnescaped(text: string, i: nat)
    requires i < |text| && !Escaped(text, 0, i)
    ensures text[i] != '\\' ==> !Escaped(text, 0, i + 1)
    ensures text[i] == '\\' ==> Escaped(text, 0, i + 1) && (i + 2 <= |text| ==> !Escaped(text, 0, i + 2))
  {}

  method HasReferenceLink(text: string) returns (found: bool)
    ensures found <==> exists c: nat, k: nat, m: nat :: ReferenceAt(text, c, k, m)
  {
    var cursor := 0;
    while cursor < |text|
      invariant cursor <= |text| + 1 && (cursor <= |text| ==> !Escaped(text, 0, cursor))
      invariant forall c: nat, k: nat, m: nat :: c < cursor ==> !ReferenceAt(text, c, k, m)
    {
      NextUnescaped(text, cursor);
      if text[cursor] == '\\' {
        cursor := cursor + 2;
        continue;
      }
      if text[cursor] != '[' {
        cursor := cursor + 1;
        continue;
      }
      var labelEnd := ClosingDelimiter(text, cursor, '[', ']');
      if labelEnd.None? {
        NotLabel(text, cursor);
        cursor := cursor + 1;
        continue;
      }
      OnlyLabel(text, cursor, labelEnd.value);
      var start := SkipSpaces(text, labelEnd.value + 1);
      if start < |text| && text[start] == '[' {
        var closing := ClosingDelimiter(text, start, '[', ']');
        if closing.Some? {
          assert ReferenceAt(text, cursor, labelEnd.value, closing.value);
          return true;
        }
        ClosesNowhere(text, start + 1, '[', ']');
      }
      cursor := cursor + 1;
    }
    found := false;
  }

  /** Where an inline link's label opens, and the parentheses around its destination. */
  datatype Link = Link(opening: nat, start: nat, end: nat)

  ghost predicate LinkAt(text: string, link: Link) {
    exists k: nat :: InlineAt(text, link.opening, k, link.end) && link.start == SkipSpace(text, k + 1)
  }

  method ParenthesesFrom(text: string, start: nat) returns (end: Option<nat>)
    requires start < |text| && text[start] == '('
    ensures end.None? ==> NeverCloses(text, start + 1, '(', ')')
    ensures end.Some? ==>
      start < end.value < |text| && Closes(text, start + 1, end.value, '(', ')') && text[end.value] == ')'
  {
    end := ClosingDelimiter(text, start, '(', ')');
  }

  ghost predicate NoLinkAt(text: string, c: nat) { forall k: nat, m: nat :: !InlineAt(text, c, k, m) }

  /** The inline link whose label opens at `c`, if it is one. */
  method LinkFrom(text: string, c: nat) returns (found: Option<Link>)
    requires c < |text| && text[c] == '[' && !Escaped(text, 0, c)
    ensures found.None? ==> NoLinkAt(text, c)
    ensures found.Some? ==>
      found.value.opening == c < found.value.start < found.value.end < |text| && text[found.value.end] == ')' &&
      LinkAt(text, found.value)
  {
    var labelEnd := ClosingDelimiter(text, c, '[', ']');
    if labelEnd.None? {
      NotLabel(text, c);
      return None;
    }
    var start := SkipSpaces(text, labelEnd.value + 1);
    if start == |text| || text[start] != '(' {
      NotInline(text, c, labelEnd.value);
      return None;
    }
    var end := ParenthesesFrom(text, start);
    if end.None? {
      NotInline(text, c, labelEnd.value);
      return None;
    }
    assert InlineAt(text, c, labelEnd.value, end.value);
    found := Some(Link(c, start, end.value));
  }

  /** A closed label without closed parentheses behind it is no inline link. */
  lemma NotInline(text: string, c: nat, k: nat)
    requires c < |text| && text[c] == '[' && Closes(text, c + 1, k, '[', ']')
    requires var r := SkipSpace(text, k + 1); r == |text| || text[r] != '(' || NeverCloses(text, r + 1, '(', ')')
    ensures NoLinkAt(text, c)
  {
    var r := SkipSpace(text, k + 1);
    if r < |text| && text[r] == '(' { ClosesNowhere(text, r + 1, '(', ')'); }
    forall j: nat, m: nat ensures !InlineAt(text, c, j, m) {
      if LabelAt(text, c, j) { ClosesOnce(text, c + 1, k, j, '[', ']'); }
    }
  }

  ghost predicate HasInlineLink(text: string) { exists c: nat, k: nat, m: nat :: InlineAt(text, c, k, m) }

  // ---- the links of a text ----

  /** Where the search for the next link starts. */
  function StartOf(links: seq<Link>, i: nat): nat
    requires i <= |links|
  {
    if i == 0 then 0 else links[i - 1].end + 1
  }

  ghost function Free(text: string): nat -> bool { (c: nat) => NoLinkAt(text, c) }

  ghost predicate NoneBy(free: nat -> bool, from: nat, until: nat) { forall c: nat :: from <= c < until ==> free(c) }

  /** The first link from `from` on. */
  ghost predicate FirstFrom(text: string, from: nat, link: Link) {
    from <= link.opening && LinkAt(text, link) && NoneBy(Free(text), from, link.opening)
  }

  ghost function First(text: string): (nat, Link) -> bool { (from: nat, link: Link) => FirstFrom(text, from, link) }

  ghost predicate FirstBy(first: (nat, Link) -> bool, links: seq<Link>) {
    forall i :: 0 <= i < |links| ==> first(StartOf(links, i), links[i])
  }

  /** The links from left to right, each the first one behind the one before. */
  ghost predicate AreLinks(text: string, links: seq<Link>) {
    FirstBy(First(text), links) && forall c: nat :: StartOf(links, |links|) <= c ==> NoLinkAt(text, c)
  }

  lemma OneLinkAt(text: string, a: Link, b: Link)
    requires LinkAt(text, a) && LinkAt(text, b) && a.opening == b.opening
    ensures a == b
  {
    var k: nat :| InlineAt(text, a.opening, k, a.end) && a.start == SkipSpace(text, k + 1);
    var j: nat :| InlineAt(text, b.opening, j, b.end) && b.start == SkipSpace(text, j + 1);
    ClosesOnce(text, a.opening + 1, k, j, '[', ']');
    ClosesOnce(text, a.start + 1, a.end, b.end, '(', ')');
  }

  lemma OneFirst(text: string, from: nat, a: Link, b: Link)
    requires FirstFrom(text, from, a) && FirstFrom(text, from, b)
    ensures a == b
  {
    NotBefore(text, from, a, b);
    NotBefore(text, from, b, a);
    OneLinkAt(text, a, b);
  }

  lemma NotBefore(text: string, from: nat, a: Link, b: Link)
    requires FirstFrom(text, from, a) && FirstFrom(text, from, b)
    ensures b.opening <= a.opening
  {
    LinkThere(text, a);
    assert Free(text)(a.opening) == NoLinkAt(text, a.opening);
  }

  lemma LinkThere(text: string, link: Link)
    requires LinkAt(text, link)
    ensures !NoLinkAt(text, link.opening) && link.opening < |text|
  {
    var k: nat :| InlineAt(text, link.opening, k, link.end) && link.start == SkipSpace(text, k + 1);
  }

  lemma {:induction false} SameLink(first: (nat, Link) -> bool, a: seq<Link>, b: seq<Link>, i: nat)
    requires FirstBy(first, a) && FirstBy(first, b) && i < |a| && i < |b|
    requires forall from: nat, x, y :: first(from, x) && first(from, y) ==> x == y
    ensures a[i] == b[i]
  {
    if i > 0 { SameLink(first, a, b, i - 1); }
    assert first(StartOf(a, i), a[i]) && first(StartOf(b, i), b[i]);
  }

  lemma SameLinks(text: string, a: seq<Link>, b: seq<Link>, i: nat)
    requires AreLinks(text, a) && AreLinks(text, b) && i < |a| && i < |b|
    ensures a[i] == b[i]
  {
    forall from: nat, x, y | First(text)(from, x) && First(text)(from, y) ensures x == y { OneFirst(text, from, x, y); }
    SameLink(First(text), a, b, i);
  }

  lemma LinkBehind(text: string, from: nat, link: Link)
    requires First(text)(from, link)
    ensures !forall c: nat :: from <= c ==> NoLinkAt(text, c)
  {
    LinkThere(text, link);
  }

  lemma NoFurther(text: string, a: seq<Link>, b: seq<Link>)
    requires AreLinks(text, a) && FirstBy(First(text), b)
    requires forall i :: 0 <= i < |a| && i < |b| ==> a[i] == b[i]
    ensures |b| <= |a|
  {
    if |a| < |b| { LinkBehind(text, StartOf(b, |a|), b[|a|]); }
  }

  /** A text has one sequence of links. */
  lemma LinksAreUnique(text: string, a: seq<Link>, b: seq<Link>)
    requires AreLinks(text, a) && AreLinks(text, b)
    ensures a == b
  {
    forall i | 0 <= i < |a| && i < |b| ensures a[i] == b[i] { SameLinks(text, a, b, i); }
    NoFurther(text, a, b);
    NoFurther(text, b, a);
  }

  // ---- destinations ----

  function WordEnd(s: string): (k: nat)
    ensures k <= |s|
  {
    if s == "" || IsAsciiWhitespace(s[0]) then 0 else 1 + WordEnd(s[1..])
  }

  function AngleEnd(s: string): (k: nat)
    ensures k <= |s|
  {
    if s == "" || s[0] == '>' then 0 else 1 + AngleEnd(s[1..])
  }

  /** What stands in angle brackets at the start, or the first word. */
  function DestinationIn(contents: string): string {
    var s := Trim(contents);
    if s != "" && s[0] == '<' then s[1..][..AngleEnd(s[1..])] else s[..WordEnd(s)]
  }

  function Destination(text: string, link: Link): string {
    if link.start < link.end <= |text| then DestinationIn(text[link.start + 1..link.end]) else ""
  }

  function Destinations(text: string, links: seq<Link>): seq<string> {
    seq(|links|, i requires 0 <= i < |links| => Destination(text, links[i]))
  }

  // ---- the scan ----

  predicate Unescaped(text: string, cursor: nat) {
    cursor <= |text| + 1 && (cursor <= |text| ==> !Escaped(text, 0, cursor))
  }

  /** The links before the cursor are found. */
  ghost predicate Searched(first: (nat, Link) -> bool, free: nat -> bool, links: seq<Link>, cursor: nat) {
    StartOf(links, |links|) <= cursor && FirstBy(first, links) && NoneBy(free, StartOf(links, |links|), cursor)
  }

  lemma SearchedNext(first: (nat, Link) -> bool, free: nat -> bool, links: seq<Link>, cursor: nat)
    requires Searched(first, free, links, cursor) && free(cursor)
    ensures Searched(first, free, links, cursor + 1)
  {}

  lemma SearchedLink(first: (nat, Link) -> bool, free: nat -> bool, links: seq<Link>, link: Link)
    requires FirstBy(first, links) && first(StartOf(links, |links|), link)
    ensures Searched(first, free, links + [link], link.end + 1)
  {
    var more := links + [link];
    forall i | 0 <= i < |more| ensures first(StartOf(more, i), more[i]) {
      assert StartOf(more, i) == StartOf(links, i);
      if i < |links| { assert more[i] == links[i]; }
    }
  }

  ghost predicate Passed(text: string, links: seq<Link>, cursor: nat) {
    Unescaped(text, cursor) && Searched(First(text), Free(text), links, cursor)
  }

  lemma NoBracket(text: string, c: nat)
    requires c < |text| ==> text[c] != '[' || Escaped(text, 0, c)
    ensures NoLinkAt(text, c)
  {}

  lemma PassesOne(text: string, links: seq<Link>, cursor: nat)
    requires cursor < |text| && Passed(text, links, cursor) && text[cursor] != '\\' && NoLinkAt(text, cursor)
    ensures Passed(text, links, cursor + 1)
  {
    NextUnescaped(text, cursor);
    SearchedNext(First(text), Free(text), links, cursor);
  }

  lemma PassesEscape(text: string, links: seq<Link>, cursor: nat)
    requires cursor < |text| && Passed(text, links, cursor) && text[cursor] == '\\'
    ensures Passed(text, links, cursor + 2)
  {
    NextUnescaped(text, cursor);
    NoBracket(text, cursor);
    NoBracket(text, cursor + 1);
    SearchedNext(First(text), Free(text), links, cursor);
    SearchedNext(First(text), Free(text), links, cursor + 1);
  }

  lemma PassesLink(text: string, links: seq<Link>, cursor: nat, link: Link)
    requires cursor < |text| && Passed(text, links, cursor)
    requires link.opening == cursor < link.end < |text| && text[link.end] == ')' && LinkAt(text, link)
    ensures Passed(text, links + [link], link.end + 1)
  {
    assert First(text)(StartOf(links, |links|), link);
    SearchedLink(First(text), Free(text), links, link);
  }

  lemma AllPassed(text: string, links: seq<Link>, cursor: nat)
    requires cursor >= |text| && Passed(text, links, cursor)
    ensures AreLinks(text, links)
  {
    forall c: nat | StartOf(links, |links|) <= c ensures NoLinkAt(text, c) {
      if c < cursor { assert Free(text)(c); } else { NoBracket(text, c); }
    }
  }

  lemma LinksFound(text: string, links: seq<Link>)
    requires AreLinks(text, links)
    ensures links != [] <==> HasInlineLink(text)
  {
    if links == [] {
      forall c: nat, k: nat, m: nat ensures !InlineAt(text, c, k, m) { assert NoLinkAt(text, c); }
    } else {
      assert First(text)(StartOf(links, 0), links[0]);
      LinkThere(text, links[0]);
    }
  }

  lemma NextDestination(text: string, links: seq<Link>, link: Link)
    ensures Destinations(text, links + [link]) == Destinations(text, links) + [Destination(text, link)]
  {}

  /** One step of the search: over an escape, over one character, or over a whole link. */
  method NextLink(text: string, cursor: nat, ghost links: seq<Link>) returns (link: Option<Link>, next: nat)
    requires cursor < |text| && Passed(text, links, cursor)
    ensures next > cursor
    ensures link.None? ==> Passed(text, links, next)
    ensures link.Some? ==> Passed(text, links + [link.value], next)
  {
    if text[cursor] == '\\' {
      PassesEscape(text, links, cursor);
      return None, cursor + 2;
    }
    link := LinkHere(text, cursor);
    if link.Some? {
      PassesLink(text, links, cursor, link.value);
      next := link.value.end + 1;
    } else {
      PassesOne(text, links, cursor);
      next := cursor + 1;
    }
  }

  method LinkHere(text: string, c: nat) returns (found: Option<Link>)
    requires c < |text| && !Escaped(text, 0, c)
    ensures found.None? ==> NoLinkAt(text, c)
    ensures found.Some? ==>
      found.value.opening == c < found.value.end < |text| && text[found.value.end] == ')' && LinkAt(text, found.value)
  {
    if text[c] == '[' {
      found := LinkFrom(text, c);
    } else {
      NoBracket(text, c);
      found := None;
    }
  }

  method InlineLinkDestinations(text: string) returns (destinations: seq<string>, ghost links: seq<Link>)
    ensures AreLinks(text, links) && destinations == Destinations(text, links)
    ensures destinations != [] <==> HasInlineLink(text)
  {
    destinations, links := [], [];
    var cursor := 0;
    while cursor < |text|
      invariant Passed(text, links, cursor) && destinations == Destinations(text, links)
      decreases |text| - cursor
    {
      var link, next := NextLink(text, cursor, links);
      if link.Some? {
        NextDestination(text, links, link.value);
        destinations := destinations + [Destination(text, link.value)];
        links := links + [link.value];
      }
      cursor := next;
    }
    AllPassed(text, links, cursor);
    LinksFound(text, links);
  }

  /** At most three spaces, a closed label, and a colon right behind it. */
  ghost predicate DefinesReference(line: string) {
    var n := Leading(line, ' ');
    n <= 3 && n < |line| && line[n] == '[' && exists k: nat :: DefinitionAt(line, n, k)
  }

  ghost predicate DefinitionAt(line: string, n: nat, k: nat) {
    Closes(line, n + 1, k, '[', ']') && k + 1 < |line| && line[k + 1] == ':'
  }

  method LineDefinesReference(line: string) returns (found: bool)
    ensures found <==> DefinesReference(line)
  {
    var n := Leading(line, ' ');
    if n > 3 || n == |line| || line[n] != '[' { return false; }
    var closing := ClosingDelimiter(line, n, '[', ']');
    if closing.None? {
      ClosesNowhere(line, n + 1, '[', ']');
      return false;
    }
    forall k: nat | DefinitionAt(line, n, k) ensures k == closing.value {
      ClosesOnce(line, n + 1, closing.value, k, '[', ']');
    }
    found := closing.value + 1 < |line| && line[closing.value + 1] == ':';
    assert found ==> DefinitionAt(line, n, closing.value);
  }

  method HasReferenceDefinition(text: string) returns (found: bool)
    ensures found <==> exists line :: line in Lines(text) && DefinesReference(line)
  {
    var lines := Lines(text);
    for n := 0 to |lines|
      invariant forall j :: 0 <= j < n ==> !DefinesReference(lines[j])
    {
      found := LineDefinesReference(lines[n]);
      if found { return; }
    }
    found := false;
  }
}
