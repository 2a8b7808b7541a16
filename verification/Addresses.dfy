/** A line and what it becomes when its addresses are replaced, piece by piece. */
module Addresses {
  import opened Text
  import opened Splitting
  import opened ModelText
  import opened ModelMarkdown

  // ---- addresses ----

  /** No address starts there. */
  predicate StartsNoUrl(c: char) { !IsAsciiLetter(c) && !('0' <= c <= '9') && c != '-' }

  lemma {:induction false} FirstOfJoin(words: seq<string>)
    requires words != [] && words[0] != ""
    ensures Join(".", words) != "" && Join(".", words)[0] == words[0][0]
  {
    if |words| > 1 { FirstOfJoin(Init(words)); }
  }

  lemma BareUrlStarts(token: string)
    requires IsBareUrl(token)
    ensures token != "" && !StartsNoUrl(token[0])
  {
    var host := token[..Locator(token)];
    var labels := Pieces(NotDot, host);
    JoinOfPieces(NotDot, '.', host);
    assert IsLabel(labels[0]);
    FirstOfJoin(labels);
    assert host[0] == token[0];
  }

  lemma SchemeStarts(s: string, prefix: string)
    requires StartsWith(s, prefix) && prefix != "" && 'a' <= prefix[0] <= 'z'
    ensures s != "" && !StartsNoUrl(s[0])
  {
    assert AsciiLower(s[0]) == prefix[0];
  }

  lemma UrlStarts(s: string)
    requires UrlLength(s).Some?
    ensures s != "" && !StartsNoUrl(s[0])
  {
    var token := TrimTrailing(s[..TokenEnd(s, 0)]);
    assert token[0] == s[0];
    if IsBareUrl(token) { BareUrlStarts(token); }
    else if StartsWith(token, "https://") { SchemeStarts(token, "https://"); }
    else if StartsWith(token, "http://") { SchemeStarts(token, "http://"); }
    else if StartsWith(token, "ftp://") { SchemeStarts(token, "ftp://"); }
    else if StartsWith(token, "smb://") { SchemeStarts(token, "smb://"); }
    else if StartsWith(token, "file://") { SchemeStarts(token, "file://"); }
    else if StartsWith(token, "mailto:") { SchemeStarts(token, "mailto:"); }
    else { SchemeStarts(token, "javascript:"); }
  }

  /** No address occurs without a full stop or a colon. */
  predicate Quiet(s: string) { '.' !in s && ':' !in s }

  lemma SchemeHasColon(s: string, prefix: string)
    requires StartsWith(s, prefix) && ':' in prefix
    ensures ':' in s
  {
    var k :| 0 <= k < |prefix| && prefix[k] == ':';
    assert AsciiLower(s[k]) == ':';
  }

  lemma BareUrlHasDot(token: string)
    requires IsBareUrl(token)
    ensures '.' in token
  {
    var host := token[..Locator(token)];
    if '.' !in token {
      forall k | 0 <= k < |host| ensures NotDot(host[k]) { assert host[k] == token[k]; }
      OnePiece(NotDot, host);
    }
  }

  lemma QuietUrl(s: string)
    requires UrlLength(s).Some?
    ensures UrlLength(s).value <= |s| && !Quiet(s[..UrlLength(s).value])
  {
    var token := TrimTrailing(s[..TokenEnd(s, 0)]);
    assert token == s[..UrlLength(s).value];
    if IsBareUrl(token) { BareUrlHasDot(token); }
    else if StartsWith(token, "https://") { SchemeHasColon(token, "https://"); }
    else if StartsWith(token, "http://") { SchemeHasColon(token, "http://"); }
    else if StartsWith(token, "ftp://") { SchemeHasColon(token, "ftp://"); }
    else if StartsWith(token, "smb://") { SchemeHasColon(token, "smb://"); }
    else if StartsWith(token, "file://") { SchemeHasColon(token, "file://"); }
    else if StartsWith(token, "mailto:") { SchemeHasColon(token, "mailto:"); }
    else { SchemeHasColon(token, "javascript:"); }
  }

  lemma {:induction false} TokenInside(s: string, from: nat, k: nat)
    requires from <= |s| && from <= k < TokenEnd(s, from)
    ensures !EndsToken(s[k])
    decreases |s| - from
  {
    if from < k { TokenInside(s, from + 1, k); }
  }

  /** An address starts and looks like one, and holds no backtick and no carriage return. */
  predicate IsAddress(text: string) {
    text != "" && !StartsNoUrl(text[0]) && !Quiet(text) && '`' !in text && '\r' !in text
  }

  lemma UrlIsAddress(s: string)
    requires UrlLength(s).Some?
    ensures 5 <= UrlLength(s).value <= |s| && IsAddress(s[..UrlLength(s).value])
  {
    var text := s[..UrlLength(s).value];
    UrlLengthAtLeast(s);
    UrlStarts(s);
    QuietUrl(s);
    forall k | 0 <= k < |text| ensures text[k] != '`' && text[k] != '\r' { TokenInside(s, 0, k); }
  }

  // ---- pieces ----

  /** A character that stays, or an address that is replaced. */
  datatype Piece = Char(c: char) | Address(text: string)

  function Grown(p: Piece, edited: bool): string {
    match p
    case Char(c) => [c]
    case Address(text) => if edited then REPLACEMENT else text
  }

  /** The line, before its addresses are replaced or after. */
  function Line(ps: seq<Piece>, edited: bool): string {
    if ps == [] then "" else Grown(ps[0], edited) + Line(ps[1..], edited)
  }

  function Source(ps: seq<Piece>): string { Line(ps, false) }

  function Target(ps: seq<Piece>): string { Line(ps, true) }

  predicate IsEdit(ps: seq<Piece>) { forall k :: 0 <= k < |ps| && ps[k].Address? ==> IsAddress(ps[k].text) }

  function HeadLength(s: string): (n: nat)
    requires s != ""
    ensures 0 < n <= |s|
  {
    match UrlLength(s)
    case Some(n) => UrlLengthAtLeast(s); n
    case None => 1
  }

  function HeadPiece(s: string): Piece
    requires s != ""
  {
    if UrlLength(s).Some? then Address(s[..HeadLength(s)]) else Char(s[0])
  }

  /** The pieces of a line. */
  function UrlPieces(s: string): seq<Piece>
    decreases |s|
  {
    if s == "" then [] else [HeadPiece(s)] + UrlPieces(s[HeadLength(s)..])
  }

  lemma HeadFacts(s: string)
    requires s != ""
    ensures Grown(HeadPiece(s), false) == s[..HeadLength(s)]
    ensures ReplaceUrls(s) == Grown(HeadPiece(s), true) + ReplaceUrls(s[HeadLength(s)..])
    ensures HeadPiece(s).Address? ==> IsAddress(HeadPiece(s).text)
  {
    ReplaceUrlsStep(s);
    if UrlLength(s).Some? { UrlIsAddress(s); }
  }

  lemma PieceFirst(p: Piece, ps: seq<Piece>)
    ensures forall edited :: Line([p] + ps, edited) == Grown(p, edited) + Line(ps, edited)
    ensures IsEdit(ps) && (p.Address? ==> IsAddress(p.text)) ==> IsEdit([p] + ps)
  {
    assert ([p] + ps)[1..] == ps;
  }

  /** The pieces make up the line and what replacing its addresses makes of it. */
  ghost predicate Splits(ps: seq<Piece>, line: string, replaced: string) {
    Source(ps) == line && Target(ps) == replaced && IsEdit(ps)
  }

  lemma SplitsNext(p: Piece, ps: seq<Piece>, line: string, replaced: string)
    requires Splits(ps, line, replaced) && (p.Address? ==> IsAddress(p.text))
    ensures Splits([p] + ps, Grown(p, false) + line, Grown(p, true) + replaced)
  {
    PieceFirst(p, ps);
  }

  lemma SplitsHead(s: string, p: Piece, n: nat, ps: seq<Piece>)
    requires n <= |s| && Grown(p, false) == s[..n] && ReplaceUrls(s) == Grown(p, true) + ReplaceUrls(s[n..])
    requires (p.Address? ==> IsAddress(p.text)) && Splits(ps, s[n..], ReplaceUrls(s[n..]))
    ensures Splits([p] + ps, s, ReplaceUrls(s))
  {
    SplitsNext(p, ps, s[n..], ReplaceUrls(s[n..]));
    assert s[..n] + s[n..] == s;
  }

  lemma NoPieces()
    ensures Splits([], "", ReplaceUrls(""))
  {}

  lemma {:induction false} LineOfPieces(s: string)
    ensures Splits(UrlPieces(s), s, ReplaceUrls(s))
    decreases |s|
  {
    if s == "" {
      NoPieces();
    } else {
      HeadFacts(s);
      LineOfPieces(s[HeadLength(s)..]);
      SplitsHead(s, HeadPiece(s), HeadLength(s), UrlPieces(s[HeadLength(s)..]));
    }
  }

  lemma {:induction false} LineConcat(a: seq<Piece>, b: seq<Piece>, edited: bool)
    ensures Line(a + b, edited) == Line(a, edited) + Line(b, edited)
    decreases |a|
  {
    if a == [] {
      assert a + b == b;
    } else {
      assert (a + b)[1..] == a[1..] + b;
      LineConcat(a[1..], b, edited);
    }
  }

  lemma EditTail(ps: seq<Piece>, n: nat)
    requires IsEdit(ps) && n <= |ps|
    ensures IsEdit(ps[n..])
  {}

  /** The first character stays, unless an address starts there. */
  lemma FirstKept(ps: seq<Piece>)
    requires IsEdit(ps) && ps != []
    ensures Source(ps) != "" && Target(ps) != ""
    ensures Target(ps)[0] == Source(ps)[0] || (Target(ps)[0] == 'e' && !StartsNoUrl(Source(ps)[0]))
    ensures StartsNoUrl(Source(ps)[0]) ==>
      ps[0] == Char(Source(ps)[0]) && Source(ps)[1..] == Source(ps[1..]) && Target(ps)[1..] == Target(ps[1..])
  {
    assert REPLACEMENT[0] == 'e';
  }

  /** A run of characters that start no address is kept, and what follows it is treated by itself. */
  lemma {:induction false} LeadingKept(ps: seq<Piece>, c: char)
    requires IsEdit(ps) && StartsNoUrl(c)
    ensures var n := Leading(Source(ps), c);
      n <= |ps| && Leading(Target(ps), c) == n &&
      Source(ps)[n..] == Source(ps[n..]) && Target(ps)[n..] == Target(ps[n..])
    decreases |ps|
  {
    if ps != [] {
      FirstKept(ps);
      if Source(ps)[0] == c {
        EditTail(ps, 1);
        LeadingKept(ps[1..], c);
        var n := Leading(Source(ps), c);
        assert Source(ps)[1..][n - 1..] == Source(ps)[n..] && Target(ps)[1..][n - 1..] == Target(ps)[n..];
        assert ps[1..][n - 1..] == ps[n..];
      }
    }
  }

  /** Without a full stop or a colon nothing is replaced. */
  lemma {:induction false} QuietStays(ps: seq<Piece>)
    requires IsEdit(ps) && Quiet(Source(ps))
    ensures Target(ps) == Source(ps)
    decreases |ps|
  {
    if ps != [] {
      forall c | c in Grown(ps[0], false) ensures c in Source(ps) {}
      forall c | c in Source(ps[1..]) ensures c in Source(ps) {}
      EditTail(ps, 1);
      QuietStays(ps[1..]);
      assert ps[0].Char?;
    }
  }

  /** Where an address was replaced there is an x. */
  lemma {:induction false} ReplacedHasX(ps: seq<Piece>)
    requires 'x' !in Target(ps)
    ensures Target(ps) == Source(ps)
    decreases |ps|
  {
    if ps != [] {
      assert REPLACEMENT[1] == 'x';
      assert 'x' in REPLACEMENT;
      forall c | c in Grown(ps[0], true) ensures c in Target(ps) {}
      forall c | c in Target(ps[1..]) ensures c in Target(ps) {}
      ReplacedHasX(ps[1..]);
      assert ps[0].Char?;
    }
  }
}
