/** Which model output still holds an address once it is normalised, and which address that is. */
module AddressCheck {
  import opened Text
  import opened Splitting
  import opened ModelText
  import opened ModelMarkdown
  import opened HeadingCheck
  import opened ModelAddresses

  // ---- lines ----

  lemma LineAddresses(line: string)
    ensures HasAddress(ProjectedLine(line)) <==> BreaksOff("", Stripped(line))
    ensures OnlyBrokenNames(ProjectedLine(line))
  {
    var s := Stripped(line);
    ProjectedIsReplaced(line);
    ReplacedAddresses("", s);
    OnlyNamesLeft("", s);
    assert "" + ReplaceUrls(s) == ReplaceUrls(s);
  }

  lemma BeforeEnd(a: string, y: string, p: nat)
    requires StartsToken(y) && p <= |a|
    ensures AddressAt(a + y, p) <==> AddressAt(a, p)
  {
    var x, rest := TokenSplit(a[p..]);
    assert (a + y)[p..] == x + (rest + y);
    OfToken(x, rest);
    OfToken(x, rest + y);
  }

  lemma Behind(x: string, b: string, p: nat)
    ensures AddressAt(x + b, |x| + p) <==> AddressAt(b, p)
  {
    if p <= |b| { assert (x + b)[|x| + p..] == b[p..]; }
  }

  lemma Lines(a: string, b: string) returns (x: string, y: string)
    ensures a + "\n" + b == x + b == a + y && |x| == |a| + 1 && y != "" && EndsToken(y[0])
  {
    x, y := a + "\n", "\n" + b;
  }

  lemma FoundIn(a: string, b: string, x: string, y: string, p: nat)
    requires x + b == a + y && |x| == |a| + 1 && StartsToken(y) && AddressAt(x + b, p)
    ensures HasAddress(a) || HasAddress(b)
  {
    if p <= |a| { BeforeEnd(a, y, p); } else { Behind(x, b, p - |x|); }
  }

  lemma FoundFirst(a: string, y: string)
    requires StartsToken(y) && HasAddress(a)
    ensures HasAddress(a + y)
  {
    var p: nat :| AddressAt(a, p);
    BeforeEnd(a, y, p);
  }

  lemma FoundBehind(x: string, b: string)
    requires HasAddress(b)
    ensures HasAddress(x + b)
  {
    var p: nat :| AddressAt(b, p);
    Behind(x, b, p);
  }

  /** No address reaches over the end of a line. */
  lemma LinesHave(a: string, b: string)
    ensures HasAddress(a + "\n" + b) <==> HasAddress(a) || HasAddress(b)
  {
    var x, y := Lines(a, b);
    if HasAddress(x + b) {
      var p: nat :| AddressAt(x + b, p);
      FoundIn(a, b, x, y, p);
    }
    if HasAddress(a) { FoundFirst(a, y); }
    if HasAddress(b) { FoundBehind(x, b); }
  }

  lemma FirstName(a: string, y: string, p: nat)
    requires StartsToken(y) && p <= |a| && OnlyBrokenNames(a) && AddressAt(a + y, p)
    ensures BrokenName(a + y, p)
  {
    BeforeEnd(a, y, p);
    NameAt(a, p);
    BeginsBefore(a, y, p, Names());
  }

  lemma SecondName(x: string, b: string, p: nat)
    requires p >= |x| && OnlyBrokenNames(b) && AddressAt(x + b, p)
    ensures BrokenName(x + b, p)
  {
    Behind(x, b, p - |x|);
    NameAt(b, p - |x|);
    BeginsBehind(x, b, p - |x|, Names());
  }

  lemma LinesNames(a: string, b: string)
    requires OnlyBrokenNames(a) && OnlyBrokenNames(b)
    ensures OnlyBrokenNames(a + "\n" + b)
  {
    var x, y := Lines(a, b);
    forall p: nat | AddressAt(x + b, p) ensures BrokenName(x + b, p) {
      if p <= |a| { FirstName(a, y, p); } else { SecondName(x, b, p); }
    }
  }

  ghost function Breaks(): string -> bool { line => BreaksOff("", line) }

  ghost predicate HasSome(lines: seq<string>, bad: string -> bool) { exists k :: 0 <= k < |lines| && bad(lines[k]) }

  /** In some line, once stripped, an address breaks off a name. */
  ghost predicate SomeBreaksOff(lines: seq<string>) { HasSome(lines, Breaks()) }

  lemma FirstOf(line: string, rest: seq<string>, bad: string -> bool)
    ensures HasSome([line] + rest, bad) <==> bad(line) || HasSome(rest, bad)
  {
    var lines := [line] + rest;
    if bad(line) { assert bad(lines[0]); }
    if k :| 0 <= k < |rest| && bad(rest[k]) { assert bad(lines[k + 1]); }
    if k :| 0 <= k < |lines| && bad(lines[k]) {
      if k > 0 { assert lines[k] == rest[k - 1]; }
    }
  }

  lemma FirstBreaksOff(line: string, rest: seq<string>)
    ensures SomeBreaksOff([line] + rest) <==> BreaksOff("", line) || SomeBreaksOff(rest)
  {
    FirstOf(line, rest, Breaks());
  }

  lemma {:induction false} ProjectedHas(s: string)
    ensures HasAddress(ProjectedMarkdown(s)) <==> SomeBreaksOff(Mapped(Stripped, Pieces(NotNewline, s)))
    ensures OnlyBrokenNames(ProjectedMarkdown(s))
    decreases |s|
  {
    var cut := Cut(s);
    forall j | 0 <= j < cut ensures s[j] != '\n' { CutClean(s, j); }
    FirstPiece(s, cut);
    LineAddresses(s[..cut]);
    if cut < |s| {
      var rest := s[cut + 1..];
      ProjectedHas(rest);
      LinesHave(ProjectedLine(s[..cut]), ProjectedMarkdown(rest));
      LinesNames(ProjectedLine(s[..cut]), ProjectedMarkdown(rest));
      MappedFirst(Stripped, s[..cut], Pieces(NotNewline, rest));
      FirstBreaksOff(Stripped(s[..cut]), Mapped(Stripped, Pieces(NotNewline, rest)));
    } else {
      assert s[..cut] == s;
      MappedOne(Stripped, s);
      FirstBreaksOff(Stripped(s), []);
      assert [Stripped(s)] + [] == [Stripped(s)];
      assert s == "" ==> ProjectedLine(s) == "" == ProjectedMarkdown(s);
    }
  }

  // ---- normalised output ----

  /** Normalised output has an address exactly when, in a stripped line of the projected body, an address
      follows a name that starts with www. and that the text put in its place completes. */
  lemma NormalizedAddresses(body: string)
    ensures HasAddress(Normalized(body)) <==> SomeBreaksOff(StrippedLines(body))
    ensures OnlyBrokenNames(Normalized(body))
  {
    ProjectedHas(Truncated(Projected(body), MAX_MODEL_PLAIN_TEXT_BYTES));
  }

  /** What is left of an address that starts in the token at `p`: its text without the punctuation at
      its end. */
  function TokenAt(s: string, p: nat): string
    requires p <= |s|
  {
    TrimTrailing(s[p..][..TokenEnd(s[p..], 0)])
  }

  lemma BrokenBy(s: string, p: nat) returns (u: string)
    requires BrokenName(s, p)
    ensures Completes(u) && p <= |s| && u + REPLACEMENT <= s[p..]
  {
    var x: string :| Names()(x) && x <= s[p..];
    assert IsBroken(x);
    u :| Completes(u) && x == u + REPLACEMENT;
  }

  lemma StartsWww(s: string, p: nat)
    requires BrokenName(s, p)
    ensures p < |s| && AsciiLower(s[p]) == 'w'
  {
    var u := BrokenBy(s, p);
    assert AsciiLower(u[0]) == "www."[0];
    assert s[p..][0] == (u + REPLACEMENT)[0] == u[0];
  }

  /** No mail or script address, and none with a scheme, is left anywhere: behind its start there is at
      most punctuation in the token. */
  lemma NoTargets(body: string, p: nat, prefix: string)
    requires p <= |Normalized(body)|
    requires prefix in {"https://", "http://", "ftp://", "smb://", "file://", "mailto:", "javascript:"}
    ensures !StartsWith(TokenAt(Normalized(body), p), prefix)
  {
    var t := Normalized(body);
    var token := TokenAt(t, p);
    NormalizedAddresses(body);
    if AddressAt(t, p) { StartsWww(t, p); }
    NotAtW(t, p, prefix);
  }

  lemma NotAtW(t: string, p: nat, prefix: string)
    requires p <= |t| && (AddressAt(t, p) ==> p < |t| && AsciiLower(t[p]) == 'w') && IsStart(prefix)
    ensures !StartsWith(TokenAt(t, p), prefix)
  {
    var token := TokenAt(t, p);
    if token != "" && p < |t| && AsciiLower(t[p]) == 'w' {
      assert token[0] == t[p] && prefix[0] != 'w';
    } else {
      assert UrlLength(t[p..]).None?;
      SchemedIs(token);
      assert !Schemed(token);
      assert prefix != "";
    }
  }

  lemma HostIsInToken(s: string)
    requires IsDomain(Pieces(NotDot, s))
    ensures InToken(s)
  {
    forall k | 0 <= k < |s| ensures !EndsToken(s[k]) { DomainIsHost(s, s[k]); }
  }

  /** The token of a broken name is the name. */
  lemma BrokenToken(s: string, p: nat)
    requires BrokenName(s, p)
    ensures p <= |s| && Locator(TokenAt(s, p)) == |TokenAt(s, p)|
  {
    var u := BrokenBy(s, p);
    var x := u + "external";
    ExternalIs();
    HostIsInToken(x);
    DomainIsAllHost(x);
    var y := " reference" + s[p..][|u + REPLACEMENT|..];
    assert s[p..] == x + y;
    TokenIs(x, y, 0);
    assert Last(x) == 'l';
    TrimKeeps(x);
  }

  /** No bare address with a path, query or fragment is left. */
  lemma NoPaths(body: string, p: nat)
    requires p <= |Normalized(body)|
    ensures var token := TokenAt(Normalized(body), p);
            Locator(token) < |token| ==> !IsDomain(Pieces(NotDot, token[..Locator(token)]))
  {
    var t := Normalized(body);
    NormalizedAddresses(body);
    if AddressAt(t, p) { BrokenToken(t, p); }
  }

  // ---- output that still holds an address ----

  lemma {:induction false} ScansTo(w: string, v: string, s: string)
    requires Settled(w + v, s)
    ensures BreaksOff(w, v + s) <==> BreaksOff(w + v, s)
    decreases |v|
  {
    if v == "" {
      assert w + v == w && v + s == s;
    } else {
      var x, rest := w + [v[0]], v[1..];
      assert x + rest == w + v && (v + s)[1..] == rest + s && (v + s)[0] == v[0];
      assert (w + v)[|w|] == v[0];
      SettledAt(w + v, s, |w|);
      assert (w + v)[|w|..] == v;
      BreaksOffBehind(w, v + s);
      ScansTo(x, rest, s);
    }
  }

  lemma StartsWithNoF(prefix: string, k: nat)
    requires IsStart(prefix) && 0 < k < |prefix|
    ensures prefix[k] != 'f' && exists c :: 0 <= c < |prefix| && prefix[c] == ':'
  {
    assert prefix[|prefix| - 1] == ':' || prefix[|prefix| - 3] == ':';
  }

  lemma HostStartsNothing(v: string, s: string, prefix: string)
    requires v != "" && (forall c :: c in v ==> IsHost(c)) && StartsWith(s, "ftp://") && IsStart(prefix)
    ensures !StartsWith(v + s, prefix)
  {
    StartsWithNoF(prefix, 1);
    var c :| 0 <= c < |prefix| && prefix[c] == ':';
    if |prefix| <= |v| {
      assert (v + s)[c] == v[c] && v[c] in v;
      assert AsciiLower(v[c]) != ':';
    } else {
      StartsWithNoF(prefix, |v|);
      assert (v + s)[|v|] == s[0] && AsciiLower(s[0]) == "ftp://"[0] == 'f';
    }
  }

  lemma ColonIsNoDomain(host: string)
    requires ':' in host
    ensures !IsDomain(Pieces(NotDot, host))
  {
    if IsDomain(Pieces(NotDot, host)) { DomainIsHost(host, ':'); }
  }

  lemma FtpLocator(s: string)
    requires StartsWith(s, "ftp://")
    ensures Locator(s) == 4 && s[3] == ':'
  {
    assert AsciiLower(s[0]) == "ftp://"[0] && AsciiLower(s[1]) == "ftp://"[1] && AsciiLower(s[2]) == "ftp://"[2];
    assert AsciiLower(s[3]) == "ftp://"[3] == ':' && AsciiLower(s[4]) == "ftp://"[4] == '/';
    assert s[4] == '/' && s[3] == ':' && IsAsciiLetter(s[0]) && IsAsciiLetter(s[1]) && IsAsciiLetter(s[2]);
    assert Locator(s[4..]) == 0;
    assert s[3..][1..] == s[4..] && Locator(s[3..]) == 1;
    assert s[2..][1..] == s[3..] && Locator(s[2..]) == 2;
    assert s[1..][1..] == s[2..] && Locator(s[1..]) == 3;
  }

  /** A name in front of a file transfer address hides it from none of its own characters. */
  lemma HostIsNoAddress(v: string, x: string)
    requires v != "" && (forall c :: c in v ==> IsHost(c)) && StartsWith(x, "ftp://")
    requires InToken(v + x) && !IsTrailing(Last(x))
    ensures UrlLength(v + x).None?
  {
    var t := v + x;
    AddressToken(t);
    forall prefix | IsStart(prefix) ensures !StartsWith(t, prefix) { HostStartsNothing(v, x, prefix); }
    FtpLocator(x);
    HostHasNoLocator(v);
    LocatorBehind(v, x);
    var host := t[..Locator(t)];
    assert host[|v| + 3] == x[3] == ':';
    ColonIsNoDomain(host);
  }

  lemma HostSettled(u: string, x: string)
    requires (forall c :: c in u ==> IsHost(c)) && InToken(u) && InToken(x)
    requires StartsWith(x, "ftp://") && !IsTrailing(Last(x))
    ensures Settled(u, x)
  {
    forall p: nat | p < |u| ensures UrlLength((u + x)[p..]).None? {
      SettledAt(u, x, p);
      forall c | c in u[p..] ensures IsHost(c) { assert c in u; }
      HostIsNoAddress(u[p..], x);
    }
  }

  /** Behind every name that the replacement completes, a file transfer address leaves that name as an
      address. */
  lemma NameBrokenOff(u: string, x: string)
    requires Completes(u) && InToken(x) && StartsWith(x, "ftp://") && !IsTrailing(Last(x))
    ensures BreaksOff("", u + x)
  {
    forall c | c in u ensures IsHost(c) {
      assert c in u + "external";
      DomainIsHost(u + "external", c);
    }
    HostIsInToken(u + "external");
    forall k | 0 <= k < |u| ensures !EndsToken(u[k]) { assert (u + "external")[k] == u[k]; }
    HostSettled(u, x);
    assert "" + u == u;
    ScansTo("", u, x);
    StartsAddress(x);
    assert u[0..] == u;
    assert SomeCompletes(u);
  }

  lemma StartsAddress(x: string)
    requires InToken(x) && StartsWith(x, "ftp://") && !IsTrailing(Last(x))
    ensures UrlLength(x).Some?
  {
    assert IsStart("ftp://");
    AddressToken(x);
  }

  /** A body of one simple line: such a name and a file transfer address behind it. */
  lemma AddressLeft(body: string, u: string, x: string)
    requires body == u + x && IsSimple(body) && Completes(u)
    requires InToken(x) && StartsWith(x, "ftp://") && !IsTrailing(Last(x))
    ensures HasAddress(Normalized(body))
  {
    NameBrokenOff(u, x);
    SimpleLine(body);
    assert AsciiLower(u[0]) == "www."[0] && body[0] == u[0];
    assert Leading(body, ' ') == 0 && Leading(body, '#') == 0;
    assert !EndsToken(x[|x| - 1]) && Last(body) == Last(x);
    NothingTrimmed(body);
    assert Stripped(body) == body;
    assert Breaks()(StrippedLines(body)[0]);
    NormalizedAddresses(body);
  }

  lemma ThreeLabels(a: string, b: string, c: string)
    requires AllKept(NotDot, a) && AllKept(NotDot, b) && AllKept(NotDot, c)
    ensures Pieces(NotDot, a + ['.'] + b + ['.'] + c) == [a, b, c]
  {
    PiecesConcat(NotDot, a + ['.'] + b, '.', c);
    PiecesConcat(NotDot, a, '.', b);
    OnePiece(NotDot, a);
    OnePiece(NotDot, b);
    OnePiece(NotDot, c);
  }

  lemma ShortLabels(a: string, b: string)
    requires a == "www" && b == "a"
    ensures IsLabel(a) && IsLabel(b) && AllKept(NotDot, a) && AllKept(NotDot, b)
  {}

  lemma ExternalLabel(c: string)
    requires c == "external"
    ensures IsLabel(c) && |c| >= 2 && AllKept(NotDot, c) && forall k :: 0 <= k < |c| ==> IsAsciiLetter(c[k])
  {}

  lemma ShortName(u: string)
    requires u == "www.a."
    ensures Completes(u)
  {
    var a, b, c := "www", "a", "external";
    ShortLabels(a, b);
    ExternalLabel(c);
    ThreeLabels(a, b, c);
    assert u == a + ['.'] + b + ['.'];
    assert u + c == a + ['.'] + b + ['.'] + c;
  }

  lemma ShortAddress(x: string)
    requires x == "ftp://b"
    ensures InToken(x) && StartsWith(x, "ftp://") && !IsTrailing(Last(x))
  {}

  lemma ShortBody(body: string)
    requires body == "www.a.ftp://b"
    ensures IsSimple(body) && body[..6] == "www.a." && body[6..] == "ftp://b"
  {}

  /** For instance www.a.ftp://b, which becomes www.a.external reference. */
  lemma AddressStays(body: string)
    requires body == "www.a.ftp://b"
    ensures HasAddress(Normalized(body))
  {
    ShortBody(body);
    ShortName(body[..6]);
    ShortAddress(body[6..]);
    assert body == body[..6] + body[6..];
    AddressLeft(body, body[..6], body[6..]);
  }
}
