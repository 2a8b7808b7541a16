/** Which addresses are left in normalised model output. */
module ModelAddresses {
  import opened Wrappers
  import opened Splitting
  import opened ModelText
  import opened ModelMarkdown

  // ---- tokens ----

  predicate InToken(s: string) { forall k :: 0 <= k < |s| ==> !EndsToken(s[k]) }

  predicate StartsToken(s: string) { s == "" || EndsToken(s[0]) }

  lemma {:induction false} TokenIs(x: string, y: string, from: nat)
    requires InToken(x) && StartsToken(y) && from <= |x|
    ensures TokenEnd(x + y, from) == |x|
    decreases |x| - from
  {
    if from < |x| {
      assert (x + y)[from] == x[from];
      TokenIs(x, y, from + 1);
    } else if y != "" {
      assert (x + y)[from] == y[0];
    }
  }

  /** The length of an address depends on its token only. */
  lemma OfToken(x: string, y: string)
    requires InToken(x) && StartsToken(y)
    ensures UrlLength(x + y) == UrlLength(x)
  {
    TokenIs(x, y, 0);
    TokenIs(x, "", 0);
    assert x + "" == x;
    assert (x + y)[..|x|] == x;
    assert x[..|x|] == x;
  }

  lemma TokenSplit(s: string) returns (x: string, y: string)
    ensures s == x + y && InToken(x) && StartsToken(y)
  {
    var k := TokenEnd(s, 0);
    x, y := s[..k], s[k..];
    TokenBefore(s, 0);
  }

  lemma {:induction false} TokenBefore(s: string, from: nat)
    requires from <= |s|
    ensures forall k :: from <= k < TokenEnd(s, from) ==> !EndsToken(s[k])
    decreases |s| - from
  {
    if from < |s| && !EndsToken(s[from]) { TokenBefore(s, from + 1); }
  }

  predicate OnlyTrailing(s: string) { forall k :: 0 <= k < |s| ==> IsTrailing(s[k]) }

  lemma {:induction false} TrimmedRest(s: string)
    ensures OnlyTrailing(s[|TrimTrailing(s)|..])
  {
    if s != "" && IsTrailing(Last(s)) {
      TrimmedRest(Init(s));
      var n := |TrimTrailing(s)|;
      assert s[n..] == Init(s)[n..] + [Last(s)];
    }
  }

  lemma {:induction false} TrimBehind(x: string, y: string)
    requires OnlyTrailing(y)
    ensures TrimTrailing(x + y) == TrimTrailing(x)
  {
    if y == "" {
      assert x + y == x;
    } else {
      assert Init(x + y) == x + Init(y) && Last(x + y) == Last(y);
      assert IsTrailing(y[|y| - 1]);
      TrimBehind(x, Init(y));
    }
  }

  lemma TrimKeeps(x: string)
    requires x == "" || !IsTrailing(Last(x))
    ensures TrimTrailing(x) == x
  {}

  // ---- kinds of addresses ----

  predicate IsStart(prefix: string) {
    prefix == "https://" || prefix == "http://" || prefix == "ftp://" || prefix == "smb://" ||
    prefix == "file://" || prefix == "mailto:" || prefix == "javascript:"
  }

  /** What makes an address by how it starts. */
  ghost predicate Schemed(token: string) { exists prefix :: IsStart(prefix) && StartsWith(token, prefix) }

  lemma SchemedIs(token: string)
    ensures Schemed(token) <==>
            HasScheme(token) || StartsWith(token, "mailto:") || StartsWith(token, "javascript:")
  {
    assert IsStart("https://") && IsStart("http://") && IsStart("ftp://") && IsStart("smb://") && IsStart("file://");
    assert IsStart("mailto:") && IsStart("javascript:");
  }

  /** A token that does not end in punctuation is an address by its start or as a bare one. */
  lemma AddressToken(x: string)
    requires InToken(x) && x != "" && !IsTrailing(Last(x))
    ensures UrlLength(x).Some? <==> Schemed(x) || IsBareUrl(x)
  {
    TokenIs(x, "", 0);
    assert x + "" == x && x[..|x|] == x;
    TrimKeeps(x);
    SchemedIs(x);
  }

  lemma Trailed(x: string, y: string)
    requires InToken(x) && InToken(y) && OnlyTrailing(y)
    ensures UrlLength(x + y).Some? <==> UrlLength(x).Some?
  {
    assert InToken(x + y);
    TokenIs(x + y, "", 0);
    TokenIs(x, "", 0);
    assert x + y + "" == x + y && (x + y)[..|x + y|] == x + y && x + "" == x && x[..|x|] == x;
    TrimBehind(x, y);
  }

  predicate IsWord(s: string) { forall k :: 0 <= k < |s| ==> 'a' <= s[k] <= 'z' }

  lemma {:induction false} WordHasNoLocator(s: string)
    requires IsWord(s)
    ensures Locator(s) == |s|
  {
    if s != "" { WordHasNoLocator(s[1..]); }
  }

  /** How a start of an address differs from a word, and from what is put in place of an address. */
  ghost predicate Apart(prefix: string) {
    && (exists k :: 0 <= k < |prefix| && !('a' <= prefix[k] <= 'z'))
    && forall k :: 0 <= k < |prefix| && prefix[k] == 'e' ==> k + 1 < |prefix| && prefix[k + 1] != 'x'
  }

  predicate EndsApart(prefix: string) { prefix != "" && prefix[|prefix| - 1] in {'/', ':', '.'} }

  lemma StartIsApart(prefix: string)
    requires IsStart(prefix) || prefix == "www."
    ensures Apart(prefix)
  {
    assert EndsApart(prefix);
  }

  lemma WordStarts(x: string, prefix: string)
    requires IsWord(x) && Apart(prefix)
    ensures !StartsWith(x, prefix)
  {
    var k :| 0 <= k < |prefix| && !('a' <= prefix[k] <= 'z');
    if |prefix| <= |x| { assert AsciiLower(x[k]) == x[k] != prefix[k]; }
  }

  lemma WordSchemed(x: string)
    requires IsWord(x)
    ensures !Schemed(x) && !StartsWith(x, "www.")
  {
    forall prefix | IsStart(prefix) ensures !StartsWith(x, prefix) {
      StartIsApart(prefix);
      WordStarts(x, prefix);
    }
    StartIsApart("www.");
    WordStarts(x, "www.");
  }

  /** A word is no address, whatever punctuation follows. */
  lemma WordIsNoAddress(x: string, y: string)
    requires IsWord(x) && InToken(y) && OnlyTrailing(y)
    ensures UrlLength(x + y).None?
  {
    Trailed(x, y);
    if x == "" {
      assert TrimTrailing(x[..TokenEnd(x, 0)]) == "";
    } else {
      assert 'a' <= Last(x) <= 'z';
      AddressToken(x);
      WordSchemed(x);
      WordHasNoLocator(x);
    }
  }

  // ---- a name broken off by an address ----

  /** Put behind the text, the replacement completes a name that starts with www. */
  predicate Completes(w: string) {
    StartsWith(w, "www.") && IsDomain(Pieces(NotDot, w + "external"))
  }

  lemma {:induction false} LocatorBehind(u: string, v: string)
    ensures Locator(u) < |u| ==> Locator(u + v) == Locator(u)
    ensures Locator(u) == |u| ==> Locator(u + v) == |u| + Locator(v)
  {
    if u == "" {
      assert u + v == v;
    } else {
      assert (u + v)[0] == u[0] && (u + v)[1..] == u[1..] + v;
      LocatorBehind(u[1..], v);
    }
  }

  lemma ReachesIn(u: string, prefix: string)
    requires Apart(prefix) && |prefix| > |u|
    ensures !StartsWith(u + "external", prefix)
  {
    var t, d := u + "external", |u|;
    assert t[d] == "external"[0] == 'e' && t[d + 1] == "external"[1] == 'x';
    if prefix[d] == 'e' {
      assert AsciiLower(t[d + 1]) == 'x' != prefix[d + 1];
    } else {
      assert AsciiLower(t[d]) == 'e' != prefix[d];
    }
  }

  /** No start of an address reaches into the replacement. */
  lemma StartsBefore(u: string, prefix: string)
    requires Apart(prefix) && StartsWith(u + "external", prefix)
    ensures StartsWith(u, prefix)
  {
    if |prefix| > |u| { ReachesIn(u, prefix); }
    forall k | 0 <= k < |prefix| ensures AsciiLower(u[k]) == prefix[k] { assert (u + "external")[k] == u[k]; }
  }

  lemma SchemedBefore(u: string)
    requires Schemed(u + "external")
    ensures Schemed(u)
  {
    var prefix :| IsStart(prefix) && StartsWith(u + "external", prefix);
    StartIsApart(prefix);
    StartsBefore(u, prefix);
  }

  lemma StartsLonger(u: string, v: string, prefix: string)
    requires StartsWith(u, prefix)
    ensures StartsWith(u + v, prefix)
  {
    forall k | 0 <= k < |prefix| ensures AsciiLower((u + v)[k]) == prefix[k] { assert (u + v)[k] == u[k]; }
  }

  lemma SchemedLonger(u: string, v: string)
    requires Schemed(u)
    ensures Schemed(u + v)
  {
    var prefix :| IsStart(prefix) && StartsWith(u, prefix);
    StartsLonger(u, v, prefix);
  }

  lemma BareLonger(u: string, v: string)
    requires Locator(u) < |u| && IsDomain(Pieces(NotDot, u[..Locator(u)]))
    ensures IsBareUrl(u + v)
  {
    LocatorBehind(u, v);
    assert (u + v)[..Locator(u)] == u[..Locator(u)];
  }

  predicate IsHost(c: char) { IsAsciiLetter(c) || '0' <= c <= '9' || c == '-' || c == '.' }

  lemma {:induction false} HostHasNoLocator(s: string)
    requires forall c :: c in s ==> IsHost(c)
    ensures Locator(s) == |s|
  {
    if s != "" {
      assert s[0] in s && IsHost(s[0]);
      forall c | c in s[1..] ensures IsHost(c) { assert c in s; }
      HostHasNoLocator(s[1..]);
    }
  }

  lemma LabelIsHost(labels: seq<string>, w: string, c: char)
    requires IsDomain(labels) && w in labels && c in w
    ensures IsHost(c)
  {
    var i :| 0 <= i < |labels| && labels[i] == w;
    assert IsLabel(labels[i]);
    var j :| 0 <= j < |w| && w[j] == c;
  }

  lemma DomainIsHost(s: string, c: char)
    requires IsDomain(Pieces(NotDot, s)) && c in s
    ensures IsHost(c)
  {
    if NotDot(c) {
      var w := CharInPiece(NotDot, s, c);
      LabelIsHost(Pieces(NotDot, s), w, c);
    }
  }

  lemma DomainIsAllHost(s: string)
    requires IsDomain(Pieces(NotDot, s))
    ensures Locator(s) == |s|
  {
    forall c | c in s ensures IsHost(c) { DomainIsHost(s, c); }
    HostHasNoLocator(s);
  }

  lemma ExternalIs()
    ensures IsWord("external") && |"external"| == 8 && InToken("external") && REPLACEMENT == "external" + " reference"
  {
    var e := "external";
    assert REPLACEMENT == "external reference";
  }

  lemma ReplacedLocator(u: string)
    ensures Locator(u + "external") == if Locator(u) < |u| then Locator(u) else |u + "external"|
  {
    ExternalIs();
    LocatorBehind(u, "external");
    WordHasNoLocator("external");
  }

  lemma BareAtLocator(t: string, u: string)
    requires IsBareUrl(t) && Locator(t) == Locator(u) < |u| <= |t| && t[..Locator(u)] == u[..Locator(u)]
    ensures IsDomain(Pieces(NotDot, u[..Locator(u)]))
  {}

  lemma BareWhole(t: string)
    requires IsBareUrl(t) && Locator(t) == |t|
    ensures StartsWith(t, "www.") && IsDomain(Pieces(NotDot, t))
  {
    assert t[..|t|] == t;
  }

  lemma BrokenAtLocator(u: string)
    requires IsBareUrl(u + "external") && Locator(u) < |u|
    ensures IsDomain(Pieces(NotDot, u[..Locator(u)]))
  {
    ReplacedLocator(u);
    assert (u + "external")[..Locator(u)] == u[..Locator(u)];
    BareAtLocator(u + "external", u);
  }

  lemma BrokenWhole(u: string)
    requires IsBareUrl(u + "external") && Locator(u) == |u|
    ensures Completes(u)
  {
    ReplacedLocator(u);
    BareWhole(u + "external");
    StartIsApart("www.");
    StartsBefore(u, "www.");
  }

  lemma BareBroken(u: string)
    requires IsBareUrl(u + "external")
    ensures (Locator(u) < |u| && IsDomain(Pieces(NotDot, u[..Locator(u)]))) || Completes(u)
  {
    if Locator(u) < |u| { BrokenAtLocator(u); } else { BrokenWhole(u); }
  }

  /** A text that becomes an address when an address behind it is replaced, and was none with it, is a
      name that the replacement completes. */
  lemma Broken(u: string, v: string)
    requires InToken(u) && InToken(v) && v != "" && !IsTrailing(Last(v))
    requires UrlLength(u + v).None?
    ensures UrlLength(u + "external").Some? <==> Completes(u)
  {
    ExternalIs();
    assert InToken(u + "external") && Last(u + "external") == 'l';
    assert InToken(u + v) && Last(u + v) == Last(v);
    AddressToken(u + "external");
    AddressToken(u + v);
    if Completes(u) {
      DomainIsAllHost(u + "external");
      StartsLonger(u, "external", "www.");
      assert (u + "external")[..|u + "external"|] == u + "external";
    } else if Schemed(u + "external") {
      SchemedBefore(u);
      SchemedLonger(u, v);
    } else if IsBareUrl(u + "external") {
      BareBroken(u);
      BareLonger(u, v);
    }
  }

  // ---- what replacing leaves ----

  ghost predicate HasAddress(s: string) { exists p: nat :: AddressAt(s, p) }

  ghost predicate AddressAt(s: string, p: nat) { p <= |s| && UrlLength(s[p..]).Some? }

  /** In a token whose part `w` is written and whose rest starts `s`: an address will be met behind a
      name that starts with www. and that the replacement completes. */
  ghost predicate BreaksOff(w: string, s: string)
    decreases |s|
  {
    s != "" &&
    match UrlLength(s)
    case Some(n) => UrlLengthAtLeast(s); SomeCompletes(w) || BreaksOff("reference", s[n..])
    case None => BreaksOff(if EndsToken(s[0]) then "" else w + [s[0]], s[1..])
  }

  ghost predicate SomeCompletes(w: string) { exists p: nat :: p <= |w| && Completes(w[p..]) }

  /** No address starts in the part of the token that is written. */
  ghost predicate Settled(w: string, s: string) {
    InToken(w) && forall p: nat :: p < |w| ==> UrlLength((w + s)[p..]).None?
  }

  lemma SettledAt(w: string, s: string, p: nat)
    requires p <= |w|
    ensures (w + s)[p..] == w[p..] + s
  {}

  lemma NoAddressAtEnd(w: string)
    requires Settled(w, "")
    ensures !HasAddress(w)
  {
    forall p: nat ensures !AddressAt(w, p) {
      if p < |w| {
        SettledAt(w, "", p);
        assert w[p..] + "" == w[p..];
      } else if p == |w| {
        assert w[p..] == "";
        WordIsNoAddress("", "");
      }
    }
  }

  // one character that belongs to the token

  lemma GrowsSettled(w: string, s: string)
    requires Settled(w, s) && s != "" && UrlLength(s).None? && !EndsToken(s[0])
    ensures Settled(w + [s[0]], s[1..])
  {
    var x := w + [s[0]];
    assert x + s[1..] == w + s;
    forall p: nat | p < |x| ensures UrlLength((x + s[1..])[p..]).None? {
      if p == |w| { assert (w + s)[p..] == s; }
    }
  }

  // one character that ends it

  lemma BehindEnd(w: string, c: char, r: string, p: nat)
    requires EndsToken(c) && InToken(w) && p <= |w|
    ensures UrlLength((w + [c] + r)[p..]) == UrlLength(w[p..])
  {
    assert (w + [c] + r)[p..] == w[p..] + ([c] + r);
    OfToken(w[p..], [c] + r);
  }

  lemma NoneBeforeEnd(w: string, s: string, r: string, p: nat)
    requires Settled(w, s) && s != "" && EndsToken(s[0]) && p <= |w|
    ensures !AddressAt(w + [s[0]] + r, p)
  {
    assert w + [s[0]] + s[1..] == w + s;
    BehindEnd(w, s[0], r, p);
    if p < |w| {
      BehindEnd(w, s[0], s[1..], p);
    } else {
      assert w[p..] == "";
      WordIsNoAddress("", "");
    }
  }

  lemma AfterEnd(w: string, c: char, r: string, p: nat)
    ensures AddressAt(w + [c] + r, |w| + 1 + p) <==> AddressAt(r, p)
  {
    if p <= |r| { assert (w + [c] + r)[|w| + 1 + p..] == r[p..]; }
  }

  lemma BehindIt(w: string, s: string, r: string, p: nat)
    requires Settled(w, s) && s != "" && EndsToken(s[0]) && AddressAt(w + [s[0]] + r, p)
    ensures p > |w| && AddressAt(r, p - |w| - 1)
  {
    if p <= |w| { NoneBeforeEnd(w, s, r, p); }
    AfterEnd(w, s[0], r, p - |w| - 1);
  }

  lemma EndHides(w: string, s: string, r: string, t: string)
    requires Settled(w, s) && s != "" && EndsToken(s[0]) && t == w + [s[0]] + r && HasAddress(t)
    ensures HasAddress(r)
  {
    var p: nat :| AddressAt(t, p);
    BehindIt(w, s, r, p);
  }

  lemma EndShows(w: string, c: char, r: string)
    requires HasAddress(r)
    ensures HasAddress(w + [c] + r)
  {
    var p: nat :| AddressAt(r, p);
    AfterEnd(w, c, r, p);
  }

  lemma EndSettles(w: string, s: string, r: string)
    requires Settled(w, s) && s != "" && EndsToken(s[0])
    ensures HasAddress(w + [s[0]] + r) <==> HasAddress(r)
  {
    if HasAddress(w + [s[0]] + r) { EndHides(w, s, r, w + [s[0]] + r); }
    if HasAddress(r) { EndShows(w, s[0], r); }
  }

  // an address

  lemma AddressSplit(s: string, n: nat) returns (v: string, punctuation: string, rest: string)
    requires UrlLength(s) == Some(n)
    ensures n <= |s| && s == v + punctuation + rest && |v| == n && s[n..] == punctuation + rest
    ensures InToken(v) && v != "" && !IsTrailing(Last(v))
    ensures InToken(punctuation) && OnlyTrailing(punctuation) && StartsToken(rest)
  {
    var x;
    x, rest := TokenSplit(s);
    OfToken(x, rest);
    v, punctuation := TokenAddress(x, n);
    assert s[n..] == punctuation + rest;
  }

  /** An address is its token without the punctuation at its end. */
  lemma TokenAddress(x: string, n: nat) returns (v: string, punctuation: string)
    requires InToken(x) && UrlLength(x) == Some(n)
    ensures x == v + punctuation && |v| == n && v != "" && !IsTrailing(Last(v))
    ensures InToken(v) && InToken(punctuation) && OnlyTrailing(punctuation)
  {
    TokenIs(x, "", 0);
    assert x + "" == x && x[..|x|] == x;
    TrimmedRest(x);
    v, punctuation := x[..n], x[n..];
  }

  lemma WordAt(w: string, punctuation: string, rest: string, p: nat)
    requires IsWord(w) && InToken(punctuation) && OnlyTrailing(punctuation) && StartsToken(rest) && p < |w|
    ensures UrlLength((w + (punctuation + rest))[p..]).None?
  {
    SettledAt(w, punctuation + rest, p);
    assert w[p..] + (punctuation + rest) == w[p..] + punctuation + rest;
    WordIsNoAddress(w[p..], punctuation);
    OfToken(w[p..] + punctuation, rest);
  }

  lemma WordSettled(w: string, punctuation: string, rest: string)
    requires IsWord(w) && InToken(punctuation) && OnlyTrailing(punctuation) && StartsToken(rest)
    ensures Settled(w, punctuation + rest)
  {
    forall p: nat | p < |w| ensures UrlLength((w + (punctuation + rest))[p..]).None? {
      WordAt(w, punctuation, rest, p);
    }
  }

  lemma ReferenceSettled(s: string, n: nat)
    requires UrlLength(s) == Some(n)
    ensures n <= |s| && Settled("reference", s[n..])
  {
    var v, punctuation, rest := AddressSplit(s, n);
    assert IsWord("reference");
    WordSettled("reference", punctuation, rest);
  }

  /** The token `u` and an address behind it are no address, as long as nothing is replaced. */
  lemma NoneWith(w: string, v: string, punctuation: string, rest: string, p: nat)
    requires Settled(w, v + punctuation + rest) && p < |w|
    requires InToken(v) && InToken(punctuation) && OnlyTrailing(punctuation) && StartsToken(rest)
    ensures UrlLength(w[p..] + v).None?
  {
    SettledAt(w, v + punctuation + rest, p);
    assert w[p..] + (v + punctuation + rest) == (w[p..] + v + punctuation) + rest;
    OfToken(w[p..] + v + punctuation, rest);
    Trailed(w[p..] + v, punctuation);
  }

  lemma WithReplacement(w: string, r: string, p: nat)
    requires p < |w| && InToken(w)
    ensures AddressAt(w + REPLACEMENT + r, p) <==> UrlLength(w[p..] + "external").Some?
  {
    ExternalIs();
    assert (w + REPLACEMENT + r)[p..] == (w[p..] + "external") + (" reference" + r);
    OfToken(w[p..] + "external", " reference" + r);
  }

  /** Before the address: what is written of the token, with the first word of the replacement. */
  lemma BeforeReplaced(w: string, v: string, punctuation: string, rest: string, r: string, p: nat)
    requires Settled(w, v + punctuation + rest) && p < |w|
    requires InToken(v) && v != "" && !IsTrailing(Last(v))
    requires InToken(punctuation) && OnlyTrailing(punctuation) && StartsToken(rest)
    ensures AddressAt(w + REPLACEMENT + r, p) <==> Completes(w[p..])
  {
    WithReplacement(w, r, p);
    NoneWith(w, v, punctuation, rest, p);
    Broken(w[p..], v);
  }

  lemma InReplaced(w: string, r: string, p: nat)
    requires |w| <= p <= |w| + 8
    ensures !AddressAt(w + REPLACEMENT + r, p)
  {
    ExternalIs();
    var e := "external";
    var u := e[p - |w|..];
    assert (w + REPLACEMENT + r)[p..] == u + (" reference" + r);
    OfToken(u, " reference" + r);
    WordIsNoAddress(u, "");
    assert u + "" == u;
  }

  lemma BehindReplaced(w: string, r: string, p: nat)
    ensures AddressAt(w + REPLACEMENT + r, |w| + 9 + p) <==> AddressAt("reference" + r, p)
  {
    assert REPLACEMENT == "external " + "reference";
    var t := w + REPLACEMENT + r;
    assert t == (w + "external ") + ("reference" + r);
    if p <= |"reference" + r| { assert t[|w| + 9 + p..] == ("reference" + r)[p..]; }
  }

  lemma ReplacedHas(w: string, s: string, n: nat, r: string)
    requires UrlLength(s) == Some(n) && Settled(w, s)
    ensures HasAddress(w + REPLACEMENT + r) <==> SomeCompletes(w) || HasAddress("reference" + r)
  {
    var v, punctuation, rest := AddressSplit(s, n);
    var t := w + REPLACEMENT + r;
    forall p: nat | p < |w| ensures AddressAt(t, p) <==> Completes(w[p..]) {
      BeforeReplaced(w, v, punctuation, rest, r, p);
    }
    forall p: nat ensures AddressAt(t, |w| + 9 + p) <==> AddressAt("reference" + r, p) { BehindReplaced(w, r, p); }
    if HasAddress(t) {
      var p: nat :| AddressAt(t, p);
      if p < |w| {
        assert Completes(w[p..]);
      } else {
        if p <= |w| + 8 { InReplaced(w, r, p); }
        assert AddressAt("reference" + r, p - |w| - 9);
      }
    }
    if SomeCompletes(w) {
      var p: nat :| p <= |w| && Completes(w[p..]);
      assert AddressAt(t, p);
    }
    if HasAddress("reference" + r) {
      var p: nat :| AddressAt("reference" + r, p);
      assert AddressAt(t, |w| + 9 + p);
    }
  }

  lemma AtAddress(w: string, s: string, n: nat)
    requires UrlLength(s) == Some(n) && Settled(w, s) && n <= |s|
    requires HasAddress("reference" + ReplaceUrls(s[n..])) <==> BreaksOff("reference", s[n..])
    ensures HasAddress(w + ReplaceUrls(s)) <==> BreaksOff(w, s)
  {
    var r := ReplaceUrls(s[n..]);
    UrlLengthAtLeast(s);
    ReplaceUrlsStep(s);
    ReplacedHas(w, s, n, r);
    assert w + (REPLACEMENT + r) == w + REPLACEMENT + r;
  }

  lemma BreaksOffBehind(w: string, s: string)
    requires s != "" && UrlLength(s).None?
    ensures BreaksOff(w, s) <==> BreaksOff(if EndsToken(s[0]) then "" else w + [s[0]], s[1..])
  {}

  lemma WrittenBehind(w: string, s: string)
    requires s != "" && UrlLength(s).None?
    ensures w + ReplaceUrls(s) == w + [s[0]] + ReplaceUrls(s[1..])
  {
    ReplaceUrlsStep(s);
  }

  lemma AtEnd(w: string, s: string)
    requires s != "" && UrlLength(s).None? && Settled(w, s) && EndsToken(s[0])
    requires HasAddress("" + ReplaceUrls(s[1..])) <==> BreaksOff("", s[1..])
    ensures HasAddress(w + ReplaceUrls(s)) <==> BreaksOff(w, s)
  {
    var r := ReplaceUrls(s[1..]);
    BreaksOffBehind(w, s);
    WrittenBehind(w, s);
    EndSettles(w, s, r);
    assert "" + r == r;
  }

  lemma Within(w: string, s: string)
    requires s != "" && UrlLength(s).None? && Settled(w, s) && !EndsToken(s[0])
    requires HasAddress(w + [s[0]] + ReplaceUrls(s[1..])) <==> BreaksOff(w + [s[0]], s[1..])
    ensures HasAddress(w + ReplaceUrls(s)) <==> BreaksOff(w, s)
  {
    BreaksOffBehind(w, s);
    WrittenBehind(w, s);
  }

  /** Behind a settled part of a token, replacing leaves an address exactly when one breaks off a name. */
  lemma {:induction false} ReplacedAddresses(w: string, s: string)
    requires Settled(w, s)
    ensures HasAddress(w + ReplaceUrls(s)) <==> BreaksOff(w, s)
    decreases |s|
  {
    if s == "" {
      assert w + ReplaceUrls(s) == w;
      NoAddressAtEnd(w);
    } else if UrlLength(s).Some? {
      UrlLengthAtLeast(s);
      ReferenceSettled(s, UrlLength(s).value);
      ReplacedAddresses("reference", s[UrlLength(s).value..]);
      AtAddress(w, s, UrlLength(s).value);
    } else if EndsToken(s[0]) {
      ReplacedAddresses("", s[1..]);
      AtEnd(w, s);
    } else {
      GrowsSettled(w, s);
      ReplacedAddresses(w + [s[0]], s[1..]);
      Within(w, s);
    }
  }

  // ---- what an address left looks like ----

  /** A name that starts with www. and is completed by the replacement. */
  ghost predicate IsBroken(x: string) { exists u: string :: Completes(u) && x == u + REPLACEMENT }

  ghost function Names(): string -> bool { x => IsBroken(x) }

  ghost predicate Begins(s: string, p: nat, fits: string -> bool) {
    p <= |s| && exists x: string :: fits(x) && x <= s[p..]
  }

  ghost predicate BrokenName(s: string, p: nat) { Begins(s, p, Names()) }

  ghost predicate OnlyBrokenNames(s: string) { forall p: nat :: AddressAt(s, p) ==> BrokenName(s, p) }

  lemma BeginsBehind(x: string, s: string, p: nat, fits: string -> bool)
    requires Begins(s, p, fits)
    ensures Begins(x + s, |x| + p, fits)
  {
    assert (x + s)[|x| + p..] == s[p..];
  }

  lemma BeginsBefore(s: string, y: string, p: nat, fits: string -> bool)
    requires Begins(s, p, fits)
    ensures Begins(s + y, p, fits)
  {
    assert (s + y)[p..] == s[p..] + y;
  }

  lemma NameAt(s: string, p: nat)
    requires OnlyBrokenNames(s) && AddressAt(s, p)
    ensures Begins(s, p, Names())
  {}

  lemma EndNames(w: string, s: string, r: string)
    requires Settled(w, s) && s != "" && EndsToken(s[0]) && OnlyBrokenNames(r)
    ensures OnlyBrokenNames(w + [s[0]] + r)
  {
    var t := w + [s[0]] + r;
    forall p: nat | AddressAt(t, p) ensures BrokenName(t, p) {
      if p <= |w| { NoneBeforeEnd(w, s, r, p); }
      AfterEnd(w, s[0], r, p - |w| - 1);
      BeginsBehind(w + [s[0]], r, p - |w| - 1, Names());
    }
  }

  lemma NameReplaced(w: string, r: string, p: nat)
    requires p < |w| && Completes(w[p..])
    ensures BrokenName(w + REPLACEMENT + r, p)
  {
    var x := w[p..] + REPLACEMENT;
    assert (w + REPLACEMENT + r)[p..] == x + r;
    assert IsBroken(x) && Names()(x);
  }

  lemma SplitReplacement(w: string, r: string) returns (x: string)
    ensures |x| == |w| + 9 && w + REPLACEMENT + r == x + ("reference" + r)
  {
    x := w + "external ";
    assert REPLACEMENT == "external " + "reference";
  }

  lemma NameBehindReplaced(w: string, r: string, p: nat)
    requires |w| + 9 <= p && AddressAt(w + REPLACEMENT + r, p) && OnlyBrokenNames("reference" + r)
    ensures BrokenName(w + REPLACEMENT + r, p)
  {
    var x := SplitReplacement(w, r);
    BehindReplaced(w, r, p - |x|);
    NameAt("reference" + r, p - |x|);
    BeginsBehind(x, "reference" + r, p - |x|, Names());
  }

  lemma ReplacedNames(w: string, s: string, n: nat, r: string)
    requires UrlLength(s) == Some(n) && Settled(w, s) && OnlyBrokenNames("reference" + r)
    ensures OnlyBrokenNames(w + REPLACEMENT + r)
  {
    var v, punctuation, rest := AddressSplit(s, n);
    forall p: nat | AddressAt(w + REPLACEMENT + r, p) ensures BrokenName(w + REPLACEMENT + r, p) {
      if p < |w| {
        BeforeReplaced(w, v, punctuation, rest, r, p);
        NameReplaced(w, r, p);
      } else {
        if p <= |w| + 8 { InReplaced(w, r, p); }
        NameBehindReplaced(w, r, p);
      }
    }
  }

  /** Every address left is a broken name. */
  lemma {:induction false} OnlyNamesLeft(w: string, s: string)
    requires Settled(w, s)
    ensures OnlyBrokenNames(w + ReplaceUrls(s))
    decreases |s|
  {
    if s == "" {
      assert w + ReplaceUrls(s) == w;
      NoAddressAtEnd(w);
    } else if UrlLength(s).Some? {
      var n := UrlLength(s).value;
      UrlLengthAtLeast(s);
      ReferenceSettled(s, n);
      OnlyNamesLeft("reference", s[n..]);
      ReplacedNames(w, s, n, ReplaceUrls(s[n..]));
      ReplaceUrlsStep(s);
      assert w + (REPLACEMENT + ReplaceUrls(s[n..])) == w + REPLACEMENT + ReplaceUrls(s[n..]);
    } else if EndsToken(s[0]) {
      OnlyNamesLeft("", s[1..]);
      assert "" + ReplaceUrls(s[1..]) == ReplaceUrls(s[1..]);
      EndNames(w, s, ReplaceUrls(s[1..]));
      WrittenBehind(w, s);
    } else {
      GrowsSettled(w, s);
      OnlyNamesLeft(w + [s[0]], s[1..]);
      WrittenBehind(w, s);
    }
  }
}
