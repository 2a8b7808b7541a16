/** Which tokens are addresses without a scheme, character by character. */
module DomainNames {
  import opened Splitting
  import opened ModelText

  predicate IsNameChar(c: char) { 'a' <= c <= 'z' || 'A' <= c <= 'Z' || '0' <= c <= '9' || c == '-' }

  /** Name characters and dots, with no dot at the start and no two in a row. */
  predicate Begun(s: string) {
    (forall k :: 0 <= k < |s| ==> IsNameChar(s[k]) || s[k] == '.') && (s != "" ==> s[0] != '.') &&
    forall k :: 0 < k < |s| ==> !(s[k - 1] == '.' && s[k] == '.')
  }

  predicate NameChars(w: string) { forall k :: 0 <= k < |w| ==> IsNameChar(w[k]) }

  /** Every piece but the last is a label, and the last has label characters only. */
  ghost predicate LabelsBegun(labels: seq<string>) {
    labels != [] && (forall i :: 0 <= i < |labels| - 1 ==> IsLabel(labels[i])) && NameChars(Last(labels))
  }

  lemma BegunInit(s: string)
    requires s != ""
    ensures Begun(s) <==>
            Begun(Init(s)) && if Last(s) == '.' then Init(s) != "" && Last(Init(s)) != '.' else IsNameChar(Last(s))
  {
    var init := Init(s);
    assert forall k :: 0 <= k < |init| ==> init[k] == s[k];
    if Begun(s) {
      if Last(s) == '.' && init != "" { assert s[|s| - 2] == Last(init) != '.'; }
    }
    if Begun(init) && if Last(s) == '.' then init != "" && Last(init) != '.' else IsNameChar(Last(s)) {
      forall k | 0 < k < |s| ensures !(s[k - 1] == '.' && s[k] == '.') {
        if k < |init| { assert !(init[k - 1] == '.' && init[k] == '.'); }
      }
    }
  }

  lemma LabelsGrow(labels: seq<string>, c: char)
    requires labels != []
    ensures LabelsBegun(Init(labels) + [Last(labels) + [c]]) <==> LabelsBegun(labels) && IsNameChar(c)
  {
    var more := Init(labels) + [Last(labels) + [c]];
    assert forall i :: 0 <= i < |labels| - 1 ==> more[i] == labels[i];
    assert (Last(labels) + [c])[|Last(labels)|] == c;
    assert forall k :: 0 <= k < |Last(labels)| ==> (Last(labels) + [c])[k] == Last(labels)[k];
  }

  lemma LabelsEnd(labels: seq<string>)
    requires labels != []
    ensures LabelsBegun(labels + [""]) <==> LabelsBegun(labels) && Last(labels) != ""
  {
    var more := labels + [""];
    assert forall i :: 0 <= i < |labels| ==> more[i] == labels[i];
    assert LabelsBegun(more) ==> IsLabel(more[|labels| - 1]);
  }

  lemma {:induction false} PiecesBegun(s: string)
    ensures LabelsBegun(Pieces(NotDot, s)) <==> Begun(s)
    ensures LabelsBegun(Pieces(NotDot, s)) ==> (Last(Pieces(NotDot, s)) == "" <==> s == "" || Last(s) == '.')
  {
    if s != "" {
      PiecesBegun(Init(s));
      BegunInit(s);
      var labels := Pieces(NotDot, Init(s));
      if Last(s) == '.' { LabelsEnd(labels); } else { LabelsGrow(labels, Last(s)); }
    }
  }

  /** A domain name: labels of letters, digits and hyphens between single dots, the last one of two or more
      letters behind at least one dot. */
  ghost predicate IsName(s: string) { exists d: nat :: LastAt(s, d) }

  /** The last dot is at `d`. */
  predicate LastAt(s: string, d: nat) {
    0 < d < |s| - 2 && s[d] == '.' && Begun(s[..d]) && s[d - 1] != '.' &&
    forall k :: d < k < |s| ==> 'a' <= s[k] <= 'z' || 'A' <= s[k] <= 'Z'
  }

  lemma LabelsWhole(labels: seq<string>)
    requires labels != []
    ensures AllLabels(labels) <==> LabelsBegun(labels) && Last(labels) != ""
  {}

  lemma SplitLast(s: string, d: nat)
    requires d < |s| && s[d] == '.' && forall k :: d < k < |s| ==> s[k] != '.'
    ensures Pieces(NotDot, s) == Pieces(NotDot, s[..d]) + [s[d + 1..]]
  {
    assert s == s[..d] + ['.'] + s[d + 1..];
    PiecesConcat(NotDot, s[..d], '.', s[d + 1..]);
    OnePiece(NotDot, s[d + 1..]);
  }

  lemma {:induction false} LastDot(s: string) returns (d: nat)
    requires '.' in s
    ensures d < |s| && s[d] == '.' && forall k :: d < k < |s| ==> s[k] != '.'
  {
    if Last(s) == '.' { d := |s| - 1; } else { assert s == Init(s) + [Last(s)]; d := LastDot(Init(s)); }
  }

  lemma NoDot(s: string)
    requires '.' !in s
    ensures Pieces(NotDot, s) == [s]
  {
    assert forall k :: 0 <= k < |s| ==> s[k] in s;
    OnePiece(NotDot, s);
  }

  lemma SplitDomain(s: string, d: nat)
    requires d < |s| && s[d] == '.' && forall k :: d < k < |s| ==> s[k] != '.'
    ensures IsDomain(Pieces(NotDot, s)) <==>
            Begun(s[..d]) && d > 0 && s[d - 1] != '.' && d < |s| - 2 &&
            forall k :: d < k < |s| ==> IsAsciiLetter(s[k])
  {
    var front, tld := Pieces(NotDot, s[..d]), s[d + 1..];
    var labels := Pieces(NotDot, s);
    SplitLast(s, d);
    PiecesBegun(s[..d]);
    LabelsWhole(front);
    LabelsSnoc(front, tld);
    LettersBehind(s, d);
    LettersLabel(tld);
  }

  predicate AllLabels(labels: seq<string>) { forall i :: 0 <= i < |labels| ==> IsLabel(labels[i]) }

  lemma LabelsSnoc(front: seq<string>, tld: string)
    requires front != []
    ensures IsDomain(front + [tld]) <==> AllLabels(front) && IsLabel(tld) && |tld| >= 2 && Letters(tld)
  {
    var labels := front + [tld];
    assert forall i :: 0 <= i < |front| ==> labels[i] == front[i];
    assert Last(labels) == tld == labels[|front|];
  }

  predicate Letters(s: string) { forall k :: 0 <= k < |s| ==> IsAsciiLetter(s[k]) }

  lemma LettersLabel(s: string)
    ensures s != "" && Letters(s) ==> IsLabel(s)
  {}

  lemma LettersBehind(s: string, d: nat)
    requires d < |s|
    ensures Letters(s[d + 1..]) <==> forall k :: d < k < |s| ==> IsAsciiLetter(s[k])
  {
    var t := s[d + 1..];
    if Letters(t) {
      forall k | d < k < |s| ensures IsAsciiLetter(s[k]) { assert s[k] == t[k - d - 1]; }
    }
  }

  /** The labels make a domain exactly when the text is a name. */
  lemma DomainIsName(s: string)
    ensures IsDomain(Pieces(NotDot, s)) <==> IsName(s)
  {
    if '.' in s {
      var d := LastDot(s);
      SplitDomain(s, d);
      if IsName(s) {
        var e: nat :| LastAt(s, e);
        assert d == e;
      }
      assert LastAt(s, d) <==> IsDomain(Pieces(NotDot, s));
    } else {
      NoDot(s);
    }
  }

  predicate IsLocator(c: char) { c == '/' || c == '?' || c == '#' }

  lemma {:induction false} LocatorIsFirst(s: string)
    ensures forall k :: 0 <= k < Locator(s) ==> !IsLocator(s[k])
    ensures Locator(s) < |s| ==> IsLocator(s[Locator(s)])
  {
    if s != "" && !IsLocator(s[0]) {
      LocatorIsFirst(s[1..]);
      forall k | 0 <= k < Locator(s) ensures !IsLocator(s[k]) {
        if k > 0 { assert s[k] == s[1..][k - 1]; }
      }
    }
  }

  ghost predicate NameUpTo(token: string, k: nat) { k < |token| && IsLocator(token[k]) && IsName(token[..k]) }

  /** A token is an address without a scheme exactly when it is a name followed by a slash, question mark or
      hash, or a name that starts with www. in any mix of cases. */
  lemma BareUrlIs(token: string)
    ensures IsBareUrl(token) <==>
            (exists k: nat :: NameUpTo(token, k)) ||
            (StartsWith(token, "www.") && IsName(token))
  {
    if k: nat :| NameUpTo(token, k) { NameUpToIs(token, k); }
    if IsName(token) { NameIs(token); }
    if IsBareUrl(token) { BareUrlHas(token); }
    assert token[..|token|] == token;
  }

  lemma BareUrlHas(token: string)
    requires IsBareUrl(token)
    ensures NameUpTo(token, Locator(token)) || (StartsWith(token, "www.") && IsName(token))
  {
    LocatorIsFirst(token);
    DomainIsName(token[..Locator(token)]);
    assert token[..|token|] == token;
  }

  lemma NameUpToIs(token: string, k: nat)
    requires NameUpTo(token, k)
    ensures IsBareUrl(token)
  {
    LocatorIsFirst(token);
    if k > Locator(token) { NameHasNoLocator(token[..k], Locator(token)); }
    DomainIsName(token[..k]);
  }

  lemma NameIs(token: string)
    requires IsName(token)
    ensures Locator(token) == |token| && IsDomain(Pieces(NotDot, token))
  {
    LocatorIsFirst(token);
    if Locator(token) < |token| { NameHasNoLocator(token, Locator(token)); }
    DomainIsName(token);
  }

  lemma NameHasNoLocator(s: string, k: nat)
    requires IsName(s) && k < |s|
    ensures !IsLocator(s[k])
  {
    var d: nat :| LastAt(s, d);
    if k < d { assert s[..d][k] == s[k]; }
  }
}
