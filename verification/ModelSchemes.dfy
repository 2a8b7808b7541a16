/** No address scheme is left in projected model output. */
module ModelSchemes {
  import opened Text
  import opened Splitting
  import opened ModelText
  import opened ModelMarkdown

  /** What lets a scheme be told from the text put in place of an address. */
  ghost predicate Foreign(prefix: string) {
    |prefix| >= 6 && Last(prefix) == '/' &&
    (forall d :: 0 <= d < |prefix| ==> !EndsToken(prefix[d]) && prefix[d] != '\n') &&
    (forall d :: 1 <= d < |prefix| && prefix[d] == 'e' ==> d + 1 < |prefix| && prefix[d + 1] != 'x') &&
    prefix[0] in {'h', 'f', 's'} && prefix[1] != 'e'
  }

  /** The scheme does not start anywhere in the text. */
  ghost predicate Free(s: string, prefix: string) {
    forall p :: 0 <= p <= |s| ==> !StartsWith(s[p..], prefix)
  }

  ghost predicate FreeBefore(s: string, prefix: string, end: nat) {
    forall p :: 0 <= p < end && p <= |s| ==> !StartsWith(s[p..], prefix)
  }

  ghost predicate SchemeFree(s: string) {
    Free(s, "https://") && Free(s, "http://") && Free(s, "ftp://") && Free(s, "smb://") && Free(s, "file://")
  }

  predicate IsScheme(prefix: string) {
    prefix == "https://" || prefix == "http://" || prefix == "ftp://" || prefix == "smb://" || prefix == "file://"
  }

  lemma SchemeIsForeign(prefix: string)
    requires IsScheme(prefix)
    ensures Foreign(prefix)
  {}

  lemma {:induction false} TrimTrailingKeeps(s: string, k: nat)
    requires k < |s| && !IsTrailing(s[k])
    ensures |TrimTrailing(s)| > k
  {
    if IsTrailing(Last(s)) { TrimTrailingKeeps(Init(s), k); }
  }

  lemma {:induction false} TokenEndAfter(s: string, from: nat, k: nat)
    requires from <= k <= |s| && forall j :: from <= j < k ==> !EndsToken(s[j])
    ensures TokenEnd(s, from) >= k
    decreases |s| - from
  {
    if from < k { TokenEndAfter(s, from + 1, k); }
  }

  lemma UpperIsNoEnd(c: char)
    ensures EndsToken(AsciiLower(c)) <==> EndsToken(c)
    ensures AsciiLower(c) == '/' ==> c == '/'
  {}

  /** A scheme at the start of the text is an address. */
  lemma SchemeIsUrl(s: string, prefix: string)
    requires IsScheme(prefix) && StartsWith(s, prefix)
    ensures UrlLength(s).Some?
  {
    SchemeIsForeign(prefix);
    var n := |prefix|;
    forall j | 0 <= j < n ensures !EndsToken(s[j]) {
      UpperIsNoEnd(s[j]);
      assert !EndsToken(prefix[j]);
    }
    TokenEndAfter(s, 0, n);
    var token := s[..TokenEnd(s, 0)];
    UpperIsNoEnd(s[n - 1]);
    assert token[n - 1] == s[n - 1] == '/';
    TrimTrailingKeeps(token, n - 1);
    var trimmed := TrimTrailing(token);
    forall k | 0 <= k < n ensures AsciiLower(trimmed[k]) == prefix[k] { assert trimmed[k] == s[k]; }
    assert StartsWith(trimmed, prefix);
  }

  /** Text put in place of an address starts no scheme, inside it or across its start. */
  lemma ReplacementStartsNothing(before: string, after: string, original: string, prefix: string, p: nat)
    requires Foreign(prefix) && FreeBefore(before + original, prefix, |before|)
    requires p < |before| + |REPLACEMENT|
    ensures !StartsWith((before + REPLACEMENT + after)[p..], prefix)
  {
    var r := REPLACEMENT;
    assert r == "external reference" && |r| == 18;
    var s := before + r + after;
    var t := s[p..];
    if p < |before| {
      var d := |before| - p;
      if |prefix| <= d {
        assert !StartsWith((before + original)[p..], prefix);
        forall k | 0 <= k < |prefix| ensures t[k] == (before + original)[p..][k] {}
      } else {
        assert t[d] == r[0] == 'e' && t[d + 1] == r[1] == 'x';
      }
    } else {
      var o := p - |before|;
      assert t[0] == r[o];
      if AsciiLower(t[0]) == prefix[0] {
        InsideReplacement(o, prefix);
        assert t[1] == r[o + 1] == 'e';
      }
    }
  }

  lemma InsideReplacement(o: nat, prefix: string)
    requires o < 18 && Foreign(prefix) && AsciiLower(REPLACEMENT[o]) == prefix[0]
    ensures o == 11 && REPLACEMENT[12] == 'e'
  {
    var r := REPLACEMENT;
    assert r == "external reference";
  }

  lemma FreeAtEnd(before: string, prefix: string)
    requires prefix != "" && FreeBefore(before, prefix, |before|)
    ensures Free(before, prefix)
  {
    assert before[|before|..] == "";
  }

  lemma FreeBehindReplacement(before: string, s: string, n: nat, prefix: string)
    requires Foreign(prefix) && n <= |s| && FreeBefore(before + s, prefix, |before|)
    ensures FreeBefore(before + REPLACEMENT + s[n..], prefix, |before + REPLACEMENT|)
  {
    forall p | 0 <= p < |before + REPLACEMENT| ensures !StartsWith((before + REPLACEMENT + s[n..])[p..], prefix) {
      ReplacementStartsNothing(before, s[n..], s, prefix, p);
    }
  }

  lemma FreeBehindCharacter(before: string, s: string, prefix: string)
    requires s != "" && !StartsWith(s, prefix) && FreeBefore(before + s, prefix, |before|)
    ensures FreeBefore(before + [s[0]] + s[1..], prefix, |before| + 1)
  {
    assert before + [s[0]] + s[1..] == before + s;
    assert (before + s)[|before|..] == s;
  }

  lemma FreeStep(before: string, s: string, prefix: string)
    requires IsScheme(prefix) && s != "" && FreeBefore(before + s, prefix, |before|)
    ensures UrlLength(s).Some? ==>
      5 <= UrlLength(s).value <= |s| &&
      FreeBefore(before + REPLACEMENT + s[UrlLength(s).value..], prefix, |before + REPLACEMENT|)
    ensures UrlLength(s).None? ==> FreeBefore(before + [s[0]] + s[1..], prefix, |before| + 1)
  {
    SchemeIsForeign(prefix);
    if UrlLength(s).Some? {
      UrlLengthAtLeast(s);
      FreeBehindReplacement(before, s, UrlLength(s).value, prefix);
    } else {
      if StartsWith(s, prefix) { SchemeIsUrl(s, prefix); }
      FreeBehindCharacter(before, s, prefix);
    }
  }

  lemma Regroup(a: string, b: string, c: string)
    ensures a + b + c == a + (b + c)
  {}

  lemma {:induction false} ReplaceUrlsFree(before: string, s: string, prefix: string)
    requires IsScheme(prefix) && FreeBefore(before + s, prefix, |before|)
    ensures Free(before + ReplaceUrls(s), prefix)
    decreases |s|
  {
    if s == "" {
      assert before + s == before && before + ReplaceUrls(s) == before;
      FreeAtEnd(before, prefix);
    } else {
      FreeStep(before, s, prefix);
      ReplaceUrlsStep(s);
      match UrlLength(s)
      case Some(n) =>
        ReplaceUrlsFree(before + REPLACEMENT, s[n..], prefix);
        Regroup(before, REPLACEMENT, ReplaceUrls(s[n..]));
      case None =>
        ReplaceUrlsFree(before + [s[0]], s[1..], prefix);
        Regroup(before, [s[0]], ReplaceUrls(s[1..]));
    }
  }

  lemma EmptyIsFree(prefix: string)
    requires IsScheme(prefix)
    ensures Free("", prefix)
  {}

  lemma LineFree(line: string, prefix: string)
    requires IsScheme(prefix)
    ensures Free(ProjectedLine(line), prefix)
  {
    EmptyIsFree(prefix);
    var title := StripAtx(TrimBlanks(line));
    ReplaceUrlsFree("", title, prefix);
    assert "" + ReplaceUrls(title) == ReplaceUrls(title);
  }

  /** A scheme does not reach over the end of a line. */
  lemma LinesFree(a: string, b: string, prefix: string)
    requires Foreign(prefix) && Free(a, prefix) && Free(b, prefix)
    ensures Free(a + "\n" + b, prefix)
  {
    var s := a + "\n" + b;
    forall p | 0 <= p <= |s| ensures !StartsWith(s[p..], prefix) {
      if p > |a| {
        assert s[p..] == b[p - |a| - 1..];
      } else {
        var d := |a| - p;
        assert s[p..][d] == '\n';
        assert !StartsWith(a[p..], prefix);
        if |prefix| <= d {
          forall k | 0 <= k < |prefix| ensures s[p..][k] == a[p..][k] {}
        } else {
          assert prefix[d] != '\n';
        }
      }
    }
  }

  lemma {:induction false} MarkdownFree(s: string, prefix: string)
    requires IsScheme(prefix)
    ensures Free(ProjectedMarkdown(s), prefix)
    decreases |s|
  {
    SchemeIsForeign(prefix);
    if s == "" {
      EmptyIsFree(prefix);
    } else if Cut(s) == |s| {
      LineFree(s, prefix);
    } else {
      LineFree(s[..Cut(s)], prefix);
      MarkdownFree(s[Cut(s) + 1..], prefix);
      LinesFree(ProjectedLine(s[..Cut(s)]), ProjectedMarkdown(s[Cut(s) + 1..]), prefix);
    }
  }

  /** Whatever the model wrote, no scheme with slashes starts anywhere, in any mix of cases. */
  lemma NormalizedIsSchemeFree(body: string)
    ensures SchemeFree(Normalized(body))
  {
    var text := Truncated(Projected(body), MAX_MODEL_PLAIN_TEXT_BYTES);
    MarkdownFree(text, "https://");
    MarkdownFree(text, "http://");
    MarkdownFree(text, "ftp://");
    MarkdownFree(text, "smb://");
    MarkdownFree(text, "file://");
  }
}
