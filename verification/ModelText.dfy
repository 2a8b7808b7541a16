/** Projecting model output to text without links or markup. */
module ModelText {
  import opened Wrappers
  import opened Text
  import opened Splitting

  const MAX_MODEL_PLAIN_TEXT_BYTES: nat := 65536

  const REPLACEMENT := "external reference"

  // ---- sizes ----

  function Width(c: char): (n: nat)
    ensures 1 <= n <= 4
  {
    if c < '\U{0080}' then 1 else if c < '\U{0800}' then 2 else if c < '\U{10000}' then 3 else 4
  }

  /** The length in UTF-8. */
  function Bytes(s: string): nat {
    if s == "" then 0 else Bytes(Init(s)) + Width(Last(s))
  }

  lemma {:induction false} BytesConcat(a: string, b: string)
    ensures Bytes(a + b) == Bytes(a) + Bytes(b)
  {
    if b == "" {
      assert a + b == a;
    } else {
      assert Init(a + b) == a + Init(b) && Last(a + b) == Last(b);
      BytesConcat(a, Init(b));
    }
  }

  lemma BytesSlice(s: string, i: nat, j: nat)
    requires i <= j <= |s|
    ensures Bytes(s) == Bytes(s[..i]) + Bytes(s[i..j]) + Bytes(s[j..])
  {
    assert s == s[..i] + s[i..j] + s[j..];
    BytesConcat(s[..i] + s[i..j], s[j..]);
    BytesConcat(s[..i], s[i..j]);
  }

  lemma {:induction false} BytesAtLeast(s: string)
    ensures |s| <= Bytes(s)
  {
    if s != "" { BytesAtLeast(Init(s)); }
  }

  /** The longest prefix of at most so many bytes. */
  function Truncated(s: string, max: nat): string {
    if Bytes(s) <= max || s == "" then s else Truncated(Init(s), max)
  }

  lemma {:induction false} TruncatedIsLongest(s: string, max: nat)
    ensures Truncated(s, max) <= s && Bytes(Truncated(s, max)) <= max
    ensures forall k :: |Truncated(s, max)| < k <= |s| ==> Bytes(s[..k]) > max
  {
    if Bytes(s) > max && s != "" {
      TruncatedIsLongest(Init(s), max);
      forall k | |Truncated(s, max)| < k <= |s| ensures Bytes(s[..k]) > max {
        if k < |s| { assert Init(s)[..k] == s[..k]; } else { assert s[..k] == s; }
      }
    }
  }

  // ---- tokens ----

  function AsciiLower(c: char): char { if 'A' <= c <= 'Z' then (c as int + 32) as char else c }

  predicate StartsWith(s: string, prefix: string) {
    |prefix| <= |s| && forall k :: 0 <= k < |prefix| ==> AsciiLower(s[k]) == prefix[k]
  }

  predicate EndsToken(c: char) {
    IsWhitespace(c) || c == ')' || c == ']' || c == '>' || c == '"' || c == '\'' || c == '`'
  }

  function TokenEnd(s: string, from: nat): (k: nat)
    requires from <= |s|
    ensures from <= k <= |s| && (k < |s| ==> EndsToken(s[k]))
    decreases |s| - from
  {
    if from == |s| || EndsToken(s[from]) then from else TokenEnd(s, from + 1)
  }

  predicate IsMarkup(c: char) { c == '[' || c == ']' || c == '<' || c == '>' }

  ghost predicate NoMarkup(s: string) { forall k :: 0 <= k < |s| ==> !IsMarkup(s[k]) }

  // ---- the first pass ----

  predicate StartsWeb(s: string) { StartsWith(s, "https://") || StartsWith(s, "http://") }

  function Plain(c: char): char { if IsMarkup(c) then ' ' else c }

  function Projected(s: string): string
    decreases |s|
  {
    if s == "" then ""
    else if StartsWeb(s) then REPLACEMENT + Projected(s[TokenEnd(s, 1)..])
    else [Plain(s[0])] + Projected(s[1..])
  }

  method ProjectModelSourceText(input: string) returns (output: string)
    ensures output == Truncated(Projected(input), 65536)
  {
    output := "";
    var offset := 0;
    assert input[0..] == input;
    while offset < |input|
      invariant offset <= |input| && Projected(input) == output + Projected(input[offset..])
    {
      var remaining := input[offset..];
      if StartsWeb(remaining) {
        var length := TokenEnd(remaining, 1);
        output := output + REPLACEMENT;
        assert remaining[length..] == input[offset + length..];
        offset := offset + length;
      } else {
        output := output + [Plain(remaining[0])];
        assert remaining[1..] == input[offset + 1..];
        offset := offset + 1;
      }
    }
    assert input[offset..] == "" && output + "" == output;
    output := Truncated(output, MAX_MODEL_PLAIN_TEXT_BYTES);
  }

  lemma ReplacementIsPlain()
    ensures NoMarkup(REPLACEMENT) && |REPLACEMENT| == 18 && Bytes(REPLACEMENT) == 18
  {
    var r := REPLACEMENT;
    assert r == "external reference" && |r| == 18;
    forall k | 0 <= k < |r| ensures 'a' <= r[k] <= 'z' || r[k] == ' ' {}
    BytesOfAscii(r);
  }

  lemma {:induction false} BytesOfAscii(s: string)
    requires forall k :: 0 <= k < |s| ==> s[k] < '\U{0080}'
    ensures Bytes(s) == |s|
  {
    if s != "" { BytesOfAscii(Init(s)); }
  }

  lemma {:induction false} ProjectedIsPlain(s: string)
    ensures NoMarkup(Projected(s))
    decreases |s|
  {
    if s != "" {
      if StartsWeb(s) {
        ProjectedIsPlain(s[TokenEnd(s, 1)..]);
        ReplacementIsPlain();
      } else {
        ProjectedIsPlain(s[1..]);
      }
    }
  }

  // ---- addresses ----

  predicate IsTrailing(c: char) { c == '.' || c == ',' || c == ';' || c == ':' || c == '!' || c == '?' }

  function TrimTrailing(s: string): (t: string)
    ensures |t| <= |s| && t == s[..|t|] && (t != "" ==> !IsTrailing(Last(t)))
  {
    if s != "" && IsTrailing(Last(s)) then TrimTrailing(Init(s)) else s
  }

  predicate HasScheme(s: string) {
    StartsWith(s, "https://") || StartsWith(s, "http://") || StartsWith(s, "ftp://") || StartsWith(s, "smb://") ||
    StartsWith(s, "file://")
  }

  predicate NotDot(c: char) { c != '.' }

  function Locator(s: string): (k: nat)
    ensures k <= |s|
  {
    if s == "" || s[0] == '/' || s[0] == '?' || s[0] == '#' then 0 else 1 + Locator(s[1..])
  }

  predicate IsAsciiLetter(c: char) { 'a' <= c <= 'z' || 'A' <= c <= 'Z' }

  predicate IsLabel(s: string) {
    s != "" && forall k :: 0 <= k < |s| ==> IsAsciiLetter(s[k]) || '0' <= s[k] <= '9' || s[k] == '-'
  }

  predicate IsDomain(labels: seq<string>) {
    |labels| >= 2 && (forall k :: 0 <= k < |labels| ==> IsLabel(labels[k])) &&
    |Last(labels)| >= 2 && forall k :: 0 <= k < |Last(labels)| ==> IsAsciiLetter(Last(labels)[k])
  }

  /** A domain with a path, query or fragment, or one that starts with www. */
  predicate IsBareUrl(token: string) {
    (Locator(token) < |token| || StartsWith(token, "www.")) && IsDomain(Pieces(NotDot, token[..Locator(token)]))
  }

  function UrlLength(s: string): Option<nat> {
    var token := TrimTrailing(s[..TokenEnd(s, 0)]);
    if token == "" then None
    else if HasScheme(token) || StartsWith(token, "mailto:") || StartsWith(token, "javascript:") || IsBareUrl(token)
    then Some(|token|) else None
  }

  lemma {:induction false} JoinLength(words: seq<string>)
    requires |words| >= 2
    ensures |Join(".", words)| >= |words[0]| + 1 + |Last(words)|
  {
    if |words| > 2 { JoinLength(Init(words)); }
  }

  /** The shortest address has five characters. */
  lemma BareUrlLength(token: string)
    requires IsBareUrl(token)
    ensures |token| >= 5
  {
    var host := token[..Locator(token)];
    var labels := Pieces(NotDot, host);
    JoinOfPieces(NotDot, '.', host);
    JoinLength(labels);
    assert IsLabel(labels[0]);
    if Locator(token) == |token| {
      assert host == token;
      if |token| == 4 { WwwAlone(token); }
    }
  }

  lemma WwwAlone(token: string)
    requires |token| == 4 && StartsWith(token, "www.")
    ensures Last(Pieces(NotDot, token)) == ""
  {
    assert AsciiLower(token[3]) == "www."[3] == '.';
    assert Last(token) == '.';
  }

  lemma UrlLengthAtLeast(s: string)
    requires UrlLength(s).Some?
    ensures 5 <= UrlLength(s).value <= |s|
  {
    var token := TrimTrailing(s[..TokenEnd(s, 0)]);
    if IsBareUrl(token) { BareUrlLength(token); }
  }
}
