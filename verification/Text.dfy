/** Lines and surrounding white space of text. */
module Text {

  /** The Unicode White_Space characters. */
  predicate IsWhitespace(c: char) {
    ('\t' <= c <= '\r') || c == ' ' || c == '\U{0085}' || c == '\U{00A0}' || c == '\U{1680}' ||
    ('\U{2000}' <= c <= '\U{200A}') || c == '\U{2028}' || c == '\U{2029}' || c == '\U{202F}' ||
    c == '\U{205F}' || c == '\U{3000}'
  }

  function TrimStart(s: string): (t: string)
    ensures t == [] || !IsWhitespace(t[0])
    ensures |t| <= |s| && t == s[|s| - |t|..]
  {
    if s != [] && IsWhitespace(s[0]) then TrimStart(s[1..]) else s
  }

  function TrimEnd(s: string): (t: string)
    ensures t == [] || !IsWhitespace(t[|t| - 1])
    ensures |t| <= |s| && t == s[..|t|]
  {
    if s != [] && IsWhitespace(s[|s| - 1]) then TrimEnd(s[..|s| - 1]) else s
  }

  function Trim(s: string): string { TrimEnd(TrimStart(s)) }

  /** No white space at either end. */
  predicate Bare(s: string) {
    s == [] || (!IsWhitespace(s[0]) && !IsWhitespace(s[|s| - 1]))
  }

  lemma TrimBare(s: string)
    requires Bare(s)
    ensures Trim(s) == s && TrimStart(s) == s && TrimEnd(s) == s
  {}

  lemma TrimEndExtend(s: string, c: char)
    requires IsWhitespace(c)
    ensures TrimEnd(s + [c]) == TrimEnd(s)
  {
    assert (s + [c])[..|s + [c]| - 1] == s;
  }

  lemma {:induction false} TrimStartExtend(s: string, c: char)
    ensures TrimStart(s + [c]) ==
      if TrimStart(s) != "" then TrimStart(s) + [c] else if IsWhitespace(c) then "" else [c]
  {
    if s == "" {
      assert s + [c] == [c] && [c][1..] == "";
    } else if IsWhitespace(s[0]) {
      assert (s + [c])[1..] == s[1..] + [c];
      TrimStartExtend(s[1..], c);
    }
  }

  lemma TrimExtend(s: string, c: char)
    requires IsWhitespace(c)
    ensures Trim(s + [c]) == Trim(s)
  {
    TrimStartExtend(s, c);
    if TrimStart(s) != "" { TrimEndExtend(TrimStart(s), c); }
  }

  /** How often a character is repeated at the start. */
  function Leading(s: string, c: char): (n: nat)
    ensures n <= |s|
  {
    if s != "" && s[0] == c then 1 + Leading(s[1..], c) else 0
  }

  // ---- lines ----

  /** The length of the first line. */
  function Cut(s: string): (k: nat)
    ensures k <= |s| && (k < |s| ==> s[k] == '\n')
  {
    if s == [] || s[0] == '\n' then 0 else 1 + Cut(s[1..])
  }

  lemma {:induction false} CutClean(s: string, j: nat)
    requires j < Cut(s)
    ensures s[j] != '\n'
  {
    if j > 0 { CutClean(s[1..], j - 1); }
  }

  function StripReturn(s: string): string {
    if s != [] && s[|s| - 1] == '\r' then s[..|s| - 1] else s
  }

  /** Newline-terminated lines, with an optional carriage return removed; a last line without a
      newline counts and is kept as it is. */
  function Lines(s: string): seq<string>
    decreases |s|
  {
    if s == [] then []
    else if Cut(s) == |s| then [s]
    else [StripReturn(s[..Cut(s)])] + Lines(s[Cut(s) + 1..])
  }

  predicate Terminated(s: string) { s == [] || s[|s| - 1] == '\n' }

  lemma {:induction false} CutIs(s: string, k: nat)
    requires k <= |s| && (k < |s| ==> s[k] == '\n') && forall j :: 0 <= j < k ==> s[j] != '\n'
    ensures Cut(s) == k
    decreases k
  {
    if k > 0 { CutIs(s[1..], k - 1); }
  }

  lemma CutConcat(a: string, b: string)
    requires Cut(a) < |a|
    ensures Cut(a + b) == Cut(a)
  {
    var k := Cut(a);
    forall j | 0 <= j < k ensures (a + b)[j] != '\n' { CutClean(a, j); }
    CutIs(a + b, k);
  }

  lemma TerminatedCut(a: string)
    requires a != [] && Terminated(a)
    ensures Cut(a) < |a|
  {
    if Cut(a) == |a| { CutClean(a, |a| - 1); }
  }

  lemma {:induction false} LinesAt(s: string)
    requires Cut(s) < |s|
    ensures Lines(s) == [StripReturn(s[..Cut(s)])] + Lines(s[Cut(s) + 1..])
  {}

  lemma LinesStep(a: string, b: string, k: nat)
    requires Cut(a) == k < |a|
    ensures Lines(a + b) == [StripReturn(a[..k])] + Lines(a[k + 1..] + b)
  {
    CutConcat(a, b);
    LinesAt(a + b);
    assert (a + b)[..k] == a[..k];
    assert (a + b)[k + 1..] == a[k + 1..] + b;
  }

  /** The first line of a terminated text, and what follows it. */
  lemma FirstLine(a: string, b: string) returns (line: string, rest: string)
    requires a != [] && Terminated(a)
    ensures |rest| < |a| && Terminated(rest)
    ensures Lines(a) == [line] + Lines(rest) && Lines(a + b) == [line] + Lines(rest + b)
  {
    TerminatedCut(a);
    LinesAt(a);
    LinesStep(a, b, Cut(a));
    line, rest := StripReturn(a[..Cut(a)]), a[Cut(a) + 1..];
  }

  lemma Prepended(line: string, x: seq<string>, y: seq<string>, z: seq<string>)
    requires x == y + z
    ensures [line] + x == [line] + y + z
  {}

  /** Appending to a terminated text appends its lines. */
  lemma {:induction false} LinesConcat(a: string, b: string)
    requires Terminated(a)
    ensures Lines(a + b) == Lines(a) + Lines(b)
    decreases |a|
  {
    if a == [] {
      assert a + b == b;
    } else {
      var line, rest := FirstLine(a, b);
      LinesConcat(rest, b);
      Prepended(line, Lines(rest + b), Lines(rest), Lines(b));
    }
  }

  /** Writing one line and reading it back. */
  lemma OneLine(line: string)
    requires '\n' !in line
    ensures Lines(line + "\n") == [StripReturn(line)]
  {
    var s := line + "\n";
    forall j | 0 <= j < |line| ensures s[j] != '\n' { assert line[j] in line; }
    CutIs(s, |line|);
    LinesAt(s);
    assert s[..|line|] == line && s[|line| + 1..] == [];
  }
}
