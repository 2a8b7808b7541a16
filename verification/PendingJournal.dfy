/** The text of the pending-change journal: how paths are appended and how they are read back. */
module PendingJournal {
  import opened Wrappers
  import opened Sequences
  import opened Splitting
  import opened Text

  /** A path that survives the line format: not empty, on one line, not padded. */
  predicate Clean(path: string) {
    path != "" && '\n' !in path && Bare(path)
  }

  predicate NoDuplicates<T(==)>(s: seq<T>) {
    forall i, j :: 0 <= i < j < |s| ==> s[i] != s[j]
  }

  /** First occurrences, in order. */
  function Distinct(paths: seq<string>): (out: seq<string>)
    ensures NoDuplicates(out)
    ensures forall p :: p in out <==> p in paths
    decreases |paths|
  {
    if paths == [] then []
    else
      var last := paths[|paths| - 1];
      var out := Distinct(paths[..|paths| - 1]);
      assert paths == paths[..|paths| - 1] + [last];
      if last in out then out else out + [last]
  }

  function Trimmed(lines: seq<string>): (out: seq<string>)
    ensures |out| == |lines| && forall i :: 0 <= i < |lines| ==> out[i] == Trim(lines[i])
  {
    MapSeq(lines, l => Trim(l))
  }

  /** The distinct non-blank lines of the journal. */
  function ParsePending(journal: string): seq<string> {
    Distinct(NonEmpty(Trimmed(Lines(journal))))
  }

  /** The paths given, one to a line. */
  function AppendPaths(journal: string, paths: seq<string>): string
    decreases |paths|
  {
    if paths == [] then journal else AppendPaths(journal + paths[0] + "\n", paths[1..])
  }

  lemma TrimmedMember(lines: seq<string>, path: string)
    ensures path in Trimmed(lines) <==> exists l :: l in lines && Trim(l) == path
  {
    var trimmed := Trimmed(lines);
    if i :| 0 <= i < |trimmed| && trimmed[i] == path {
      assert lines[i] in lines;
    }
    if l :| l in lines && Trim(l) == path {
      var i :| 0 <= i < |lines| && lines[i] == l;
      assert trimmed[i] in trimmed;
    }
  }

  lemma ParsedIff(journal: string, path: string)
    ensures path in ParsePending(journal) <==> path != "" && exists l :: l in Lines(journal) && Trim(l) == path
  {
    TrimmedMember(Lines(journal), path);
    NonEmptyMember(Trimmed(Lines(journal)), path);
    assert path in ParsePending(journal) <==> path in NonEmpty(Trimmed(Lines(journal)));
  }

  lemma NonEmptyMember(words: seq<string>, w: string)
    ensures w in NonEmpty(words) <==> w in words && w != ""
  {
    if w in NonEmpty(words) { NonEmptyFrom(words, w); }
    if w in words && w != "" { NonEmptyHas(words, w); }
  }

  /** Appending a path keeps everything already journaled, and a clean path is itself read back. */
  lemma AppendKeeps(journal: string, path: string, old': string)
    requires Terminated(journal)
    ensures Terminated(journal + path + "\n")
    ensures old' in ParsePending(journal) ==> old' in ParsePending(journal + path + "\n")
    ensures Clean(path) ==> path in ParsePending(journal + path + "\n")
  {
    assert journal + path + "\n" == journal + (path + "\n");
    LinesConcat(journal, path + "\n");
    if old' in ParsePending(journal) { MoreLines(journal, journal + path + "\n", Lines(path + "\n"), old'); }
    if Clean(path) {
      LineAppended(journal, path);
      TrimBare(path);
      LineParsed(journal + path + "\n", Lines(journal), path);
    }
  }

  lemma MoreLines(journal: string, longer: string, more: seq<string>, path: string)
    requires Lines(longer) == Lines(journal) + more && path in ParsePending(journal)
    ensures path in ParsePending(longer)
  {
    ParsedIff(journal, path);
    ParsedIff(longer, path);
    var l :| l in Lines(journal) && Trim(l) == path;
    assert l in Lines(longer);
  }

  lemma LineParsed(journal: string, before: seq<string>, path: string)
    requires Lines(journal) == before + [path] && path != "" && Trim(path) == path
    ensures path in ParsePending(journal)
  {
    ParsedIff(journal, path);
    assert path in Lines(journal);
  }

  lemma LineAppended(journal: string, path: string)
    requires Terminated(journal) && Clean(path)
    ensures Terminated(journal + path + "\n")
    ensures Lines(journal + path + "\n") == Lines(journal) + [path]
  {
    assert journal + path + "\n" == journal + (path + "\n");
    LinesConcat(journal, path + "\n");
    OneLine(path);
    assert StripReturn(path) == path;
  }

  ghost predicate AllClean(paths: seq<string>) {
    forall i :: 0 <= i < |paths| ==> Clean(paths[i])
  }

  lemma AllCleanTail(paths: seq<string>)
    requires paths != [] && AllClean(paths)
    ensures Clean(paths[0]) && AllClean(paths[1..])
  {}

  lemma {:induction false} AppendAll(journal: string, paths: seq<string>)
    requires Terminated(journal) && AllClean(paths)
    ensures Lines(AppendPaths(journal, paths)) == Lines(journal) + paths
    decreases |paths|
  {
    if paths != [] {
      AllCleanTail(paths);
      LineAppended(journal, paths[0]);
      AppendAll(journal + paths[0] + "\n", paths[1..]);
      AppendedTail(Lines(journal), paths);
    }
  }

  lemma AppendedTail<T>(lines: seq<T>, paths: seq<T>)
    requires paths != []
    ensures lines + [paths[0]] + paths[1..] == lines + paths
  {}

  /** Round trip: a drained journal gives back the clean paths queued into it, first occurrences
      first, without repetition. */
  lemma QueueThenDrain(paths: seq<string>)
    requires AllClean(paths)
    ensures ParsePending(AppendPaths("", paths)) == Distinct(paths)
  {
    AppendAll("", paths);
    assert Lines("") + paths == paths;
    forall i | 0 <= i < |paths| ensures Trim(paths[i]) == paths[i] && paths[i] != "" {
      assert Clean(paths[i]);
      TrimBare(paths[i]);
    }
    assert Trimmed(paths) == paths;
    AllNonEmpty(paths);
  }

  function Flatten(sources: seq<Option<seq<string>>>): seq<string> {
    if sources == [] then []
    else (if sources[0].Some? then sources[0].value else []) + Flatten(sources[1..])
  }

  lemma {:induction false} FlattenStep(sources: seq<Option<seq<string>>>, k: nat)
    requires k < |sources|
    ensures Flatten(sources[..k + 1]) ==
            Flatten(sources[..k]) + if sources[k].Some? then sources[k].value else []
    decreases k
  {
    if k > 0 {
      FlattenStep(sources[1..], k - 1);
      assert sources[..k + 1][1..] == sources[1..][..k];
      assert sources[..k][1..] == sources[1..][..k - 1];
    }
  }

  lemma DistinctStep(paths: seq<string>, path: string)
    ensures Distinct(paths + [path]) ==
            if path in paths then Distinct(paths) else Distinct(paths) + [path]
  {
    assert (paths + [path])[..|paths|] == paths;
  }

  /** Append the paths of one list that have not been seen. */
  method MergeInto(merged0: seq<string>, seen0: set<string>, paths: seq<string>, ghost before: seq<string>)
    returns (merged: seq<string>, seen: set<string>)
    requires merged0 == Distinct(before) && forall p :: p in seen0 <==> p in merged0
    ensures merged == Distinct(before + paths) && forall p :: p in seen <==> p in merged
  {
    merged, seen := merged0, seen0;
    assert before + paths[..0] == before;
    for i := 0 to |paths|
      invariant merged == Distinct(before + paths[..i])
      invariant forall p :: p in seen <==> p in merged
    {
      DistinctStep(before + paths[..i], paths[i]);
      assert before + paths[..i + 1] == before + paths[..i] + [paths[i]];
      assert paths[i] in merged <==> paths[i] in before + paths[..i];
      if paths[i] !in seen {
        seen := seen + {paths[i]};
        merged := merged + [paths[i]];
      }
    }
    assert paths[..|paths|] == paths;
  }

  /** The paths of all present lists, first occurrences in order. */
  method MergeChangedPaths(sources: seq<Option<seq<string>>>) returns (merged: seq<string>)
    ensures merged == Distinct(Flatten(sources))
  {
    merged := [];
    var seen: set<string> := {};
    for k := 0 to |sources|
      invariant merged == Distinct(Flatten(sources[..k]))
      invariant forall p :: p in seen <==> p in merged
    {
      FlattenStep(sources, k);
      if sources[k].Some? {
        merged, seen := MergeInto(merged, seen, sources[k].value, Flatten(sources[..k]));
      } else {
        assert Flatten(sources[..k]) + [] == Flatten(sources[..k]);
      }
    }
    assert sources[..|sources|] == sources;
  }
}
