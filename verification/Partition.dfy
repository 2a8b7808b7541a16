/** Splitting record differences by whether they concern identities both graphs have. */
module Partition {
  import opened Json
  import opened GraphRecords

  datatype Counts = Counts(shared: nat, sideOnly: nat, unresolved: nat)

  /** The identities a record refers to, or none when it has no usable reference list. */
  datatype Subject = NoSubject | Subject(ids: set<string>)

  function EdgeSubject(edge: Value, host: Host): Subject {
    if edge.Obj? then Subject({host.text(Get(edge.fields, "source")), host.text(Get(edge.fields, "target"))})
    else NoSubject
  }

  function HyperedgeSubject(hyperedge: Value, host: Host): Subject {
    if hyperedge.Obj? && Get(hyperedge.fields, "nodes").Arr? && Get(hyperedge.fields, "nodes").items != []
    then Subject(set m | m in Get(hyperedge.fields, "nodes").items :: host.text(m))
    else NoSubject
  }

  predicate WithinShared(subject: Subject, shared: set<string>) {
    subject.Subject? && subject.ids <= shared
  }

  predicate SideOnly(subject: Subject, shared: set<string>, sideOnly: set<string>) {
    subject.Subject? && !(subject.ids <= shared) && subject.ids * sideOnly != {}
  }

  /** The occurrences in `m` that satisfy `p`, each as often as in `m`. */
  ghost function Selected<T(!new)>(m: multiset<T>, p: T -> bool): (s: multiset<T>)
    ensures forall x :: s[x] == if p(x) then m[x] else 0
  {
    if m == multiset{} then multiset{}
    else
      var x :| x in m;
      var rest := Selected(m[x := 0], p);
      if p(x) then rest[x := m[x]] else rest
  }

  /** Walk the distinct records of a difference, in any order, adding up their multiplicities. */
  method PartitionDifference(difference: multiset<Value>, subject: Value -> Subject,
                             shared: set<string>, sideOnly: set<string>)
    returns (counts: Counts)
    ensures counts.shared == |Selected(difference, x => WithinShared(subject(x), shared))|
    ensures counts.sideOnly == |Selected(difference, x => SideOnly(subject(x), shared, sideOnly))|
    ensures counts.shared + counts.sideOnly + counts.unresolved == |difference|
  {
    ghost var inShared := x => WithinShared(subject(x), shared);
    ghost var inSide := x => SideOnly(subject(x), shared, sideOnly);
    counts := Counts(0, 0, 0);
    var rest := difference;
    while rest != multiset{}
      invariant counts.shared + |Selected(rest, inShared)| == |Selected(difference, inShared)|
      invariant counts.sideOnly + |Selected(rest, inSide)| == |Selected(difference, inSide)|
      invariant counts.shared + counts.sideOnly + counts.unresolved + |rest| == |difference|
      decreases |rest|
    {
      var record :| record in rest;
      var count := rest[record];
      RemoveOne(rest, record);
      SelectedRemove(rest, record, inShared);
      SelectedRemove(rest, record, inSide);
      rest := rest[record := 0];
      if WithinShared(subject(record), shared) {
        counts := counts.(shared := counts.shared + count);
      } else if SideOnly(subject(record), shared, sideOnly) {
        counts := counts.(sideOnly := counts.sideOnly + count);
      } else {
        counts := counts.(unresolved := counts.unresolved + count);
      }
    }
    assert Selected(multiset{}, inShared) == multiset{};
    assert Selected(multiset{}, inSide) == multiset{};
  }

  lemma RemoveOne<T>(m: multiset<T>, x: T)
    ensures |m[x := 0]| + m[x] == |m|
  {
    assert m == m[x := 0] + multiset{}[x := m[x]];
  }

  lemma SelectedRemove<T(!new)>(m: multiset<T>, x: T, p: T -> bool)
    ensures |Selected(m, p)| == |Selected(m[x := 0], p)| + if p(x) then m[x] else 0
  {
    assert Selected(m[x := 0], p) == Selected(m, p)[x := 0];
    RemoveOne(Selected(m, p), x);
  }

  lemma SelectedDifference<T(!new)>(left: multiset<T>, right: multiset<T>, p: T -> bool)
    ensures Selected(left - right, p) == Selected(left, p) - Selected(right, p)
  {}

  lemma CommonAndOwn<T>(l: multiset<T>, r: multiset<T>)
    ensures |l * r| + |l - r| == |l|
  {
    assert l * r + (l - r) == l;
  }

  /** Among the records satisfying `p`, each side splits exactly into the records both sides
      have and the records only it has. */
  lemma DifferenceAccounting<T(!new)>(left: multiset<T>, right: multiset<T>, p: T -> bool)
    ensures |Selected(left, p) * Selected(right, p)| + |Selected(left - right, p)| == |Selected(left, p)|
    ensures |Selected(left, p) * Selected(right, p)| + |Selected(right - left, p)| == |Selected(right, p)|
  {
    var l, r := Selected(left, p), Selected(right, p);
    SelectedDifference(left, right, p);
    SelectedDifference(right, left, p);
    CommonAndOwn(l, r);
    CommonAndOwn(r, l);
    assert l * r == r * l;
  }

  lemma NoDifference<T>(l: multiset<T>, r: multiset<T>)
    ensures |l - r| == 0 && |r - l| == 0 <==> l == r
  {
    if |l - r| == 0 && |r - l| == 0 {
      assert l - r == multiset{} && r - l == multiset{};
      forall x ensures l[x] == r[x] {
        assert (l - r)[x] == 0 && (r - l)[x] == 0;
      }
    }
  }

  /** The two collections agree on shared identities exactly when nothing shared is missing or extra. */
  lemma SharedAgreement<T(!new)>(left: multiset<T>, right: multiset<T>, p: T -> bool)
    ensures |Selected(left - right, p)| == 0 && |Selected(right - left, p)| == 0
       <==> Selected(left, p) == Selected(right, p)
  {
    SelectedDifference(left, right, p);
    SelectedDifference(right, left, p);
    NoDifference(Selected(left, p), Selected(right, p));
  }

  lemma SelectedAdd<T(!new)>(m: multiset<T>, x: T, p: T -> bool)
    ensures Selected(m + multiset{x}, p) == Selected(m, p) + if p(x) then multiset{x} else multiset{}
  {}

  lemma SelectedTake<T(!new)>(m: multiset<T>, x: T, p: T -> bool)
    requires x in m
    ensures Selected(m - multiset{x}, p) == Selected(m, p) - if p(x) then multiset{x} else multiset{}
    ensures p(x) ==> x in Selected(m, p)
  {}
}
