/** Which raw graphs have no violation. */
module CleanGraphs {
  import opened Json
  import opened Wrappers
  import opened GraphRecords
  import opened Sequences
  import opened CanonicalGraph
  import opened Diagnostics
  import opened RawMeaning
  import opened Pairings

  // ---- what a clean graph is ----

  /** A text that is not empty. */
  predicate Proper(v: Option<Value>) { v.Some? && v.value.Str? && v.value.text != "" }

  predicate Relative(r: Record, field: string, host: Host) {
    Proper(Said(r, field)) ==> !host.absolute(r[field].text)
  }

  /** Whichever of the names are used, they are used for one value. */
  predicate Agree(r: Record, names: set<string>, number: Reading) {
    forall x, y | x in names && y in names :: x in r && y in r ==> JsonEqual(r[x], r[y], number)
  }

  /** Some node has this identity. */
  ghost predicate Names(nodes: seq<Value>, v: Value, host: Host) {
    exists n :: n in nodes && n.Obj? && Proper(Said(n.fields, "id")) && host.text(n.fields["id"]) == host.text(v)
  }

  predicate CleanNode(v: Value, host: Host) {
    v.Obj? &&
    var r := v.fields;
    && Proper(Said(r, "id")) && Relative(r, "id", host) && Relative(r, "source_file", host)
    && Agree(r, {"label", "name"}, host.number) && Agree(r, {"type", "node_type"}, host.number)
  }

  ghost predicate CleanEdge(v: Value, nodes: seq<Value>, host: Host) {
    v.Obj? &&
    var r := v.fields;
    && Proper(Some(SourceOf(r))) && Proper(Some(TargetOf(r))) && Proper(Some(RelationOf(r)))
    && Names(nodes, SourceOf(r), host) && Names(nodes, TargetOf(r), host)
    && (forall f | f in {"source", "target", "from", "to", "_src", "_tgt", "source_file"} :: Relative(r, f, host))
    && Agree(r, {"_src", "source", "from"}, host.number) && Agree(r, {"_tgt", "target", "to"}, host.number)
    && Agree(r, {"relation", "type"}, host.number)
  }

  /** Every member list used has the same members, in any order. */
  predicate ListsAgree(r: Record) {
    forall x, y | x in {"nodes", "members", "node_ids"} && y in {"nodes", "members", "node_ids"} ::
      x in r && y in r ==> r[x].Arr? && r[y].Arr? && multiset(r[x].items) == multiset(r[y].items)
  }

  ghost predicate CleanHyperedge(v: Value, nodes: seq<Value>, host: Host) {
    v.Obj? &&
    var r := v.fields;
    && Proper(Said(r, "id")) && Relative(r, "id", host) && Relative(r, "source_file", host) && ListsAgree(r)
    && IsList(MembersOf(r)) && MembersOf(r).value.items != []
    && forall m :: m in MembersOf(r).value.items ==> Proper(Some(m)) && Names(nodes, m, host)
  }

  /** No two records have one identity. */
  ghost predicate Distinguished(records: seq<Value>, host: Host) {
    forall i, j :: 0 <= i < j < |records| ==>
      !(ValidId(records[i], host).Some? && ValidId(records[i], host) == ValidId(records[j], host))
  }

  predicate HasCollections(g: Record) {
    && IsList(Said(g, "nodes")) && IsList(Said(g, "hyperedges")) && ("links" in g || "edges" in g)
    && ("links" in g ==> g["links"].Arr?) && ("edges" in g ==> g["edges"].Arr?)
  }

  /** Two edge lists, when there are both, hold the same edges. */
  ghost predicate EdgeListsAgree(g: Record, host: Host) {
    IsList(Said(g, "links")) && IsList(Said(g, "edges")) ==>
      Paired(g["links"].items, g["edges"].items, (x, y) => SameEdge(x, y, true, host.plain))
  }

  ghost predicate IsClean(g: Record, host: Host)
  {
    var nodes, hyperedges := RawRecords(g, "nodes"), RawRecords(g, "hyperedges");
    && HasCollections(g) && EdgeListsAgree(g, host)
    && (forall n :: n in nodes ==> CleanNode(n, host)) && Distinguished(nodes, host)
    && (forall e :: e in RawRecords(g, "links") ==> CleanEdge(e, nodes, host))
    && (forall e :: e in RawRecords(g, "edges") ==> CleanEdge(e, nodes, host))
    && (forall h :: h in hyperedges ==> CleanHyperedge(h, nodes, host)) && Distinguished(hyperedges, host)
  }

  // ---- sums ----

  lemma {:induction false} SumIsZero(s: seq<nat>)
    ensures Sum(s) == 0 <==> forall k :: k in s ==> k == 0
    decreases |s|
  {
    if s != [] {
      SumIsZero(s[1..]);
      assert s == [s[0]] + s[1..];
      if Sum(s) == 0 {
        forall k | k in s ensures k == 0 { assert k == s[0] || k in s[1..]; }
      }
      if forall k :: k in s ==> k == 0 {
        assert s[0] in s;
        forall k | k in s[1..] ensures k == 0 { assert k in s; }
      }
    }
  }

  lemma NoneCosts(records: seq<Value>, cost: Value -> nat)
    ensures Sum(MapSeq(records, cost)) == 0 <==> forall r :: r in records ==> cost(r) == 0
  {
    var costs := MapSeq(records, cost);
    SumIsZero(costs);
    if forall k :: k in costs ==> k == 0 {
      forall r | r in records ensures cost(r) == 0 {
        var i :| 0 <= i < |records| && records[i] == r;
        assert costs[i] in costs;
      }
    }
    if forall r :: r in records ==> cost(r) == 0 {
      forall k | k in costs ensures k == 0 {
        var i :| 0 <= i < |costs| && costs[i] == k;
        assert records[i] in records;
      }
    }
  }

  // ---- aliases ----

  lemma {:induction false} PresentAre(r: Record, aliases: seq<string>)
    ensures forall v :: v in Present(r, aliases) <==> exists k :: k in aliases && k in r && r[k] == v
    ensures Present(r, aliases) != [] ==> Present(r, aliases)[0] == FirstAlias(r, aliases)
    ensures Present(r, aliases) == [] ==> FirstAlias(r, aliases) == Null
    decreases |aliases|
  {
    if aliases != [] {
      PresentAre(r, aliases[1..]);
      assert aliases == [aliases[0]] + aliases[1..];
    }
  }

  lemma NoConflictAgrees(r: Record, aliases: seq<string>, names: set<string>, number: Reading)
    requires forall k :: k in names <==> k in aliases
    requires !AliasConflict(r, aliases, number)
    ensures Agree(r, names, number)
  {
    var values := Present(r, aliases);
    PresentAre(r, aliases);
    forall x, y | x in names && y in names && x in r && y in r ensures JsonEqual(r[x], r[y], number) {
      ToFirst(r, aliases, x, number);
      ToFirst(r, aliases, y, number);
      EqualSymmetric(r[y], values[0], number);
      EqualTransitive(r[x], values[0], r[y], number);
    }
  }

  lemma ToFirst(r: Record, aliases: seq<string>, x: string, number: Reading)
    requires !AliasConflict(r, aliases, number) && x in aliases && x in r
    ensures Present(r, aliases) != [] && JsonEqual(r[x], Present(r, aliases)[0], number)
  {
    var values := Present(r, aliases);
    PresentAre(r, aliases);
    assert r[x] in values;
    var i :| 0 <= i < |values| && values[i] == r[x];
    EqualReflexive(values[0], number);
  }

  lemma AgreeHasNoConflict(r: Record, aliases: seq<string>, names: set<string>, number: Reading)
    requires forall k :: k in names <==> k in aliases
    requires Agree(r, names, number)
    ensures !AliasConflict(r, aliases, number)
  {
    var values := Present(r, aliases);
    PresentAre(r, aliases);
    forall i | 0 < i < |values| ensures JsonEqual(values[i], values[0], number) {
      assert values[i] in values && values[0] in values;
      var x :| x in aliases && x in r && r[x] == values[i];
      var y :| y in aliases && y in r && r[y] == values[0];
      assert x in names && y in names;
    }
  }

  lemma ConflictIff(r: Record, aliases: seq<string>, names: set<string>, number: Reading)
    requires forall k :: k in names <==> k in aliases
    ensures AliasConflict(r, aliases, number) <==> !Agree(r, names, number)
  {
    if Agree(r, names, number) {
      AgreeHasNoConflict(r, aliases, names, number);
    } else if !AliasConflict(r, aliases, number) {
      NoConflictAgrees(r, aliases, names, number);
    }
  }

  lemma NodeAliases(r: Record, number: Reading)
    ensures AliasConflicts(NodeRecord, r, number) == 0 <==>
            Agree(r, {"label", "name"}, number) && Agree(r, {"type", "node_type"}, number)
  {
    ConflictIff(r, ["label", "name"], {"label", "name"}, number);
    ConflictIff(r, ["type", "node_type"], {"type", "node_type"}, number);
  }

  lemma EdgeAliases(r: Record, number: Reading)
    ensures AliasConflicts(EdgeRecord, r, number) == 0 <==>
            Agree(r, {"_src", "source", "from"}, number) && Agree(r, {"_tgt", "target", "to"}, number) &&
            Agree(r, {"relation", "type"}, number)
  {
    ConflictIff(r, SOURCE_ALIASES, {"_src", "source", "from"}, number);
    ConflictIff(r, TARGET_ALIASES, {"_tgt", "target", "to"}, number);
    ConflictIff(r, ["relation", "type"], {"relation", "type"}, number);
  }

  lemma {:induction false} AbsoluteAre(r: Record, fields: seq<string>, host: Host)
    ensures AbsoluteIds(r, fields, host) == 0 <==> forall f :: f in fields ==> Relative(r, f, host)
    decreases |fields|
  {
    if fields != [] {
      AbsoluteAre(r, fields[1..], host);
      assert fields == [fields[0]] + fields[1..];
      assert Truth(IsAbsolute(Get(r, fields[0]), host)) == 0 <==> Relative(r, fields[0], host);
      if AbsoluteIds(r, fields, host) == 0 {
        forall f | f in fields ensures Relative(r, f, host) { assert f == fields[0] || f in fields[1..]; }
      }
      if forall f :: f in fields ==> Relative(r, f, host) {
        assert fields[0] in fields;
        forall f | f in fields[1..] ensures Relative(r, f, host) { assert f in fields; }
      }
    }
  }

  // ---- records ----

  lemma NodeIsClean(v: Value, ids: set<string>, host: Host)
    ensures RecordViolations(NodeRecord, v, ids, host) == 0 <==> CleanNode(v, host)
  {
    if v.Obj? {
      NodeAliases(v.fields, host.number);
      AbsoluteAre(v.fields, ["id"], host);
      assert forall f :: f in ["id"] ==> f == "id";
      assert "id" in ["id"];
    }
  }

  lemma NamedIds(nodes: seq<Value>, v: Value, host: Host)
    ensures Names(nodes, v, host) <==> host.text(v) in ValidIds(nodes, host)
  {
    if Names(nodes, v, host) {
      var n :| n in nodes && n.Obj? && Proper(Said(n.fields, "id")) && host.text(n.fields["id"]) == host.text(v);
      assert ValidId(n, host) == Some(host.text(v));
    }
    if host.text(v) in ValidIds(nodes, host) {
      var n :| n in nodes && ValidId(n, host).Some? && ValidId(n, host).value == host.text(v);
      assert Proper(Said(n.fields, "id"));
    }
  }

  lemma RelationRead(r: Record)
    ensures ValidIdentity(FirstAlias(r, ["relation", "type"])) <==> Proper(Some(RelationOf(r)))
  {
    assert ["relation", "type"][1..] == ["type"] && ["type"][1..] == [];
    assert FirstAlias(r, ["type"]) == if "type" in r then r["type"] else Null;
  }

  lemma EdgeFieldsRelative(r: Record, host: Host)
    ensures !IsAbsolute(Get(r, "source_file"), host) &&
            AbsoluteIds(r, ["source", "target", "from", "to", "_src", "_tgt"], host) == 0 <==>
            forall f | f in {"source", "target", "from", "to", "_src", "_tgt", "source_file"} :: Relative(r, f, host)
  {
    var fields := ["source", "target", "from", "to", "_src", "_tgt"];
    AbsoluteAre(r, fields, host);
    assert forall f :: f in {"source", "target", "from", "to", "_src", "_tgt", "source_file"} <==>
                       f in fields || f == "source_file";
    assert !IsAbsolute(Get(r, "source_file"), host) <==> Relative(r, "source_file", host);
  }

  lemma EdgeShape(r: Record, nodes: seq<Value>, host: Host)
    ensures ShapeViolations(EdgeRecord, r, ValidIds(nodes, host), host) == 0 <==>
            Proper(Some(SourceOf(r))) && Proper(Some(TargetOf(r))) && Proper(Some(RelationOf(r))) &&
            Names(nodes, SourceOf(r), host) && Names(nodes, TargetOf(r), host)
  {
    EndpointsRead(r);
    RelationRead(r);
    NamedIds(nodes, SourceOf(r), host);
    NamedIds(nodes, TargetOf(r), host);
  }

  lemma EdgeIsClean(v: Value, nodes: seq<Value>, host: Host)
    ensures RecordViolations(EdgeRecord, v, ValidIds(nodes, host), host) == 0 <==> CleanEdge(v, nodes, host)
  {
    if v.Obj? {
      EdgeAliases(v.fields, host.number);
      EdgeFieldsRelative(v.fields, host);
      EdgeShape(v.fields, nodes, host);
    }
  }

  // ---- hyperedges ----

  lemma MembersFirst(r: Record)
    ensures FirstAlias(r, MEMBER_ALIASES) ==
            if "nodes" in r then r["nodes"] else if "members" in r then r["members"]
            else if "node_ids" in r then r["node_ids"] else Null
  {
    FirstOfThree(r, "nodes", "members", "node_ids");
  }

  lemma AllLists(first: Value, rest: seq<Value>, number: Reading)
    requires first.Arr? && !ListsDisagree(first, rest, number)
    ensures forall v :: v in rest ==> v.Arr?
  {
    forall v | v in rest ensures v.Arr? { assert v.Arr? || JsonEqual(v, first, number); }
  }

  /** Every list is like the first one present. */
  lemma ListLikeFirst(r: Record, x: string, number: Reading)
    requires !MemberConflict(r, number) && FirstAlias(r, MEMBER_ALIASES).Arr?
    requires x in MEMBER_ALIASES && x in r
    ensures r[x].Arr? && multiset(r[x].items) == multiset(FirstAlias(r, MEMBER_ALIASES).items)
  {
    var values := Present(r, MEMBER_ALIASES);
    PresentAre(r, MEMBER_ALIASES);
    assert r[x] in values;
    var i :| 0 <= i < |values| && values[i] == r[x];
    if i > 0 {
      var rest := values[1..];
      assert rest[i - 1] in rest;
      AllLists(values[0], rest, number);
    }
  }

  lemma ListsHaveNoConflict(r: Record, number: Reading)
    requires ListsAgree(r)
    ensures !MemberConflict(r, number)
  {
    var values := Present(r, MEMBER_ALIASES);
    PresentAre(r, MEMBER_ALIASES);
    if |values| >= 2 {
      assert values[0] in values;
      var x :| x in MEMBER_ALIASES && x in r && r[x] == values[0];
      forall v | v in values[1..] ensures v.Arr? && multiset(v.items) == multiset(values[0].items) {
        assert v in values;
        var y :| y in MEMBER_ALIASES && y in r && r[y] == v;
        assert x in {"nodes", "members", "node_ids"} && y in {"nodes", "members", "node_ids"};
      }
    }
  }

  lemma ListsAre(r: Record, number: Reading)
    ensures !MemberConflict(r, number) && FirstAlias(r, MEMBER_ALIASES).Arr? <==>
            ListsAgree(r) && IsList(MembersOf(r))
    ensures ListsAgree(r) && IsList(MembersOf(r)) ==> MembersOf(r) == Some(FirstAlias(r, MEMBER_ALIASES))
  {
    MembersFirst(r);
    if !MemberConflict(r, number) && FirstAlias(r, MEMBER_ALIASES).Arr? {
      forall x | x in {"nodes", "members", "node_ids"} && x in r
        ensures r[x].Arr? && multiset(r[x].items) == multiset(FirstAlias(r, MEMBER_ALIASES).items)
      {
        ListLikeFirst(r, x, number);
      }
    }
    if ListsAgree(r) && IsList(MembersOf(r)) { ListsHaveNoConflict(r, number); }
  }

  lemma MembersNamed(members: seq<Value>, nodes: seq<Value>, host: Host)
    ensures Sum(MapSeq(members, m => Truth(Dangling(m, ValidIds(nodes, host), host)))) == 0 <==>
            forall m :: m in members ==> Proper(Some(m)) && Names(nodes, m, host)
  {
    var ids := ValidIds(nodes, host);
    NoneCosts(members, m => Truth(Dangling(m, ids, host)));
    forall m: Value ensures !Dangling(m, ids, host) <==> Proper(Some(m)) && Names(nodes, m, host) {
      NamedIds(nodes, m, host);
    }
    assert (forall m :: m in members ==> (m => Truth(Dangling(m, ids, host)))(m) == 0) <==>
           forall m :: m in members ==> !Dangling(m, ids, host);
  }

  lemma HyperedgeIsClean(v: Value, nodes: seq<Value>, host: Host)
    ensures RecordViolations(HyperedgeRecord, v, ValidIds(nodes, host), host) == 0 <==> CleanHyperedge(v, nodes, host)
  {
    if v.Obj? {
      var r := v.fields;
      ListsAre(r, host.number);
      AbsoluteAre(r, ["id"], host);
      assert forall f :: f in ["id"] <==> f == "id";
      var members := FirstAlias(r, MEMBER_ALIASES);
      if members.Arr? { MembersNamed(members.items, nodes, host); }
    }
  }

  // ---- identities ----

  lemma ValidIdsSplit(records: seq<Value>, host: Host)
    requires records != []
    ensures var id := ValidId(records[0], host);
            ValidIds(records, host) == ValidIds(records[1..], host) + if id.Some? then {id.value} else {}
  {
    assert records == [records[0]] + records[1..];
    forall r ensures r in records <==> r == records[0] || r in records[1..] {}
  }

  lemma SumHead(records: seq<Value>, cost: Value -> nat)
    requires records != []
    ensures Sum(MapSeq(records, cost)) == cost(records[0]) + Sum(MapSeq(records[1..], cost))
  {
    assert MapSeq(records, cost) == [cost(records[0])] + MapSeq(records[1..], cost);
  }

  lemma OneMore<T>(s: set<T>, x: T)
    ensures |s + {x}| == |s| + if x in s then 0 else 1
  {
    if x in s { assert s + {x} == s; }
  }

  lemma DuplicatesSplit(records: seq<Value>, host: Host)
    requires records != []
    ensures var id := ValidId(records[0], host);
            Duplicates(records, host) == Duplicates(records[1..], host) +
              Truth(id.Some? && id.value in ValidIds(records[1..], host))
  {
    var id := ValidId(records[0], host);
    SumHead(records, r => Truth(ValidId(r, host).Some?));
    ValidIdsSplit(records, host);
    if id.Some? {
      OneMore(ValidIds(records[1..], host), id.value);
    } else {
      assert ValidIds(records[1..], host) + {} == ValidIds(records[1..], host);
    }
  }

  lemma DistinguishedSplit(records: seq<Value>, host: Host)
    requires records != []
    ensures var id := ValidId(records[0], host);
            Distinguished(records, host) <==>
            Distinguished(records[1..], host) && !(id.Some? && id.value in ValidIds(records[1..], host))
  {
    var id, rest := ValidId(records[0], host), records[1..];
    if id.Some? && id.value in ValidIds(rest, host) {
      var r :| r in rest && ValidId(r, host).Some? && ValidId(r, host).value == id.value;
      var j :| 0 <= j < |rest| && rest[j] == r;
      assert records[j + 1] == r;
      assert ValidId(records[0], host) == ValidId(records[j + 1], host);
    }
    if Distinguished(records, host) {
      forall i, j | 0 <= i < j < |rest|
        ensures !(ValidId(rest[i], host).Some? && ValidId(rest[i], host) == ValidId(rest[j], host))
      {
        assert rest[i] == records[i + 1] && rest[j] == records[j + 1];
      }
    }
    if Distinguished(rest, host) && !(id.Some? && id.value in ValidIds(rest, host)) {
      forall i, j | 0 <= i < j < |records|
        ensures !(ValidId(records[i], host).Some? && ValidId(records[i], host) == ValidId(records[j], host))
      {
        assert records[j] == rest[j - 1] && rest[j - 1] in rest;
        if i > 0 { assert records[i] == rest[i - 1]; }
      }
    }
  }

  /** There are no duplicates exactly when no identity is used twice. */
  lemma {:induction false} NoDuplicates(records: seq<Value>, host: Host)
    ensures Duplicates(records, host) >= 0
    ensures Duplicates(records, host) == 0 <==> Distinguished(records, host)
    decreases |records|
  {
    if records == [] {
      assert ValidIds(records, host) == {};
    } else {
      NoDuplicates(records[1..], host);
      DuplicatesSplit(records, host);
      DistinguishedSplit(records, host);
    }
  }

  // ---- graphs ----

  lemma RecordsClean(kind: Kind, records: seq<Value>, nodes: seq<Value>, host: Host)
    ensures AllRecordViolations(kind, records, ValidIds(nodes, host), host) == 0 <==>
            forall r :: r in records ==> RecordViolations(kind, r, ValidIds(nodes, host), host) == 0
  {
    NoneCosts(records, r => RecordViolations(kind, r, ValidIds(nodes, host), host));
  }

  lemma EdgeListsClean(g: Record, host: Host)
    ensures EdgeCollectionsDisagree(g, host) <==> !EdgeListsAgree(g, host)
  {
    if IsList(Said(g, "links")) && IsList(Said(g, "edges")) {
      forall x, y
        ensures CanonicalEdge(x, true, host.plain) == CanonicalEdge(y, true, host.plain) <==>
                SameEdge(x, y, true, host.plain)
      {
        SameEdgeForm(x, y, true, host.plain);
      }
      ImagesPaired(g["links"].items, g["edges"].items, (e: Value) => CanonicalEdge(e, true, host.plain),
                   (x, y) => SameEdge(x, y, true, host.plain));
    }
  }

  lemma CollectionsClean(g: Record, host: Host)
    ensures CollectionViolations(g, host) == 0 <==> HasCollections(g) && EdgeListsAgree(g, host)
  {
    EdgeListsClean(g, host);
  }

  /** A graph has no violation exactly when it is clean: every collection there and a list, every node,
      edge and hyperedge an object with proper, relative and agreeing fields, identities used once, and
      every end and member the identity of a node. */
  lemma NoViolations(g: Record, host: Host)
    ensures Violations(g, host) >= 0
    ensures Violations(g, host) == 0 <==> IsClean(g, host)
  {
    var nodes, hyperedges := RawRecords(g, "nodes"), RawRecords(g, "hyperedges");
    var links, edges := RawRecords(g, "links"), RawRecords(g, "edges");
    CollectionsClean(g, host);
    NoDuplicates(nodes, host);
    NoDuplicates(hyperedges, host);
    RecordsClean(NodeRecord, nodes, nodes, host);
    RecordsClean(EdgeRecord, links, nodes, host);
    RecordsClean(EdgeRecord, edges, nodes, host);
    RecordsClean(HyperedgeRecord, hyperedges, nodes, host);
    forall v { NodeIsClean(v, ValidIds(nodes, host), host); }
    forall v { EdgeIsClean(v, nodes, host); }
    forall v { HyperedgeIsClean(v, nodes, host); }
  }
}
