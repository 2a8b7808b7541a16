/** What the violations of a record count: its defects, one by one. */
module ViolationCounts {
  import opened Json
  import opened Wrappers
  import opened GraphRecords
  import opened Sequences
  import opened Diagnostics
  import opened RawMeaning
  import opened CleanGraphs

  datatype Defect =
    | Malformed
    | Conflict(field: string)
    | Absolute(field: string)
    | Derived
    | MissingId
    | MissingEnds
    | DanglingEnd(source: bool)
    | MissingMembers
    | DanglingMember(index: nat)

  // ---- which defects a record has ----

  /** The names of one field, of which a record should use one, or all for the same. */
  function NamesOf(kind: Kind, field: string): set<string> {
    match kind
    case NodeRecord =>
      if field == "label" then {"label", "name"} else if field == "type" then {"type", "node_type"} else {}
    case EdgeRecord =>
      if field == "source" then {"_src", "source", "from"}
      else if field == "target" then {"_tgt", "target", "to"}
      else if field == "relation" then {"relation", "type"} else {}
    case HyperedgeRecord => if field == "nodes" then {"nodes", "members", "node_ids"} else {}
  }

  /** Lists of members are used for the same members, anything else for the same value. */
  predicate Consistent(kind: Kind, r: Record, names: set<string>, number: Reading) {
    if kind.HyperedgeRecord? && forall x | x in names :: x in r ==> r[x].Arr?
    then forall x, y | x in names && y in names :: x in r && y in r ==> SameItems(r[x], r[y])
    else Agree(r, names, number)
  }

  predicate SameItems(x: Value, y: Value) { x.Arr? && y.Arr? && multiset(x.items) == multiset(y.items) }

  predicate MayBePath(kind: Kind, field: string) {
    field == "source_file" ||
    if kind.EdgeRecord? then field in {"source", "target", "from", "to", "_src", "_tgt"} else field == "id"
  }

  /** The identity carries the slug of an absolute source path, and is no such path itself. */
  predicate IsDerived(r: Record, host: Host) {
    Proper(Said(r, "source_file")) && !Relative(r, "source_file", host) && "id" in r && r["id"].Str? &&
    Relative(r, "id", host) && host.slugFrom(r["source_file"].text, r["id"].text)
  }

  predicate HasEnds(r: Record) {
    Proper(Some(SourceOf(r))) && Proper(Some(TargetOf(r))) && Proper(Some(RelationOf(r)))
  }

  /** The first of the three names that is used, if its value is a list of something. */
  function Listed(r: Record): seq<Value> {
    var first := if "nodes" in r then r["nodes"] else if "members" in r then r["members"]
                 else if "node_ids" in r then r["node_ids"] else Null;
    if first.Arr? then first.items else []
  }

  ghost predicate Has(kind: Kind, v: Value, d: Defect, nodes: seq<Value>, host: Host) {
    if !v.Obj? then d.Malformed?
    else
      var r := v.fields;
      match d
      case Malformed => false
      case Conflict(field) => !Consistent(kind, r, NamesOf(kind, field), host.number)
      case Absolute(field) => MayBePath(kind, field) && !Relative(r, field, host)
      case Derived => kind.NodeRecord? && IsDerived(r, host)
      case MissingId => !kind.EdgeRecord? && !Proper(Said(r, "id"))
      case MissingEnds => kind.EdgeRecord? && !HasEnds(r)
      case DanglingEnd(source) =>
        kind.EdgeRecord? && HasEnds(r) && !Names(nodes, if source then SourceOf(r) else TargetOf(r), host)
      case MissingMembers => kind.HyperedgeRecord? && Listed(r) == []
      case DanglingMember(i) =>
        kind.HyperedgeRecord? && i < |Listed(r)| && !(Proper(Some(Listed(r)[i])) && Names(nodes, Listed(r)[i], host))
  }

  // ---- aliases ----

  lemma ListsConflict(r: Record, number: Reading)
    requires forall x | x in {"nodes", "members", "node_ids"} :: x in r ==> r[x].Arr?
    ensures MemberConflict(r, number) <==> !ListsAgree(r)
  {
    MembersFirst(r);
    PresentAre(r, MEMBER_ALIASES);
    if "nodes" in r || "members" in r || "node_ids" in r {
      assert FirstAlias(r, MEMBER_ALIASES).Arr?;
      ListsAre(r, number);
    } else if Present(r, MEMBER_ALIASES) != [] {
      assert Present(r, MEMBER_ALIASES)[0] in Present(r, MEMBER_ALIASES);
    }
  }

  lemma RestUnlike(values: seq<Value>, number: Reading)
    requires |values| >= 2
    ensures (exists v :: v in values[1..] && !JsonEqual(v, values[0], number)) <==>
            exists i :: 0 < i < |values| && !JsonEqual(values[i], values[0], number)
  {
    var rest := values[1..];
    if v :| v in rest && !JsonEqual(v, values[0], number) {
      var k :| 0 <= k < |rest| && rest[k] == v;
      assert values[k + 1] == v;
    }
    if i :| 0 < i < |values| && !JsonEqual(values[i], values[0], number) {
      assert rest[i - 1] == values[i] && rest[i - 1] in rest;
    }
  }

  /** Values of which one is no list are compared as other values are. */
  lemma ValuesConflict(r: Record, values: seq<Value>, number: Reading)
    requires values == Present(r, MEMBER_ALIASES) && exists v :: v in values && !v.Arr?
    ensures MemberConflict(r, number) <==> AliasConflict(r, MEMBER_ALIASES, number)
  {
    if |values| >= 2 {
      var v :| v in values && !v.Arr?;
      var i :| 0 <= i < |values| && values[i] == v;
      if i > 0 { assert values[1..][i - 1] == v; }
      RestUnlike(values, number);
    }
  }

  lemma MembersAgree(r: Record, number: Reading)
    ensures MemberConflict(r, number) <==> !Consistent(HyperedgeRecord, r, {"nodes", "members", "node_ids"}, number)
  {
    var names := {"nodes", "members", "node_ids"};
    if forall x | x in names :: x in r ==> r[x].Arr? {
      ListsConflict(r, number);
    } else {
      var values := Present(r, MEMBER_ALIASES);
      PresentAre(r, MEMBER_ALIASES);
      var x :| x in names && x in r && !r[x].Arr?;
      assert x in MEMBER_ALIASES && r[x] in values;
      ValuesConflict(r, values, number);
      ConflictIff(r, MEMBER_ALIASES, names, number);
    }
  }

  // ---- counting ----

  /** A defect, and whether a record has it. */
  datatype Finding = Finding(found: bool, defect: Defect)

  ghost predicate Distinct(findings: seq<Finding>) {
    forall i, j :: 0 <= i < j < |findings| ==> findings[i].defect != findings[j].defect
  }

  ghost predicate Lists(findings: seq<Finding>, d: Defect) {
    exists i :: 0 <= i < |findings| && findings[i] == Finding(true, d)
  }

  function Count(findings: seq<Finding>): nat {
    if findings == [] then 0 else Truth(findings[0].found) + Count(findings[1..])
  }

  lemma ListsHead(findings: seq<Finding>, d: Defect)
    requires findings != []
    ensures Lists(findings, d) <==> findings[0] == Finding(true, d) || Lists(findings[1..], d)
  {
    if i :| 0 <= i < |findings| && findings[i] == Finding(true, d) {
      if i > 0 { assert findings[1..][i - 1] == findings[i]; }
    }
    if i :| 0 <= i < |findings[1..]| && findings[1..][i] == Finding(true, d) {
      assert findings[i + 1] == Finding(true, d);
    }
  }

  /** Findings of distinct defects number the defects found. */
  lemma {:induction false} CountIsSize(findings: seq<Finding>, defects: set<Defect>)
    requires Distinct(findings) && forall d :: d in defects <==> Lists(findings, d)
    ensures Count(findings) == |defects|
    decreases |findings|
  {
    if findings == [] {
      assert defects == {};
    } else {
      var first, rest := findings[0], findings[1..];
      var others := defects - {first.defect};
      forall d ensures Lists(findings, d) <==> first == Finding(true, d) || Lists(rest, d) { ListsHead(findings, d); }
      forall d ensures d in others <==> Lists(rest, d) {
        if Lists(rest, d) {
          var i :| 0 <= i < |rest| && rest[i] == Finding(true, d);
          assert findings[0].defect != findings[i + 1].defect;
        }
      }
      CountIsSize(rest, others);
      if first.found { assert defects == others + {first.defect}; } else { assert defects == others; }
    }
  }

  lemma {:induction false} CountConcat(a: seq<Finding>, b: seq<Finding>)
    ensures Count(a + b) == Count(a) + Count(b)
    decreases |a|
  {
    if a == [] {
      assert a + b == b;
    } else {
      assert (a + b)[1..] == a[1..] + b;
      CountConcat(a[1..], b);
    }
  }

  lemma ListsConcat(a: seq<Finding>, b: seq<Finding>, d: Defect)
    ensures Lists(a + b, d) <==> Lists(a, d) || Lists(b, d)
  {
    if i :| 0 <= i < |a| && a[i] == Finding(true, d) { assert (a + b)[i] == a[i]; }
    if i :| 0 <= i < |b| && b[i] == Finding(true, d) { assert (a + b)[|a| + i] == b[i]; }
  }

  lemma ListsOf(findings: seq<Finding>, d: Defect)
    ensures |findings| == 1 ==> (Lists(findings, d) <==> findings[0] == Finding(true, d))
    ensures |findings| == 2 ==>
              (Lists(findings, d) <==> findings[0] == Finding(true, d) || findings[1] == Finding(true, d))
    ensures |findings| == 3 ==>
              (Lists(findings, d) <==> findings[0] == Finding(true, d) || findings[1] == Finding(true, d) ||
                                       findings[2] == Finding(true, d))
  {}

  lemma CountOf(findings: seq<Finding>)
    ensures |findings| == 1 ==> Count(findings) == Truth(findings[0].found)
    ensures |findings| == 2 ==> Count(findings) == Truth(findings[0].found) + Truth(findings[1].found)
    ensures |findings| == 3 ==>
              Count(findings) == Truth(findings[0].found) + Truth(findings[1].found) + Truth(findings[2].found)
  {
    if 0 < |findings| <= 3 {
      assert |findings| > 1 ==> findings[1..][0] == findings[1];
      assert |findings| > 2 ==> findings[1..][1..][0] == findings[2];
    }
  }

  /** Which part of a list of findings a defect belongs to. */
  function Part(d: Defect): nat {
    match d
    case Conflict(_) => 0
    case Absolute(_) => 1
    case DanglingMember(_) => 3
    case _ => 2
  }

  ghost predicate AllOf(findings: seq<Finding>, part: nat) {
    forall i :: 0 <= i < |findings| ==> Part(findings[i].defect) == part
  }

  /** Lists of aliases, of paths and of other findings make one list. */
  lemma Parts(a: seq<Finding>, b: seq<Finding>, c: seq<Finding>, m: seq<Finding>)
    requires Distinct(a) && Distinct(b) && Distinct(c) && Distinct(m)
    requires AllOf(a, 0) && AllOf(b, 1) && AllOf(c, 2) && AllOf(m, 3)
    ensures Distinct(a + b + c + m) && Count(a + b + c + m) == Count(a) + Count(b) + Count(c) + Count(m)
  {
    Apart(a, b);
    Apart(a + b, c);
    Apart(a + b + c, m);
    CountConcat(a, b);
    CountConcat(a + b, c);
    CountConcat(a + b + c, m);
  }

  lemma Apart(a: seq<Finding>, b: seq<Finding>)
    requires Distinct(a) && Distinct(b)
    requires forall i, j :: 0 <= i < |a| && 0 <= j < |b| ==> Part(a[i].defect) != Part(b[j].defect)
    ensures Distinct(a + b)
  {
    forall i, j | 0 <= i < j < |a + b| ensures (a + b)[i].defect != (a + b)[j].defect {
      if i < |a| <= j { assert Part(a[i].defect) != Part(b[j - |a|].defect); }
    }
  }

  lemma PartsList(a: seq<Finding>, b: seq<Finding>, c: seq<Finding>, m: seq<Finding>, d: Defect)
    ensures Lists(a + b + c + m, d) <==> Lists(a, d) || Lists(b, d) || Lists(c, d) || Lists(m, d)
  {
    ListsConcat(a, b, d);
    ListsConcat(a + b, c, d);
    ListsConcat(a + b + c, m, d);
  }

  // ---- paths ----

  function PathFindings(r: Record, fields: seq<string>, host: Host): (f: seq<Finding>)
    ensures |f| == |fields|
    ensures forall i :: 0 <= i < |f| ==> f[i] == Finding(!Relative(r, fields[i], host), Absolute(fields[i]))
  {
    seq(|fields|, i requires 0 <= i < |fields| => Finding(!Relative(r, fields[i], host), Absolute(fields[i])))
  }

  lemma {:induction false} PathCount(r: Record, fields: seq<string>, host: Host)
    ensures Count(PathFindings(r, fields, host)) == AbsoluteIds(r, fields, host)
    decreases |fields|
  {
    if fields != [] {
      PathCount(r, fields[1..], host);
      assert PathFindings(r, fields, host)[1..] == PathFindings(r, fields[1..], host);
    }
  }

  lemma PathLists(r: Record, fields: seq<string>, d: Defect, host: Host)
    ensures Lists(PathFindings(r, fields, host), d) <==>
            d.Absolute? && d.field in fields && !Relative(r, d.field, host)
  {
    var f := PathFindings(r, fields, host);
    if d.Absolute? && d.field in fields && !Relative(r, d.field, host) {
      var i :| 0 <= i < |fields| && fields[i] == d.field;
      assert f[i] == Finding(true, d);
    }
  }

  const ID_PATHS := ["source_file", "id"]
  const EDGE_PATHS := ["source_file", "source", "target", "from", "to", "_src", "_tgt"]

  lemma IdPathCount(r: Record, host: Host)
    ensures AbsoluteIds(r, ID_PATHS, host) ==
            Truth(IsAbsolute(Get(r, "source_file"), host)) + AbsoluteIds(r, ["id"], host)
  {
    assert ID_PATHS[1..] == ["id"];
  }

  lemma EdgePathCount(r: Record, host: Host)
    ensures AbsoluteIds(r, EDGE_PATHS, host) ==
            Truth(IsAbsolute(Get(r, "source_file"), host)) + AbsoluteIds(r, IdFields(EdgeRecord), host)
  {
    assert EDGE_PATHS[1..] == ["source", "target", "from", "to", "_src", "_tgt"];
  }

  lemma PathsApart(r: Record, host: Host)
    ensures Distinct(PathFindings(r, ID_PATHS, host)) && Distinct(PathFindings(r, EDGE_PATHS, host))
  {
    var f := EDGE_PATHS;
    assert forall i, j :: 0 <= i < j < |f| ==> f[i] != f[j];
  }

  function PathsOf(kind: Kind): seq<string> { if kind.EdgeRecord? then EDGE_PATHS else ID_PATHS }

  /** What is counted of a record, part by part. */
  lemma RecordTotal(kind: Kind, r: Record, ids: set<string>, host: Host)
    ensures RecordViolations(kind, Obj(r), ids, host) ==
            AliasConflicts(kind, r, host.number) + Count(PathFindings(r, PathsOf(kind), host)) +
            Truth(kind.NodeRecord? && IsDerived(r, host)) + ShapeViolations(kind, r, ids, host)
  {
    PathCount(r, PathsOf(kind), host);
    IdPathCount(r, host);
    EdgePathCount(r, host);
    DerivedIs(r, host);
  }

  lemma DerivedIs(r: Record, host: Host)
    ensures DerivedFromPath(NodeRecord, r, host) <==> IsDerived(r, host)
  {}

  // ---- nodes ----

  function NodeAliasFindings(r: Record, number: Reading): seq<Finding> {
    [Finding(!Agree(r, {"label", "name"}, number), Conflict("label")),
     Finding(!Agree(r, {"type", "node_type"}, number), Conflict("type"))]
  }

  function NodeShapeFindings(r: Record, host: Host): seq<Finding> {
    [Finding(IsDerived(r, host), Derived), Finding(!Proper(Said(r, "id")), MissingId)]
  }

  function NodeFindings(r: Record, host: Host): seq<Finding> {
    NodeAliasFindings(r, host.number) + PathFindings(r, ID_PATHS, host) + NodeShapeFindings(r, host) + []
  }

  lemma NodeCount(r: Record, ids: set<string>, host: Host)
    ensures Distinct(NodeFindings(r, host))
    ensures Count(NodeFindings(r, host)) == RecordViolations(NodeRecord, Obj(r), ids, host)
  {
    NodeAliasCount(r, host.number);
    RecordTotal(NodeRecord, r, ids, host);
    CountOf(NodeShapeFindings(r, host));
    PathsApart(r, host);
    Parts(NodeAliasFindings(r, host.number), PathFindings(r, ID_PATHS, host), NodeShapeFindings(r, host), []);
  }

  lemma NodeAliasCount(r: Record, number: Reading)
    ensures Count(NodeAliasFindings(r, number)) == AliasConflicts(NodeRecord, r, number)
  {
    CountOf(NodeAliasFindings(r, number));
    ConflictIff(r, ["label", "name"], {"label", "name"}, number);
    ConflictIff(r, ["type", "node_type"], {"type", "node_type"}, number);
  }

  lemma NodeDefects(r: Record, nodes: seq<Value>, d: Defect, host: Host)
    ensures Lists(NodeFindings(r, host), d) <==> Has(NodeRecord, Obj(r), d, nodes, host)
  {
    var a, c := NodeAliasFindings(r, host.number), NodeShapeFindings(r, host);
    PartsList(a, PathFindings(r, ID_PATHS, host), c, [], d);
    ListsOf(a, d);
    ListsOf(c, d);
    PathLists(r, ID_PATHS, d, host);
  }

  // ---- edges ----

  function EdgeAliasFindings(r: Record, number: Reading): seq<Finding> {
    [Finding(!Agree(r, {"_src", "source", "from"}, number), Conflict("source")),
     Finding(!Agree(r, {"_tgt", "target", "to"}, number), Conflict("target")),
     Finding(!Agree(r, {"relation", "type"}, number), Conflict("relation"))]
  }

  ghost function EdgeShapeFindings(r: Record, nodes: seq<Value>, host: Host): seq<Finding> {
    [Finding(!HasEnds(r), MissingEnds),
     Finding(HasEnds(r) && !Names(nodes, SourceOf(r), host), DanglingEnd(true)),
     Finding(HasEnds(r) && !Names(nodes, TargetOf(r), host), DanglingEnd(false))]
  }

  lemma EdgeAliasCount(r: Record, number: Reading)
    ensures Count(EdgeAliasFindings(r, number)) == AliasConflicts(EdgeRecord, r, number)
  {
    CountOf(EdgeAliasFindings(r, number));
    ConflictIff(r, SOURCE_ALIASES, {"_src", "source", "from"}, number);
    ConflictIff(r, TARGET_ALIASES, {"_tgt", "target", "to"}, number);
    ConflictIff(r, ["relation", "type"], {"relation", "type"}, number);
  }

  lemma EdgeShapeCount(r: Record, nodes: seq<Value>, host: Host)
    ensures Count(EdgeShapeFindings(r, nodes, host)) == ShapeViolations(EdgeRecord, r, ValidIds(nodes, host), host)
  {
    CountOf(EdgeShapeFindings(r, nodes, host));
    EndpointsRead(r);
    RelationRead(r);
    NamedIds(nodes, SourceOf(r), host);
    NamedIds(nodes, TargetOf(r), host);
  }

  ghost function EdgeFindings(r: Record, nodes: seq<Value>, host: Host): seq<Finding> {
    EdgeAliasFindings(r, host.number) + PathFindings(r, EDGE_PATHS, host) + EdgeShapeFindings(r, nodes, host) + []
  }

  lemma EdgeCount(r: Record, nodes: seq<Value>, host: Host)
    ensures Distinct(EdgeFindings(r, nodes, host))
    ensures Count(EdgeFindings(r, nodes, host)) == RecordViolations(EdgeRecord, Obj(r), ValidIds(nodes, host), host)
  {
    EdgePartsApart(r, nodes, host);
    EdgeAliasCount(r, host.number);
    RecordTotal(EdgeRecord, r, ValidIds(nodes, host), host);
    EdgeShapeCount(r, nodes, host);
  }

  lemma EdgePartsApart(r: Record, nodes: seq<Value>, host: Host)
    ensures Distinct(EdgeFindings(r, nodes, host))
    ensures Count(EdgeFindings(r, nodes, host)) ==
            Count(EdgeAliasFindings(r, host.number)) + Count(PathFindings(r, EDGE_PATHS, host)) +
            Count(EdgeShapeFindings(r, nodes, host))
  {
    PathsApart(r, host);
    Parts(EdgeAliasFindings(r, host.number), PathFindings(r, EDGE_PATHS, host), EdgeShapeFindings(r, nodes, host), []);
  }

  lemma EdgeDefects(r: Record, nodes: seq<Value>, d: Defect, host: Host)
    ensures Lists(EdgeFindings(r, nodes, host), d) <==> Has(EdgeRecord, Obj(r), d, nodes, host)
  {
    var a, c := EdgeAliasFindings(r, host.number), EdgeShapeFindings(r, nodes, host);
    PartsList(a, PathFindings(r, EDGE_PATHS, host), c, [], d);
    ListsOf(a, d);
    ListsOf(c, d);
    PathLists(r, EDGE_PATHS, d, host);
  }

  // ---- hyperedges ----

  ghost function MemberFindings(members: seq<Value>, from: nat, nodes: seq<Value>, host: Host): (f: seq<Finding>)
    requires from <= |members|
    ensures |f| == |members| - from
    ensures forall i :: 0 <= i < |f| ==>
      f[i] == Finding(Dangling(members[from + i], ValidIds(nodes, host), host), DanglingMember(from + i))
    decreases |members| - from
  {
    if from == |members| then []
    else [Finding(Dangling(members[from], ValidIds(nodes, host), host), DanglingMember(from))] +
         MemberFindings(members, from + 1, nodes, host)
  }

  lemma {:induction false} MemberCount(members: seq<Value>, from: nat, nodes: seq<Value>, host: Host)
    requires from <= |members|
    ensures Count(MemberFindings(members, from, nodes, host)) ==
            Sum(MapSeq(members[from..], m => Truth(Dangling(m, ValidIds(nodes, host), host))))
    decreases |members| - from
  {
    var f := MemberFindings(members, from, nodes, host);
    if from < |members| {
      var cost := m => Truth(Dangling(m, ValidIds(nodes, host), host));
      MemberCount(members, from + 1, nodes, host);
      SumHead(members[from..], cost);
      assert members[from..][1..] == members[from + 1..];
      assert f[1..] == MemberFindings(members, from + 1, nodes, host);
    }
  }

  lemma MemberLists(members: seq<Value>, nodes: seq<Value>, d: Defect, host: Host)
    ensures Lists(MemberFindings(members, 0, nodes, host), d) <==>
            d.DanglingMember? && d.index < |members| &&
            !(Proper(Some(members[d.index])) && Names(nodes, members[d.index], host))
  {
    var m := MemberFindings(members, 0, nodes, host);
    if d.DanglingMember? && d.index < |members| {
      NamedIds(nodes, members[d.index], host);
      assert m[d.index].defect == d;
    }
  }

  function HyperedgeAliasFindings(r: Record, number: Reading): seq<Finding> {
    [Finding(!Consistent(HyperedgeRecord, r, {"nodes", "members", "node_ids"}, number), Conflict("nodes"))]
  }

  function HyperedgeShapeFindings(r: Record): seq<Finding> {
    [Finding(!Proper(Said(r, "id")), MissingId), Finding(Listed(r) == [], MissingMembers)]
  }

  lemma HyperedgeAliasCount(r: Record, number: Reading)
    ensures Count(HyperedgeAliasFindings(r, number)) == AliasConflicts(HyperedgeRecord, r, number)
  {
    CountOf(HyperedgeAliasFindings(r, number));
    MembersAgree(r, number);
  }

  lemma HyperedgeShapeCount(r: Record, nodes: seq<Value>, host: Host)
    ensures ShapeViolations(HyperedgeRecord, r, ValidIds(nodes, host), host) ==
            Count(HyperedgeShapeFindings(r)) + Count(MemberFindings(Listed(r), 0, nodes, host))
  {
    CountOf(HyperedgeShapeFindings(r));
    MembersFirst(r);
    MemberCount(Listed(r), 0, nodes, host);
    assert Listed(r)[0..] == Listed(r);
  }

  ghost function HyperedgeFindings(r: Record, nodes: seq<Value>, host: Host): seq<Finding> {
    HyperedgeAliasFindings(r, host.number) + PathFindings(r, ID_PATHS, host) + HyperedgeShapeFindings(r) +
    MemberFindings(Listed(r), 0, nodes, host)
  }

  lemma HyperedgePartsApart(r: Record, nodes: seq<Value>, host: Host)
    ensures Distinct(HyperedgeFindings(r, nodes, host))
    ensures Count(HyperedgeFindings(r, nodes, host)) ==
            Count(HyperedgeAliasFindings(r, host.number)) + Count(PathFindings(r, ID_PATHS, host)) +
            Count(HyperedgeShapeFindings(r)) + Count(MemberFindings(Listed(r), 0, nodes, host))
  {
    PathsApart(r, host);
    Parts(HyperedgeAliasFindings(r, host.number), PathFindings(r, ID_PATHS, host), HyperedgeShapeFindings(r),
          MemberFindings(Listed(r), 0, nodes, host));
  }

  lemma HyperedgeCount(r: Record, nodes: seq<Value>, host: Host)
    ensures Count(HyperedgeFindings(r, nodes, host)) ==
            RecordViolations(HyperedgeRecord, Obj(r), ValidIds(nodes, host), host)
  {
    HyperedgePartsApart(r, nodes, host);
    HyperedgeAliasCount(r, host.number);
    RecordTotal(HyperedgeRecord, r, ValidIds(nodes, host), host);
    HyperedgeShapeCount(r, nodes, host);
  }

  lemma HyperedgeDefects(r: Record, nodes: seq<Value>, d: Defect, host: Host)
    ensures Lists(HyperedgeFindings(r, nodes, host), d) <==> Has(HyperedgeRecord, Obj(r), d, nodes, host)
  {
    var a, c := HyperedgeAliasFindings(r, host.number), HyperedgeShapeFindings(r);
    PartsList(a, PathFindings(r, ID_PATHS, host), c, MemberFindings(Listed(r), 0, nodes, host), d);
    ListsOf(a, d);
    ListsOf(c, d);
    PathLists(r, ID_PATHS, d, host);
    MemberLists(Listed(r), nodes, d, host);
  }

  // ---- the count ----

  /** The violations counted for a record are its defects: each alias group that disagrees, each absolute
      path, an identity derived from one, a missing identity or end, and each end or member that names no
      node; a record that is no object has one. */
  lemma ViolationsAreDefects(kind: Kind, v: Value, defects: set<Defect>, nodes: seq<Value>, host: Host)
    requires forall d :: d in defects <==> Has(kind, v, d, nodes, host)
    ensures RecordViolations(kind, v, ValidIds(nodes, host), host) == |defects|
  {
    if !v.Obj? {
      assert defects == {Malformed};
    } else {
      var r := v.fields;
      match kind
      case NodeRecord =>
        var f := NodeFindings(r, host);
        NodeCount(r, ValidIds(nodes, host), host);
        forall d ensures d in defects <==> Lists(f, d) { NodeDefects(r, nodes, d, host); }
        CountIsSize(f, defects);
      case EdgeRecord =>
        var f := EdgeFindings(r, nodes, host);
        EdgeCount(r, nodes, host);
        forall d ensures d in defects <==> Lists(f, d) { EdgeDefects(r, nodes, d, host); }
        CountIsSize(f, defects);
      case HyperedgeRecord =>
        var f := HyperedgeFindings(r, nodes, host);
        HyperedgePartsApart(r, nodes, host);
        HyperedgeCount(r, nodes, host);
        forall d ensures d in defects <==> Lists(f, d) { HyperedgeDefects(r, nodes, d, host); }
        CountIsSize(f, defects);
    }
  }

  ghost predicate AreRepeats(repeats: set<nat>, records: seq<Value>, host: Host) {
    forall j: nat :: j in repeats <==> j < |records| && Repeats(records, j, host)
  }

  /** The duplicates counted in a collection are the records whose identity an earlier one has. */
  lemma {:induction false} DuplicatesAreRepeats(records: seq<Value>, repeats: set<nat>, host: Host)
    requires AreRepeats(repeats, records, host)
    ensures Duplicates(records, host) == |repeats|
    decreases |records|
  {
    if records == [] {
      assert repeats == {} && ValidIds(records, host) == {};
    } else {
      var n := |records| - 1;
      assert records == records[..n] + [records[n]];
      RepeatsSnoc(records[..n], records[n], repeats, host);
      DuplicatesAreRepeats(records[..n], repeats - {n}, host);
      DuplicatesNext(records[..n], records[n], repeats, host);
    }
  }

  lemma DuplicatesNext(rest: seq<Value>, last: Value, repeats: set<nat>, host: Host)
    requires Duplicates(rest, host) == |repeats - {|rest|}|
    requires |rest| in repeats <==> ValidId(last, host).Some? && ValidId(last, host).value in ValidIds(rest, host)
    ensures Duplicates(rest + [last], host) == |repeats|
  {
    var n := |rest|;
    DuplicatesSnoc(rest, last, host);
    if n in repeats { assert repeats == repeats - {n} + {n}; } else { assert repeats == repeats - {n}; }
  }

  lemma RepeatsSnoc(rest: seq<Value>, last: Value, repeats: set<nat>, host: Host)
    requires AreRepeats(repeats, rest + [last], host)
    ensures AreRepeats(repeats - {|rest|}, rest, host)
    ensures |rest| in repeats <==> ValidId(last, host).Some? && ValidId(last, host).value in ValidIds(rest, host)
  {
    forall j: nat ensures j in repeats - {|rest|} <==> j < |rest| && Repeats(rest, j, host) {
      if j < |rest| { RepeatsBefore(rest, last, j, host); }
    }
    RepeatsLast(rest, last, host);
  }

  ghost predicate Repeats(records: seq<Value>, j: nat, host: Host)
    requires j < |records|
  {
    ValidId(records[j], host).Some? && exists i :: 0 <= i < j && ValidId(records[i], host) == ValidId(records[j], host)
  }

  lemma RepeatsBefore(rest: seq<Value>, last: Value, j: nat, host: Host)
    requires j < |rest|
    ensures Repeats(rest + [last], j, host) <==> Repeats(rest, j, host)
  {
    var records := rest + [last];
    assert forall i :: 0 <= i <= j ==> records[i] == rest[i];
  }

  lemma RepeatsLast(rest: seq<Value>, last: Value, host: Host)
    ensures Repeats(rest + [last], |rest|, host) <==>
            ValidId(last, host).Some? && ValidId(last, host).value in ValidIds(rest, host)
  {
    var records := rest + [last];
    if ValidId(last, host).Some? && ValidId(last, host).value in ValidIds(rest, host) {
      var r :| r in rest && ValidId(r, host).Some? && ValidId(r, host).value == ValidId(last, host).value;
      var i :| 0 <= i < |rest| && rest[i] == r;
      assert records[i] == r;
    }
    if Repeats(records, |rest|, host) {
      var i :| 0 <= i < |rest| && ValidId(records[i], host) == ValidId(last, host);
      assert rest[i] in rest;
    }
  }

  lemma DuplicatesSnoc(rest: seq<Value>, last: Value, host: Host)
    ensures Duplicates(rest + [last], host) == Duplicates(rest, host) +
              Truth(ValidId(last, host).Some? && ValidId(last, host).value in ValidIds(rest, host))
  {
    assert multiset(rest + [last]) == multiset([last] + rest);
    DuplicatesIgnoreOrder(rest + [last], [last] + rest, host);
    DuplicatesSplit([last] + rest, host);
    assert ([last] + rest)[1..] == rest;
  }
}
