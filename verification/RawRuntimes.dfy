/** When an endpoint is reported to bind several runtimes, read off the raw records. */
module RawRuntimes {
  import opened Json
  import opened Wrappers
  import opened GraphRecords
  import opened CrossRuntime
  import opened RawMeaning

  /** The record is a node of this identity. */
  predicate IsNode(n: Value, id: string, host: Host) {
    n.Obj? && "id" in n.fields && n.fields["id"] != Null && host.text(n.fields["id"]) == id
  }

  /** The record names a source file. */
  predicate NamesFile(r: Record) { "source_file" in r && r["source_file"].Str? && r["source_file"].text != "" }

  predicate FileOf(r: Record, family: string, host: Host) {
    NamesFile(r) && host.family(r["source_file"].text) == Some(family)
  }

  /** Some node of this identity comes from a file of the family. */
  ghost predicate NodeFrom(nodes: seq<Value>, id: string, family: string, host: Host) {
    exists n :: n in nodes && IsNode(n, id, host) && FileOf(n.fields, family, host)
  }

  predicate EndsAt(e: Record, id: string, host: Host) {
    (SourceOf(e) != Null && host.text(SourceOf(e)) == id) || (TargetOf(e) != Null && host.text(TargetOf(e)) == id)
  }

  /** The edge comes from a file of the family, or names no file and its source comes from one. */
  ghost predicate EdgeFrom(e: Record, nodes: seq<Value>, family: string, host: Host) {
    if NamesFile(e) then FileOf(e, family, host) else NodeFrom(nodes, host.text(SourceOf(e)), family, host)
  }

  /** What one symbol can be to another, as far as it ties them to one runtime. */
  predicate BindsSymbols(relation: string) {
    relation in {"accesses", "references", "requires", "contains", "defines", "method", "case_of",
                 "calls", "indirect_call", "instantiates", "bound_to", "listened_by",
                 "imports", "imports_from", "re_exports",
                 "inherits", "implements", "extends", "mixes_in"}
  }

  ghost predicate BoundBy(e: Value, nodes: seq<Value>, id: string, family: string, host: Host) {
    e.Obj? && BindsSymbols(host.text(RelationOf(e.fields))) && EndsAt(e.fields, id, host) &&
    EdgeFrom(e.fields, nodes, family, host)
  }

  lemma OwnMeans(nodes: seq<Value>, id: string, family: string, host: Host)
    ensures family in OwnFamilies(nodes, id, host) <==> NodeFrom(nodes, id, family, host)
  {
    forall n ensures IsNode(n, id, host) <==> Identified(n) && NodeId(n, host) == id {}
    if NodeFrom(nodes, id, family, host) {
      var n :| n in nodes && IsNode(n, id, host) && FileOf(n.fields, family, host);
      assert OwnFamily(n, host) == Some(family);
    }
    if family in OwnFamilies(nodes, id, host) {
      var n :| n in nodes && Identified(n) && NodeId(n, host) == id && OwnFamily(n, host) == Some(family);
      assert FileOf(n.fields, family, host);
    }
  }

  lemma EdgeMeans(e: Value, nodes: seq<Value>, id: string, family: string, host: Host)
    ensures Touches(e, id, host) && family in EdgeFamilies(e, nodes, host) <==> BoundBy(e, nodes, id, family, host)
  {
    if e.Obj? {
      EndpointsRead(e.fields);
      OwnMeans(nodes, host.text(SourceOf(e.fields)), family, host);
    }
  }

  /** A family is counted at an identity exactly when a node of the identity comes from a file of the
      family, or a binding edge that ends there does, or names no file and its source node does. */
  lemma FamiliesMean(nodes: seq<Value>, edges: seq<Value>, id: string, family: string, host: Host)
    ensures family in Families(nodes, edges, id, host) <==>
            NodeFrom(nodes, id, family, host) || exists e :: e in edges && BoundBy(e, nodes, id, family, host)
  {
    OwnMeans(nodes, id, family, host);
    forall e { EdgeMeans(e, nodes, id, family, host); }
  }

  /** An identity is reported exactly when a node has it and two families are counted there. */
  lemma ReportedMeans(nodes: seq<Value>, edges: seq<Value>, id: string, host: Host)
    ensures Reported(nodes, edges, id, host) <==>
            (exists n :: n in nodes && IsNode(n, id, host)) &&
            exists x, y :: x != y && x in Families(nodes, edges, id, host) && y in Families(nodes, edges, id, host)
  {
    forall n ensures IsNode(n, id, host) <==> Identified(n) && NodeId(n, host) == id {}
    AtLeastTwo(Families(nodes, edges, id, host));
  }

  lemma AtLeastTwo<T>(s: set<T>)
    ensures |s| >= 2 <==> exists x, y :: x != y && x in s && y in s
  {
    if |s| >= 2 {
      var x :| x in s;
      assert |s - {x}| >= 1;
      var y :| y in s - {x};
    }
    if x, y :| x != y && x in s && y in s {
      assert s == {x, y} + (s - {x, y});
      assert |{x, y}| == 2;
    }
  }
}
