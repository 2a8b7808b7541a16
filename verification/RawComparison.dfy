/** What the verdicts of a comparison mean for the two raw graphs, record by record and field by field. */
module RawComparison {
  import opened Json
  import opened Wrappers
  import opened GraphRecords
  import opened CanonicalGraph
  import opened GraphComparison
  import opened RawMeaning

  /** A fact of the reference is in the candidate. */
  predicate Kept(x: Option<Value>, y: Option<Value>, number: Reading) {
    x.Some? ==> y.Some? && ValuePreserved(x.value, y.value, Rule(number, false))
  }

  /** The same fact, or the same absence, on both sides. */
  predicate Matches(x: Option<Value>, y: Option<Value>, number: Reading) {
    (x.Some? <==> y.Some?) && (x.Some? && y.Some? ==> JsonEqual(x.value, y.value, number))
  }

  // ---- nodes ----

  ghost predicate NodeKept(a: Value, b: Value, strict: bool, host: Host) {
    forall field ::
      Kept(NodeSays(a, field, strict, host.portable), NodeSays(b, field, strict, host.portable), host.number)
  }

  ghost predicate NodeMatches(a: Value, b: Value, strict: bool, host: Host) {
    forall field ::
      Matches(NodeSays(a, field, strict, host.portable), NodeSays(b, field, strict, host.portable), host.number)
  }

  lemma NodeKeptForm(a: Value, b: Value, strict: bool, host: Host)
    ensures var c, d := CanonicalNode(a, strict, host.portable), CanonicalNode(b, strict, host.portable);
            ValuePreserved(c, d, Exactly(host)) <==> NodeKept(a, b, strict, host)
  {
    var c, d := CanonicalNode(a, strict, host.portable), CanonicalNode(b, strict, host.portable);
    NodesRead(a, b, strict, host);
    FieldsKept(c.fields, d.fields, host.number);
    assert AllKept(c.fields, d.fields, host.number) <==> NodeKept(a, b, strict, host);
  }

  lemma NodesRead(a: Value, b: Value, strict: bool, host: Host)
    ensures forall field ::
      && Said(CanonicalNode(a, strict, host.portable).fields, field) == NodeSays(a, field, strict, host.portable)
      && Said(CanonicalNode(b, strict, host.portable).fields, field) == NodeSays(b, field, strict, host.portable)
  {
    forall field
      ensures Said(CanonicalNode(a, strict, host.portable).fields, field) == NodeSays(a, field, strict, host.portable)
      ensures Said(CanonicalNode(b, strict, host.portable).fields, field) == NodeSays(b, field, strict, host.portable)
    {
      NodeRead(a, field, strict, host.portable);
      NodeRead(b, field, strict, host.portable);
    }
  }

  ghost predicate AllKept(r: Record, s: Record, number: Reading) {
    forall field :: Kept(Said(r, field), Said(s, field), number)
  }

  ghost predicate AllMatch(r: Record, s: Record, number: Reading) {
    forall field :: Matches(Said(r, field), Said(s, field), number)
  }

  lemma FieldsKept(r: Record, s: Record, number: Reading)
    ensures ValuePreserved(Obj(r), Obj(s), Rule(number, false)) <==> AllKept(r, s, number)
  {
    if ValuePreserved(Obj(r), Obj(s), Rule(number, false)) {
      forall field ensures Kept(Said(r, field), Said(s, field), number) {}
    }
    if AllKept(r, s, number) {
      forall k | k in r ensures k in s && ValuePreserved(r[k], s[k], Rule(number, false)) {
        assert Kept(Said(r, k), Said(s, k), number);
      }
    }
  }

  lemma FieldsMatch(r: Record, s: Record, number: Reading)
    ensures JsonEqual(Obj(r), Obj(s), number) <==> AllMatch(r, s, number)
    ensures FieldsUnchanged(r, s, number) <==> AllMatch(r, s, number)
  {
    if FieldsUnchanged(r, s, number) {
      forall field ensures Matches(Said(r, field), Said(s, field), number) {}
    }
    if AllMatch(r, s, number) {
      forall k ensures (k in r <==> k in s) && (k in r ==> JsonEqual(r[k], s[k], number)) {
        assert Matches(Said(r, k), Said(s, k), number);
      }
      assert r.Keys == s.Keys;
    }
  }

  lemma NodeMatchesForm(a: Value, b: Value, strict: bool, host: Host)
    ensures JsonEqual(CanonicalNode(a, strict, host.portable), CanonicalNode(b, strict, host.portable), host.number)
            <==> NodeMatches(a, b, strict, host)
  {
    var c, d := CanonicalNode(a, strict, host.portable), CanonicalNode(b, strict, host.portable);
    NodesRead(a, b, strict, host);
    FieldsMatch(c.fields, d.fields, host.number);
    assert AllMatch(c.fields, d.fields, host.number) <==> NodeMatches(a, b, strict, host);
  }

  // ---- edges ----

  /** A fact of an edge is in the candidate's edge, whose context may say "import_guided_call" for "call". */
  predicate EdgeFactKept(field: string, x: Option<Value>, y: Option<Value>, number: Reading) {
    Kept(x, y, number) || (field == "context" && x == Some(Str("call")) && y == Some(Str("import_guided_call")))
  }

  ghost predicate EdgeKept(a: Value, b: Value, strict: bool, host: Host) {
    forall field ::
      EdgeFactKept(field, EdgeSays(a, field, strict, host.portable), EdgeSays(b, field, strict, host.portable),
                   host.number)
  }

  ghost predicate AllEdgeFactsKept(r: Record, s: Record, number: Reading) {
    forall field :: EdgeFactKept(field, Said(r, field), Said(s, field), number)
  }

  lemma EdgeFieldsKept(r: Record, s: Record, number: Reading)
    ensures ValuePreserved(Obj(r), Obj(s), Rule(number, true)) <==> AllEdgeFactsKept(r, s, number)
  {
    if ValuePreserved(Obj(r), Obj(s), Rule(number, true)) {
      forall field ensures EdgeFactKept(field, Said(r, field), Said(s, field), number) {}
    }
    if AllEdgeFactsKept(r, s, number) {
      forall k | k in r
        ensures k in s
        ensures ContextRefined(Rule(number, true), k, r[k], s[k]) || ValuePreserved(r[k], s[k], Rule(number, false))
      {
        assert EdgeFactKept(k, Said(r, k), Said(s, k), number);
      }
    }
  }

  lemma EdgesRead(a: Value, b: Value, strict: bool, host: Host)
    ensures forall field ::
      && Said(CanonicalEdge(a, strict, host.portable).fields, field) == EdgeSays(a, field, strict, host.portable)
      && Said(CanonicalEdge(b, strict, host.portable).fields, field) == EdgeSays(b, field, strict, host.portable)
  {
    forall field
      ensures Said(CanonicalEdge(a, strict, host.portable).fields, field) == EdgeSays(a, field, strict, host.portable)
      ensures Said(CanonicalEdge(b, strict, host.portable).fields, field) == EdgeSays(b, field, strict, host.portable)
    {
      EdgeRead(a, field, strict, host.portable);
      EdgeRead(b, field, strict, host.portable);
    }
  }

  lemma EdgeKeptForm(a: Value, b: Value, strict: bool, host: Host)
    ensures var c, d := CanonicalEdge(a, strict, host.portable), CanonicalEdge(b, strict, host.portable);
            ValuePreserved(c, d, Sharpening(host)) <==> EdgeKept(a, b, strict, host)
  {
    var c, d := CanonicalEdge(a, strict, host.portable), CanonicalEdge(b, strict, host.portable);
    EdgesRead(a, b, strict, host);
    EdgeFieldsKept(c.fields, d.fields, host.number);
    assert AllEdgeFactsKept(c.fields, d.fields, host.number) <==> EdgeKept(a, b, strict, host);
  }

  // ---- hyperedges ----

  function HyperedgeSays(r: Record, field: string, host: Host): Option<Value> {
    if field == "nodes" then InOrder(MembersOf(r), host.encode) else HyperedgeField(r, field, host.portable)
  }

  ghost predicate HyperedgeKept(a: Value, b: Value, host: Host) {
    if a.Obj? then
      b.Obj? &&
      forall field :: Kept(HyperedgeSays(a.fields, field, host), HyperedgeSays(b.fields, field, host), host.number)
    else !b.Obj? && JsonEqual(a, b, host.number)
  }

  lemma HyperedgesRead(a: Value, b: Value, host: Host)
    requires a.Obj? && b.Obj?
    ensures CanonicalHyperedge(a, host).Obj? && CanonicalHyperedge(b, host).Obj?
    ensures forall field ::
      && Said(CanonicalHyperedge(a, host).fields, field) == HyperedgeSays(a.fields, field, host)
      && Said(CanonicalHyperedge(b, host).fields, field) == HyperedgeSays(b.fields, field, host)
  {
    HyperedgeRead(a, "nodes", host);
    HyperedgeRead(b, "nodes", host);
    forall field
      ensures Said(CanonicalHyperedge(a, host).fields, field) == HyperedgeSays(a.fields, field, host)
      ensures Said(CanonicalHyperedge(b, host).fields, field) == HyperedgeSays(b.fields, field, host)
    {
      HyperedgeRead(a, field, host);
      HyperedgeRead(b, field, host);
    }
  }

  lemma HyperedgeKeptForm(a: Value, b: Value, host: Host)
    ensures ValuePreserved(CanonicalHyperedge(a, host), CanonicalHyperedge(b, host), Exactly(host)) <==>
            HyperedgeKept(a, b, host)
  {
    if a.Obj? && b.Obj? {
      var c, d := CanonicalHyperedge(a, host), CanonicalHyperedge(b, host);
      HyperedgesRead(a, b, host);
      FieldsKept(c.fields, d.fields, host.number);
      assert AllKept(c.fields, d.fields, host.number) <==> HyperedgeKept(a, b, host);
    } else {
      if a.Obj? { HyperedgeRead(a, "nodes", host); }
      if b.Obj? { HyperedgeRead(b, "nodes", host); }
    }
  }

  // ---- metadata ----

  function GraphSays(g: Record, key: string, strict: bool): Option<Value> {
    if key in {"nodes", "links", "edges", "hyperedges"} then None
    else if (if strict then key !in VOLATILE_GRAPH_FIELDS else key in {"directed", "multigraph"}) then Said(g, key)
    else None
  }

  ghost predicate GraphKept(g: Record, h: Record, strict: bool, host: Host) {
    forall key :: Kept(GraphSays(g, key, strict), GraphSays(h, key, strict), host.number)
  }

  ghost predicate GraphMatches(g: Record, h: Record, strict: bool, host: Host) {
    forall key :: Matches(GraphSays(g, key, strict), GraphSays(h, key, strict), host.number)
  }

  lemma GraphRead(g: Record, key: string, strict: bool)
    ensures Said(Restrict(g, KeepMetadata(strict)), key) == GraphSays(g, key, strict)
  {}

  lemma MetadataForms(g: Record, h: Record, strict: bool, host: Host)
    ensures var c, d := Restrict(g, KeepMetadata(strict)), Restrict(h, KeepMetadata(strict));
      && (ValuePreserved(Obj(c), Obj(d), Exactly(host)) <==> GraphKept(g, h, strict, host))
      && (FieldsUnchanged(c, d, host.number) <==> GraphMatches(g, h, strict, host))
  {
    var c, d := Restrict(g, KeepMetadata(strict)), Restrict(h, KeepMetadata(strict));
    forall key ensures Said(c, key) == GraphSays(g, key, strict) && Said(d, key) == GraphSays(h, key, strict) {
      GraphRead(g, key, strict);
      GraphRead(h, key, strict);
    }
    FieldsKept(c, d, host.number);
    FieldsMatch(c, d, host.number);
    assert AllKept(c, d, host.number) <==> GraphKept(g, h, strict, host);
    assert AllMatch(c, d, host.number) <==> GraphMatches(g, h, strict, host);
  }
}
