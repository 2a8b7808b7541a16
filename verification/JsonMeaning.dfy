/** What JSON equality and preservation say about two values: equality is equality of meaning, and
    preservation is that every fact found along object fields is found again. */
module JsonMeaning {
  import opened Wrappers
  import opened Json

  // ---- equality ----

  /** A value with its numbers read. */
  datatype Meaning =
    | Nothing
    | Flag(flag: bool)
    | Number(number: real)
    | Text(text: string)
    | List(items: seq<Meaning>)
    | Object(fields: map<string, Meaning>)

  function Meant(v: Value, number: Reading): Meaning
    decreases v
  {
    match v
    case Null => Nothing
    case Bool(flag) => Flag(flag)
    case Num(literal) => Number(number(literal))
    case Str(text) => Text(text)
    case Arr(items) => List(seq(|items|, i requires 0 <= i < |items| => Meant(items[i], number)))
    case Obj(fields) => Object(map k | k in fields :: Meant(fields[k], number))
  }

  lemma ItemsMeant(a: seq<Value>, b: seq<Value>, number: Reading)
    ensures Meant(Arr(a), number) == Meant(Arr(b), number) <==>
            |a| == |b| && forall i :: 0 <= i < |a| ==> Meant(a[i], number) == Meant(b[i], number)
  {
    var x, y := Meant(Arr(a), number).items, Meant(Arr(b), number).items;
    if |a| == |b| && forall i :: 0 <= i < |a| ==> Meant(a[i], number) == Meant(b[i], number) {
      assert x == y;
    }
    if x == y {
      forall i | 0 <= i < |a| ensures Meant(a[i], number) == Meant(b[i], number) { assert x[i] == y[i]; }
    }
  }

  lemma FieldsMeant(a: map<string, Value>, b: map<string, Value>, number: Reading)
    ensures Meant(Obj(a), number) == Meant(Obj(b), number) <==>
            a.Keys == b.Keys && forall k :: k in a ==> Meant(a[k], number) == Meant(b[k], number)
  {
    var x, y := Meant(Obj(a), number).fields, Meant(Obj(b), number).fields;
    assert x.Keys == a.Keys && y.Keys == b.Keys;
    if a.Keys == b.Keys && forall k :: k in a ==> Meant(a[k], number) == Meant(b[k], number) {
      assert x == y;
    }
    if x == y {
      forall k | k in a ensures Meant(a[k], number) == Meant(b[k], number) { assert x[k] == y[k]; }
    }
  }

  /** Two values are equal exactly when they mean the same: kinds never mix, numbers agree as numbers,
      lists item by item, objects field by field. */
  lemma {:induction false} EqualIsSameMeaning(a: Value, b: Value, number: Reading)
    ensures JsonEqual(a, b, number) <==> Meant(a, number) == Meant(b, number)
    decreases a
  {
    match (a, b)
    case (Arr(x), Arr(y)) =>
      ItemsMeant(x, y, number);
      if |x| == |y| {
        forall i | 0 <= i < |x| ensures JsonEqual(x[i], y[i], number) <==> Meant(x[i], number) == Meant(y[i], number) {
          EqualIsSameMeaning(x[i], y[i], number);
        }
      }
    case (Obj(x), Obj(y)) =>
      FieldsMeant(x, y, number);
      if x.Keys == y.Keys {
        forall k | k in x ensures JsonEqual(x[k], y[k], number) <==> Meant(x[k], number) == Meant(y[k], number) {
          EqualIsSameMeaning(x[k], y[k], number);
        }
      }
    case _ =>
  }

  // ---- preservation ----

  /** The value found along fields of objects inside objects. */
  function At(v: Value, path: seq<string>): Option<Value>
    decreases |path|
  {
    if path == [] then Some(v)
    else if v.Obj? && path[0] in v.fields then At(v.fields[path[0]], path[1..])
    else None
  }

  /** Where the reference has an object there is one, where it has anything else there is its equal. */
  predicate FoundAgain(reference: Value, candidate: Value, path: seq<string>, number: Reading) {
    var x, y := At(reference, path), At(candidate, path);
    x.Some? ==> y.Some? && (x.value.Obj? ==> y.value.Obj?) && (!x.value.Obj? ==> JsonEqual(x.value, y.value, number))
  }

  ghost predicate AllFoundAgain(reference: Value, candidate: Value, number: Reading) {
    forall path :: FoundAgain(reference, candidate, path, number)
  }

  lemma BelowFoundAgain(a: Value, b: Value, k: string, number: Reading)
    requires a.Obj? && b.Obj? && k in a.fields && AllFoundAgain(a, b, number)
    ensures k in b.fields && AllFoundAgain(a.fields[k], b.fields[k], number)
  {
    assert FoundAgain(a, b, [k], number);
    assert At(a, [k]) == Some(a.fields[k]);
    forall path ensures FoundAgain(a.fields[k], b.fields[k], path, number) {
      assert FoundAgain(a, b, [k] + path, number);
      assert ([k] + path)[1..] == path;
    }
  }

  /** Without sharpening, a candidate preserves a reference exactly when every fact of the reference is
      found again along the same fields. */
  lemma {:induction false} PreservedIsFoundAgain(a: Value, b: Value, rule: Rule)
    requires !rule.sharpen
    ensures ValuePreserved(a, b, rule) <==> AllFoundAgain(a, b, rule.number)
    decreases a
  {
    if ValuePreserved(a, b, rule) {
      forall path ensures FoundAgain(a, b, path, rule.number) { PreservedFound(a, b, path, rule); }
    }
    if AllFoundAgain(a, b, rule.number) {
      assert FoundAgain(a, b, [], rule.number);
      if a.Obj? {
        forall k | k in a.fields
          ensures k in b.fields && ValuePreserved(a.fields[k], b.fields[k], Plain(rule))
        {
          BelowFoundAgain(a, b, k, rule.number);
          PreservedIsFoundAgain(a.fields[k], b.fields[k], rule);
        }
      }
    }
  }

  lemma {:induction false} PreservedFound(a: Value, b: Value, path: seq<string>, rule: Rule)
    requires !rule.sharpen && ValuePreserved(a, b, rule)
    ensures FoundAgain(a, b, path, rule.number)
    decreases |path|
  {
    if path != [] && a.Obj? && path[0] in a.fields {
      PreservedFound(a.fields[path[0]], b.fields[path[0]], path[1..], rule);
    }
  }

  // ---- the sharpened context ----

  /** An object whose own context is the given text. */
  predicate InContext(v: Value, context: string) {
    v.Obj? && "context" in v.fields && v.fields["context"] == Str(context)
  }

  /** The object with its own context replaced. */
  function WithContext(v: Value, context: string): Value
    requires v.Obj?
  {
    Obj(v.fields["context" := Str(context)])
  }

  lemma PlainField(rule: Rule, v: Value, w: Value, k: string)
    requires !rule.sharpen && v.Obj? && ValuePreserved(v, w, rule) && k in v.fields
    ensures w.Obj? && k in w.fields && ValuePreserved(v.fields[k], w.fields[k], Plain(rule))
  {}

  lemma TextPreserved(s: string, v: Value, rule: Rule)
    ensures ValuePreserved(Str(s), v, rule) <==> v == Str(s)
  {}

  /** Sharpening lets a candidate do exactly one thing more: say "import_guided_call" where the reference
      itself, not something inside it, says the context is "call". */
  lemma SharpenedMeans(a: Value, b: Value, number: Reading)
    ensures ValuePreserved(a, b, Rule(number, true)) <==>
            ValuePreserved(a, b, Rule(number, false)) ||
            (InContext(a, "call") && InContext(b, "import_guided_call") &&
             ValuePreserved(WithContext(a, "import_guided_call"), b, Rule(number, false)))
  {
    var sharp, plain := Rule(number, true), Rule(number, false);
    if ValuePreserved(a, b, sharp) && a.Obj? {
      if InContext(a, "call") && InContext(b, "import_guided_call") {
        var c := WithContext(a, "import_guided_call");
        forall k | k in c.fields ensures k in b.fields && ValuePreserved(c.fields[k], b.fields[k], plain) {
          if k == "context" { TextPreserved("import_guided_call", b.fields[k], plain); }
        }
        assert ValuePreserved(c, b, plain);
      } else {
        forall k | k in a.fields ensures k in b.fields && ValuePreserved(a.fields[k], b.fields[k], plain) {}
        assert ValuePreserved(a, b, plain);
      }
    }
    if InContext(a, "call") && InContext(b, "import_guided_call") {
      var c := WithContext(a, "import_guided_call");
      if ValuePreserved(c, b, plain) {
        forall k | k in a.fields
          ensures k in b.fields && (ContextRefined(sharp, k, a.fields[k], b.fields[k]) ||
                                    ValuePreserved(a.fields[k], b.fields[k], Plain(sharp)))
        {
          assert k in c.fields;
          PlainField(plain, c, b, k);
        }
      }
    }
    if ValuePreserved(a, b, plain) && a.Obj? {
      forall k | k in a.fields ensures k in b.fields && ValuePreserved(a.fields[k], b.fields[k], Plain(sharp)) {
        PlainField(plain, a, b, k);
      }
    }
  }

  /** Seen from the edge: a context "call" may become "import_guided_call", never the other way, and
      below the outermost object neither changes. */
  lemma ContextDirection(a: Value, b: Value, number: Reading)
    ensures InContext(a, "call") ==> ValuePreserved(a, WithContext(a, "import_guided_call"), Rule(number, true))
    ensures InContext(a, "import_guided_call") && ValuePreserved(a, b, Rule(number, true)) ==>
            InContext(b, "import_guided_call")
    ensures ValuePreserved(a, b, Rule(number, true)) && a.Obj? ==>
              forall k, c :: k in a.fields && InContext(a.fields[k], c) ==> k in b.fields && InContext(b.fields[k], c)
  {
    var sharp, plain := Rule(number, true), Rule(number, false);
    SharpenedMeans(a, b, number);
    if InContext(a, "call") {
      var c := WithContext(a, "import_guided_call");
      PreservedReflexive(c, plain);
      SharpenedMeans(a, c, number);
    }
    if InContext(a, "import_guided_call") && ValuePreserved(a, b, sharp) {
      PlainField(plain, a, b, "context");
      TextPreserved("import_guided_call", b.fields["context"], plain);
    }
    forall k, c | ValuePreserved(a, b, sharp) && a.Obj? && k in a.fields && InContext(a.fields[k], c)
      ensures k in b.fields && InContext(b.fields[k], c)
    {
      assert ValuePreserved(a.fields[k], b.fields[k], plain);
      PlainField(plain, a.fields[k], b.fields[k], "context");
      TextPreserved(c, b.fields[k].fields["context"], plain);
    }
  }
}
