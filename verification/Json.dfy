/** JSON values as the graph differential sees them, their coercion-free equality,
    and the one-way "candidate contains the whole reference value" relation. */
module Json {

  predicate IsNumeral(s: string) {
    s != "" && (s[0] == '-' || '0' <= s[0] <= '9') &&
    forall c | c in s :: '0' <= c <= '9' || c == '-' || c == '+' || c == '.' || c == 'e' || c == 'E'
  }

  /** A number's text. */
  type Numeral = s: string | IsNumeral(s) witness "0"

  /** A number is the text the encoder writes for it, so different values have different encodings. */
  datatype Value =
    | Null
    | Bool(flag: bool)
    | Num(literal: Numeral)
    | Str(text: string)
    | Arr(items: seq<Value>)
    | Obj(fields: map<string, Value>)

  /** The mathematical value of a number's text: `1` and `1.0` are two texts of one value. */
  type Reading = Numeral -> real

  /** How records are compared: what numbers mean, and whether the candidate may sharpen an edge's
      context. */
  datatype Rule = Rule(number: Reading, sharpen: bool)

  function Plain(rule: Rule): Rule { rule.(sharpen := false) }

  const CONTEXT := "context"
  const CALL := Str("call")
  const IMPORT_GUIDED_CALL := Str("import_guided_call")

  /** Equality without bool/number coercion: numbers by value, arrays position by position,
      objects by key set and then field by field. */
  predicate JsonEqual(left: Value, right: Value, number: Reading)
    decreases left
  {
    match (left, right)
    case (Null, Null) => true
    case (Bool(a), Bool(b)) => a == b
    case (Num(a), Num(b)) => number(a) == number(b)
    case (Str(a), Str(b)) => a == b
    case (Arr(a), Arr(b)) => |a| == |b| && forall i | 0 <= i < |a| :: JsonEqual(a[i], b[i], number)
    case (Obj(a), Obj(b)) => a.Keys == b.Keys && forall k | k in a :: JsonEqual(a[k], b[k], number)
    case _ => false
  }

  /** The one edge field whose value the candidate may sharpen. */
  predicate ContextRefined(rule: Rule, key: string, reference: Value, candidate: Value) {
    rule.sharpen && key == CONTEXT && reference == CALL && candidate == IMPORT_GUIDED_CALL
  }

  /** The candidate holds the complete reference value. Objects may gain fields; the context
      refinement applies to the outermost object only, and arrays and scalars stay exact. */
  predicate ValuePreserved(reference: Value, candidate: Value, rule: Rule)
    decreases reference
  {
    if reference.Obj? then
      candidate.Obj? &&
      forall k | k in reference.fields ::
        k in candidate.fields &&
        (ContextRefined(rule, k, reference.fields[k], candidate.fields[k]) ||
         ValuePreserved(reference.fields[k], candidate.fields[k], Plain(rule)))
    else
      JsonEqual(reference, candidate, rule.number)
  }

  lemma {:induction false} EqualReflexive(v: Value, number: Reading)
    ensures JsonEqual(v, v, number)
    decreases v
  {
    match v
    case Arr(items) => forall i | 0 <= i < |items| { EqualReflexive(items[i], number); }
    case Obj(fields) => forall k | k in fields { EqualReflexive(fields[k], number); }
    case _ =>
  }

  lemma {:induction false} EqualSymmetric(a: Value, b: Value, number: Reading)
    requires JsonEqual(a, b, number)
    ensures JsonEqual(b, a, number)
    decreases a
  {
    match (a, b)
    case (Arr(x), Arr(y)) =>
      forall i | 0 <= i < |x| ensures JsonEqual(y[i], x[i], number) { EqualSymmetric(x[i], y[i], number); }
    case (Obj(x), Obj(y)) =>
      forall k | k in y ensures JsonEqual(y[k], x[k], number) { EqualSymmetric(x[k], y[k], number); }
    case _ =>
  }

  lemma {:induction false} EqualTransitive(a: Value, b: Value, c: Value, number: Reading)
    requires JsonEqual(a, b, number) && JsonEqual(b, c, number)
    ensures JsonEqual(a, c, number)
    decreases a
  {
    match (a, b, c)
    case (Arr(x), Arr(y), Arr(z)) =>
      forall i | 0 <= i < |x| ensures JsonEqual(x[i], z[i], number) { EqualTransitive(x[i], y[i], z[i], number); }
    case (Obj(x), Obj(y), Obj(z)) =>
      forall k | k in x ensures JsonEqual(x[k], z[k], number) { EqualTransitive(x[k], y[k], z[k], number); }
    case _ =>
  }

  /** Equal values preserve each other, whether or not the refinement is allowed. */
  lemma {:induction false} EqualIsPreserved(a: Value, b: Value, rule: Rule)
    requires JsonEqual(a, b, rule.number)
    ensures ValuePreserved(a, b, rule)
    decreases a
  {
    if a.Obj? {
      forall k | k in a.fields ensures ValuePreserved(a.fields[k], b.fields[k], Plain(rule)) {
        EqualIsPreserved(a.fields[k], b.fields[k], Plain(rule));
      }
    }
  }

  /** Preservation composes: a chain of candidates never loses a reference fact. */
  lemma {:induction false} PreservedTransitive(a: Value, b: Value, c: Value, rule: Rule)
    requires ValuePreserved(a, b, rule) && ValuePreserved(b, c, rule)
    ensures ValuePreserved(a, c, rule)
    decreases a
  {
    if a.Obj? {
      forall k | k in a.fields
        ensures k in c.fields
        ensures ContextRefined(rule, k, a.fields[k], c.fields[k]) ||
                ValuePreserved(a.fields[k], c.fields[k], Plain(rule))
      {
        var x, y, z := a.fields[k], b.fields[k], c.fields[k];
        if !ContextRefined(rule, k, x, y) && !ContextRefined(rule, k, y, z) {
          PreservedTransitive(x, y, z, Plain(rule));
        }
      }
    } else {
      assert !b.Obj?;
      EqualTransitive(a, b, c, rule.number);
    }
  }

  lemma {:induction false} MutualIsEqual(a: Value, b: Value, rule: Rule)
    requires ValuePreserved(a, b, rule) && ValuePreserved(b, a, rule)
    ensures JsonEqual(a, b, rule.number)
    decreases a
  {
    if a.Obj? {
      forall k | k in a.fields ensures JsonEqual(a.fields[k], b.fields[k], rule.number) {
        assert k in b.fields;
        MutualIsEqual(a.fields[k], b.fields[k], Plain(rule));
      }
      assert a.fields.Keys == b.fields.Keys;
    }
  }

  /** Two values preserve each other exactly when they are JSON-equal; the one-way
      `call` to `import_guided_call` refinement never survives the return trip. */
  lemma MutualPreservation(a: Value, b: Value, rule: Rule)
    ensures ValuePreserved(a, b, rule) && ValuePreserved(b, a, rule) <==> JsonEqual(a, b, rule.number)
  {
    if JsonEqual(a, b, rule.number) {
      EqualSymmetric(a, b, rule.number);
      EqualIsPreserved(a, b, rule);
      EqualIsPreserved(b, a, rule);
    } else if ValuePreserved(a, b, rule) && ValuePreserved(b, a, rule) {
      MutualIsEqual(a, b, rule);
    }
  }

  lemma PreservedReflexive(v: Value, rule: Rule)
    ensures ValuePreserved(v, v, rule)
  {
    EqualReflexive(v, rule.number);
    EqualIsPreserved(v, v, rule);
  }
}
