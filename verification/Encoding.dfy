/** An encoding that tells all values apart: the one thing order independence asks of the encoder. */
module Encoding {
  import opened Json
  import opened Ordering

  /** Self-delimiting: a mark before each character, another at the end. */
  function Quote(s: string): string { if s == "" then "$" else ['.', s[0]] + Quote(s[1..]) }

  function Weight(v: Value): nat {
    match v
    case Arr(items) => |items| + 1
    case Obj(fields) => |fields| + 1
    case _ => 0
  }

  ghost function Code(v: Value): string
    decreases v, Weight(v)
  {
    match v
    case Null => "n"
    case Bool(flag) => if flag then "t" else "f"
    case Num(literal) => "#" + Quote(literal)
    case Str(text) => "s" + Quote(text)
    case Arr(items) => "[" + CodeItems(v, 0)
    case Obj(fields) => "{" + CodeFields(v, fields)
  }

  ghost function CodeItems(v: Value, n: nat): string
    requires v.Arr? && n <= |v.items|
    decreases v, |v.items| - n
  {
    if n == |v.items| then "]" else "," + Code(v.items[n]) + CodeItems(v, n + 1)
  }

  ghost predicate Within(rest: map<string, Value>, v: Value) {
    v.Obj? && forall k :: k in rest ==> k in v.fields && rest[k] == v.fields[k]
  }

  ghost function CodeFields(v: Value, rest: map<string, Value>): string
    requires Within(rest, v)
    decreases v, |rest|
  {
    if rest == map[] then "}"
    else
      var k :| k in rest;
      ":" + Quote(k) + Code(rest[k]) + CodeFields(v, rest - {k})
  }

  lemma {:induction false} QuoteApart(a: string, b: string, x: string, y: string)
    requires Quote(a) + x == Quote(b) + y
    ensures a == b && x == y
    decreases |a|
  {
    assert (Quote(a) + x)[0] == (Quote(b) + y)[0];
    if a == "" {
      assert (Quote(a) + x)[1..] == x;
      assert (Quote(b) + y)[1..] == y;
    } else {
      assert (Quote(a) + x)[1] == a[0] && (Quote(a) + x)[2..] == Quote(a[1..]) + x;
      assert (Quote(b) + y)[1] == b[0] && (Quote(b) + y)[2..] == Quote(b[1..]) + y;
      QuoteApart(a[1..], b[1..], x, y);
      assert a == [a[0]] + a[1..] && b == [b[0]] + b[1..];
    }
  }

  /** What follows one mark. */
  lemma AfterMark(c: string, a: string, x: string)
    requires |c| == 1
    ensures (c + a + x)[1..] == a + x && (c + a + x)[0] == c[0]
  {}

  lemma Grouped(a: string, b: string, c: string, d: string)
    ensures a + b + c + d == a + (b + (c + d)) && a + b + c == a + (b + c)
  {}

  lemma {:induction false} CodeApart(v: Value, w: Value, x: string, y: string)
    requires Code(v) + x == Code(w) + y
    ensures v == w && x == y
    decreases v, Weight(v)
  {
    assert (Code(v) + x)[0] == (Code(w) + y)[0];
    assert (Code(v) + x)[1..] == (Code(w) + y)[1..];
    match v
    case Null => assert (Code(v) + x)[1..] == x && (Code(w) + y)[1..] == y;
    case Bool(flag) => assert (Code(v) + x)[1..] == x && (Code(w) + y)[1..] == y;
    case Num(literal) =>
      AfterMark("#", Quote(literal), x);
      AfterMark("#", Quote(w.literal), y);
      QuoteApart(literal, w.literal, x, y);
    case Str(text) =>
      AfterMark("s", Quote(text), x);
      AfterMark("s", Quote(w.text), y);
      QuoteApart(text, w.text, x, y);
    case Arr(items) =>
      AfterMark("[", CodeItems(v, 0), x);
      AfterMark("[", CodeItems(w, 0), y);
      ItemsApart(v, w, 0, x, y);
    case Obj(fields) =>
      AfterMark("{", CodeFields(v, fields), x);
      AfterMark("{", CodeFields(w, w.fields), y);
      FieldsApart(v, w, fields, w.fields, x, y);
  }

  lemma {:induction false} ItemsApart(v: Value, w: Value, n: nat, x: string, y: string)
    requires v.Arr? && w.Arr? && n <= |v.items| && n <= |w.items|
    requires CodeItems(v, n) + x == CodeItems(w, n) + y && v.items[..n] == w.items[..n]
    ensures v == w && x == y
    decreases v, |v.items| - n
  {
    assert (CodeItems(v, n) + x)[0] == (CodeItems(w, n) + y)[0];
    assert (CodeItems(v, n) + x)[1..] == (CodeItems(w, n) + y)[1..];
    if n == |v.items| {
      assert (CodeItems(v, n) + x)[1..] == x && (CodeItems(w, n) + y)[1..] == y;
      assert v.items[..n] == v.items && w.items[..n] == w.items;
    } else {
      Grouped(",", Code(v.items[n]), CodeItems(v, n + 1), x);
      Grouped(",", Code(w.items[n]), CodeItems(w, n + 1), y);
      var a, b := CodeItems(v, n + 1) + x, CodeItems(w, n + 1) + y;
      assert ("," + (Code(v.items[n]) + a))[1..] == Code(v.items[n]) + a;
      assert ("," + (Code(w.items[n]) + b))[1..] == Code(w.items[n]) + b;
      CodeApart(v.items[n], w.items[n], a, b);
      assert v.items[..n + 1] == v.items[..n] + [v.items[n]] && w.items[..n + 1] == w.items[..n] + [w.items[n]];
      ItemsApart(v, w, n + 1, x, y);
    }
  }

  lemma FirstField(v: Value, rest: map<string, Value>, x: string) returns (k: string)
    requires Within(rest, v) && rest != map[]
    ensures k in rest
    ensures CodeFields(v, rest) + x == ":" + (Quote(k) + (Code(rest[k]) + (CodeFields(v, rest - {k}) + x)))
  {
    k :| k in rest && CodeFields(v, rest) == ":" + Quote(k) + Code(rest[k]) + CodeFields(v, rest - {k});
    Grouped(":", Quote(k), Code(rest[k]), CodeFields(v, rest - {k}));
    Grouped(":", Quote(k) + (Code(rest[k]) + CodeFields(v, rest - {k})), x, "");
    Grouped(Quote(k), Code(rest[k]), CodeFields(v, rest - {k}), x);
  }

  lemma {:induction false} FieldsApart(
    v: Value, w: Value, rest: map<string, Value>, other: map<string, Value>, x: string, y: string)
    requires Within(rest, v) && Within(other, w) && CodeFields(v, rest) + x == CodeFields(w, other) + y
    ensures rest == other && x == y
    decreases v, |rest|
  {
    assert (CodeFields(v, rest) + x)[0] == (CodeFields(w, other) + y)[0];
    assert (CodeFields(v, rest) + x)[1..] == (CodeFields(w, other) + y)[1..];
    if rest == map[] {
      assert (CodeFields(v, rest) + x)[1..] == x && (CodeFields(w, other) + y)[1..] == y;
    } else {
      var k := FirstField(v, rest, x);
      var l := FirstField(w, other, y);
      var a, b := Code(rest[k]) + (CodeFields(v, rest - {k}) + x), Code(other[l]) + (CodeFields(w, other - {l}) + y);
      assert (":" + (Quote(k) + a))[1..] == Quote(k) + a && (":" + (Quote(l) + b))[1..] == Quote(l) + b;
      QuoteApart(k, l, a, b);
      CodeApart(rest[k], other[l], CodeFields(v, rest - {k}) + x, CodeFields(w, other - {l}) + y);
      FieldsApart(v, w, rest - {k}, other - {l}, x, y);
      assert rest == (rest - {k})[k := rest[k]] && other == (other - {l})[l := other[l]];
    }
  }

  /** Some encoding is injective, so the results that ask for one say something. */
  lemma EncodingExists()
    ensures exists encode: Value -> string :: Injective(encode)
  {
    var encode: Value -> string := v => Code(v);
    forall v, w ensures encode(v) == encode(w) ==> v == w {
      if Code(v) == Code(w) {
        assert Code(v) + "" == Code(w) + "";
        CodeApart(v, w, "", "");
      }
    }
    assert Injective(encode);
  }
}
