/** Sorting by an encoded key, the way canonical collections are put in order. */
module Ordering {

  /** Code-point lexicographic order on encodings. */
  predicate TextLe(a: string, b: string) {
    a == [] || (b != [] && (a[0] < b[0] || (a[0] == b[0] && TextLe(a[1..], b[1..]))))
  }

  lemma {:induction false} TextLeTotal(a: string, b: string)
    ensures TextLe(a, b) || TextLe(b, a)
    decreases |a|
  {
    if a != [] && b != [] { TextLeTotal(a[1..], b[1..]); }
  }

  lemma {:induction false} TextLeAntisymmetric(a: string, b: string)
    requires TextLe(a, b) && TextLe(b, a)
    ensures a == b
    decreases |a|
  {
    if a != [] {
      TextLeAntisymmetric(a[1..], b[1..]);
      assert a == [a[0]] + a[1..] && b == [b[0]] + b[1..];
    }
  }

  lemma {:induction false} TextLeTransitive(a: string, b: string, c: string)
    requires TextLe(a, b) && TextLe(b, c)
    ensures TextLe(a, c)
    decreases |a|
  {
    if a != [] && a[0] == b[0] == c[0] { TextLeTransitive(a[1..], b[1..], c[1..]); }
  }

  /** Different values have different encodings. */
  ghost predicate Injective<T(!new)>(encode: T -> string) {
    forall x, y :: encode(x) == encode(y) ==> x == y
  }

  function Insert<T>(x: T, s: seq<T>, encode: T -> string): (out: seq<T>)
    ensures multiset(out) == multiset{x} + multiset(s)
  {
    if s == [] || TextLe(encode(x), encode(s[0])) then [x] + s
    else
      assert s == [s[0]] + s[1..];
      [s[0]] + Insert(x, s[1..], encode)
  }

  function Sorted<T>(s: seq<T>, encode: T -> string): (out: seq<T>)
    ensures multiset(out) == multiset(s)
  {
    if s == [] then []
    else
      assert s == [s[0]] + s[1..];
      Insert(s[0], Sorted(s[1..], encode), encode)
  }

  /** The head is a least element of the whole sequence, at every suffix. */
  ghost predicate Ascending<T>(s: seq<T>, encode: T -> string) {
    s == [] || ((forall y :: y in s ==> TextLe(encode(s[0]), encode(y))) && Ascending(s[1..], encode))
  }

  lemma {:induction false} InsertAscending<T>(x: T, s: seq<T>, encode: T -> string)
    requires Ascending(s, encode)
    ensures Ascending(Insert(x, s, encode), encode)
    decreases |s|
  {
    var out := Insert(x, s, encode);
    if s == [] {
      TextLeTotal(encode(x), encode(x));
    } else if TextLe(encode(x), encode(s[0])) {
      TextLeTotal(encode(x), encode(x));
      assert out[1..] == s;
      forall y | y in out ensures TextLe(encode(x), encode(y)) {
        if y in s { TextLeTransitive(encode(x), encode(s[0]), encode(y)); }
      }
    } else {
      TextLeTotal(encode(x), encode(s[0]));
      InsertAscending(x, s[1..], encode);
      assert out[1..] == Insert(x, s[1..], encode);
      forall y | y in out ensures TextLe(encode(s[0]), encode(y)) {
        assert y in multiset(out);
        assert y == x || y in s by { assert y in multiset{x} + multiset(s); }
      }
    }
  }

  lemma {:induction false} SortedAscending<T>(s: seq<T>, encode: T -> string)
    ensures Ascending(Sorted(s, encode), encode)
    decreases |s|
  {
    if s != [] {
      SortedAscending(s[1..], encode);
      InsertAscending(s[0], Sorted(s[1..], encode), encode);
    }
  }

  lemma SameHead<T(!new)>(a: seq<T>, b: seq<T>, encode: T -> string)
    requires Injective(encode) && Ascending(a, encode) && Ascending(b, encode)
    requires multiset(a) == multiset(b) && a != [] && b != []
    ensures a[0] == b[0]
  {
    assert a[0] in multiset(b) && b[0] in multiset(a);
    TextLeAntisymmetric(encode(a[0]), encode(b[0]));
  }

  lemma SameTail<T>(a: seq<T>, b: seq<T>)
    requires multiset(a) == multiset(b) && a != [] && b != [] && a[0] == b[0]
    ensures multiset(a[1..]) == multiset(b[1..])
  {
    assert a == [a[0]] + a[1..] && b == [b[0]] + b[1..];
    assert multiset(a[1..]) == multiset(a) - multiset{a[0]};
    assert multiset(b[1..]) == multiset(b) - multiset{b[0]};
  }

  lemma {:induction false} AscendingUnique<T(!new)>(a: seq<T>, b: seq<T>, encode: T -> string)
    requires Injective(encode) && Ascending(a, encode) && Ascending(b, encode)
    requires multiset(a) == multiset(b)
    ensures a == b
    decreases |a|
  {
    assert |a| == |multiset(a)| == |multiset(b)| == |b|;
    if a != [] {
      SameHead(a, b, encode);
      SameTail(a, b);
      AscendingUnique(a[1..], b[1..], encode);
      assert a == [a[0]] + a[1..] && b == [b[0]] + b[1..];
    }
  }

  /** Sorting by an injective encoding forgets the original order and nothing else. */
  lemma SortedForgetsOrder<T(!new)>(a: seq<T>, b: seq<T>, encode: T -> string)
    requires Injective(encode)
    ensures multiset(a) == multiset(b) <==> Sorted(a, encode) == Sorted(b, encode)
  {
    if multiset(a) == multiset(b) {
      SortedAscending(a, encode);
      SortedAscending(b, encode);
      AscendingUnique(Sorted(a, encode), Sorted(b, encode), encode);
    }
  }
}
