/** What several modules need: an optional value, lists without repetition, and how many elements they have. */
module Common {
  datatype Option<T> = None | Some(value: T)

  predicate NoDups(q: seq<nat>) {
    forall i, j :: 0 <= i < j < |q| ==> q[i] != q[j]
  }

  /** Division is what leaves a remainder below the divisor. */
  lemma Quotient(x: int, d: int, q: int, r: int)
    requires d >= 1 && x == d * q + r && 0 <= r < d
    ensures x / d == q && x % d == r
  {
    var p := x / d;
    assert x == d * p + x % d;
    if p < q { Multiples(d, p, q); }
    if q < p { Multiples(d, q, p); }
  }

  lemma Multiples(d: int, a: int, b: int)
    requires d >= 1 && a < b
    ensures d * a + d <= d * b
  {
    assert d * b == d * (a + 1) + d * (b - a - 1);
    assert d * (b - a - 1) >= 0;
  }

  ghost function Elements(q: seq<nat>): set<nat> {
    set x | x in q
  }

  lemma {:induction false} ElementCount(q: seq<nat>)
    requires NoDups(q)
    ensures |Elements(q)| == |q|
  {
    if q != [] {
      var rest := q[1..];
      ElementCount(rest);
      assert q == [q[0]] + rest;
      assert Elements(q) == Elements(rest) + {q[0]};
      assert q[0] !in rest;
    }
  }

  /** Two lists of the same elements are equally long. */
  lemma SameLength(a: seq<nat>, b: seq<nat>)
    requires NoDups(a) && NoDups(b) && forall x: nat :: x in a <==> x in b
    ensures |a| == |b|
  {
    ElementCount(a);
    ElementCount(b);
    assert Elements(a) == Elements(b);
  }

  lemma {:induction false} SubsetSize<T>(a: set<T>, b: set<T>)
    requires a <= b
    ensures |a| <= |b|
  {
    if a != {} {
      var x :| x in a;
      SubsetSize(a - {x}, b - {x});
    }
  }

  lemma SameSize<T>(a: set<T>, b: set<T>)
    requires a <= b && |a| == |b|
    ensures a == b
  {
    if x :| x in b && x !in a { SubsetSize(a, b - {x}); }
  }

  lemma OneElement<T>(a: set<T>, x: T, y: T)
    requires |a| == 1 && x in a && y in a
    ensures x == y
  {
    assert |a - {x}| == 0;
    assert y !in a - {x};
  }
}
