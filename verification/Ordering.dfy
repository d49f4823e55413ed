/** Python's order on `str` and `sorted()` over a set of strings. */
module Ordering {

  /** Code point by code point; a proper prefix comes first. */
  predicate Leq(a: string, b: string) {
    a == "" || (b != "" && (a[0] < b[0] || (a[0] == b[0] && Leq(a[1..], b[1..]))))
  }

  predicate Less(a: string, b: string) {
    a != b && Leq(a, b)
  }

  lemma LeqTotal(a: string, b: string)
    ensures Leq(a, b) || Leq(b, a)
  {
  }

  lemma {:induction false} LeqAntisymmetric(a: string, b: string)
    requires Leq(a, b) && Leq(b, a)
    ensures a == b
  {
    if a != "" && b != "" {
      LeqAntisymmetric(a[1..], b[1..]);
      assert a == [a[0]] + a[1..] && b == [b[0]] + b[1..];
    }
  }

  lemma {:induction false} LeqTransitive(a: string, b: string, c: string)
    requires Leq(a, b) && Leq(b, c)
    ensures Leq(a, c)
  {
    if a != "" && a[0] == b[0] && b[0] == c[0] {
      LeqTransitive(a[1..], b[1..], c[1..]);
    }
  }

  predicate Least(x: string, s: set<string>) {
    x in s && forall y | y in s :: Leq(x, y)
  }

  lemma {:induction false} LeastExists(s: set<string>)
    requires s != {}
    ensures exists x :: Least(x, s)
  {
    var y :| y in s;
    if s == {y} {
      LeqTotal(y, y);
      assert Least(y, s);
    } else {
      LeastExists(s - {y});
      var x :| Least(x, s - {y});
      LeqTotal(x, y);
      LeqTotal(y, y);
      var m := if Leq(x, y) then x else y;
      forall z | z in s ensures Leq(m, z) {
        if z != y && m == y { LeqTransitive(y, x, z); }
      }
      assert Least(m, s);
    }
  }

  lemma LeastUnique(s: set<string>, x: string, y: string)
    requires Least(x, s) && Least(y, s)
    ensures x == y
  {
    LeqAntisymmetric(x, y);
  }

  ghost predicate StrictlySorted(r: seq<string>) {
    forall i, j | 0 <= i < j < |r| :: Less(r[i], r[j])
  }

  /** `sorted(s)`: the members of `s`, each once, in ascending order. */
  function Sorted(s: set<string>): (r: seq<string>)
    ensures forall x :: x in r <==> x in s
    ensures StrictlySorted(r)
  {
    if s == {} then []
    else
      LeastExists(s);
      assert forall x, y | Least(x, s) && Least(y, s) :: x == y by {
        forall x, y | Least(x, s) && Least(y, s) ensures x == y { LeastUnique(s, x, y); }
      }
      var x :| x in s && Least(x, s);
      [x] + Sorted(s - {x})
  }
}
