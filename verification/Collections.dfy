/** What the standard collections offer: the end of a list, the least of a set. */
module Collections {
  function LastOf<T>(s: seq<T>, n: nat): seq<T> {
    if |s| <= n then s else s[|s| - n..]
  }

  predicate IsLeast(x: int, s: set<int>) {
    x in s && forall y :: y in s ==> x <= y
  }

  lemma EmptyOrNot(s: set<int>)
    ensures s == {} || exists x :: x in s
  {
    if forall x :: x !in s {
      assert s == {};
    }
  }

  lemma {:induction false} LeastOf(s: set<int>) returns (x: int)
    requires s != {}
    ensures IsLeast(x, s)
  {
    EmptyOrNot(s);
    var one :| one in s;
    if s == {one} {
      x := one;
    } else {
      var rest := LeastOf(s - {one});
      x := if one < rest then one else rest;
      assert forall y :: y in s ==> y == one || y in s - {one};
    }
  }

  function Least(s: set<int>): (x: int)
    requires s != {}
    ensures IsLeast(x, s)
  {
    assert exists x :: IsLeast(x, s) by {
      var x := LeastOf(s);
    }
    var x :| IsLeast(x, s);
    x
  }

  lemma SubsetSize<T>(a: set<T>, b: set<T>)
    requires a <= b
    ensures |a| <= |b|
  {
    if a != {} {
      var x :| x in a;
      SubsetSize(a - {x}, b - {x});
    }
  }
}
