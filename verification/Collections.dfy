/** Facts about finite sets and maps that the protocol proofs share. */
module Collections {

  datatype Option<+T> = None | Some(value: T)

  lemma SomeElement<T>(s: set<T>) returns (x: T)
    requires s != {}
    ensures x in s
  {
    x :| x in s;
  }

  lemma {:induction false} LeastExists(s: set<int>)
    requires s != {}
    ensures exists m :: m in s && forall x :: x in s ==> m <= x
    decreases |s|
  {
    var a := SomeElement(s);
    var rest := s - {a};
    if rest == {} {
      assert s == {a};
    } else {
      LeastExists(rest);
      var m :| m in rest && forall x :: x in rest ==> m <= x;
      var least := if a < m then a else m;
      assert s == rest + {a};
      assert least in s && forall x :: x in s ==> least <= x;
    }
  }

  /** The smallest element: what iterating an ordered container meets first. */
  function Least(s: set<int>): (m: int)
    requires s != {}
    ensures m in s && forall x :: x in s ==> m <= x
  {
    LeastExists(s);
    var m :| m in s && forall x :: x in s ==> m <= x;
    m
  }

  /** An integer above every element of a finite set, hence outside it. */
  lemma {:induction false} UnusedExists(s: set<int>) returns (u: int)
    ensures forall x :: x in s ==> x < u
    ensures u !in s
    decreases |s|
  {
    u := 0;
    if s != {} {
      var a := SomeElement(s);
      u := UnusedExists(s - {a});
      assert s == (s - {a}) + {a};
      u := if u <= a then a + 1 else u;
    }
  }

  lemma SubsetSize<T>(a: set<T>, b: set<T>)
    requires a <= b
    ensures |a| <= |b|
  {
    assert b == a + (b - a);
  }

  lemma OneFewer<T>(m: multiset<T>, x: T)
    requires x in m
    ensures |m - multiset{x}| == |m| - 1
  {
    assert m == (m - multiset{x}) + multiset{x};
  }

  /** Visiting one more element of `todo` moves it, if it is in `s`, to the visited part of `s`. */
  lemma VisitOne<T>(s: set<T>, todo: set<T>, x: T)
    requires x in todo
    ensures x in s ==> x !in s - todo && (s - todo) + {x} == s - (todo - {x})
    ensures x !in s ==> s - todo == s - (todo - {x})
  {
  }

  /** Leaving one of two sets. */
  lemma UnionWithout<T>(a: set<T>, b: set<T>, gone: set<T>)
    requires gone <= a && gone !! b
    ensures |(a - gone) + b| == |a + b| - |gone|
  {
    assert (a - gone) + b == (a + b) - gone;
  }
}
