/** Finite sets of integers walked in ascending order, as `std::set` and `std::map` iterate them,
    and the few cardinality facts that the address tables need. */
module FiniteSets {

  lemma Pick<T>(s: set<T>) returns (x: T)
    requires s != {}
    ensures x in s
  {
    x :| x in s;
  }

  lemma {:induction false} HasLeast(s: set<int>)
    requires s != {}
    ensures exists m :: m in s && forall x :: x in s ==> m <= x
  {
    var y := Pick(s);
    var rest := s - {y};
    if rest == {} {
      assert forall x :: x in s ==> x == y || x in rest;
      assert forall x :: x in s ==> y <= x;
    } else {
      HasLeast(rest);
      var m :| m in rest && forall x :: x in rest ==> m <= x;
      var least := if m <= y then m else y;
      assert forall x :: x in s ==> x == y || x in rest;
      assert least in s && forall x :: x in s ==> least <= x;
    }
  }

  ghost predicate StrictlyAscending(q: seq<int>) {
    forall i, j :: 0 <= i < j < |q| ==> q[i] < q[j]
  }

  function Least(s: set<int>): (m: int)
    requires s != {}
    ensures m in s && forall x :: x in s ==> m <= x
  {
    HasLeast(s);
    var m :| m in s && forall x :: x in s ==> m <= x;
    m
  }

  lemma LeastFirst(s: set<int>, rest: seq<int>)
    requires s != {} && |rest| == |s| - 1 && StrictlyAscending(rest)
    requires forall x :: x in rest <==> x in s && x != Least(s)
    ensures var q := [Least(s)] + rest;
      |q| == |s| && StrictlyAscending(q) && forall x :: x in q <==> x in s
  {
    assert forall i :: 0 <= i < |rest| ==> rest[i] in rest;
  }

  /** The elements of `s` in ascending order. */
  function Ascending(s: set<int>): (q: seq<int>)
    ensures |q| == |s|
    ensures forall x :: x in q <==> x in s
    ensures StrictlyAscending(q)
  {
    if s == {} then []
    else
      var rest := Ascending(s - {Least(s)});
      LeastFirst(s, rest);
      [Least(s)] + rest
  }

  lemma UpdatedTwice<K, V>(m: map<K, V>, k: K, v: V, w: V)
    ensures m[k := v][k := w] == m[k := w]
  {
  }

  lemma SubsetSize<T>(a: set<T>, b: set<T>)
    requires a <= b
    ensures |a| <= |b|
    ensures |a| == |b| ==> a == b
  {
    assert b == a + (b - a);
    if |a| == |b| {
      assert |b - a| == 0;
    }
  }

  /** An injective renaming keeps the size of a set. */
  lemma ImageSize<T>(a: set<int>, b: set<T>, f: map<int, T>)
    requires forall x :: x in a ==> x in f
    requires forall x, y :: x in a && y in a && f[x] == f[y] ==> x == y
    requires forall y :: y in b <==> exists x :: x in a && f[x] == y
    ensures |a| == |b|
  {
    if a == {} {
      assert b == {};
    } else {
      var x := Pick(a);
      forall y ensures y in b - {f[x]} <==> exists z :: z in a - {x} && f[z] == y {
        if y in b - {f[x]} {
          var z :| z in a && f[z] == y;
          assert z in a - {x};
        }
      }
      ImageSize(a - {x}, b - {f[x]}, f);
    }
  }

  /** A sequence without repetition has as many elements as its set of elements. */
  lemma DistinctSize<T>(q: seq<T>, s: set<T>)
    requires forall i, j :: 0 <= i < j < |q| ==> q[i] != q[j]
    requires forall x :: x in s <==> x in q
    ensures |q| == |s|
  {
    if q == [] {
      assert s == {};
    } else {
      var last := q[|q| - 1];
      var init := q[..|q| - 1];
      assert q == init + [last];
      DistinctSize(init, s - {last});
    }
  }
}
