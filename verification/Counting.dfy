/** Counting lemmas: lists without repetition and the sets they live in. */
module Counting {

  ghost predicate Distinct<T(!new)>(s: seq<T>) {
    forall i, j :: 0 <= i < j < |s| ==> s[i] != s[j]
  }

  ghost function Elements<T>(s: seq<T>): set<T> {
    set x | x in s
  }

  function Range(n: nat): (r: set<nat>)
    ensures |r| == n
    ensures forall x: nat :: x in r <==> x < n
  {
    if n == 0 then {} else Range(n - 1) + {n - 1}
  }

  /** A list without repetition has as many entries as elements. */
  lemma {:induction false} DistinctSize<T(!new)>(s: seq<T>)
    requires Distinct(s)
    ensures |Elements(s)| == |s|
  {
    if s == [] {
      assert Elements(s) == {};
    } else {
      var init, x := s[..|s| - 1], s[|s| - 1];
      assert s == init + [x];
      DistinctSize(init);
      assert Elements(s) == Elements(init) + {x};
      assert x !in init;
    }
  }

  lemma {:induction false} SubsetSize<T>(a: set<T>, b: set<T>)
    requires a <= b
    ensures |a| <= |b|
  {
    if a != {} {
      var x :| x in a;
      SubsetSize(a - {x}, b - {x});
    }
  }

  /** A list without repetition fits in any set that holds its entries. */
  lemma DistinctBound<T(!new)>(s: seq<T>, b: set<T>)
    requires Distinct(s) && forall x :: x in s ==> x in b
    ensures |s| <= |b|
  {
    DistinctSize(s);
    SubsetSize(Elements(s), b);
  }

  /** Keys below `n` that avoid a list of numbers below `n` leave room for that list. */
  lemma KeysBesideList(n: nat, keys: set<nat>, list: seq<nat>)
    requires Distinct(list)
    requires forall x :: x in list ==> x < n && x !in keys
    requires forall x :: x in keys ==> x < n
    ensures |keys| + |list| <= n
  {
    DistinctSize(list);
    assert keys !! Elements(list);
    assert |keys + Elements(list)| == |keys| + |Elements(list)|;
    SubsetSize(keys + Elements(list), Range(n));
  }
}
