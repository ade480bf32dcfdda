/**
 The orders that Python's `sorted` and the version comparison rely on:
 strings by code point, tuples of strings field by field, and the sorted
 sequence of a finite set whose elements have distinct keys.
 */
module Orders {

  predicate StringLess(a: string, b: string) {
    b != [] && (a == [] || a[0] < b[0] || (a[0] == b[0] && StringLess(a[1..], b[1..])))
  }

  predicate TupleLess(a: seq<string>, b: seq<string>) {
    b != [] && (a == [] || StringLess(a[0], b[0]) || (a[0] == b[0] && TupleLess(a[1..], b[1..])))
  }

  lemma {:induction false} StringTrichotomy(a: string, b: string)
    ensures StringLess(a, b) || a == b || StringLess(b, a)
    ensures !(StringLess(a, b) && StringLess(b, a))
    ensures a == b ==> !StringLess(a, b)
  {
    if a != [] && b != [] {
      StringTrichotomy(a[1..], b[1..]);
      assert a == [a[0]] + a[1..] && b == [b[0]] + b[1..];
    }
  }

  lemma {:induction false} StringTransitive(a: string, b: string, c: string)
    requires StringLess(a, b) && StringLess(b, c)
    ensures StringLess(a, c)
  {
    if a != [] && a[0] == b[0] == c[0] {
      StringTransitive(a[1..], b[1..], c[1..]);
    }
  }

  lemma {:induction false} TupleTrichotomy(a: seq<string>, b: seq<string>)
    ensures TupleLess(a, b) || a == b || TupleLess(b, a)
    ensures !(TupleLess(a, b) && TupleLess(b, a))
    ensures a == b ==> !TupleLess(a, b)
  {
    if a != [] && b != [] {
      StringTrichotomy(a[0], b[0]);
      TupleTrichotomy(a[1..], b[1..]);
      assert a == [a[0]] + a[1..] && b == [b[0]] + b[1..];
    }
  }

  lemma {:induction false} TupleTransitive(a: seq<string>, b: seq<string>, c: seq<string>)
    requires TupleLess(a, b) && TupleLess(b, c)
    ensures TupleLess(a, c)
  {
    if a == [] {
    } else {
      StringTrichotomy(a[0], b[0]);
      StringTrichotomy(b[0], c[0]);
      if StringLess(a[0], b[0]) && StringLess(b[0], c[0]) {
        StringTransitive(a[0], b[0], c[0]);
      } else if a[0] == b[0] == c[0] {
        TupleTransitive(a[1..], b[1..], c[1..]);
      }
    }
  }

  ghost predicate DistinctKeys<T(!new)>(s: set<T>, key: T -> seq<string>) {
    forall x, y | x in s && y in s :: key(x) == key(y) ==> x == y
  }

  predicate IsLeast<T>(x: T, s: set<T>, key: T -> seq<string>) {
    x in s && forall y | y in s && y != x :: TupleLess(key(x), key(y))
  }

  lemma {:induction false} LeastExists<T(!new)>(s: set<T>, key: T -> seq<string>) returns (least: T)
    requires s != {} && DistinctKeys(s, key)
    ensures IsLeast(least, s, key)
    decreases |s|
  {
    var x :| x in s;
    if s == {x} {
      return x;
    }
    var rest := s - {x};
    var m := LeastExists(rest, key);
    TupleTrichotomy(key(x), key(m));
    if TupleLess(key(m), key(x)) {
      return m;
    }
    forall y | y in s && y != x
      ensures TupleLess(key(x), key(y))
    {
      if y != m {
        TupleTransitive(key(x), key(m), key(y));
      }
    }
    return x;
  }

  lemma LeastIsUnique<T(!new)>(x: T, y: T, s: set<T>, key: T -> seq<string>)
    requires IsLeast(x, s, key) && IsLeast(y, s, key)
    ensures x == y
  {
    TupleTrichotomy(key(x), key(y));
  }

  function Least<T(!new)>(s: set<T>, key: T -> seq<string>): (least: T)
    requires s != {} && DistinctKeys(s, key)
    ensures IsLeast(least, s, key)
  {
    assert exists x :: IsLeast(x, s, key) by { var x := LeastExists(s, key); }
    assert forall x, y | IsLeast(x, s, key) && IsLeast(y, s, key) :: x == y by {
      forall x, y | IsLeast(x, s, key) && IsLeast(y, s, key) ensures x == y { LeastIsUnique(x, y, s, key); }
    }
    var x :| x in s && IsLeast(x, s, key);
    x
  }

  function Sorted<T(!new)>(s: set<T>, key: T -> seq<string>): seq<T>
    requires DistinctKeys(s, key)
    decreases |s|
  {
    if s == {} then []
    else
      var x := Least(s, key);
      [x] + Sorted(s - {x}, key)
  }

  predicate Ascending<T>(q: seq<T>, key: T -> seq<string>) {
    forall i, j | 0 <= i < j < |q| :: TupleLess(key(q[i]), key(q[j]))
  }

  lemma {:induction false} SortedIsAscending<T(!new)>(s: set<T>, key: T -> seq<string>)
    requires DistinctKeys(s, key)
    ensures Ascending(Sorted(s, key), key)
    ensures forall x :: x in Sorted(s, key) <==> x in s
    decreases |s|
  {
    if s != {} {
      var x := Least(s, key);
      SortedIsAscending(s - {x}, key);
    }
  }

  lemma RestOfAscending<T>(q: seq<T>, key: T -> seq<string>, x: T)
    requires q != [] && Ascending(q, key)
    ensures x in q[1..] <==> x in q && x != q[0]
  {
    TupleTrichotomy(key(q[0]), key(q[0]));
    if x in q && x != q[0] {
      var i :| 0 <= i < |q| && q[i] == x;
      assert q[1..][i - 1] == x;
    }
  }

  /** The sorted sequence is the only ascending one with these elements. */
  lemma {:induction false} AscendingIsSorted<T(!new)>(q: seq<T>, s: set<T>, key: T -> seq<string>)
    requires DistinctKeys(s, key) && Ascending(q, key)
    requires forall x :: x in q <==> x in s
    ensures q == Sorted(s, key)
    decreases |s|
  {
    if q == [] {
      assert s == {};
    } else {
      HeadIsLeast(q, s, key);
      LeastIsUnique(q[0], Least(s, key), s, key);
      RestIsRest(q, s, key);
      AscendingIsSorted(q[1..], s - {q[0]}, key);
    }
  }

  lemma HeadIsLeast<T(!new)>(q: seq<T>, s: set<T>, key: T -> seq<string>)
    requires q != [] && Ascending(q, key) && forall x :: x in q <==> x in s
    ensures q[0] in s && IsLeast(q[0], s, key)
  {
    assert q[0] in q;
    forall y | y in s && y != q[0]
      ensures TupleLess(key(q[0]), key(y))
    {
      var i :| 0 <= i < |q| && q[i] == y;
    }
  }

  lemma RestIsRest<T(!new)>(q: seq<T>, s: set<T>, key: T -> seq<string>)
    requires q != [] && Ascending(q, key) && forall x :: x in q <==> x in s
    ensures Ascending(q[1..], key) && forall x :: x in q[1..] <==> x in s - {q[0]}
  {
    forall x
      ensures x in q[1..] <==> x in s - {q[0]}
    {
      RestOfAscending(q, key, x);
    }
  }

  /** The elements of `q` that are in `s`, in order. */
  function Keep<T(==)>(q: seq<T>, s: set<T>): seq<T> {
    if q == [] then []
    else
      var n := |q| - 1;
      Keep(q[..n], s) + (if q[n] in s then [q[n]] else [])
  }

  lemma KeepNext<T>(q: seq<T>, s: set<T>, k: nat)
    requires k < |q|
    ensures Keep(q[..k + 1], s) == Keep(q[..k], s) + (if q[k] in s then [q[k]] else [])
  {
    assert q[..k + 1][..k] == q[..k];
  }

  lemma {:induction false} KeepMember<T>(q: seq<T>, s: set<T>, x: T)
    ensures x in Keep(q, s) <==> x in q && x in s
  {
    if q == [] {
    } else {
      var n := |q| - 1;
      KeepMember(q[..n], s, x);
      assert q == q[..n] + [q[n]];
    }
  }

  lemma {:induction false} KeepAscending<T>(q: seq<T>, s: set<T>, key: T -> seq<string>)
    requires Ascending(q, key)
    ensures Ascending(Keep(q, s), key)
  {
    if q == [] {
    } else {
      var n := |q| - 1;
      var kept := Keep(q[..n], s);
      KeepAscending(q[..n], s, key);
      forall i | 0 <= i < |kept|
        ensures TupleLess(key(kept[i]), key(q[n]))
      {
        KeepMember(q[..n], s, kept[i]);
        var k :| 0 <= k < n && q[k] == kept[i];
      }
    }
  }

  /** Filtering the sorted elements gives the sorted filtered elements. */
  lemma KeepSorted<T(!new)>(all: set<T>, s: set<T>, key: T -> seq<string>)
    requires s <= all && DistinctKeys(all, key)
    ensures DistinctKeys(s, key) && Keep(Sorted(all, key), s) == Sorted(s, key)
  {
    SortedIsAscending(all, key);
    KeepAscending(Sorted(all, key), s, key);
    forall x
      ensures x in Keep(Sorted(all, key), s) <==> x in s
    {
      KeepMember(Sorted(all, key), s, x);
    }
    AscendingIsSorted(Keep(Sorted(all, key), s), s, key);
  }

  lemma SortedDistinct<T(!new)>(s: set<T>, key: T -> seq<string>)
    requires DistinctKeys(s, key)
    ensures forall i, j | 0 <= i < j < |Sorted(s, key)| :: Sorted(s, key)[i] != Sorted(s, key)[j]
    ensures forall x :: x in Sorted(s, key) <==> x in s
    ensures Sorted(s, key) == [] <==> s == {}
  {
    var q := Sorted(s, key);
    SortedIsAscending(s, key);
    forall i, j | 0 <= i < j < |q|
      ensures q[i] != q[j]
    {
      TupleTrichotomy(key(q[i]), key(q[j]));
    }
  }

  ghost predicate Transitive<T(!new)>(rel: (T, T) -> bool) {
    forall a, b, c | rel(a, b) && rel(b, c) :: rel(a, c)
  }

  ghost predicate Chain<T>(rel: (T, T) -> bool, xs: seq<T>) {
    forall i, j | 0 <= i < j < |xs| && j == i + 1 :: rel(xs[i], xs[j])
  }

  /** What holds between neighbours holds between any two members, in order. */
  lemma {:induction false} ChainRelates<T(!new)>(rel: (T, T) -> bool, xs: seq<T>, i: nat, j: nat)
    requires Transitive(rel) && Chain(rel, xs) && i < j < |xs|
    ensures rel(xs[i], xs[j])
    decreases j - i
  {
    if i + 1 < j {
      ChainRelates(rel, xs, i + 1, j);
      assert rel(xs[i], xs[i + 1]);
    }
  }
}
