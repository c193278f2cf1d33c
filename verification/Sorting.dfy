/** Sorting by distinct keys, and the one ascending sequence of a finite set. */
module Sorting {
  ghost predicate AscendingBy<T>(s: seq<T>, key: T -> nat) {
    forall i, j :: 0 <= i < j < |s| ==> key(s[i]) < key(s[j])
  }

  ghost predicate DistinctBy<T>(s: seq<T>, key: T -> nat) {
    forall i, j :: 0 <= i < j < |s| ==> key(s[i]) != key(s[j])
  }

  ghost predicate SameElements<T>(a: seq<T>, b: seq<T>) {
    (forall x :: x in a ==> x in b) && (forall x :: x in b ==> x in a)
  }

  ghost predicate NoRepeats<T>(s: seq<T>) {
    forall i, j :: 0 <= i < j < |s| ==> s[i] != s[j]
  }

  lemma HasElement<T>(s: seq<T>)
    ensures s == [] || exists x :: x in s
  {
    if s != [] {
      assert s[0] in s;
    }
  }

  /** Ascending sequences of the same elements are equal. */
  lemma {:induction false} AscendingUnique<T>(a: seq<T>, b: seq<T>, key: T -> nat)
    requires AscendingBy(a, key) && AscendingBy(b, key) && SameElements(a, b)
    ensures a == b
  {
    if a == [] {
      HasElement(b);
    } else {
      assert a[0] in b;
      assert b != [] && b[0] in a;
      assert key(a[0]) == key(b[0]);
      assert a[0] == b[0];
      TailElements(a, b, key);
      TailElements(b, a, key);
      AscendingUnique(a[1..], b[1..], key);
    }
  }

  lemma AscendingAppend<T>(s: seq<T>, x: T, key: T -> nat)
    requires AscendingBy(s, key) && forall y :: y in s ==> key(y) < key(x)
    ensures AscendingBy(s + [x], key)
  {
  }

  lemma TailElements<T>(a: seq<T>, b: seq<T>, key: T -> nat)
    requires AscendingBy(a, key) && AscendingBy(b, key) && SameElements(a, b)
    requires a != [] && b != [] && a[0] == b[0]
    ensures forall x :: x in a[1..] ==> x in b[1..]
  {
    forall x | x in a[1..]
      ensures x in b[1..]
    {
      var i :| 0 <= i < |a| - 1 && a[1..][i] == x;
      assert key(a[0]) < key(a[i + 1]);
      assert x in b;
      var j :| 0 <= j < |b| && b[j] == x;
      assert j != 0;
      assert b[1..][j - 1] == x;
    }
  }

  /** The library sort: some arrangement of the elements in ascending order of their keys. */
  method SortBy<T>(s: seq<T>, key: T -> nat) returns (r: seq<T>)
    requires DistinctBy(s, key)
    ensures AscendingBy(r, key) && SameElements(r, s) && |r| == |s|
  {
    r := [];
    for i := 0 to |s|
      invariant |r| == i && AscendingBy(r, key)
      invariant SameElements(r, s[..i])
    {
      var k := 0;
      while k < i && key(r[k]) < key(s[i])
        invariant k <= i
        invariant forall j :: 0 <= j < k ==> key(r[j]) < key(s[i])
      {
        k := k + 1;
      }
      assert k < i ==> r[k] in s[..i];
      r := InsertAt(r, k, s[i], key);
      assert s[..i + 1] == s[..i] + [s[i]];
    }
    assert s[..|s|] == s;
  }

  method InsertAt<T>(r: seq<T>, k: nat, x: T, key: T -> nat) returns (q: seq<T>)
    requires AscendingBy(r, key) && k <= |r|
    requires forall j :: 0 <= j < k ==> key(r[j]) < key(x)
    requires k < |r| ==> key(x) < key(r[k])
    ensures |q| == |r| + 1 && AscendingBy(q, key) && SameElements(q, r + [x])
  {
    q := r[..k] + [x] + r[k..];
    InsertedElements(r, k, x);
  }

  lemma InsertedElements<T>(r: seq<T>, k: nat, x: T)
    requires k <= |r|
    ensures SameElements(r[..k] + [x] + r[k..], r + [x])
  {
  }

  /** The keys of a map, in whatever order it gives them. */
  method KeysOf<K(==), V>(m: map<K, V>) returns (order: seq<K>)
    ensures NoRepeats(order)
    ensures forall k :: k in order <==> k in m
  {
    order := [];
    var todo := m.Keys;
    while todo != {}
      invariant todo <= m.Keys && NoRepeats(order)
      invariant forall k :: k in order <==> k in m && k !in todo
      decreases |todo|
    {
      var k :| k in todo;
      todo := todo - {k};
      order := order + [k];
    }
  }

  /** No two elements share a key. */
  ghost predicate Distinguishes<T>(s: set<T>, key: T -> nat) {
    forall x, y :: x in s && y in s && x != y ==> key(x) != key(y)
  }

  predicate IsLeast<T>(m: T, s: set<T>, key: T -> nat) {
    m in s && forall y :: y in s ==> key(m) <= key(y)
  }

  lemma {:induction false} LeastExists<T>(s: set<T>, key: T -> nat)
    requires s != {}
    ensures exists m :: IsLeast(m, s, key)
    decreases |s|
  {
    var m :| m in s;
    var rest := s - {m};
    if rest == {} {
      assert s == {m};
      assert IsLeast(m, s, key);
    } else {
      LeastExists(rest, key);
      var l :| IsLeast(l, rest, key);
      assert forall y :: y in s ==> y == m || y in rest;
      assert IsLeast(if key(m) <= key(l) then m else l, s, key);
    }
  }

  function Least<T>(s: set<T>, key: T -> nat): (m: T)
    requires s != {} && Distinguishes(s, key)
    ensures IsLeast(m, s, key)
  {
    LeastExists(s, key);
    var m :| IsLeast(m, s, key);
    m
  }

  /** The elements of s in ascending order of their keys. */
  function SortedOf<T(!new)>(s: set<T>, key: T -> nat): (r: seq<T>)
    requires Distinguishes(s, key)
    ensures AscendingBy(r, key)
    ensures forall x :: x in r <==> x in s
  {
    if s == {} then []
    else
      var m := Least(s, key);
      [m] + SortedOf(s - {m}, key)
  }

  /** Any ascending sequence of exactly those elements is that one. */
  lemma SortedOfUnique<T(!new)>(r: seq<T>, s: set<T>, key: T -> nat)
    requires Distinguishes(s, key) && AscendingBy(r, key)
    requires forall x :: x in r <==> x in s
    ensures r == SortedOf(s, key)
  {
    AscendingUnique(r, SortedOf(s, key), key);
  }
}
