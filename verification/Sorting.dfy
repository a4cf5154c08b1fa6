/** A strictly sorted sequence is determined by its elements: what makes an ORDER BY with a total
    order, or a sort of distinct keys, give one answer. */
module Sorting {

  ghost predicate StrictlySorted<T(!new)>(s: seq<T>, less: (T, T) -> bool) {
    forall i, j :: 0 <= i < j < |s| ==> less(s[i], s[j])
  }

  ghost predicate Asymmetric<T(!new)>(less: (T, T) -> bool) {
    forall x, y :: !(less(x, y) && less(y, x))
  }

  ghost predicate SameElements<T(!new)>(a: seq<T>, b: seq<T>) {
    (forall i :: 0 <= i < |a| ==> a[i] in b) && (forall i :: 0 <= i < |b| ==> b[i] in a)
  }

  /** Any two elements are in order, one way round, and the order is transitive. */
  ghost predicate TotalOn<T(!new)>(s: set<T>, less: (T, T) -> bool) {
    && (forall x, y :: x in s && y in s && x != y ==> less(x, y) || less(y, x))
    && forall x, y, z :: x in s && y in s && z in s && less(x, y) && less(y, z) ==> less(x, z)
  }

  lemma {:induction false} LeastExists<T(!new)>(s: set<T>, less: (T, T) -> bool) returns (least: T)
    requires s != {} && TotalOn(s, less)
    ensures least in s && forall y :: y in s && y != least ==> less(least, y)
    decreases |s|
  {
    var n :| n in s;
    least := n;
    if s - {n} != {} {
      var m := LeastExists(s - {n}, less);
      least := if less(n, m) then n else m;
      assert forall y :: y in s && y != n ==> y in s - {n};
    }
  }

  /** So a finite set has a sorted enumeration. */
  lemma {:induction false} SortedExists<T(!new)>(s: set<T>, less: (T, T) -> bool) returns (q: seq<T>)
    requires TotalOn(s, less)
    ensures StrictlySorted(q, less) && forall x :: x in q <==> x in s
    decreases |s|
  {
    q := [];
    if s != {} {
      var least := LeastExists(s, less);
      var rest := SortedExists(s - {least}, less);
      q := [least] + rest;
      forall i, j | 0 <= i < j < |q|
        ensures less(q[i], q[j])
      {
        assert q[j] in rest;
        if i > 0 {
          assert q[i] == rest[i - 1] && q[j] == rest[j - 1];
        }
      }
    }
  }

  lemma {:induction false} SortedUnique<T(!new)>(a: seq<T>, b: seq<T>, less: (T, T) -> bool)
    requires Asymmetric(less) && StrictlySorted(a, less) && StrictlySorted(b, less) && SameElements(a, b)
    ensures a == b
  {
    HeadsShared(a, b);
    if a != [] && b != [] {
      SameHead(a, b, less);
      SameTails(a, b, less);
      SortedUnique(a[1..], b[1..], less);
      assert a == [a[0]] + a[1..] && b == [b[0]] + b[1..];
    }
  }

  lemma HeadsShared<T(!new)>(a: seq<T>, b: seq<T>)
    requires SameElements(a, b)
    ensures a != [] ==> a[0] in b
    ensures b != [] ==> b[0] in a
  {
  }

  lemma SameHead<T(!new)>(a: seq<T>, b: seq<T>, less: (T, T) -> bool)
    requires Asymmetric(less) && StrictlySorted(a, less) && StrictlySorted(b, less) && SameElements(a, b)
    requires a != [] && b != []
    ensures a[0] == b[0]
  {
    assert a[0] in b && b[0] in a;
    var k :| 0 <= k < |b| && b[k] == a[0];
    var m :| 0 <= m < |a| && a[m] == b[0];
    if k > 0 && m > 0 {
      assert false;
    }
  }

  lemma SameTail<T(!new)>(a: seq<T>, b: seq<T>, less: (T, T) -> bool)
    requires Asymmetric(less) && StrictlySorted(a, less) && SameElements(a, b)
    requires a != [] && b != [] && a[0] == b[0]
    ensures forall x :: x in a[1..] ==> x in b[1..]
  {
    forall x | x in a[1..]
      ensures x in b[1..]
    {
      var i :| 0 < i < |a| && a[i] == x;
      assert less(a[0], x) && x in b;
    }
  }

  lemma SameTails<T(!new)>(a: seq<T>, b: seq<T>, less: (T, T) -> bool)
    requires Asymmetric(less) && StrictlySorted(a, less) && StrictlySorted(b, less) && SameElements(a, b)
    requires a != [] && b != [] && a[0] == b[0]
    ensures StrictlySorted(a[1..], less) && StrictlySorted(b[1..], less) && SameElements(a[1..], b[1..])
  {
    SameTail(a, b, less);
    SameTail(b, a, less);
  }
}
