/** Insertion sort by a comparison, the order the compiler's calls to the sorting
    library ask for. */
module Sorting {
  /** A strict comparison under which incomparable values are ties. */
  ghost predicate WeakOrder<T(!new)>(less: (T, T) -> bool) {
    && (forall x, y :: less(x, y) ==> !less(y, x))
    && (forall x, y, z :: !less(y, x) && !less(z, y) ==> !less(z, x))
  }

  ghost predicate InOrder<T>(less: (T, T) -> bool, s: seq<T>) {
    forall i, j :: 0 <= i < j < |s| ==> !less(s[j], s[i])
  }

  /** x goes after everything that is not larger, its ties among them. */
  method Insert<T(!new)>(less: (T, T) -> bool, s: seq<T>, x: T) returns (r: seq<T>, ghost k: nat)
    requires WeakOrder(less) && InOrder(less, s)
    ensures InOrder(less, r) && multiset(r) == multiset(s) + multiset{x}
    ensures k <= |s| && r == s[..k] + [x] + s[k..] && (k > 0 ==> !less(x, s[k - 1])) && forall j :: k <= j < |s| ==> less(x, s[j])
  {
    var at := |s|;
    while at > 0 && less(x, s[at - 1])
      invariant 0 <= at <= |s| && forall j :: at <= j < |s| ==> less(x, s[j])
    {
      at := at - 1;
    }
    k := at;
    r := s[..at] + [x] + s[at..];
    assert s == s[..at] + s[at..];
    InsertedInOrder(less, s, x, k);
  }

  lemma InsertedInOrder<T(!new)>(less: (T, T) -> bool, s: seq<T>, x: T, k: nat)
    requires WeakOrder(less) && InOrder(less, s) && k <= |s|
    requires (k > 0 ==> !less(x, s[k - 1])) && forall j :: k <= j < |s| ==> less(x, s[j])
    ensures InOrder(less, s[..k] + [x] + s[k..])
  {
    var q := s[..k] + [x] + s[k..];
    forall i, j | 0 <= i < j < |q|
      ensures !less(q[j], q[i])
    {
      assert i < k ==> q[i] == s[i] && (i < k - 1 ==> !less(s[k - 1], s[i]));
      assert i > k ==> q[i] == s[i - 1];
      assert j > k ==> q[j] == s[j - 1];
    }
  }

  method Sort<T(!new)>(less: (T, T) -> bool, s: seq<T>) returns (r: seq<T>)
    requires WeakOrder(less)
    ensures InOrder(less, r) && multiset(r) == multiset(s)
  {
    hide WeakOrder, InOrder;
    r := [];
    SingleInOrder(less);
    for i := 0 to |s|
      invariant InOrder(less, r) && multiset(r) == multiset(s[..i])
    {
      ghost var k;
      r, k := Insert(less, r, s[i]);
      assert s[..i + 1] == s[..i] + [s[i]];
    }
    assert s[..|s|] == s;
  }

  lemma SingleInOrder<T>(less: (T, T) -> bool)
    ensures InOrder(less, [])
  {
  }
}
