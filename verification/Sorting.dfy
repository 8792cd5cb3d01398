/** What the repository relies on std::sort for: a rearrangement in which no element comes
    before an earlier one. Equivalent elements may end up in any order. */
module Sorting {

  ghost predicate SortedBy<T(!new)>(less: (T, T) -> bool, s: seq<T>) {
    forall i, j :: 0 <= i < j < |s| ==> !less(s[j], s[i])
  }

  ghost predicate StrictWeakOrder<T(!new)>(less: (T, T) -> bool) {
    && (forall a, b :: less(a, b) ==> !less(b, a))
    && (forall a, b, c :: !less(b, a) && !less(c, b) ==> !less(c, a))
  }

  lemma LaterNotLess<T(!new)>(less: (T, T) -> bool, s: seq<T>, p: nat, x: T, k: nat)
    requires StrictWeakOrder(less) && SortedBy(less, s)
    requires p <= k < |s| && less(x, s[p])
    ensures !less(s[k], x)
  {
    assert !less(s[p], x);
    assert k > p ==> !less(s[k], s[p]);
  }

  lemma InsertAt<T(!new)>(less: (T, T) -> bool, s: seq<T>, p: nat, x: T)
    requires StrictWeakOrder(less) && SortedBy(less, s) && p <= |s|
    requires forall k :: 0 <= k < p ==> !less(x, s[k])
    requires p < |s| ==> less(x, s[p])
    ensures SortedBy(less, s[..p] + [x] + s[p..])
  {
    hide StrictWeakOrder;
    var r := s[..p] + [x] + s[p..];
    forall i, j | 0 <= i < j < |r| ensures !less(r[j], r[i]) {
      var from, to := if i < p then i else i - 1, if j < p then j else j - 1;
      if i == p {
        LaterNotLess(less, s, p, x, to);
      } else if j != p {
        assert r[i] == s[from] && r[j] == s[to];
      }
    }
  }

  lemma InsertKeepsElements<T>(s: seq<T>, p: nat, x: T)
    requires p <= |s|
    ensures multiset(s[..p] + [x] + s[p..]) == multiset(s) + multiset{x}
  {
    assert s == s[..p] + s[p..];
  }

  /** std::sort over the range s. */
  method StdSort<T(!new)>(less: (T, T) -> bool, s: seq<T>) returns (r: seq<T>)
    requires StrictWeakOrder(less)
    ensures SortedBy(less, r) && multiset(r) == multiset(s)
  {
    hide StrictWeakOrder;
    r := [];
    for i := 0 to |s|
      invariant SortedBy(less, r) && multiset(r) == multiset(s[..i])
    {
      var p := 0;
      while p < |r| && !less(s[i], r[p])
        invariant p <= |r| && forall k :: 0 <= k < p ==> !less(s[i], r[k])
      {
        p := p + 1;
      }
      InsertAt(less, r, p, s[i]);
      InsertKeepsElements(r, p, s[i]);
      r := r[..p] + [s[i]] + r[p..];
      assert s[..i + 1] == s[..i] + [s[i]];
    }
    assert s[..|s|] == s;
  }
}
