/** Lists without repetition. */
module Lists {
  predicate Distinct<T(==)>(list: seq<T>) {
    forall j, k :: 0 <= j < k < |list| ==> list[j] != list[k]
  }

  lemma {:induction false} DistinctCount<T>(list: seq<T>, x: T)
    requires Distinct(list)
    ensures multiset(list)[x] <= 1
  {
    if list != [] {
      var n := |list| - 1;
      assert list == list[..n] + [list[n]];
      DistinctCount(list[..n], x);
      if x == list[n] {
        assert x !in list[..n];
        assert x !in multiset(list[..n]);
      }
    }
  }
}
