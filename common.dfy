/** Small value types shared by the capsule store, the throttle and the HTTP handlers. */
module Common {

  datatype Option<T> = None | Some(value: T)

  datatype Result<T, E> = Ok(value: T) | Err(error: E)

  /** No element occurs twice. */
  predicate Distinct<T(==)>(xs: seq<T>) {
    forall i, j :: 0 <= i < j < |xs| ==> xs[i] != xs[j]
  }

  /** Python's `list(set(xs))`: every element once. Python leaves the order to the
      hash table; this model keeps first occurrences, and its contract promises
      nothing about the order. */
  function Dedup<T(==,!new)>(xs: seq<T>): (r: seq<T>)
    ensures Distinct(r)
    ensures forall x :: x in r <==> x in xs
    ensures |r| <= |xs|
  {
    if xs == [] then []
    else
      var r := Dedup(xs[..|xs| - 1]);
      var last := xs[|xs| - 1];
      assert forall x :: x in xs <==> x in xs[..|xs| - 1] || x == last;
      if last in r then r else r + [last]
  }

  /** Deduplicating a duplicate-free list keeps every element with its count: the result is a
      permutation of the input, whatever order the deduplication picks. */
  lemma DedupOfDistinct<T(!new)>(xs: seq<T>)
    requires Distinct(xs)
    ensures multiset(Dedup(xs)) == multiset(xs)
  {
    SameElementsSameMultiset(Dedup(xs), xs);
  }

  /** Two duplicate-free lists with the same elements are permutations of each other. */
  lemma SameElementsSameMultiset<T>(a: seq<T>, b: seq<T>)
    requires Distinct(a) && Distinct(b)
    requires forall x :: x in a <==> x in b
    ensures multiset(a) == multiset(b)
  {
    DistinctCounts(a);
    DistinctCounts(b);
    assert forall x :: multiset(a)[x] == multiset(b)[x];
  }

  /** In a duplicate-free list every element occurs once. */
  lemma {:induction false} DistinctCounts<T>(xs: seq<T>)
    requires Distinct(xs)
    ensures forall x :: multiset(xs)[x] == if x in xs then 1 else 0
  {
    if xs != [] {
      var init := xs[..|xs| - 1];
      var last := xs[|xs| - 1];
      assert Distinct(init);
      DistinctCounts(init);
      assert xs == init + [last];
      assert last !in init;
    }
  }
}
