/** What the assertion on published events reports as missing. */
module PublishedDifference {
  import opened PublishedEvents

  /** With plain equality the payloads reported as not found are exactly those that were
    expected more often than they were published, each as often as it is missing. */
  lemma {:induction false} NotFoundIsDifference<A>(pool: seq<A>, expected: seq<A>, eq: Relation<A, A>)
    requires forall a, e :: a in pool && e in expected ==> (eq(a, e) <==> a == e)
    ensures multiset(Unmatched(pool, expected, eq)) == multiset(expected) - multiset(pool)
    decreases |expected|
  {
    if expected != [] {
      var x, rest := expected[0], expected[1..];
      var k := FirstMatch(pool, x, eq);
      assert expected == [x] + rest;
      if k < |pool| {
        WithoutMultiset(pool, k);
        assert pool[k] == x;
        assert forall a :: a in Without(pool, k) ==> a in pool;
        NotFoundIsDifference(Without(pool, k), rest, eq);
        SameDifference(multiset(rest), multiset(Without(pool, k)), x);
      } else {
        assert x !in pool;
        NotFoundIsDifference(pool, rest, eq);
        OneMoreMissing(multiset(rest), multiset(pool), x);
      }
    }
  }

  lemma {:induction false} SameDifference<A>(a: multiset<A>, b: multiset<A>, x: A)
    ensures (a + multiset{x}) - (b + multiset{x}) == a - b
  {}

  lemma {:induction false} OneMoreMissing<A>(a: multiset<A>, b: multiset<A>, x: A)
    requires x !in b
    ensures (a + multiset{x}) - b == (a - b) + multiset{x}
  {}
}
