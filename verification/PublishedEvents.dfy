/** The assertions on published events: every expected payload is matched against a
  published one, in any order or as a consecutive block.

  Payloads may contain wildcards, so "published a equals expected e" is any relation. */
module PublishedEvents {

  type Relation<!A, !E> = (A, E) -> bool

  datatype Verdict<E> =
    | Passed
    | TooFew
    | CountMismatch
    | NotPublished(notFound: seq<E>)
    | NotConsecutive

  // ---- Greedy matching

  /** The position of the first published payload that equals `item`, or the end. */
  function FirstMatch<A, E>(pool: seq<A>, item: E, eq: Relation<A, E>): (k: nat)
    ensures k <= |pool|
    ensures forall i :: 0 <= i < k ==> !eq(pool[i], item)
    ensures k < |pool| ==> eq(pool[k], item)
  {
    if pool == [] || eq(pool[0], item) then 0 else 1 + FirstMatch(pool[1..], item, eq)
  }

  function Without<A>(pool: seq<A>, k: nat): seq<A>
    requires k < |pool|
  {
    pool[..k] + pool[k + 1..]
  }

  /** The expected payloads that remain when each takes its first match out of the pool. */
  function Unmatched<A, E>(pool: seq<A>, expected: seq<E>, eq: Relation<A, E>): seq<E>
    decreases |expected|
  {
    if expected == [] then []
    else
      var k := FirstMatch(pool, expected[0], eq);
      if k < |pool| then Unmatched(Without(pool, k), expected[1..], eq)
      else [expected[0]] + Unmatched(pool, expected[1..], eq)
  }

  ghost predicate IsWindow<A, E>(published: seq<A>, expected: seq<E>, eq: Relation<A, E>, i: nat) {
    && i + |expected| <= |published|
    && forall j :: 0 <= j < |expected| ==> eq(published[i + j], expected[j])
  }

  /** An assignment of distinct published payloads to the expected ones. */
  ghost predicate IsMatching<A, E>(published: seq<A>, expected: seq<E>, eq: Relation<A, E>, f: seq<nat>) {
    && |f| == |expected|
    && (forall j :: 0 <= j < |f| ==> f[j] < |published| && eq(published[f[j]], expected[j]))
    && (forall i, j :: 0 <= i < j < |f| ==> f[i] != f[j])
  }

  // ---- The checks

  /** `_check_unordered` */
  method CheckUnordered<A, E>(published: seq<A>, expected: seq<E>, eq: Relation<A, E>) returns (verdict: Verdict<E>)
    ensures var notFound := Unmatched(published, expected, eq);
            verdict == if notFound == [] then Passed else NotPublished(notFound)
  {
    var notFound: seq<E> := [];
    var pool := published;
    for i := 0 to |expected|
      invariant Unmatched(published, expected, eq) == notFound + Unmatched(pool, expected[i..], eq)
    {
      var k := FirstMatch(pool, expected[i], eq);
      assert expected[i..][1..] == expected[i + 1..];
      if k < |pool| {
        pool := Without(pool, k);
      } else {
        notFound := notFound + [expected[i]];
      }
    }
    verdict := if notFound == [] then Passed else NotPublished(notFound);
  }

  method Equal<A, E>(part: seq<A>, expected: seq<E>, eq: Relation<A, E>) returns (equal: bool)
    requires |part| == |expected|
    ensures equal <==> forall j :: 0 <= j < |expected| ==> eq(part[j], expected[j])
  {
    for j := 0 to |expected|
      invariant forall l :: 0 <= l < j ==> eq(part[l], expected[l])
    {
      if !eq(part[j], expected[j]) {
        return false;
      }
    }
    return true;
  }

  /** `_check_ordered` */
  method CheckOrdered<A, E>(published: seq<A>, expected: seq<E>, eq: Relation<A, E>) returns (verdict: Verdict<E>)
    ensures verdict == Passed || verdict == NotConsecutive
    ensures verdict == Passed <==> exists i :: IsWindow(published, expected, eq, i)
  {
    var i := 0;
    while i < |published| - |expected| + 1
      invariant forall l :: 0 <= l < i ==> !IsWindow(published, expected, eq, l)
    {
      var part := published[i..i + |expected|];
      var equal := Equal(part, expected, eq);
      assert equal <==> IsWindow(published, expected, eq, i) by {
        assert forall j :: 0 <= j < |expected| ==> part[j] == published[i + j];
      }
      if equal {
        return Passed;
      }
      i := i + 1;
    }
    return NotConsecutive;
  }

  /** Which error is raised, if any. In order, the assertion passes exactly when some
    consecutive block of what was published equals what was expected. */
  method AssertPublished<A, E>(published: seq<A>, expected: seq<E>, eq: Relation<A, E>, anyOrder: bool)
    returns (verdict: Verdict<E>)
    ensures verdict == TooFew <==> |expected| > |published|
    ensures anyOrder ==> (verdict == Passed <==> |expected| <= |published| && Unmatched(published, expected, eq) == [])
    ensures !anyOrder ==> (verdict == Passed <==> exists i :: IsWindow(published, expected, eq, i))
    ensures verdict == NotConsecutive <==>
              && !anyOrder && |expected| <= |published| && Unmatched(published, expected, eq) == []
              && !exists i :: IsWindow(published, expected, eq, i)
    ensures verdict.NotPublished? ==> verdict.notFound == Unmatched(published, expected, eq) != []
    ensures verdict != CountMismatch
  {
    if |expected| > |published| {
      return TooFew;
    }
    verdict := CheckUnordered(published, expected, eq);
    if verdict == Passed && !anyOrder {
      verdict := CheckOrdered(published, expected, eq);
    } else if !anyOrder {
      NoWindow(published, expected, eq);
    }
  }

  /** `assert_published_all`: the same, and nothing else was published. */
  method AssertPublishedAll<A, E>(published: seq<A>, expected: seq<E>, eq: Relation<A, E>, anyOrder: bool)
    returns (verdict: Verdict<E>)
    ensures verdict == CountMismatch <==> |expected| != |published|
    ensures verdict != TooFew
    ensures anyOrder ==> (verdict == Passed <==> |expected| == |published| && Unmatched(published, expected, eq) == [])
    ensures !anyOrder ==> (verdict == Passed <==> |expected| == |published| && IsWindow(published, expected, eq, 0))
  {
    if |expected| != |published| {
      return CountMismatch;
    }
    verdict := AssertPublished(published, expected, eq, anyOrder);
  }

  // ---- In order: a matching block makes the removal loop succeed

  /** A block in the middle of the pool that equals what is expected is never used up
    too early, since every removal happens at or before its first unused element. */
  lemma {:induction false} BlockIsFound<A, E>(
      front: seq<A>, block: seq<A>, back: seq<A>, expected: seq<E>, eq: Relation<A, E>)
    requires |block| == |expected|
    requires forall j :: 0 <= j < |expected| ==> eq(block[j], expected[j])
    ensures Unmatched(front + (block + back), expected, eq) == []
    decreases |expected|
  {
    if expected != [] {
      var pool := front + (block + back);
      var k := FirstMatch(pool, expected[0], eq);
      assert pool[|front|] == block[0];
      assert k <= |front|;
      if k == |front| {
        assert Without(pool, k) == front + (block[1..] + back);
        BlockIsFound(front, block[1..], back, expected[1..], eq);
      } else {
        var front' := Without(front, k) + [block[0]];
        assert Without(pool, k) == front' + (block[1..] + back);
        BlockIsFound(front', block[1..], back, expected[1..], eq);
      }
    }
  }

  lemma {:induction false} WindowIsFound<A, E>(published: seq<A>, expected: seq<E>, eq: Relation<A, E>, i: nat)
    requires IsWindow(published, expected, eq, i)
    ensures Unmatched(published, expected, eq) == []
  {
    var n := |expected|;
    assert published == published[..i] + (published[i..i + n] + published[i + n..]);
    BlockIsFound(published[..i], published[i..i + n], published[i + n..], expected, eq);
  }

  lemma {:induction false} NoWindow<A, E>(published: seq<A>, expected: seq<E>, eq: Relation<A, E>)
    requires Unmatched(published, expected, eq) != []
    ensures forall i: nat :: !IsWindow(published, expected, eq, i)
  {
    forall i: nat | IsWindow(published, expected, eq, i)
      ensures false
    {
      WindowIsFound(published, expected, eq, i);
    }
  }

  // ---- In any order

  /** An index into the pool without its k-th element, as an index into the pool. */
  function Back(k: nat, i: nat): nat { if i < k then i else i + 1 }

  /** The check passes only if the expected payloads have distinct counterparts. */
  lemma {:induction false} PassedIsMatching<A, E>(pool: seq<A>, expected: seq<E>, eq: Relation<A, E>)
    returns (f: seq<nat>)
    requires Unmatched(pool, expected, eq) == []
    ensures IsMatching(pool, expected, eq, f)
    decreases |expected|
  {
    f := [];
    if expected != [] {
      var k := FirstMatch(pool, expected[0], eq);
      var g := PassedIsMatching(Without(pool, k), expected[1..], eq);
      f := TakeBack(pool, expected, eq, k, g);
    }
  }

  lemma {:induction false} TakeBack<A, E>(pool: seq<A>, expected: seq<E>, eq: Relation<A, E>, k: nat, g: seq<nat>)
    returns (f: seq<nat>)
    requires k < |pool| && expected != [] && eq(pool[k], expected[0])
    requires IsMatching(Without(pool, k), expected[1..], eq, g)
    ensures IsMatching(pool, expected, eq, f)
  {
    var tail := seq(|g|, j requires 0 <= j < |g| => Back(k, g[j]));
    f := [k] + tail;
    forall j | 0 <= j < |f|
      ensures f[j] < |pool| && eq(pool[f[j]], expected[j])
    {
      if j > 0 {
        assert f[j] == Back(k, g[j - 1]);
        assert eq(Without(pool, k)[g[j - 1]], expected[1..][j - 1]);
      }
    }
    assert forall j :: 1 <= j < |f| ==> f[j] == Back(k, g[j - 1]);
  }

  /** Two payloads that equal a common expected one equal the same expected ones. */
  ghost predicate Difunctional<A(!new), E(!new)>(eq: Relation<A, E>) {
    forall a, a', e, e' :: eq(a, e) && eq(a, e') && eq(a', e) ==> eq(a', e')
  }

  /** Exchange: some matching gives the first expected payload its first match. */
  lemma {:induction false} UseFirst<A(!new), E(!new)>(pool: seq<A>, expected: seq<E>, eq: Relation<A, E>, f: seq<nat>)
    returns (g: seq<nat>)
    requires Difunctional(eq) && expected != [] && IsMatching(pool, expected, eq, f)
    ensures IsMatching(pool, expected, eq, g) && g[0] == FirstMatch(pool, expected[0], eq)
  {
    var k, p := FirstMatch(pool, expected[0], eq), f[0];
    assert eq(pool[p], expected[0]) && eq(pool[k], expected[0]);
    if j :| 1 <= j < |f| && f[j] == k {
      assert eq(pool[k], expected[j]);
      assert eq(pool[p], expected[j]);
      g := f[0 := k][j := p];
    } else {
      g := f[0 := k];
    }
  }

  lemma {:induction false} MatchingIsFound<A(!new), E(!new)>(
      pool: seq<A>, expected: seq<E>, eq: Relation<A, E>, f: seq<nat>)
    requires Difunctional(eq) && IsMatching(pool, expected, eq, f)
    ensures Unmatched(pool, expected, eq) == []
    decreases |expected|
  {
    if expected != [] {
      var g := UseFirst(pool, expected, eq, f);
      var rest := DropFirst(pool, expected, eq, g);
      MatchingIsFound(Without(pool, g[0]), expected[1..], eq, rest);
    }
  }

  /** Without the first pair a matching still is one, of what is left. */
  lemma {:induction false} DropFirst<A, E>(pool: seq<A>, expected: seq<E>, eq: Relation<A, E>, g: seq<nat>)
    returns (rest: seq<nat>)
    requires expected != [] && IsMatching(pool, expected, eq, g)
    ensures IsMatching(Without(pool, g[0]), expected[1..], eq, rest)
  {
    var k := g[0];
    rest := seq(|g| - 1, j requires 0 <= j < |g| - 1 => if g[j + 1] < k then g[j + 1] else (g[j + 1] - 1) as nat);
    assert forall j :: 0 <= j < |rest| ==> Back(k, rest[j]) == g[j + 1] && expected[1..][j] == expected[j + 1];
  }

  /** Whenever a matching exists the check finds one. */
  ghost predicate FindsMatchings<A(!new), E(!new)>(eq: Relation<A, E>) {
    forall pool, expected, f: seq<nat> :: IsMatching(pool, expected, eq, f) ==> Unmatched(pool, expected, eq) == []
  }

  /** The any-order check never rejects what has a matching if and only if the equality in
    use is difunctional. Plain equality is; equality with wildcards is not: of the
    payloads 1 and 2, the wildcard takes 1 and leaves nothing for an expected 1. */
  lemma {:induction false} FindsMatchingsIff<A(!new), E(!new)>(eq: Relation<A, E>)
    ensures FindsMatchings(eq) <==> Difunctional(eq)
  {
    if Difunctional(eq) {
      forall pool, expected, f: seq<nat> | IsMatching(pool, expected, eq, f)
        ensures Unmatched(pool, expected, eq) == []
      {
        MatchingIsFound(pool, expected, eq, f);
      }
    } else {
      var a, a', e, e' :| eq(a, e) && eq(a, e') && eq(a', e) && !eq(a', e');
      MissedMatching(a, a', e, e', eq);
    }
  }

  lemma {:induction false} MissedMatching<A, E>(a: A, a': A, e: E, e': E, eq: Relation<A, E>)
    requires eq(a, e) && eq(a, e') && eq(a', e) && !eq(a', e')
    ensures IsMatching([a, a'], [e, e'], eq, [1, 0])
    ensures Unmatched([a, a'], [e, e'], eq) == [e']
  {
    assert Without([a, a'], 0) == [a'];
    assert [e, e'][1..] == [e'];
    assert Unmatched([a'], [e'], eq) == [e'];
  }

  lemma {:induction false} WithoutMultiset<A>(pool: seq<A>, k: nat)
    requires k < |pool|
    ensures multiset(pool) == multiset(Without(pool, k)) + multiset{pool[k]}
  {
    assert pool == pool[..k] + ([pool[k]] + pool[k + 1..]);
  }

  lemma {:induction false} Cancel<A>(a: multiset<A>, b: multiset<A>, x: A)
    ensures a + multiset{x} <= b + multiset{x} <==> a <= b
  {
    if a + multiset{x} <= b + multiset{x} {
      forall y | y in a
        ensures a[y] <= b[y]
      {
        assert (a + multiset{x})[y] <= (b + multiset{x})[y];
      }
    }
  }

  /** With plain equality the check is inclusion of multisets. */
  lemma {:induction false} EqualityIsInclusion<A>(pool: seq<A>, expected: seq<A>, eq: Relation<A, A>)
    requires forall a, e :: a in pool && e in expected ==> (eq(a, e) <==> a == e)
    ensures Unmatched(pool, expected, eq) == [] <==> multiset(expected) <= multiset(pool)
    decreases |expected|
  {
    if expected != [] {
      var x, rest := expected[0], expected[1..];
      var k := FirstMatch(pool, x, eq);
      WithoutMultiset(expected, 0);
      assert Without(expected, 0) == rest;
      if k < |pool| {
        WithoutMultiset(pool, k);
        assert forall a :: a in Without(pool, k) ==> a in pool;
        EqualityIsInclusion(Without(pool, k), rest, eq);
        assert pool[k] == x;
        Cancel(multiset(rest), multiset(Without(pool, k)), x);
      } else {
        assert x !in pool;
        assert multiset(expected)[x] > 0 && multiset(pool)[x] == 0;
      }
    }
  }
}
