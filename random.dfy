/** Python's `random.sample(population, k)` with a list population: the
    pool strategy of CPython, in which each draw takes one position of a
    shrinking pool and moves the last live element into it. The random
    numbers are a parameter: `draws(i)` is the number behind the `i`-th
    `randbelow`. */
module PyRandom {
  import opened Wrappers
  import opened Collections

  /** One step of `random.sample`'s pool strategy over the live part of the
      pool: position `draw % |pool|` is taken, and the last live element
      moves into its place. */
  function Pick<T>(pool: seq<T>, draw: nat): (T, seq<T>)
    requires |pool| > 0
  {
    var j := draw % |pool|;
    (pool[j], pool[j := pool[|pool| - 1]][..|pool| - 1])
  }

  /** The element taken and the pool left are, together, the pool. */
  lemma PickMultiset<T>(pool: seq<T>, draw: nat)
    requires |pool| > 0
    ensures multiset(pool) == multiset{Pick(pool, draw).0} + multiset(Pick(pool, draw).1)
    ensures |Pick(pool, draw).1| == |pool| - 1
  {
    var m := |pool|;
    var j := draw % m;
    if j == m - 1 {
      PickLast(pool, j);
    } else {
      PickInner(pool, j);
    }
  }

  lemma PickLast<T>(pool: seq<T>, j: nat)
    requires j == |pool| - 1
    ensures multiset(pool) == multiset{pool[j]} + multiset(pool[j := pool[|pool| - 1]][..|pool| - 1])
  {
    assert pool[j := pool[|pool| - 1]] == pool;
    assert pool == pool[..j] + [pool[j]];
  }

  lemma PickInner<T>(pool: seq<T>, j: nat)
    requires j < |pool| - 1
    ensures multiset(pool) == multiset{pool[j]} + multiset(pool[j := pool[|pool| - 1]][..|pool| - 1])
  {
    var m := |pool|;
    var mid := pool[j + 1..m - 1];
    assert pool[j := pool[m - 1]][..m - 1] == pool[..j] + [pool[m - 1]] + mid;
    assert pool == pool[..j] + [pool[j]] + mid + [pool[m - 1]];
  }

  /** The `k` elements `random.sample` selects, the `i`-th using
      `draws(i)`. */
  function Draw<T>(pool: seq<T>, k: nat, draws: nat -> nat, i: nat): seq<T>
    requires k <= |pool|
    decreases k
  {
    if k == 0 then []
    else
      var (x, rest) := Pick(pool, draws(i));
      [x] + Draw(rest, k - 1, draws, i + 1)
  }

  /** `random.sample(population, k)`: `ValueError` for a negative `k` or
      one larger than the population. */
  function SampleSpec<T>(population: seq<T>, k: int, draws: nat -> nat): Result<seq<T>> {
    if k < 0 || k > |population| then Err(ValueError)
    else Ok(Draw(population, k, draws, 0))
  }

  /** The selection has `k` elements, each taken from a distinct position
      of the population: as a multiset it lies within the population. */
  lemma {:induction false} DrawShape<T>(pool: seq<T>, k: nat, draws: nat -> nat, i: nat)
    requires k <= |pool|
    ensures |Draw(pool, k, draws, i)| == k
    ensures multiset(Draw(pool, k, draws, i)) <= multiset(pool)
    decreases k
  {
    if k > 0 {
      var (x, rest) := Pick(pool, draws(i));
      PickMultiset(pool, draws(i));
      DrawShape(rest, k - 1, draws, i + 1);
      assert multiset([x] + Draw(rest, k - 1, draws, i + 1)) == multiset{x} + multiset(Draw(rest, k - 1, draws, i + 1));
    }
  }

  /** Within a duplicate-free sequence every sub-multiset is duplicate-free. */
  lemma SubMultisetDistinct<T>(a: seq<T>, b: seq<T>)
    requires multiset(a) <= multiset(b) && Distinct(b)
    ensures Distinct(a)
  {
    forall i, j | 0 <= i < j < |a| ensures a[i] != a[j] {
      var x := a[i];
      MultiplicityDistinct(b, x);
      assert a == a[..i] + [a[i]] + a[i + 1..j] + [a[j]] + a[j + 1..];
      assert multiset{a[i], a[j]} <= multiset(a);
      assert multiset{a[i], a[j]}[x] <= 1;
    }
  }

  /** Drawing from a population of distinct newsIDs yields `count` distinct
      newsIDs of the population; a count outside `0..|population|` raises
      `ValueError`. */
  lemma SampleShape<T>(population: seq<T>, k: int, draws: nat -> nat)
    ensures SampleSpec(population, k, draws).Err? <==> k < 0 || k > |population|
    ensures SampleSpec(population, k, draws).Err? ==> SampleSpec(population, k, draws).error == ValueError
    ensures SampleSpec(population, k, draws).Ok? ==>
      var r := SampleSpec(population, k, draws).value;
      && |r| == k
      && multiset(r) <= multiset(population)
      && (forall x :: x in r ==> x in population)
      && (Distinct(population) ==> Distinct(r))
  {
    if 0 <= k <= |population| {
      var r := Draw(population, k, draws, 0);
      DrawShape(population, k, draws, 0);
      forall x | x in r ensures x in population {
        assert x in multiset(r);
      }
      if Distinct(population) {
        SubMultisetDistinct(r, population);
      }
    }
  }

  /** The pool after one step holds, in its live part, the pool `Pick`
      leaves. */
  lemma PoolStep<T>(before: seq<T>, after: seq<T>, m: nat, left: seq<T>, draw: nat)
    requires 0 < m <= |before| == |after| && before[..m] == left
    requires after == before[draw % m := before[m - 1]]
    ensures after[..m - 1] == Pick(left, draw).1
  {
  }

  /** The selection is the element taken first, then the selection from
      the pool that leaves. */
  lemma DrawStep<T>(live: seq<T>, k: nat, draws: nat -> nat, i: nat)
    requires 0 < k <= |live|
    ensures Draw(live, k, draws, i) == [live[draws(i) % |live|]] + Draw(Pick(live, draws(i)).1, k - 1, draws, i + 1)
  {
  }

  /** One turn of the sampling loop: the selection so far, the element
      taken now, and the selection still to come from the pool left, make
      up the whole selection. */
  lemma SampleTurn<T>(left: seq<T>, result: seq<T>, target: seq<T>, k: nat, draws: nat -> nat, i: nat, x: T, next: seq<T>)
    requires i < k && k - i <= |left|
    requires result + Draw(left, k - i, draws, i) == target
    requires x == left[draws(i) % |left|] && next == Pick(left, draws(i)).1
    ensures (result + [x]) + Draw(next, k - (i + 1), draws, i + 1) == target
  {
    DrawStep(left, k - i, draws, i);
    var tail := Draw(next, k - (i + 1), draws, i + 1);
    assert result + ([x] + tail) == (result + [x]) + tail;
  }

  /** CPython's pool strategy: a copy of the population as a list, from
      which the `i`-th selection takes position `randbelow(n - i)` and fills
      it with the last live element. `randbelow` is the function `draws` of
      the step number, reduced into range. */
  method Sample<T>(population: seq<T>, k: int, draws: nat -> nat) returns (r: Result<seq<T>>)
    ensures r == SampleSpec(population, k, draws)
  {
    var n := |population|;
    if k < 0 || k > n {
      return Err(ValueError);
    }
    var pool := population;
    var result: seq<T> := [];
    ghost var left := population;
    ghost var target := Draw(population, k, draws, 0);
    var i := 0;
    while i < k
      invariant 0 <= i <= k && |pool| == n && |left| == n - i
      invariant pool[..n - i] == left
      invariant result + Draw(left, k - i, draws, i) == target
    {
      var j := draws(i) % (n - i);
      var x := pool[j];
      assert x == left[j];
      var after := pool[j := pool[n - i - 1]];
      PoolStep(pool, after, n - i, left, draws(i));
      ghost var next := Pick(left, draws(i)).1;
      SampleTurn(left, result, target, k, draws, i, x, next);
      pool := after;
      result := result + [x];
      left := next;
      i := i + 1;
    }
    assert result + [] == result;
    r := Ok(result);
  }
}
