/** Sequence helpers shared by the modules: counting, first-occurrence
    de-duplication (the key order of a Python `dict` or `Counter` built by
    scanning), flattening and Python's `s[:n]`. */
module Collections {
  import opened Wrappers

  /** The tail of a concatenation with a non-empty front. */
  lemma AppendAssoc<T>(a: seq<T>, b: seq<T>, c: seq<T>)
    ensures a + b + c == a + (b + c)
  {
  }

  lemma TailAppend<T>(a: seq<T>, b: seq<T>)
    requires a != []
    ensures (a + b)[0] == a[0] && (a + b)[1..] == a[1..] + b
  {
  }

  /** How many times `x` occurs in `s` (`s.count(x)`). */
  function Count<T(==)>(s: seq<T>, x: T): (n: nat)
    ensures n <= |s|
    ensures n == 0 <==> x !in s
  {
    if s == [] then 0 else (if s[0] == x then 1 else 0) + Count(s[1..], x)
  }

  lemma CountAppend<T>(a: seq<T>, b: seq<T>, x: T)
    ensures Count(a + b, x) == Count(a, x) + Count(b, x)
  {
    if a == [] {
      assert a + b == b;
    } else {
      assert (a + b)[0] == a[0] && (a + b)[1..] == a[1..] + b;
      CountAppend(a[1..], b, x);
    }
  }

  lemma CountSnoc<T>(a: seq<T>, y: T, x: T)
    ensures Count(a + [y], x) == Count(a, x) + (if y == x then 1 else 0)
  {
    CountAppend(a, [y], x);
    assert Count([y], x) == (if y == x then 1 else 0) + Count([y][1..], x);
  }

  predicate Distinct<T(==)>(s: seq<T>) {
    forall i, j :: 0 <= i < j < |s| ==> s[i] != s[j]
  }

  /** In a duplicate-free sequence every element occurs once. */
  lemma {:induction false} CountDistinct<T>(s: seq<T>, x: T)
    requires Distinct(s)
    ensures Count(s, x) == if x in s then 1 else 0
  {
    if s != [] {
      assert Distinct(s[1..]);
      CountDistinct(s[1..], x);
      if s[0] == x {
        assert x !in s[1..];
      }
    }
  }

  /** The distinct elements of `s` in order of first occurrence. */
  function Dedup<T(==)>(s: seq<T>): (r: seq<T>)
    ensures Distinct(r)
    ensures forall i :: 0 <= i < |s| ==> s[i] in r
    ensures forall i :: 0 <= i < |r| ==> r[i] in s
    ensures |r| <= |s|
  {
    DedupFrom(s, [])
  }

  /** Scan `s`, appending each element not already in `seen`. */
  function DedupFrom<T(==)>(s: seq<T>, seen: seq<T>): (r: seq<T>)
    requires Distinct(seen)
    ensures Distinct(r)
    ensures |seen| <= |r| <= |seen| + |s|
    ensures r[..|seen|] == seen
    ensures forall i :: 0 <= i < |s| ==> s[i] in r
    ensures forall i :: 0 <= i < |r| ==> r[i] in seen || r[i] in s
    decreases |s|
  {
    if s == [] then seen
    else if s[0] in seen then
      var r := DedupFrom(s[1..], seen);
      assert forall i :: 0 <= i < |seen| ==> seen[i] == r[i];
      assert s[0] in r;
      r
    else
      var seen' := seen + [s[0]];
      var r := DedupFrom(s[1..], seen');
      assert r[..|seen'|] == seen';
      assert r[|seen|] == s[0];
      assert r[..|seen|] == seen'[..|seen|] == seen;
      r
  }

  /** Concatenation of a list of lists, in order. */
  function Flatten<T>(ss: seq<seq<T>>): (r: seq<T>)
    ensures ss == [] ==> r == []
  {
    if ss == [] then [] else ss[0] + Flatten(ss[1..])
  }

  lemma FlattenSnoc<T>(ss: seq<seq<T>>, s: seq<T>)
    ensures Flatten(ss + [s]) == Flatten(ss) + s
  {
    if ss != [] {
      assert (ss + [s])[1..] == ss[1..] + [s];
      FlattenSnoc(ss[1..], s);
    }
  }

  /** Flattening one more element of a prefix. */
  lemma FlattenPrefixStep<T>(ss: seq<seq<T>>, n: nat)
    requires n < |ss|
    ensures Flatten(ss[..n + 1]) == Flatten(ss[..n]) + ss[n]
  {
    assert ss[..n + 1] == ss[..n] + [ss[n]];
    FlattenSnoc(ss[..n], ss[n]);
  }

  lemma FlattenCons<T>(s: seq<T>, ss: seq<seq<T>>)
    ensures Flatten([s] + ss) == s + Flatten(ss)
  {
    assert ([s] + ss)[0] == s && ([s] + ss)[1..] == ss;
  }

  lemma FlattenAppend<T>(a: seq<seq<T>>, b: seq<seq<T>>)
    ensures Flatten(a + b) == Flatten(a) + Flatten(b)
  {
    if a == [] {
      assert a + b == b;
    } else {
      assert (a + b)[0] == a[0] && (a + b)[1..] == a[1..] + b;
      FlattenAppend(a[1..], b);
    }
  }

  /** Python's `s[:n]`: a negative `n` counts from the end. */
  function TakePy<T>(s: seq<T>, n: int): (r: seq<T>)
    ensures 0 <= n ==> |r| == if n < |s| then n else |s|
    ensures n < 0 ==> |r| == if -n < |s| then |s| + n else 0
    ensures r == s[..|r|]
  {
    if n >= 0 then (if n < |s| then s[..n] else s)
    else if -n < |s| then s[..|s| + n] else []
  }

  /** The first components of a list of pairs. */
  function Firsts<K, V>(s: seq<(K, V)>): (r: seq<K>)
    ensures |r| == |s| && forall i :: 0 <= i < |s| ==> r[i] == s[i].0
  {
    seq(|s|, i requires 0 <= i < |s| => s[i].0)
  }

  /** A pair whose key is missing is not in the list. */
  lemma FirstsNotIn<K, V>(s: seq<(K, V)>, p: (K, V))
    requires p.0 !in Firsts(s)
    ensures p !in s
  {
    forall m | 0 <= m < |s| ensures s[m] != p {
      assert Firsts(s)[m] == s[m].0;
    }
  }

  /** Look a key up in a list of pairs (a Python dict in insertion order). */
  function Lookup<K(==), V>(s: seq<(K, V)>, k: K): (r: Option<V>)
    ensures r.Some? <==> k in Firsts(s)
    ensures r.Some? ==> exists i :: 0 <= i < |s| && s[i] == (k, r.value)
  {
    if s == [] then None
    else if s[0].0 == k then Some(s[0].1)
    else Lookup(s[1..], k)
  }

  /** With distinct keys, `Lookup` finds the entry at the key's position. */
  lemma {:induction false} LookupDistinct<K, V>(s: seq<(K, V)>, k: K, i: nat)
    requires Distinct(Firsts(s)) && i < |s| && s[i].0 == k
    ensures Lookup(s, k) == Some(s[i].1)
  {
    if i > 0 {
      assert Firsts(s)[0] == s[0].0 && Firsts(s)[i] == s[i].0;
      assert Distinct(Firsts(s[1..])) by {
        assert forall a :: 0 <= a < |s[1..]| ==> Firsts(s[1..])[a] == Firsts(s)[a + 1];
      }
      LookupDistinct(s[1..], k, i - 1);
    }
  }

  /** `[x for x in s if keep(x)]`. */
  function Filter<T(!new)>(s: seq<T>, keep: T -> bool): (r: seq<T>)
    ensures forall x :: x in r <==> x in s && keep(x)
    ensures |r| <= |s|
  {
    if s == [] then []
    else
      var init := Filter(s[..|s| - 1], keep);
      assert s == s[..|s| - 1] + [s[|s| - 1]];
      if keep(s[|s| - 1]) then init + [s[|s| - 1]] else init
  }

  lemma {:induction false} FilterAppend<T(!new)>(a: seq<T>, b: seq<T>, keep: T -> bool)
    ensures Filter(a + b, keep) == Filter(a, keep) + Filter(b, keep)
    decreases |b|
  {
    if b == [] {
      assert a + b == a;
    } else {
      var b' := b[..|b| - 1];
      assert (a + b)[..|a + b| - 1] == a + b';
      FilterAppend(a, b', keep);
    }
  }

  /** Filtering keeps everything when every element passes. */
  lemma {:induction false} FilterAll<T(!new)>(s: seq<T>, keep: T -> bool)
    requires forall i :: 0 <= i < |s| ==> keep(s[i])
    ensures Filter(s, keep) == s
    decreases |s|
  {
    if s != [] {
      FilterAll(s[..|s| - 1], keep);
      assert s == s[..|s| - 1] + [s[|s| - 1]];
    }
  }

  /** The key list of a dict after `d.pop(k)`. */
  function Remove<T(==, !new)>(s: seq<T>, k: T): (r: seq<T>)
    ensures forall x :: x in r <==> x in s && x != k
    ensures |r| <= |s|
  {
    if s == [] then [] else (if s[0] == k then [] else [s[0]]) + Remove(s[1..], k)
  }

  lemma {:induction false} RemoveAppend<T(!new)>(a: seq<T>, b: seq<T>, k: T)
    ensures Remove(a + b, k) == Remove(a, k) + Remove(b, k)
  {
    if a == [] {
      assert a + b == b;
    } else {
      assert (a + b)[0] == a[0] && (a + b)[1..] == a[1..] + b;
      RemoveAppend(a[1..], b, k);
    }
  }

  lemma {:induction false} RemoveAbsent<T(!new)>(s: seq<T>, k: T)
    requires k !in s
    ensures Remove(s, k) == s
  {
    if s != [] {
      assert k !in s[1..];
      RemoveAbsent(s[1..], k);
    }
  }

  lemma {:induction false} FilterDistinct<T(!new)>(s: seq<T>, keep: T -> bool)
    requires Distinct(s)
    ensures Distinct(Filter(s, keep))
  {
    if s != [] {
      var init := s[..|s| - 1];
      assert Distinct(init);
      FilterDistinct(init, keep);
      assert s[|s| - 1] !in init;
    }
  }

  lemma {:induction false} RemoveDistinct<T(!new)>(s: seq<T>, k: T)
    requires Distinct(s)
    ensures Distinct(Remove(s, k))
  {
    if s != [] {
      assert Distinct(s[1..]);
      RemoveDistinct(s[1..], k);
      assert s[0] !in s[1..];
    }
  }

  lemma DistinctConcat<T>(a: seq<T>, b: seq<T>)
    requires Distinct(a) && Distinct(b) && forall x :: x in a ==> x !in b
    ensures Distinct(a + b)
  {
    forall i, j | 0 <= i < j < |a + b| ensures (a + b)[i] != (a + b)[j] {
      if i < |a| && j >= |a| {
        assert (a + b)[i] in a && (a + b)[j] in b;
      }
    }
  }

  /** `[f(x) for x in s]`. */
  function MapSeq<A, B>(f: A -> B, s: seq<A>): (r: seq<B>)
    ensures |r| == |s| && forall i :: 0 <= i < |s| ==> r[i] == f(s[i])
  {
    seq(|s|, i requires 0 <= i < |s| => f(s[i]))
  }

  lemma MapSeqCons<A, B>(f: A -> B, s: seq<A>)
    requires s != []
    ensures MapSeq(f, s) == [f(s[0])] + MapSeq(f, s[1..])
  {
  }

  /** Flattening the images of a map that sends each element to the list
      holding just that element gives the elements back. */
  lemma {:induction false} FlattenSingletons<T>(f: T -> seq<T>, s: seq<T>)
    requires forall i :: 0 <= i < |s| ==> f(s[i]) == [s[i]]
    ensures Flatten(MapSeq(f, s)) == s
    decreases |s|
  {
    if s != [] {
      MapSeqCons(f, s);
      FlattenSingletons(f, s[1..]);
      FlattenCons([s[0]], MapSeq(f, s[1..]));
      assert s == [s[0]] + s[1..];
    }
  }

  /** Mapping two permutations of each other gives permutations of each other. */
  lemma {:induction false} MultisetMap<A, B>(f: A -> B, a: seq<A>, b: seq<A>)
    requires multiset(a) == multiset(b)
    ensures multiset(MapSeq(f, a)) == multiset(MapSeq(f, b))
    decreases |a|
  {
    if a == [] {
      assert |b| == |multiset(b)| == 0;
    } else {
      var x := a[0];
      assert x in multiset(b);
      var j :| 0 <= j < |b| && b[j] == x;
      var b' := b[..j] + b[j + 1..];
      RemoveMatching(a, b, j);
      MultisetMap(f, a[1..], b');
      MultisetMapStep(f, a, b, j);
    }
  }

  /** Taking the same element out of two permutations of each other. */
  lemma RemoveMatching<A>(a: seq<A>, b: seq<A>, j: nat)
    requires multiset(a) == multiset(b) && a != [] && j < |b| && b[j] == a[0]
    ensures multiset(a[1..]) == multiset(b[..j] + b[j + 1..])
  {
    MultisetRemoveAt(b, j);
    MultisetTail(a);
  }

  lemma MultisetTail<T>(a: seq<T>)
    requires a != []
    ensures multiset(a[1..]) == multiset(a) - multiset{a[0]}
  {
    assert a == [a[0]] + a[1..];
  }

  lemma MultisetMapStep<A, B>(f: A -> B, a: seq<A>, b: seq<A>, j: nat)
    requires a != [] && j < |b| && b[j] == a[0]
    requires multiset(MapSeq(f, a[1..])) == multiset(MapSeq(f, b[..j] + b[j + 1..]))
    ensures multiset(MapSeq(f, a)) == multiset(MapSeq(f, b))
  {
    MapSeqMultisetRemove(f, a, 0);
    MapSeqMultisetRemove(f, b, j);
    assert a[..0] + a[1..] == a[1..];
    var fa, fb := MapSeq(f, a), MapSeq(f, b);
    assert fa[0] == f(a[0]) && fb[j] == f(a[0]);
    MultisetCancel(multiset(fa), multiset(fb), f(a[0]));
  }

  lemma MultisetCancel<T>(m: multiset<T>, n: multiset<T>, y: T)
    requires y in m && y in n && m - multiset{y} == n - multiset{y}
    ensures m == n
  {
    assert m == (m - multiset{y}) + multiset{y};
    assert n == (n - multiset{y}) + multiset{y};
  }

  lemma MultisetRemoveAt<T>(b: seq<T>, j: nat)
    requires j < |b|
    ensures multiset(b[..j] + b[j + 1..]) == multiset(b) - multiset{b[j]}
    ensures b[j] in multiset(b)
  {
    assert b == b[..j] + [b[j]] + b[j + 1..];
  }

  lemma MapSeqMultisetRemove<A, B>(f: A -> B, b: seq<A>, j: nat)
    requires j < |b|
    ensures multiset(MapSeq(f, b[..j] + b[j + 1..])) == multiset(MapSeq(f, b)) - multiset{f(b[j])}
  {
    var fb := MapSeq(f, b);
    assert MapSeq(f, b[..j] + b[j + 1..]) == fb[..j] + fb[j + 1..];
    MultisetRemoveAt(fb, j);
  }

  /** In a duplicate-free sequence every element has multiplicity one. */
  lemma {:induction false} MultiplicityDistinct<T>(a: seq<T>, x: T)
    requires Distinct(a)
    ensures multiset(a)[x] == if x in a then 1 else 0
  {
    if a != [] {
      assert a == [a[0]] + a[1..];
      assert Distinct(a[1..]);
      MultiplicityDistinct(a[1..], x);
      if a[0] == x {
        assert x !in a[1..];
      }
    }
  }

  /** Two duplicate-free sequences with the same elements are permutations
      of each other. */
  lemma DistinctMultiset<T>(a: seq<T>, b: seq<T>)
    requires Distinct(a) && Distinct(b) && forall x :: x in a <==> x in b
    ensures multiset(a) == multiset(b)
  {
    forall x ensures multiset(a)[x] == multiset(b)[x] {
      MultiplicityDistinct(a, x);
      MultiplicityDistinct(b, x);
    }
  }
}
