/** Python's `sorted(xs, key=..., reverse=...)` and `list.sort`: a stable
    sort, also when `reverse` is set, over keys that are numbers or strings
    (strings compare by code point, lexicographically). */
module Sorting {
  import opened Collections

  datatype SortKey = Num(r: real) | Text(s: string)

  /** Python's `<` on strings. */
  predicate StrLt(a: string, b: string)
    decreases |a|
  {
    |b| > 0 && (|a| == 0 || a[0] < b[0] || (a[0] == b[0] && StrLt(a[1..], b[1..])))
  }

  /** Keys of one kind compare as Python does; numbers sort before strings
      (the modelled code never mixes the two in one list). */
  predicate KeyLt(a: SortKey, b: SortKey) {
    match (a, b)
    case (Num(x), Num(y)) => x < y
    case (Text(x), Text(y)) => StrLt(x, y)
    case (Num(_), Text(_)) => true
    case (Text(_), Num(_)) => false
  }

  lemma {:induction false} StrLtIrreflexive(a: string)
    ensures !StrLt(a, a)
    decreases |a|
  {
    if |a| > 0 { StrLtIrreflexive(a[1..]); }
  }

  lemma {:induction false} StrLtTransitive(a: string, b: string, c: string)
    requires StrLt(a, b) && StrLt(b, c)
    ensures StrLt(a, c)
    decreases |a|
  {
    if |a| > 0 && a[0] == b[0] && b[0] == c[0] {
      StrLtTransitive(a[1..], b[1..], c[1..]);
    }
  }

  lemma {:induction false} StrLtTotal(a: string, b: string)
    requires a != b
    ensures StrLt(a, b) || StrLt(b, a)
    decreases |a|
  {
    if |a| > 0 && |b| > 0 && a[0] == b[0] {
      assert a == [a[0]] + a[1..] && b == [b[0]] + b[1..];
      StrLtTotal(a[1..], b[1..]);
    }
  }

  lemma KeyLtIrreflexive(a: SortKey)
    ensures !KeyLt(a, a)
  {
    if a.Text? { StrLtIrreflexive(a.s); }
  }

  lemma KeyLtTransitive(a: SortKey, b: SortKey, c: SortKey)
    requires KeyLt(a, b) && KeyLt(b, c)
    ensures KeyLt(a, c)
  {
    if a.Text? && b.Text? && c.Text? { StrLtTransitive(a.s, b.s, c.s); }
  }

  lemma KeyLtTotal(a: SortKey, b: SortKey)
    requires a != b
    ensures KeyLt(a, b) || KeyLt(b, a)
  {
    if a.Text? && b.Text? { StrLtTotal(a.s, b.s); }
  }

  /** `x` must come strictly before `y` in the sorted output. */
  predicate Before<T>(x: T, y: T, key: T -> SortKey, reverse: bool) {
    if reverse then KeyLt(key(y), key(x)) else KeyLt(key(x), key(y))
  }

  lemma BeforeAsymmetric<T>(x: T, y: T, key: T -> SortKey, reverse: bool)
    requires Before(x, y, key, reverse)
    ensures !Before(y, x, key, reverse)
  {
    if Before(y, x, key, reverse) {
      if reverse { KeyLtTransitive(key(y), key(x), key(y)); } else { KeyLtTransitive(key(x), key(y), key(x)); }
      KeyLtIrreflexive(key(x));
      KeyLtIrreflexive(key(y));
    }
  }

  /** "Not before" is transitive, because the key order is a strict total order. */
  lemma NotBeforeTransitive<T>(x: T, y: T, z: T, key: T -> SortKey, reverse: bool)
    requires !Before(x, y, key, reverse) && !Before(y, z, key, reverse)
    ensures !Before(x, z, key, reverse)
  {
    var a, b, c := key(x), key(y), key(z);
    if Before(x, z, key, reverse) {
      if reverse {
        if a != b {
          KeyLtTotal(a, b);
          KeyLtTransitive(c, a, b);
        }
      } else {
        if a != b {
          KeyLtTotal(a, b);
          KeyLtTransitive(b, a, c);
        }
      }
    }
  }

  /** Every later element may follow every earlier one. */
  predicate Sorted<T>(s: seq<T>, key: T -> SortKey, reverse: bool) {
    forall i, j :: 0 <= i < j < |s| ==> !Before(s[j], s[i], key, reverse)
  }

  /** Insert `x` in front of the first element that need not precede it:
      `x` lands before every element with an equal key. */
  function Insert<T>(x: T, t: seq<T>, key: T -> SortKey, reverse: bool): (r: seq<T>)
    ensures multiset(r) == multiset{x} + multiset(t)
    ensures |r| == |t| + 1
  {
    if t == [] then [x]
    else if Before(t[0], x, key, reverse) then
      assert t == [t[0]] + t[1..];
      [t[0]] + Insert(x, t[1..], key, reverse)
    else [x] + t
  }

  /** `sorted(s, key=key, reverse=reverse)`. */
  function SortBy<T>(s: seq<T>, key: T -> SortKey, reverse: bool): (r: seq<T>)
    ensures multiset(r) == multiset(s)
    ensures |r| == |s|
  {
    if s == [] then []
    else
      assert s == [s[0]] + s[1..];
      Insert(s[0], SortBy(s[1..], key, reverse), key, reverse)
  }

  lemma {:induction false} InsertSorted<T>(x: T, t: seq<T>, key: T -> SortKey, reverse: bool)
    requires Sorted(t, key, reverse)
    ensures Sorted(Insert(x, t, key, reverse), key, reverse)
    decreases |t|
  {
    var r := Insert(x, t, key, reverse);
    if t == [] {
    } else if Before(t[0], x, key, reverse) {
      var tail := Insert(x, t[1..], key, reverse);
      InsertSorted(x, t[1..], key, reverse);
      assert r == [t[0]] + tail;
      forall j | 0 < j < |r| ensures !Before(r[j], r[0], key, reverse) {
        assert r[j] in multiset(tail);
        assert r[j] == x || r[j] in multiset(t[1..]);
        if r[j] == x {
          BeforeAsymmetric(t[0], x, key, reverse);
        } else {
          var m :| 0 <= m < |t[1..]| && t[1..][m] == r[j];
          assert t[m + 1] == r[j];
        }
      }
    } else {
      assert r == [x] + t;
      forall j | 0 < j < |r| ensures !Before(r[j], r[0], key, reverse) {
        if j > 1 {
          assert r[j] == t[j - 1];
          NotBeforeTransitive(t[j - 1], t[0], x, key, reverse);
        }
      }
    }
  }

  /** The output of `SortBy` is sorted. */
  lemma {:induction false} SortBySorted<T>(s: seq<T>, key: T -> SortKey, reverse: bool)
    ensures Sorted(SortBy(s, key, reverse), key, reverse)
    decreases |s|
  {
    if s != [] {
      SortBySorted(s[1..], key, reverse);
      InsertSorted(s[0], SortBy(s[1..], key, reverse), key, reverse);
    }
  }

  /** The elements of `s` whose key is `k`, in order. */
  function WithKey<T>(s: seq<T>, key: T -> SortKey, k: SortKey): (r: seq<T>)
    ensures |r| <= |s|
    ensures forall i :: 0 <= i < |r| ==> key(r[i]) == k
  {
    if s == [] then []
    else (if key(s[0]) == k then [s[0]] else []) + WithKey(s[1..], key, k)
  }

  lemma {:induction false} WithKeyAppend<T>(a: seq<T>, b: seq<T>, key: T -> SortKey, k: SortKey)
    ensures WithKey(a + b, key, k) == WithKey(a, key, k) + WithKey(b, key, k)
  {
    if a == [] {
      assert a + b == b;
    } else {
      assert (a + b)[0] == a[0] && (a + b)[1..] == a[1..] + b;
      WithKeyAppend(a[1..], b, key, k);
    }
  }

  /** Keeping a prefix keeps a prefix of each equal-key group. */
  lemma WithKeyTake<T>(s: seq<T>, n: nat, key: T -> SortKey, k: SortKey)
    requires n <= |s|
    ensures |WithKey(s[..n], key, k)| <= |WithKey(s, key, k)|
    ensures WithKey(s[..n], key, k) == WithKey(s, key, k)[..|WithKey(s[..n], key, k)|]
  {
    assert s == s[..n] + s[n..];
    WithKeyAppend(s[..n], s[n..], key, k);
  }

  lemma {:induction false} InsertWithKey<T>(x: T, t: seq<T>, key: T -> SortKey, reverse: bool, k: SortKey)
    ensures WithKey(Insert(x, t, key, reverse), key, k) == (if key(x) == k then [x] else []) + WithKey(t, key, k)
    decreases |t|
  {
    if t == [] {
      assert Insert(x, t, key, reverse) == [x];
      assert [x][1..] == [];
    } else if Before(t[0], x, key, reverse) {
      InsertWithKey(x, t[1..], key, reverse, k);
      InsertWithKeySkip(x, t, key, reverse, k);
    } else {
      var r := [x] + t;
      assert Insert(x, t, key, reverse) == r;
      assert r[1..] == t;
    }
  }

  lemma InsertWithKeySkip<T>(x: T, t: seq<T>, key: T -> SortKey, reverse: bool, k: SortKey)
    requires t != [] && Before(t[0], x, key, reverse)
    requires WithKey(Insert(x, t[1..], key, reverse), key, k) == (if key(x) == k then [x] else []) + WithKey(t[1..], key, k)
    ensures WithKey(Insert(x, t, key, reverse), key, k) == (if key(x) == k then [x] else []) + WithKey(t, key, k)
  {
    var tail := Insert(x, t[1..], key, reverse);
    InsertSkips(x, t, key, reverse);
    assert key(t[0]) != key(x) by { KeyLtIrreflexive(key(x)); }
    assert ([t[0]] + tail)[1..] == tail;
    var w := WithKey(t[1..], key, k);
    if key(x) == k {
      assert WithKey([t[0]] + tail, key, k) == WithKey(tail, key, k);
      assert WithKey(t, key, k) == w;
    } else {
      assert WithKey(tail, key, k) == w;
    }
  }

  /** Stability: elements with equal keys keep their relative order. */
  lemma {:induction false} SortByStable<T>(s: seq<T>, key: T -> SortKey, reverse: bool, k: SortKey)
    ensures WithKey(SortBy(s, key, reverse), key, k) == WithKey(s, key, k)
    decreases |s|
  {
    if s != [] {
      SortByStable(s[1..], key, reverse, k);
      InsertWithKey(s[0], SortBy(s[1..], key, reverse), key, reverse, k);
    }
  }

  /** The key of each element, in order. */
  function Keys<T>(s: seq<T>, key: T -> SortKey): (r: seq<SortKey>)
    ensures |r| == |s|
  {
    if s == [] then [] else [key(s[0])] + Keys(s[1..], key)
  }

  lemma KeysCons<T>(x: T, t: seq<T>, key: T -> SortKey)
    ensures Keys([x] + t, key) == [key(x)] + Keys(t, key)
  {
    assert ([x] + t)[1..] == t;
  }

  lemma {:induction false} KeysInsert<T>(x: T, t: seq<T>, key: T -> SortKey, reverse: bool)
    ensures multiset(Keys(Insert(x, t, key, reverse), key)) == multiset{key(x)} + multiset(Keys(t, key))
    decreases |t|
  {
    if t == [] {
      KeysConsMultiset(x, [], key);
    } else if Before(t[0], x, key, reverse) {
      KeysInsert(x, t[1..], key, reverse);
      KeysInsertSkip(x, t, key, reverse);
    } else {
      KeysConsMultiset(x, t, key);
    }
  }

  lemma KeysInsertSkip<T>(x: T, t: seq<T>, key: T -> SortKey, reverse: bool)
    requires t != [] && Before(t[0], x, key, reverse)
    requires multiset(Keys(Insert(x, t[1..], key, reverse), key)) == multiset{key(x)} + multiset(Keys(t[1..], key))
    ensures multiset(Keys(Insert(x, t, key, reverse), key)) == multiset{key(x)} + multiset(Keys(t, key))
  {
    var tail := Insert(x, t[1..], key, reverse);
    InsertSkips(x, t, key, reverse);
    KeysConsMultiset(t[0], tail, key);
    KeysConsMultiset(t[0], t[1..], key);
    MultisetSwap(multiset{key(t[0])}, multiset{key(x)}, multiset(Keys(t[1..], key)));
  }

  lemma InsertSkips<T>(x: T, t: seq<T>, key: T -> SortKey, reverse: bool)
    requires t != [] && Before(t[0], x, key, reverse)
    ensures Insert(x, t, key, reverse) == [t[0]] + Insert(x, t[1..], key, reverse)
    ensures t == [t[0]] + t[1..]
  {
  }

  lemma MultisetSwap<U>(a: multiset<U>, b: multiset<U>, c: multiset<U>)
    ensures a + (b + c) == b + (a + c)
  {
  }

  /** `Keys` lists the key of each element. */
  lemma {:induction false} KeysAt<T>(s: seq<T>, key: T -> SortKey, i: nat)
    requires i < |s|
    ensures Keys(s, key)[i] == key(s[i])
    decreases i
  {
    if i > 0 { KeysAt(s[1..], key, i - 1); }
  }

  lemma KeysConsMultiset<T>(x: T, t: seq<T>, key: T -> SortKey)
    ensures multiset(Keys([x] + t, key)) == multiset{key(x)} + multiset(Keys(t, key))
  {
    KeysCons(x, t, key);
  }

  /** Sorting permutes the keys too. */
  lemma {:induction false} KeysSortBy<T>(s: seq<T>, key: T -> SortKey, reverse: bool)
    ensures multiset(Keys(SortBy(s, key, reverse), key)) == multiset(Keys(s, key))
    decreases |s|
  {
    if s != [] {
      KeysSortBy(s[1..], key, reverse);
      KeysInsert(s[0], SortBy(s[1..], key, reverse), key, reverse);
      KeysCons(s[0], s[1..], key);
      assert s == [s[0]] + s[1..];
    }
  }

  predicate Ascending(a: seq<SortKey>) {
    forall i, j :: 0 <= i < j < |a| ==> !KeyLt(a[j], a[i])
  }

  lemma SortedKeysAscending<T>(s: seq<T>, key: T -> SortKey)
    requires Sorted(s, key, false)
    ensures Ascending(Keys(s, key))
  {
    forall i, j | 0 <= i < j < |s| ensures !KeyLt(Keys(s, key)[j], Keys(s, key)[i]) {
      KeysAt(s, key, i);
      KeysAt(s, key, j);
    }
  }

  lemma KeyLtAntisymmetric(a: SortKey, b: SortKey)
    requires !KeyLt(a, b) && !KeyLt(b, a)
    ensures a == b
  {
    if a != b { KeyLtTotal(a, b); }
  }

  lemma MultisetTail<T>(s: seq<T>)
    requires s != []
    ensures multiset(s[1..]) == multiset(s) - multiset{s[0]}
  {
    assert s == [s[0]] + s[1..];
  }

  lemma IndexOf<T>(x: T, s: seq<T>) returns (j: nat)
    requires x in multiset(s)
    ensures j < |s| && s[j] == x
  {
    j :| 0 <= j < |s| && s[j] == x;
  }

  lemma AscendingHeads(a: seq<SortKey>, b: seq<SortKey>)
    requires Ascending(a) && Ascending(b) && multiset(a) == multiset(b) && a != []
    ensures b != [] && a[0] == b[0]
  {
    var j := IndexOf(a[0], b);
    var i := IndexOf(b[0], a);
    assert !KeyLt(a[0], b[0]) by { if j > 0 { assert !KeyLt(b[j], b[0]); } else { KeyLtIrreflexive(a[0]); } }
    assert !KeyLt(b[0], a[0]) by { if i > 0 { assert !KeyLt(a[i], a[0]); } else { KeyLtIrreflexive(a[0]); } }
    KeyLtAntisymmetric(a[0], b[0]);
  }

  /** Two ascending key sequences holding the same keys are the same sequence. */
  lemma {:induction false} AscendingUnique(a: seq<SortKey>, b: seq<SortKey>)
    requires Ascending(a) && Ascending(b) && multiset(a) == multiset(b)
    ensures a == b
    decreases |a|
  {
    if a == [] {
      assert |b| == 0 by { assert |multiset(a)| == |multiset(b)|; }
    } else {
      AscendingHeads(a, b);
      MultisetTail(a);
      MultisetTail(b);
      AscendingUnique(a[1..], b[1..]);
      assert a == [a[0]] + a[1..] && b == [b[0]] + b[1..];
    }
  }

  /** Sorting with a key that tells elements apart depends only on the
      multiset of the input: two inputs that are permutations of each other
      sort to the same list. */
  lemma {:induction false} SortedUnique<T>(s: seq<T>, t: seq<T>, key: T -> SortKey, reverse: bool)
    requires forall x, y :: key(x) == key(y) ==> x == y
    requires Sorted(s, key, reverse) && Sorted(t, key, reverse) && multiset(s) == multiset(t)
    ensures s == t
    decreases |s|
  {
    assert |t| == |s| by { assert |multiset(s)| == |multiset(t)|; }
    if s != [] {
      assert s[0] == t[0] by {
        var j := IndexOf(s[0], t);
        var i := IndexOf(t[0], s);
        assert !Before(s[0], t[0], key, reverse) by {
          if j > 0 { assert !Before(t[j], t[0], key, reverse); } else { KeyLtIrreflexive(key(s[0])); }
        }
        assert !Before(t[0], s[0], key, reverse) by {
          if i > 0 { assert !Before(s[i], s[0], key, reverse); } else { KeyLtIrreflexive(key(s[0])); }
        }
        KeyLtAntisymmetric(key(s[0]), key(t[0]));
      }
      MultisetTail(s);
      MultisetTail(t);
      SortedUnique(s[1..], t[1..], key, reverse);
      assert s == [s[0]] + s[1..] && t == [t[0]] + t[1..];
    }
  }

  /** `sorted(...)[:n]` is sorted, and everything it keeps goes no later than
      anything it drops. */
  lemma TakeSorted<T>(s: seq<T>, n: nat, key: T -> SortKey, reverse: bool)
    requires Sorted(s, key, reverse) && n <= |s|
    ensures Sorted(s[..n], key, reverse)
    ensures forall i, j :: 0 <= i < n <= j < |s| ==> !Before(s[j], s[i], key, reverse)
  {
  }

  /** `sorted(s, ...)[:n]`, the top-`n` idiom: the result is sorted, is a
      sub-multiset of `s`, has at most `n` elements for `n >= 0`, and every
      element of `s` left out may follow every element kept. */
  lemma TopN<T>(s: seq<T>, n: int, key: T -> SortKey, reverse: bool)
    ensures Sorted(TakePy(SortBy(s, key, reverse), n), key, reverse)
    ensures multiset(TakePy(SortBy(s, key, reverse), n)) <= multiset(s)
    ensures n >= 0 ==> |TakePy(SortBy(s, key, reverse), n)| == if n < |s| then n else |s|
    ensures forall y, i ::
      y in multiset(s) - multiset(TakePy(SortBy(s, key, reverse), n)) && 0 <= i < |TakePy(SortBy(s, key, reverse), n)|
      ==> !Before(y, TakePy(SortBy(s, key, reverse), n)[i], key, reverse)
  {
    var t := SortBy(s, key, reverse);
    var r := TakePy(t, n);
    SortBySorted(s, key, reverse);
    TakeSorted(t, |r|, key, reverse);
    assert t == r + t[|r|..];
    assert multiset(t) == multiset(r) + multiset(t[|r|..]);
    forall y, i | y in multiset(s) - multiset(r) && 0 <= i < |r|
      ensures !Before(y, r[i], key, reverse)
    {
      assert y in multiset(t[|r|..]);
      var j :| 0 <= j < |t[|r|..]| && t[|r|..][j] == y;
      assert t[|r| + j] == y;
    }
  }

  /** An element of `s` missing from the top `n` may follow every element kept. */
  lemma TopNLeftOut<T>(s: seq<T>, n: int, key: T -> SortKey, reverse: bool, y: T)
    requires y in s && y !in TakePy(SortBy(s, key, reverse), n)
    ensures forall i :: 0 <= i < |TakePy(SortBy(s, key, reverse), n)| ==>
      !Before(y, TakePy(SortBy(s, key, reverse), n)[i], key, reverse)
  {
    TopN(s, n, key, reverse);
    assert y in multiset(s) - multiset(TakePy(SortBy(s, key, reverse), n));
  }

  /** Everything in the top `n` comes from `s`. */
  lemma TopNIn<T>(s: seq<T>, n: int, key: T -> SortKey, reverse: bool, y: T)
    requires y in TakePy(SortBy(s, key, reverse), n)
    ensures y in s
  {
    TopN(s, n, key, reverse);
    assert y in multiset(TakePy(SortBy(s, key, reverse), n));
  }
}
