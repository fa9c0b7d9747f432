/** Sequence operations that the JavaScript code gets from its runtime:
    `Array.prototype.map`, `Array.prototype.filter`, `[...new Set(xs)]`, and the stable
    `Array.prototype.sort` (stable since ECMAScript 2019). */
module Seqs {

  /** `xs.map(f)`. */
  function Map<A, B>(xs: seq<A>, f: A -> B): (r: seq<B>)
    ensures |r| == |xs|
  {
    if xs == [] then [] else [f(xs[0])] + Map(xs[1..], f)
  }

  lemma MapThree<A, B>(xs: seq<A>, f: A -> B)
    requires |xs| == 3
    ensures Map(xs, f) == [f(xs[0]), f(xs[1]), f(xs[2])]
  {
    var a := xs[1..];
    var b := a[1..];
    assert Map(b[1..], f) == [];
    assert Map(b, f) == [f(xs[2])];
    assert Map(a, f) == [f(xs[1])] + Map(b, f);
  }

  /** `xs.slice(0, n)`. */
  function Take<T>(xs: seq<T>, n: nat): (r: seq<T>)
    ensures |r| <= n && |r| <= |xs|
    ensures r == xs[..|r|]
    ensures |xs| >= n ==> |r| == n
  {
    if |xs| <= n then xs else xs[..n]
  }

  /** `xs.filter(p)`. */
  function Filter<T>(xs: seq<T>, p: T -> bool): (r: seq<T>)
    ensures |r| <= |xs|
    ensures forall x :: x in r ==> x in xs && p(x)
    ensures forall x :: x in xs && p(x) ==> x in r
  {
    if xs == [] then []
    else (if p(xs[0]) then [xs[0]] else []) + Filter(xs[1..], p)
  }

  lemma {:induction false} FilterConcat<T>(a: seq<T>, b: seq<T>, p: T -> bool)
    ensures Filter(a + b, p) == Filter(a, p) + Filter(b, p)
  {
    if a != [] {
      assert (a + b)[1..] == a[1..] + b;
      FilterConcat(a[1..], b, p);
    } else {
      assert a + b == b;
    }
  }

  lemma {:induction false} FilterAll<T>(xs: seq<T>, p: T -> bool)
    requires forall i :: 0 <= i < |xs| ==> p(xs[i])
    ensures Filter(xs, p) == xs
  {
    if xs != [] {
      FilterAll(xs[1..], p);
    }
  }

  /** Number of occurrences of `x` in `xs`. */
  function Count<T(==)>(xs: seq<T>, x: T): nat {
    if xs == [] then 0 else (if xs[0] == x then 1 else 0) + Count(xs[1..], x)
  }

  lemma {:induction false} CountSnoc<T>(xs: seq<T>, y: T, x: T)
    ensures Count(xs + [y], x) == Count(xs, x) + (if y == x then 1 else 0)
  {
    if xs != [] {
      assert (xs + [y])[1..] == xs[1..] + [y];
      CountSnoc(xs[1..], y, x);
    } else {
      assert xs + [y] == [y];
    }
  }

  lemma {:induction false} CountConcat<T>(a: seq<T>, b: seq<T>, x: T)
    ensures Count(a + b, x) == Count(a, x) + Count(b, x)
  {
    if a != [] {
      assert (a + b)[1..] == a[1..] + b;
      CountConcat(a[1..], b, x);
    } else {
      assert a + b == b;
    }
  }

  lemma {:induction false} CountPositive<T>(xs: seq<T>, x: T)
    ensures Count(xs, x) > 0 <==> x in xs
  {
    if xs != [] {
      CountPositive(xs[1..], x);
      assert x in xs <==> xs[0] == x || x in xs[1..];
    }
  }

  predicate NoDuplicates<T(==)>(xs: seq<T>) {
    forall i, j :: 0 <= i < j < |xs| ==> xs[i] != xs[j]
  }

  /** `[...new Set(xs)]`: a Set keeps the order in which values were first
      added, so each value is kept at its first occurrence. Written, like the
      Set constructor, as one insertion per element from the left. */
  function Dedup<T(==)>(xs: seq<T>): (r: seq<T>)
    ensures |r| <= |xs|
  {
    if xs == [] then []
    else
      var init := xs[..|xs| - 1];
      var last := xs[|xs| - 1];
      var d := Dedup(init);
      if last in init then d else d + [last]
  }

  /** `Dedup` keeps every value of `xs` exactly once and adds none. */
  lemma {:induction false} DedupSpec<T>(xs: seq<T>)
    ensures NoDuplicates(Dedup(xs))
    ensures forall i :: 0 <= i < |xs| ==> xs[i] in Dedup(xs)
    ensures forall i :: 0 <= i < |Dedup(xs)| ==> Dedup(xs)[i] in xs
  {
    if xs != [] {
      var init := xs[..|xs| - 1];
      var last := xs[|xs| - 1];
      assert xs == init + [last];
      DedupSpec(init);
      var d := Dedup(init);
      if last !in init {
        assert last !in d;
        assert Dedup(xs) == d + [last];
      }
    }
  }

  lemma {:induction false} DedupOfDistinct<T>(xs: seq<T>)
    requires NoDuplicates(xs)
    ensures Dedup(xs) == xs
  {
    if xs != [] {
      var init := xs[..|xs| - 1];
      DedupOfDistinct(init);
      assert xs[|xs| - 1] !in init;
      assert init + [xs[|xs| - 1]] == xs;
    }
  }

  /** One more value either is already in the Set or goes last. */
  lemma DedupSnoc<T>(xs: seq<T>, x: T)
    ensures Dedup(xs + [x]) == if x in xs then Dedup(xs) else Dedup(xs) + [x]
  {
    assert (xs + [x])[..|xs|] == xs;
  }

  /** Values enter a Set in first-occurrence order: what `Dedup` keeps of a
      prefix is a prefix of what it keeps of the whole. */
  lemma {:induction false} DedupPrefix<T>(a: seq<T>, b: seq<T>)
    ensures |Dedup(a)| <= |Dedup(a + b)|
    ensures Dedup(a + b)[..|Dedup(a)|] == Dedup(a)
    decreases |b|
  {
    if b == [] {
      assert a + b == a;
    } else {
      var b' := b[..|b| - 1];
      var x := b[|b| - 1];
      DedupPrefix(a, b');
      var d := Dedup(a + b');
      assert Dedup(a + b) == if x in a + b' then d else d + [x] by {
        assert a + b == (a + b') + [x] by {
          assert b == b' + [x];
        }
        DedupSnoc(a + b', x);
      }
      PrefixOfSnoc(d, x, |Dedup(a)|);
    }
  }

  lemma PrefixOfSnoc<T>(d: seq<T>, x: T, n: nat)
    requires n <= |d|
    ensures (d + [x])[..n] == d[..n]
  {
  }

  /** A sequence is in non-increasing order of `key`. */
  predicate SortedDesc<T>(xs: seq<T>, key: T -> int) {
    forall i, j :: 0 <= i < j < |xs| ==> key(xs[i]) >= key(xs[j])
  }

  /** Insert `x` into a non-increasing sequence after every element whose key
      is at least `key(x)`: later elements go after earlier ones of equal key. */
  function InsertDesc<T>(x: T, xs: seq<T>, key: T -> int): (r: seq<T>)
    ensures |r| == |xs| + 1
  {
    if xs == [] then [x]
    else if key(xs[0]) >= key(x) then [xs[0]] + InsertDesc(x, xs[1..], key)
    else [x] + xs
  }

  lemma {:induction false} InsertDescMultiset<T>(x: T, xs: seq<T>, key: T -> int)
    ensures multiset(InsertDesc(x, xs, key)) == multiset(xs) + multiset{x}
  {
    if xs != [] && key(xs[0]) >= key(x) {
      InsertDescMultiset(x, xs[1..], key);
      assert xs == [xs[0]] + xs[1..];
    }
  }

  lemma {:induction false} InsertDescBound<T>(x: T, xs: seq<T>, key: T -> int, b: int)
    requires key(x) <= b
    requires forall i :: 0 <= i < |xs| ==> key(xs[i]) <= b
    ensures forall i :: 0 <= i < |xs| + 1 ==> key(InsertDesc(x, xs, key)[i]) <= b
  {
    if xs != [] && key(xs[0]) >= key(x) {
      InsertDescBound(x, xs[1..], key, b);
    }
  }

  lemma {:induction false} InsertDescSorted<T>(x: T, xs: seq<T>, key: T -> int)
    requires SortedDesc(xs, key)
    ensures SortedDesc(InsertDesc(x, xs, key), key)
  {
    if xs != [] && key(xs[0]) >= key(x) {
      var rest := InsertDesc(x, xs[1..], key);
      InsertDescSorted(x, xs[1..], key);
      InsertDescBound(x, xs[1..], key, key(xs[0]));
      var r := [xs[0]] + rest;
      forall i, j | 0 <= i < j < |r| ensures key(r[i]) >= key(r[j]) {
        if i > 0 {
          assert r[i] == rest[i - 1] && r[j] == rest[j - 1];
        } else {
          assert r[j] == rest[j - 1];
        }
      }
    }
  }

  /** A stable sort in non-increasing order of `key`, as the runtime's
      `Array.prototype.sort((a, b) => key(b) - key(a))` behaves. */
  function SortDesc<T>(xs: seq<T>, key: T -> int): (r: seq<T>)
    ensures |r| == |xs|
  {
    if xs == [] then []
    else InsertDesc(xs[|xs| - 1], SortDesc(xs[..|xs| - 1], key), key)
  }

  /** The sort returns a non-increasing permutation of its input. */
  lemma {:induction false} SortDescCorrect<T>(xs: seq<T>, key: T -> int)
    ensures SortedDesc(SortDesc(xs, key), key)
    ensures multiset(SortDesc(xs, key)) == multiset(xs)
  {
    if xs != [] {
      var init := xs[..|xs| - 1];
      SortDescCorrect(init, key);
      InsertDescSorted(xs[|xs| - 1], SortDesc(init, key), key);
      InsertDescMultiset(xs[|xs| - 1], SortDesc(init, key), key);
      assert xs == init + [xs[|xs| - 1]];
    }
  }

  /** The elements with key `k`, in order. */
  function WithKey<T>(xs: seq<T>, key: T -> int, k: int): seq<T> {
    if xs == [] then []
    else (if key(xs[0]) == k then [xs[0]] else []) + WithKey(xs[1..], key, k)
  }

  lemma {:induction false} WithKeySnoc<T>(xs: seq<T>, x: T, key: T -> int, k: int)
    ensures WithKey(xs + [x], key, k) == WithKey(xs, key, k) + (if key(x) == k then [x] else [])
  {
    if xs != [] {
      assert (xs + [x])[1..] == xs[1..] + [x];
      WithKeySnoc(xs[1..], x, key, k);
    } else {
      assert xs + [x] == [x];
    }
  }

  lemma {:induction false} WithKeyBelow<T>(xs: seq<T>, key: T -> int, k: int)
    requires forall i :: 0 <= i < |xs| ==> key(xs[i]) < k
    ensures WithKey(xs, key, k) == []
  {
    if xs != [] {
      WithKeyBelow(xs[1..], key, k);
    }
  }

  lemma {:induction false} InsertDescStable<T>(x: T, xs: seq<T>, key: T -> int, k: int)
    requires SortedDesc(xs, key)
    ensures WithKey(InsertDesc(x, xs, key), key, k) == WithKey(xs, key, k) + (if key(x) == k then [x] else [])
  {
    if xs == [] {
    } else if key(xs[0]) >= key(x) {
      assert SortedDesc(xs[1..], key) by {
        forall i, j | 0 <= i < j < |xs| - 1 ensures key(xs[1..][i]) >= key(xs[1..][j]) {
          assert xs[1..][i] == xs[i + 1] && xs[1..][j] == xs[j + 1];
        }
      }
      InsertDescStable(x, xs[1..], key, k);
      InsertDescHead(x, xs, key, k);
    } else {
      InsertDescFront(x, xs, key, k);
    }
  }

  /** Inserting after the head keeps the head in front. */
  lemma InsertDescHead<T>(x: T, xs: seq<T>, key: T -> int, k: int)
    requires xs != [] && key(xs[0]) >= key(x)
    ensures WithKey(InsertDesc(x, xs, key), key, k)
      == (if key(xs[0]) == k then [xs[0]] else []) + WithKey(InsertDesc(x, xs[1..], key), key, k)
  {
    var r := InsertDesc(x, xs, key);
    assert r == [xs[0]] + InsertDesc(x, xs[1..], key);
    assert r[0] == xs[0] && r[1..] == InsertDesc(x, xs[1..], key);
  }

  /** Inserting before a sorted sequence whose keys are all below `key(x)`. */
  lemma InsertDescFront<T>(x: T, xs: seq<T>, key: T -> int, k: int)
    requires SortedDesc(xs, key) && xs != [] && key(xs[0]) < key(x)
    ensures WithKey(InsertDesc(x, xs, key), key, k) == WithKey(xs, key, k) + (if key(x) == k then [x] else [])
  {
    var r := InsertDesc(x, xs, key);
    assert r == [x] + xs;
    assert r[0] == x && r[1..] == xs;
    if key(x) == k {
      assert forall i :: 0 <= i < |xs| ==> key(xs[i]) < k by {
        forall i | 0 <= i < |xs| ensures key(xs[i]) < k {
          if i > 0 {
            assert key(xs[0]) >= key(xs[i]);
          }
        }
      }
      WithKeyBelow(xs, key, k);
    }
  }

  /** Stability: among elements of equal key the sort keeps the input order. */
  lemma {:induction false} SortDescStable<T>(xs: seq<T>, key: T -> int, k: int)
    ensures WithKey(SortDesc(xs, key), key, k) == WithKey(xs, key, k)
  {
    if xs != [] {
      var init := xs[..|xs| - 1];
      var last := xs[|xs| - 1];
      SortDescStable(init, key, k);
      SortDescCorrect(init, key);
      InsertDescStable(last, SortDesc(init, key), key, k);
      assert init + [last] == xs;
      WithKeySnoc(init, last, key, k);
    }
  }
}
