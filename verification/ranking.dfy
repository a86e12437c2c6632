/** Ranking of scored candidates.  Every ranking step of the program sorts an
    array or list with Arrays.sort / Collections.sort and one of two
    comparators (DescendingScoreComp, DescendingRelevanceComp) that return
    the sign of o2 - o1.  Java's object sorts are stable, so the result is the
    unique arrangement that is descending in the key and keeps candidates of
    equal key in their original order; `SortDesc` computes it by insertion
    and `StableSortUnique` shows that no other arrangement has both
    properties.  The module also holds the sums used by the normalizations.
 */
module Ranking {

  /** The comparators: negative when `x` must come first (the greater key),
      positive when `y` must, zero on a tie. */
  function DescendingCompare(x: real, y: real): (c: int)
    ensures c == -1 || c == 0 || c == 1
    ensures c < 0 <==> x > y
    ensures c > 0 <==> x < y
  {
    var diff := y - x;
    if diff < 0.0 then -1 else if diff > 0.0 then 1 else 0
  }

  /** The order the comparators ask for: no later key exceeds an earlier one. */
  ghost predicate Descending<T>(s: seq<T>, key: T -> real) {
    forall i, j :: 0 <= i < j < |s| ==> key(s[i]) >= key(s[j])
  }

  /** The candidates whose key is `v`, in their order in `s`. */
  function WithKey<T>(s: seq<T>, key: T -> real, v: real): (r: seq<T>)
    ensures |r| <= |s|
    decreases |s|
  {
    if |s| == 0 then []
    else (if key(s[0]) == v then [s[0]] else []) + WithKey(s[1..], key, v)
  }

  /** Candidates of equal key keep their relative order. */
  ghost predicate SameTies<T>(a: seq<T>, b: seq<T>, key: T -> real) {
    forall v :: WithKey(a, key, v) == WithKey(b, key, v)
  }

  lemma WithKeyCons<T>(x: T, s: seq<T>, key: T -> real, v: real)
    ensures WithKey([x] + s, key, v) == (if key(x) == v then [x] else []) + WithKey(s, key, v)
  {
    assert ([x] + s)[0] == x;
    assert ([x] + s)[1..] == s;
  }

  lemma {:induction false} WithKeyMember<T>(s: seq<T>, key: T -> real, v: real, x: T)
    requires x in WithKey(s, key, v)
    ensures x in s && key(x) == v
    decreases |s|
  {
    if |s| > 0 && !(key(s[0]) == v && x == s[0]) {
      WithKeyMember(s[1..], key, v, x);
    }
  }

  /** The first candidate with key `v` heads the candidates with key `v`. */
  lemma {:induction false} WithKeyHead<T>(s: seq<T>, key: T -> real, v: real, i: nat)
    requires i < |s| && key(s[i]) == v
    requires forall j :: 0 <= j < i ==> key(s[j]) != v
    ensures |WithKey(s, key, v)| > 0 && WithKey(s, key, v)[0] == s[i]
    decreases i
  {
    if i > 0 {
      assert forall j :: 0 <= j < i - 1 ==> s[1..][j] == s[j + 1];
      WithKeyHead(s[1..], key, v, i - 1);
    }
  }

  // ---------------------------------------------------------------------------
  // Stable insertion sort

  /** Every key of `t` is at most the key of `y`. */
  ghost predicate Bounds<T>(y: T, t: seq<T>, key: T -> real) {
    forall k :: 0 <= k < |t| ==> key(t[k]) <= key(y)
  }

  lemma DescendingCons<T>(y: T, t: seq<T>, key: T -> real)
    ensures Descending([y] + t, key) <==> Bounds(y, t, key) && Descending(t, key)
  {
    var s := [y] + t;
    assert forall k :: 0 <= k < |t| ==> s[k + 1] == t[k];
    if Descending(s, key) {
      forall k | 0 <= k < |t| ensures key(t[k]) <= key(y) {
        assert s[0] == y && s[k + 1] == t[k];
      }
      forall i, j | 0 <= i < j < |t| ensures key(t[i]) >= key(t[j]) {
        assert s[i + 1] == t[i] && s[j + 1] == t[j];
      }
    }
    if Bounds(y, t, key) && Descending(t, key) {
      forall i, j | 0 <= i < j < |s| ensures key(s[i]) >= key(s[j]) {
        assert s[j] == t[j - 1];
        if i > 0 {
          assert s[i] == t[i - 1];
        }
      }
    }
  }

  /** Bounds carry over to a rearrangement that adds one smaller candidate. */
  lemma BoundsAfterAdding<T>(y: T, x: T, u: seq<T>, t: seq<T>, key: T -> real)
    requires multiset(t) == multiset(u) + multiset{x}
    requires Bounds(y, u, key) && key(x) <= key(y)
    ensures Bounds(y, t, key)
  {
    forall k | 0 <= k < |t| ensures key(t[k]) <= key(y) {
      assert t[k] in multiset(t);
      if t[k] != x {
        assert t[k] in multiset(u);
        var l :| 0 <= l < |u| && u[l] == t[k];
      }
    }
  }

  function Insert<T>(x: T, s: seq<T>, key: T -> real): (r: seq<T>)
    ensures multiset(r) == multiset(s) + multiset{x}
    decreases |s|
  {
    if |s| == 0 || key(x) >= key(s[0]) then [x] + s
    else
      var r := [s[0]] + Insert(x, s[1..], key);
      assert s == [s[0]] + s[1..];
      r
  }

  lemma {:induction false} InsertDescending<T>(x: T, s: seq<T>, key: T -> real)
    requires Descending(s, key)
    ensures Descending(Insert(x, s, key), key)
    decreases |s|
  {
    if |s| > 0 {
      assert s == [s[0]] + s[1..];
      DescendingCons(s[0], s[1..], key);
      if key(x) >= key(s[0]) {
        forall k | 0 <= k < |s| ensures key(s[k]) <= key(x) {
          if k > 0 { assert key(s[0]) >= key(s[k]); }
        }
        DescendingCons(x, s, key);
      } else {
        var rest := Insert(x, s[1..], key);
        InsertDescending(x, s[1..], key);
        BoundsAfterAdding(s[0], x, s[1..], rest, key);
        DescendingCons(s[0], rest, key);
      }
    }
  }

  lemma InsertBehind<T>(x: T, s: seq<T>, key: T -> real)
    requires |s| > 0 && key(x) < key(s[0])
    ensures Insert(x, s, key) == [s[0]] + Insert(x, s[1..], key)
    ensures s == [s[0]] + s[1..]
  {
  }

  lemma {:induction false} InsertTies<T>(x: T, s: seq<T>, key: T -> real, v: real)
    ensures WithKey(Insert(x, s, key), key, v) == WithKey([x] + s, key, v)
    decreases |s|
  {
    if |s| > 0 && key(x) < key(s[0]) {
      var rest := Insert(x, s[1..], key);
      InsertTies(x, s[1..], key, v);
      var p0 := if key(s[0]) == v then [s[0]] else [];
      var px := if key(x) == v then [x] else [];
      var tail := WithKey(s[1..], key, v);
      InsertBehind(x, s, key);
      WithKeyCons(s[0], rest, key, v);
      WithKeyCons(x, s[1..], key, v);
      WithKeyCons(s[0], s[1..], key, v);
      WithKeyCons(x, s, key, v);
      if key(x) == v {
        assert p0 == [];
      } else {
        assert px == [];
      }
    }
  }

  /** Arrays.sort / Collections.sort with a descending comparator. */
  function SortDesc<T>(s: seq<T>, key: T -> real): (r: seq<T>)
    ensures multiset(r) == multiset(s)
    ensures Descending(r, key)
    ensures SameTies(r, s, key)
    decreases |s|
  {
    if |s| == 0 then []
    else
      var rest := SortDesc(s[1..], key);
      var r := Insert(s[0], rest, key);
      assert s == [s[0]] + s[1..];
      InsertDescending(s[0], rest, key);
      assert SameTies(r, s, key) by {
        forall v ensures WithKey(r, key, v) == WithKey(s, key, v) {
          InsertTies(s[0], rest, key, v);
          WithKeyCons(s[0], rest, key, v);
          WithKeyCons(s[0], s[1..], key, v);
        }
      }
      r
  }

  lemma SortLength<T>(s: seq<T>, key: T -> real)
    ensures |SortDesc(s, key)| == |s|
  {
    assert |multiset(SortDesc(s, key))| == |multiset(s)|;
  }

  lemma WithKeyNonEmpty<T>(s: seq<T>, key: T -> real)
    requires |s| > 0
    ensures WithKey(s, key, key(s[0])) == [s[0]] + WithKey(s[1..], key, key(s[0]))
  {
  }

  /** A descending arrangement that keeps the order of ties is unique: any
      stable sort of the same candidates yields exactly `SortDesc`. */
  lemma {:induction false} StableSortUnique<T>(a: seq<T>, b: seq<T>, key: T -> real)
    requires Descending(a, key) && Descending(b, key)
    requires SameTies(a, b, key)
    ensures a == b
    decreases |a| + |b|
  {
    if |b| > 0 {
      WithKeyNonEmpty(b, key);
      assert WithKey(a, key, key(b[0])) != [];
    }
    if |a| > 0 {
      WithKeyNonEmpty(a, key);
      assert WithKey(b, key, key(a[0])) != [];
    }
    if |a| > 0 && |b| > 0 {
      var m := key(a[0]);
      var n := key(b[0]);
      WithKeyNonEmpty(a, key);
      WithKeyNonEmpty(b, key);
      assert a[0] in WithKey(b, key, m);
      WithKeyMember(b, key, m, a[0]);
      var j :| 0 <= j < |b| && b[j] == a[0];
      assert n >= m by {
        if j > 0 { assert key(b[0]) >= key(b[j]); }
      }
      assert b[0] in WithKey(a, key, n);
      WithKeyMember(a, key, n, b[0]);
      var i :| 0 <= i < |a| && a[i] == b[0];
      assert m >= n by {
        if i > 0 { assert key(a[0]) >= key(a[i]); }
      }
      assert a[0] == WithKey(a, key, m)[0] == WithKey(b, key, m)[0] == b[0];
      forall v ensures WithKey(a[1..], key, v) == WithKey(b[1..], key, v) {
        assert WithKey(a, key, v) == WithKey(b, key, v);
        WithKeyCons(a[0], a[1..], key, v);
        WithKeyCons(b[0], b[1..], key, v);
        assert [a[0]] + a[1..] == a && [b[0]] + b[1..] == b;
        var p := if key(a[0]) == v then [a[0]] else [];
        assert WithKey(a, key, v) == p + WithKey(a[1..], key, v);
        assert WithKey(b, key, v) == p + WithKey(b[1..], key, v);
        assert WithKey(a[1..], key, v) == (p + WithKey(a[1..], key, v))[|p|..];
        assert WithKey(b[1..], key, v) == (p + WithKey(b[1..], key, v))[|p|..];
      }
      assert Descending(a[1..], key) && Descending(b[1..], key);
      StableSortUnique(a[1..], b[1..], key);
      assert a == [a[0]] + a[1..] && b == [b[0]] + b[1..];
    }
  }

  // ---------------------------------------------------------------------------
  // The head of a ranking

  /** `i` is the first position of a greatest key of `s`. */
  ghost predicate FirstMax<T>(s: seq<T>, key: T -> real, i: int) {
    && 0 <= i < |s|
    && (forall j :: 0 <= j < |s| ==> key(s[j]) <= key(s[i]))
    && (forall j :: 0 <= j < i ==> key(s[j]) < key(s[i]))
  }

  lemma FirstMaxUnique<T>(s: seq<T>, key: T -> real, i: int, k: int)
    requires FirstMax(s, key, i) && FirstMax(s, key, k)
    ensures i == k
  {
    assert key(s[k]) <= key(s[i]) && key(s[i]) <= key(s[k]);
  }

  /** The top of the ranking is the earliest candidate of greatest key. */
  lemma SortHead<T>(s: seq<T>, key: T -> real)
    requires |s| > 0
    ensures |SortDesc(s, key)| == |s|
    ensures exists i :: FirstMax(s, key, i) && SortDesc(s, key)[0] == s[i]
  {
    SortLength(s, key);
    var r := SortDesc(s, key);
    var m := key(r[0]);
    assert forall j :: 0 <= j < |s| ==> key(s[j]) <= m by {
      forall j | 0 <= j < |s| ensures key(s[j]) <= m {
        assert s[j] in multiset(r);
        var k :| 0 <= k < |r| && r[k] == s[j];
        if k > 0 { assert key(r[0]) >= key(r[k]); }
      }
    }
    assert r[0] in multiset(s);
    var w :| 0 <= w < |s| && s[w] == r[0];
    var i := FirstWithKey(s, key, m, w);
    WithKeyHead(s, key, m, i);
    WithKeyNonEmpty(r, key);
    assert WithKey(r, key, m)[0] == r[0];
    assert FirstMax(s, key, i);
  }

  /** The least position holding key `v`, given that position `w` holds it. */
  function FirstWithKey<T>(s: seq<T>, key: T -> real, v: real, w: nat): (i: nat)
    requires w < |s| && key(s[w]) == v
    ensures i <= w && key(s[i]) == v
    ensures forall j :: 0 <= j < i ==> key(s[j]) != v
    decreases w
  {
    if key(s[0]) == v then 0
    else
      var i := FirstWithKey(s[1..], key, v, w - 1);
      assert forall j :: 1 <= j <= i ==> s[j] == s[1..][j - 1];
      i + 1
  }

  /** Sorting only a prefix gives the same top candidate as sorting the whole
      sequence, as long as every candidate left out of the prefix is matched
      or beaten by one inside it. */
  lemma SortPrefixHead<T>(s: seq<T>, n: nat, key: T -> real)
    requires 0 < n <= |s|
    requires forall l :: n <= l < |s| ==> exists k :: 0 <= k < n && key(s[l]) <= key(s[k])
    ensures |SortDesc(s[..n], key)| == n && |SortDesc(s, key)| == |s|
    ensures SortDesc(s[..n], key)[0] == SortDesc(s, key)[0]
  {
    SortHead(s, key);
    SortHead(s[..n], key);
    var i :| FirstMax(s, key, i) && SortDesc(s, key)[0] == s[i];
    var i' :| FirstMax(s[..n], key, i') && SortDesc(s[..n], key)[0] == s[..n][i'];
    assert exists k :: 0 <= k < n && key(s[i]) <= key(s[k]);
    var k :| 0 <= k < n && key(s[i]) <= key(s[k]);
    assert i <= k;
    assert FirstMax(s[..n], key, i);
    FirstMaxUnique(s[..n], key, i, i');
  }

  // ---------------------------------------------------------------------------
  // Sums

  function Sum(xs: seq<real>): real
    decreases |xs|
  {
    if |xs| == 0 then 0.0 else xs[0] + Sum(xs[1..])
  }

  lemma {:induction false} SumAppend(a: seq<real>, b: seq<real>)
    ensures Sum(a + b) == Sum(a) + Sum(b)
    decreases |a|
  {
    if |a| == 0 {
      assert a + b == b;
    } else {
      assert (a + b)[0] == a[0];
      assert (a + b)[1..] == a[1..] + b;
      SumAppend(a[1..], b);
    }
  }

  lemma {:induction false} SumNonNegative(xs: seq<real>)
    requires forall i :: 0 <= i < |xs| ==> xs[i] >= 0.0
    ensures Sum(xs) >= 0.0
    decreases |xs|
  {
    if |xs| > 0 {
      SumNonNegative(xs[1..]);
    }
  }

  /** Dividing every term by `d` divides the sum by `d`. */
  lemma {:induction false} SumScaled(xs: seq<real>, ys: seq<real>, d: real)
    requires d != 0.0 && |ys| == |xs|
    requires forall i :: 0 <= i < |xs| ==> ys[i] == xs[i] / d
    ensures Sum(ys) == Sum(xs) / d
    decreases |xs|
  {
    if |xs| > 0 {
      SumScaled(xs[1..], ys[1..], d);
      DivideSum(xs[0], Sum(xs[1..]), d);
    }
  }

  lemma DivideSum(x: real, y: real, d: real)
    requires d != 0.0
    ensures x / d + y / d == (x + y) / d
  {
  }

  // ---------------------------------------------------------------------------
  // Occurrence counts

  /** The number of occurrences of `x` in `xs`. */
  function Count<T(==)>(xs: seq<T>, x: T): nat
    decreases |xs|
  {
    if |xs| == 0 then 0 else (if xs[0] == x then 1 else 0) + Count(xs[1..], x)
  }

  lemma {:induction false} CountAppend<T>(a: seq<T>, b: seq<T>, x: T)
    ensures Count(a + b, x) == Count(a, x) + Count(b, x)
    decreases |a|
  {
    if |a| == 0 {
      assert a + b == b;
    } else {
      assert (a + b)[1..] == a[1..] + b;
      CountAppend(a[1..], b, x);
    }
  }

  lemma {:induction false} CountMember<T>(xs: seq<T>, i: nat)
    requires i < |xs|
    ensures Count(xs, xs[i]) >= 1
    decreases |xs|
  {
    if i > 0 && xs[0] != xs[i] {
      assert xs[1..][i - 1] == xs[i];
      CountMember(xs[1..], i - 1);
    }
  }

  lemma {:induction false} CountAbsent<T>(xs: seq<T>, x: T)
    requires forall k :: 0 <= k < |xs| ==> xs[k] != x
    ensures Count(xs, x) == 0
    decreases |xs|
  {
    if |xs| > 0 {
      assert forall k :: 0 <= k < |xs| - 1 ==> xs[1..][k] == xs[k + 1];
      CountAbsent(xs[1..], x);
    }
  }

  /** The count is the size of the multiset's slot. */
  lemma {:induction false} CountIsMultiplicity<T>(xs: seq<T>, x: T)
    ensures Count(xs, x) == multiset(xs)[x]
    decreases |xs|
  {
    if |xs| > 0 {
      assert xs == [xs[0]] + xs[1..];
      CountIsMultiplicity(xs[1..], x);
    }
  }

  // ---------------------------------------------------------------------------
  // Rearrangements

  /** Where an element of a rearrangement came from. */
  lemma PermutedFrom<T>(a: seq<T>, b: seq<T>, k: nat) returns (i: nat)
    requires multiset(a) == multiset(b) && k < |a|
    ensures i < |b| && b[i] == a[k]
  {
    assert a[k] in multiset(a);
    assert a[k] in multiset(b);
    i :| 0 <= i < |b| && b[i] == a[k];
  }

  /** No two elements share a key. */
  ghost predicate DistinctKeys<T>(s: seq<T>, key: T -> real) {
    forall i, j :: 0 <= i < |s| && 0 <= j < |s| && i != j ==> key(s[i]) != key(s[j])
  }

  /** Two rankings of the same elements are the same ranking when no two
      elements tie: without ties, the order of the input cannot show. */
  lemma {:induction false} DescendingUnique<T>(a: seq<T>, b: seq<T>, key: T -> real)
    requires multiset(a) == multiset(b)
    requires Descending(a, key) && Descending(b, key) && DistinctKeys(a, key)
    ensures a == b
    decreases |a|
  {
    assert |a| == |b| by {
      assert |multiset(a)| == |multiset(b)|;
    }
    if |a| > 0 {
      HeadsAgree(a, b, key);
      TailsPermuted(a, b);
      TailRanked(a, key);
      TailRanked(b, key);
      DescendingUnique(a[1..], b[1..], key);
      assert a == [a[0]] + a[1..] && b == [b[0]] + b[1..];
    }
  }

  lemma HeadsAgree<T>(a: seq<T>, b: seq<T>, key: T -> real)
    requires multiset(a) == multiset(b) && |a| > 0
    requires Descending(a, key) && Descending(b, key) && DistinctKeys(a, key)
    ensures |b| > 0 && a[0] == b[0]
  {
    var m := PermutedFrom(a, b, 0);
    var m' := PermutedFrom(b, a, 0);
    assert key(b[0]) >= key(b[m]);
    assert key(a[0]) >= key(a[m']);
    assert key(a[m']) == key(a[0]);
  }

  lemma TailsPermuted<T>(a: seq<T>, b: seq<T>)
    requires multiset(a) == multiset(b) && |a| > 0 && |b| > 0 && a[0] == b[0]
    ensures multiset(a[1..]) == multiset(b[1..])
  {
    assert a == [a[0]] + a[1..];
    assert b == [b[0]] + b[1..];
    assert multiset(a[1..]) == multiset(a) - multiset{a[0]};
    assert multiset(b[1..]) == multiset(b) - multiset{b[0]};
  }

  lemma TailRanked<T>(s: seq<T>, key: T -> real)
    requires |s| > 0 && Descending(s, key)
    ensures Descending(s[1..], key)
    ensures DistinctKeys(s, key) ==> DistinctKeys(s[1..], key)
  {
    assert forall i :: 0 <= i < |s| - 1 ==> s[1..][i] == s[i + 1];
  }

  // ---------------------------------------------------------------------------
  // Sequences without repeats

  ghost predicate Distinct<T>(s: seq<T>) {
    forall i, j :: 0 <= i < |s| && 0 <= j < |s| && i != j ==> s[i] != s[j]
  }

  lemma {:induction false} CountAtMostOne<T>(s: seq<T>, x: T)
    requires Distinct(s)
    ensures Count(s, x) <= 1
    decreases |s|
  {
    if |s| > 0 {
      assert Distinct(s[1..]) by {
        assert forall i :: 0 <= i < |s| - 1 ==> s[1..][i] == s[i + 1];
      }
      CountAtMostOne(s[1..], x);
      if s[0] == x {
        assert forall k :: 0 <= k < |s| - 1 ==> s[1..][k] == s[k + 1] != s[0];
        CountAbsent(s[1..], x);
      }
    }
  }

  lemma {:induction false} CountOneDistinct<T>(s: seq<T>, i: nat, j: nat)
    requires i < |s| && j < |s| && i != j && Count(s, s[i]) <= 1
    ensures s[i] != s[j]
    decreases |s|
  {
    if i == 0 {
      assert s[1..][j - 1] == s[j];
      CountMember(s[1..], j - 1);
    } else if j == 0 {
      assert s[1..][i - 1] == s[i];
      CountMember(s[1..], i - 1);
    } else {
      assert s[1..][i - 1] == s[i] && s[1..][j - 1] == s[j];
      CountOneDistinct(s[1..], i - 1, j - 1);
    }
  }

  /** A rearrangement of a sequence without repeats has none. */
  lemma DistinctPermuted<T>(a: seq<T>, b: seq<T>)
    requires multiset(a) == multiset(b) && Distinct(b)
    ensures Distinct(a)
  {
    forall i, j | 0 <= i < |a| && 0 <= j < |a| && i != j ensures a[i] != a[j] {
      CountIsMultiplicity(a, a[i]);
      CountIsMultiplicity(b, a[i]);
      CountAtMostOne(b, a[i]);
      CountOneDistinct(a, i, j);
    }
  }

  /** A rearrangement keeps keys apart. */
  lemma DistinctKeysPermuted<T>(a: seq<T>, b: seq<T>, key: T -> real)
    requires multiset(a) == multiset(b) && DistinctKeys(b, key)
    ensures DistinctKeys(a, key)
  {
    assert Distinct(b);
    DistinctPermuted(a, b);
    forall i, j | 0 <= i < |a| && 0 <= j < |a| && i != j ensures key(a[i]) != key(a[j]) {
      var p := PermutedFrom(a, b, i);
      var q := PermutedFrom(a, b, j);
      assert b[p] != b[q];
    }
  }

  /** Two sequences without repeats that hold the same elements are
      rearrangements of each other. */
  lemma DistinctSameElements<T>(a: seq<T>, b: seq<T>)
    requires Distinct(a) && Distinct(b)
    requires forall x :: x in a <==> x in b
    ensures multiset(a) == multiset(b)
  {
    forall x ensures multiset(a)[x] == multiset(b)[x] {
      CountIsMultiplicity(a, x);
      CountIsMultiplicity(b, x);
      CountAtMostOne(a, x);
      CountAtMostOne(b, x);
      if x in a {
        var i :| 0 <= i < |a| && a[i] == x;
        var j :| 0 <= j < |b| && b[j] == x;
        CountMember(a, i);
        CountMember(b, j);
      } else {
        CountAbsent(a, x);
        CountAbsent(b, x);
      }
    }
  }
}
