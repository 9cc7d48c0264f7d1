/** Order-preserving operations on sequences: the dataframe idioms the
    dashboard relies on (boolean-mask selection, column projection,
    `unique()` and a descending sort), stated once for any element type. */
module Seqs {

  /** `a` is obtained from `b` by deleting elements, without reordering. */
  ghost predicate IsSubsequence<T>(a: seq<T>, b: seq<T>)
    decreases |b|
  {
    a == [] || (b != [] && ((a[0] == b[0] && IsSubsequence(a[1..], b[1..])) || IsSubsequence(a, b[1..])))
  }

  ghost predicate Distinct<T>(s: seq<T>) {
    forall i, j | 0 <= i < j < |s| :: s[i] != s[j]
  }

  /** Keeps the elements on which `keep` holds, in their original order
      (a boolean mask applied with `df.loc[mask]`). */
  function Filter<T(!new)>(s: seq<T>, keep: T -> bool): (r: seq<T>)
    ensures |r| <= |s|
    ensures IsSubsequence(r, s)
    ensures forall x :: x in r <==> x in s && keep(x)
  {
    if s == [] then []
    else
      assert s == [s[0]] + s[1..];
      if keep(s[0]) then [s[0]] + Filter(s[1..], keep) else Filter(s[1..], keep)
  }

  /** Each kept element occurs as often as in `s`; every other one not at all. */
  lemma {:induction false} FilterCounts<T(!new)>(s: seq<T>, keep: T -> bool)
    ensures forall x :: multiset(Filter(s, keep))[x] == if keep(x) then multiset(s)[x] else 0
    decreases |s|
  {
    if s != [] {
      FilterCounts(s[1..], keep);
      assert s == [s[0]] + s[1..];
    }
  }

  lemma {:induction false} FilterConcat<T(!new)>(a: seq<T>, b: seq<T>, keep: T -> bool)
    ensures Filter(a + b, keep) == Filter(a, keep) + Filter(b, keep)
    decreases |a|
  {
    if a != [] {
      var ab := a + b;
      assert ab[0] == a[0] && ab[1..] == a[1..] + b;
      FilterConcat(a[1..], b, keep);
      if keep(a[0]) {
        assert Filter(ab, keep) == [a[0]] + Filter(a[1..] + b, keep);
        assert Filter(a, keep) == [a[0]] + Filter(a[1..], keep);
      } else {
        assert Filter(ab, keep) == Filter(a[1..] + b, keep);
        assert Filter(a, keep) == Filter(a[1..], keep);
      }
    } else {
      assert a + b == b;
    }
  }

  /** Two masks that agree on every element select the same rows. */
  lemma {:induction false} FilterAgree<T(!new)>(s: seq<T>, p: T -> bool, q: T -> bool)
    requires forall x | x in s :: p(x) == q(x)
    ensures Filter(s, p) == Filter(s, q)
    decreases |s|
  {
    if s != [] {
      FilterAgree(s[1..], p, q);
    }
  }

  /** Selecting with `p` and then with `q` is selecting with their conjunction. */
  lemma {:induction false} FilterFilter<T(!new)>(s: seq<T>, p: T -> bool, q: T -> bool, both: T -> bool)
    requires forall x | x in s :: both(x) == (p(x) && q(x))
    ensures Filter(Filter(s, p), q) == Filter(s, both)
    decreases |s|
  {
    if s != [] {
      FilterFilter(s[1..], p, q, both);
    }
  }

  /** A mask that holds nowhere selects nothing. */
  lemma {:induction false} FilterNone<T(!new)>(s: seq<T>, keep: T -> bool)
    requires forall x | x in s :: !keep(x)
    ensures Filter(s, keep) == []
    decreases |s|
  {
    if s != [] {
      assert s[0] in s;
      FilterNone(s[1..], keep);
    }
  }

  /** A mask that holds at exactly one position selects exactly that element. */
  lemma {:induction false} FilterSingle<T(!new)>(s: seq<T>, keep: T -> bool, i: nat)
    requires i < |s| && keep(s[i])
    requires forall j | 0 <= j < |s| && keep(s[j]) :: j == i
    ensures Filter(s, keep) == [s[i]]
    decreases |s|
  {
    if i == 0 {
      forall x | x in s[1..] ensures !keep(x) {
        var j :| 0 <= j < |s[1..]| && s[1..][j] == x;
        assert s[j + 1] == x;
      }
      FilterNone(s[1..], keep);
    } else {
      FilterSingle(s[1..], keep, i - 1);
    }
  }

  /** A mask that holds at two positions selects at least two elements. */
  lemma {:induction false} FilterTwo<T(!new)>(s: seq<T>, keep: T -> bool, i: nat, j: nat)
    requires i < j < |s| && keep(s[i]) && keep(s[j])
    ensures |Filter(s, keep)| >= 2
    decreases |s|
  {
    if i == 0 {
      assert s[j] in s[1..];
      var r := Filter(s[1..], keep);
      assert s[j] in r;
    } else {
      FilterTwo(s[1..], keep, i - 1, j - 1);
    }
  }

  /** Applies `f` to every element (projection onto one column). */
  function Map<T, U>(s: seq<T>, f: T -> U): (r: seq<U>)
    ensures |r| == |s|
    ensures forall i | 0 <= i < |s| :: r[i] == f(s[i])
  {
    seq(|s|, i requires 0 <= i < |s| => f(s[i]))
  }

  lemma MapConcat<T, U>(a: seq<T>, b: seq<T>, f: T -> U)
    ensures Map(a + b, f) == Map(a, f) + Map(b, f)
  {
    assert forall i | 0 <= i < |a + b| :: Map(a + b, f)[i] == (Map(a, f) + Map(b, f))[i];
  }

  /** Projecting two permutations of one another gives permutations of one another. */
  lemma {:induction false} MapPermutation<T, U>(a: seq<T>, b: seq<T>, f: T -> U)
    requires multiset(a) == multiset(b)
    ensures multiset(Map(a, f)) == multiset(Map(b, f))
    decreases |a|
  {
    if a == [] {
      assert |b| == |multiset(b)| == 0;
    } else {
      var x := a[0];
      assert x in multiset(b);
      var j :| 0 <= j < |b| && b[j] == x;
      var rest := b[..j] + b[j + 1..];
      assert b == b[..j] + [x] + b[j + 1..];
      assert a == [x] + a[1..];
      assert multiset(b) == multiset(b[..j]) + multiset{x} + multiset(b[j + 1..]);
      assert multiset(a) == multiset{x} + multiset(a[1..]);
      assert multiset(rest) == multiset(b[..j]) + multiset(b[j + 1..]);
      assert multiset(rest) == multiset(b) - multiset{x};
      MapPermutation(a[1..], rest, f);
      MapConcat(b[..j], b[j + 1..], f);
      MapConcat(b[..j] + [x], b[j + 1..], f);
      MapConcat(b[..j], [x], f);
      MapConcat([x], a[1..], f);
    }
  }

  /** Selecting on a projected column keeps as many elements as selecting
      the rows themselves with the composed mask. */
  lemma {:induction false} FilterMapLength<T(!new), U(!new)>(s: seq<T>, f: T -> U, p: U -> bool, q: T -> bool)
    requires forall x | x in s :: q(x) == p(f(x))
    ensures |Filter(Map(s, f), p)| == |Filter(s, q)|
    decreases |s|
  {
    if s != [] {
      assert Map(s, f)[1..] == Map(s[1..], f);
      FilterMapLength(s[1..], f, p, q);
    }
  }

  /** Position of the first occurrence of `x` in `s`. */
  ghost function FirstIndex<T>(s: seq<T>, x: T): (k: nat)
    requires x in s
    ensures k < |s| && s[k] == x && x !in s[..k]
  {
    if s[0] == x then 0
    else
      var k := FirstIndex(s[1..], x);
      assert s[..k + 1] == [s[0]] + s[1..][..k];
      k + 1
  }

  lemma FirstIndexOfPrefix<T>(s: seq<T>, n: nat, x: T)
    requires n <= |s| && x in s[..n]
    ensures x in s && FirstIndex(s, x) == FirstIndex(s[..n], x)
  {
    var k, k' := FirstIndex(s, x), FirstIndex(s[..n], x);
    assert s[..n][..k'] == s[..k'] && s[k'] == x;
    InPrefix(s, k);
    InPrefix(s, k');
  }

  lemma InPrefix<T>(s: seq<T>, k: nat)
    requires k <= |s|
    ensures forall j | 0 <= j < k :: s[j] in s[..k]
  {
    forall j | 0 <= j < k ensures s[j] in s[..k] {
      assert s[..k][j] == s[j];
    }
  }

  /** The distinct elements of `s` in order of first appearance
      (pandas `Series.unique()`). */
  function Unique<T(==,!new)>(s: seq<T>): (r: seq<T>)
    ensures Distinct(r)
    ensures forall x :: x in r <==> x in s
    ensures forall i, j | 0 <= i < j < |r| :: r[i] in s && r[j] in s && FirstIndex(s, r[i]) < FirstIndex(s, r[j])
    decreases |s|
  {
    if s == [] then []
    else
      var init := s[..|s| - 1];
      var x := s[|s| - 1];
      var u := Unique(init);
      assert s == init + [x];
      UniqueOrderExtends(s, u);
      if x in u then u else u + [x]
  }

  /** Helper for Unique: the first-appearance order of the prefix carries
      over to the whole sequence, and a new last element comes after all. */
  lemma UniqueOrderExtends<T>(s: seq<T>, u: seq<T>)
    requires s != []
    requires forall y :: y in u <==> y in s[..|s| - 1]
    requires forall i, j | 0 <= i < j < |u| :: u[i] in s[..|s| - 1] && u[j] in s[..|s| - 1]
                                            && FirstIndex(s[..|s| - 1], u[i]) < FirstIndex(s[..|s| - 1], u[j])
    ensures forall i | 0 <= i < |u| :: u[i] in s && u[i] in s[..|s| - 1] && FirstIndex(s, u[i]) == FirstIndex(s[..|s| - 1], u[i])
    ensures s[|s| - 1] !in u ==> FirstIndex(s, s[|s| - 1]) == |s| - 1
  {
    var n := |s| - 1;
    forall i | 0 <= i < |u| ensures u[i] in s && u[i] in s[..n] && FirstIndex(s, u[i]) == FirstIndex(s[..n], u[i]) {
      assert u[i] in u;
      FirstIndexOfPrefix(s, n, u[i]);
    }
    if s[n] !in u {
      var k := FirstIndex(s, s[n]);
    }
  }

  ghost predicate NonIncreasing<T>(s: seq<T>, key: T -> real) {
    forall i, j | 0 <= i < j < |s| :: key(s[i]) >= key(s[j])
  }

  /** Inserts `x` into a sequence already in non-increasing key order. */
  function Insert<T>(x: T, s: seq<T>, key: T -> real): (r: seq<T>)
    requires NonIncreasing(s, key)
    ensures NonIncreasing(r, key)
    ensures multiset(r) == multiset(s) + multiset{x}
    ensures |r| == |s| + 1
  {
    if s == [] || key(s[0]) <= key(x) then
      [x] + s
    else
      var rest := Insert(x, s[1..], key);
      InsertHead(x, s, rest, key);
      [s[0]] + rest
  }

  lemma InsertHead<T>(x: T, s: seq<T>, rest: seq<T>, key: T -> real)
    requires s != [] && key(s[0]) > key(x) && NonIncreasing(s, key)
    requires multiset(rest) == multiset(s[1..]) + multiset{x} && NonIncreasing(rest, key)
    ensures NonIncreasing([s[0]] + rest, key)
    ensures multiset([s[0]] + rest) == multiset(s) + multiset{x}
  {
    assert s == [s[0]] + s[1..];
    forall k | 0 <= k < |rest| ensures key(s[0]) >= key(rest[k]) {
      assert rest[k] in multiset(rest);
      if rest[k] != x {
        assert rest[k] in multiset(s[1..]);
        var j :| 0 <= j < |s[1..]| && s[1..][j] == rest[k];
        assert s[j + 1] == rest[k];
      }
    }
  }

  /** A permutation of `s` in non-increasing key order (`sort_values(by=key,
      ascending=False)`); the order among equal keys is not specified. */
  function SortDescending<T>(s: seq<T>, key: T -> real): (r: seq<T>)
    ensures NonIncreasing(r, key)
    ensures multiset(r) == multiset(s)
    ensures |r| == |s|
  {
    if s == [] then []
    else
      assert s == [s[0]] + s[1..];
      Insert(s[0], SortDescending(s[1..], key), key)
  }
}
