/** Small generic vocabulary shared by the pipeline stages. `Filter` is JavaScript's
    `Array.prototype.filter` (and a character-class `replace` on strings); `MinOf`
    and `MaxOf` are `Math.min(...xs)` and `Math.max(...xs)` on a non-empty list. */
module Wrappers {
  datatype Option<+T> = None | Some(value: T)
}

module Seqs {

  /** `sub` is `s` with some elements deleted and the rest left in their order. */
  ghost predicate IsSubsequence<T>(sub: seq<T>, s: seq<T>)
    decreases |s|
  {
    if sub == [] then true
    else if s == [] then false
    else if sub[0] == s[0] then IsSubsequence(sub[1..], s[1..])
    else IsSubsequence(sub, s[1..])
  }

  /** The elements of `s` that satisfy `keep`, in their original order. */
  function Filter<T>(s: seq<T>, keep: T -> bool): (r: seq<T>)
    ensures |r| <= |s|
    ensures forall i :: 0 <= i < |r| ==> r[i] in s && keep(r[i])
  {
    if s == [] then []
    else
      assert s == [s[0]] + s[1..];
      (if keep(s[0]) then [s[0]] else []) + Filter(s[1..], keep)
  }

  /** Every kept element of `s` is in the filtering. */
  lemma {:induction false} FilterKeeps<T>(s: seq<T>, keep: T -> bool, i: nat)
    requires i < |s| && keep(s[i])
    ensures s[i] in Filter(s, keep)
  {
    if i > 0 {
      FilterKeeps(s[1..], keep, i - 1);
    }
  }

  /** Filtering is strictly shorter when some element is dropped. */
  lemma {:induction false} FilterDrops<T>(s: seq<T>, keep: T -> bool, i: nat)
    requires i < |s| && !keep(s[i])
    ensures |Filter(s, keep)| < |s|
  {
    if i > 0 {
      FilterDrops(s[1..], keep, i - 1);
    }
  }

  /** Two tests that agree on every element select the same elements. */
  lemma {:induction false} FilterCongruent<T>(s: seq<T>, keep: T -> bool, keep': T -> bool)
    requires forall i :: 0 <= i < |s| ==> keep(s[i]) == keep'(s[i])
    ensures Filter(s, keep) == Filter(s, keep')
  {
    if s != [] {
      FilterCongruent(s[1..], keep, keep');
    }
  }

  lemma FilterSingleton<T>(x: T, keep: T -> bool)
    ensures Filter([x], keep) == if keep(x) then [x] else []
  {
    assert [x][1..] == [];
  }

  lemma {:induction false} FilterConcat<T>(a: seq<T>, b: seq<T>, keep: T -> bool)
    ensures Filter(a + b, keep) == Filter(a, keep) + Filter(b, keep)
  {
    if a == [] {
      assert a + b == b;
    } else {
      var head := if keep(a[0]) then [a[0]] else [];
      assert (a + b)[0] == a[0] && (a + b)[1..] == a[1..] + b;
      FilterConcat(a[1..], b, keep);
      assert Filter(a + b, keep) == head + Filter(a[1..] + b, keep);
      assert Filter(a, keep) == head + Filter(a[1..], keep);
    }
  }

  lemma {:induction false} FilterIsSubsequence<T>(s: seq<T>, keep: T -> bool)
    ensures IsSubsequence(Filter(s, keep), s)
  {
    if s != [] {
      var rest := Filter(s[1..], keep);
      FilterIsSubsequence(s[1..], keep);
      if keep(s[0]) {
        assert Filter(s, keep) == [s[0]] + rest;
      } else {
        assert Filter(s, keep) == rest;
        if rest != [] {
          assert keep(rest[0]) && rest[0] != s[0];
        }
      }
    }
  }

  lemma {:induction false} IsSubsequenceReflexive<T>(s: seq<T>)
    ensures IsSubsequence(s, s)
  {
    if s != [] {
      IsSubsequenceReflexive(s[1..]);
    }
  }

  /** Filtering keeps everything when every element is kept. */
  lemma {:induction false} FilterKeepsAll<T>(s: seq<T>, keep: T -> bool)
    requires forall i :: 0 <= i < |s| ==> keep(s[i])
    ensures Filter(s, keep) == s
  {
    if s != [] {
      FilterKeepsAll(s[1..], keep);
    }
  }

  lemma {:induction false} FilterIdempotent<T>(s: seq<T>, keep: T -> bool)
    ensures Filter(Filter(s, keep), keep) == Filter(s, keep)
  {
    var r := Filter(s, keep);
    FilterKeepsAll(r, keep);
  }

  /** Every kept value occurs in the result as often as in the input; every other value not at all. */
  lemma {:induction false} FilterCount<T>(s: seq<T>, keep: T -> bool, x: T)
    ensures multiset(Filter(s, keep))[x] == if keep(x) then multiset(s)[x] else 0
  {
    if s != [] {
      FilterCount(s[1..], keep, x);
      assert s == [s[0]] + s[1..];
    }
  }

  /** A relation that holds between every earlier and later element of `s` still holds in its filtering. */
  lemma {:induction false} FilterKeepsOrder<T>(s: seq<T>, keep: T -> bool, before: (T, T) -> bool)
    requires forall i, j :: 0 <= i < j < |s| ==> before(s[i], s[j])
    ensures forall i, j :: 0 <= i < j < |Filter(s, keep)| ==> before(Filter(s, keep)[i], Filter(s, keep)[j])
  {
    if s != [] {
      var rest := Filter(s[1..], keep);
      FilterKeepsOrder(s[1..], keep, before);
      if keep(s[0]) {
        var r := Filter(s, keep);
        assert r == [s[0]] + rest;
        forall i, j | 0 <= i < j < |r| ensures before(r[i], r[j]) {
          if i == 0 {
            assert r[j] == rest[j - 1] && r[j] in s[1..];
            var k :| 0 <= k < |s[1..]| && s[1..][k] == r[j];
            assert s[k + 1] == r[j];
          } else {
            assert r[i] == rest[i - 1] && r[j] == rest[j - 1];
          }
        }
      }
    }
  }

  lemma AppendAssoc<T>(a: seq<T>, b: seq<T>, c: seq<T>)
    ensures (a + b) + c == a + (b + c)
  {
  }

  /** `pre` is the first |pre| elements of `s`. */
  predicate IsPrefix<T(==)>(pre: seq<T>, s: seq<T>)
  {
    |pre| <= |s| && s[..|pre|] == pre
  }

  /** A prefix of `s` is a prefix of anything that extends `s`. */
  lemma PrefixExtended<T>(pre: seq<T>, s: seq<T>, extra: seq<T>)
    requires IsPrefix(pre, s)
    ensures IsPrefix(pre, s + extra)
  {
    assert (s + extra)[..|pre|] == s[..|pre|];
  }

  /** The least element of a non-empty list, as `Math.min(...xs)`. */
  function MinOf(xs: seq<int>): (m: int)
    requires |xs| > 0
    ensures m in xs
    ensures forall x :: x in xs ==> m <= x
  {
    if |xs| == 1 then xs[0]
    else
      assert xs == [xs[0]] + xs[1..];
      var rest := MinOf(xs[1..]);
      if xs[0] <= rest then xs[0] else rest
  }

  /** The greatest element of a non-empty list, as `Math.max(...xs)`. */
  function MaxOf(xs: seq<int>): (m: int)
    requires |xs| > 0
    ensures m in xs
    ensures forall x :: x in xs ==> x <= m
  {
    if |xs| == 1 then xs[0]
    else
      assert xs == [xs[0]] + xs[1..];
      var rest := MaxOf(xs[1..]);
      if xs[0] >= rest then xs[0] else rest
  }
}
