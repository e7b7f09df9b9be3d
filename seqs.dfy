/** Order-preserving filtering of sequences, as done by Python list comprehensions. */
module Seqs {

  /** `a` can be obtained from `b` by deleting elements, without reordering the rest. */
  ghost predicate IsSubsequence<T>(a: seq<T>, b: seq<T>)
    decreases |b|
  {
    |a| == 0 ||
    (|b| > 0 && ((a[0] == b[0] && IsSubsequence(a[1..], b[1..])) || IsSubsequence(a, b[1..])))
  }

  /** `[x for x in s if p(x)]` */
  function Filter<T(!new)>(s: seq<T>, p: T -> bool): (r: seq<T>)
    ensures forall x :: x in r <==> x in s && p(x)
    ensures forall k :: 0 <= k < |r| ==> p(r[k])
    ensures |r| <= |s|
    ensures IsSubsequence(r, s)
    ensures (forall k :: 0 <= k < |s| ==> p(s[k])) ==> r == s
  {
    if |s| == 0 then []
    else if p(s[0]) then [s[0]] + Filter(s[1..], p)
    else Filter(s[1..], p)
  }

  /** The filter keeps every passing element as many times as it occurs, and no other. */
  lemma {:induction false} FilterCount<T(!new)>(s: seq<T>, p: T -> bool)
    ensures forall x :: multiset(Filter(s, p))[x] == if p(x) then multiset(s)[x] else 0
  {
    if |s| > 0 {
      FilterCount(s[1..], p);
      assert s == [s[0]] + s[1..];
      assert multiset(s) == multiset{s[0]} + multiset(s[1..]);
      if p(s[0]) {
        assert multiset(Filter(s, p)) == multiset{s[0]} + multiset(Filter(s[1..], p));
      }
    }
  }

  lemma {:induction false} SubsequenceReflexive<T>(s: seq<T>)
    ensures IsSubsequence(s, s)
    decreases |s|
  {
    if |s| > 0 {
      SubsequenceReflexive(s[1..]);
    }
  }

  lemma {:induction false} SubsequenceTransitive<T>(a: seq<T>, b: seq<T>, c: seq<T>)
    requires IsSubsequence(a, b) && IsSubsequence(b, c)
    ensures IsSubsequence(a, c)
    decreases |c|
  {
    if |a| > 0 {
      if IsSubsequence(b, c[1..]) {
        SubsequenceTransitive(a, b, c[1..]);
      } else if a[0] == b[0] && IsSubsequence(a[1..], b[1..]) {
        SubsequenceTransitive(a[1..], b[1..], c[1..]);
      } else {
        SubsequenceTransitive(a, b[1..], c[1..]);
      }
    }
  }

  lemma {:induction false} SubsequenceExtend<T>(a: seq<T>, b: seq<T>, x: T)
    requires IsSubsequence(a, b)
    ensures IsSubsequence(a, b + [x])
    decreases |b|
  {
    if |a| > 0 {
      assert (b + [x])[1..] == b[1..] + [x];
      if a[0] == b[0] && IsSubsequence(a[1..], b[1..]) {
        SubsequenceExtend(a[1..], b[1..], x);
      } else {
        SubsequenceExtend(a, b[1..], x);
      }
    }
  }

  lemma {:induction false} SubsequenceAppendBoth<T>(a: seq<T>, b: seq<T>, x: T)
    requires IsSubsequence(a, b)
    ensures IsSubsequence(a + [x], b + [x])
    decreases |b|
  {
    if |a| == 0 {
      if |b| > 0 {
        assert (b + [x])[1..] == b[1..] + [x];
        SubsequenceAppendBoth(a, b[1..], x);
      } else {
        assert (a + [x])[1..] == [] && (b + [x])[1..] == [];
      }
    } else {
      assert (b + [x])[1..] == b[1..] + [x];
      assert (a + [x])[1..] == a[1..] + [x];
      if a[0] == b[0] && IsSubsequence(a[1..], b[1..]) {
        SubsequenceAppendBoth(a[1..], b[1..], x);
      } else {
        SubsequenceAppendBoth(a, b[1..], x);
      }
    }
  }

  /** A sequence is its prefix, the element at `k` and the rest. */
  lemma SplitAt<T>(s: seq<T>, k: nat)
    requires k < |s|
    ensures s == s[..k] + ([s[k]] + s[k + 1..])
  {
    assert s[..k] + ([s[k]] + s[k + 1..]) == s[..k] + s[k..];
  }

  lemma IndexInMiddle<T>(a: seq<T>, b: seq<T>, c: seq<T>, m: nat)
    requires m < |b|
    ensures |a| + m < |a + (b + c)| && (a + (b + c))[|a| + m] == b[m]
  {
  }

  /** The concatenation of `f(x)` for the elements `x` of `s`, in order. */
  function FlatMap<A, B>(s: seq<A>, f: A -> seq<B>): seq<B>
  {
    if |s| == 0 then [] else FlatMap(s[..|s| - 1], f) + f(s[|s| - 1])
  }

  lemma {:induction false} FlatMapAppend<A, B>(a: seq<A>, b: seq<A>, f: A -> seq<B>)
    ensures FlatMap(a + b, f) == FlatMap(a, f) + FlatMap(b, f)
    decreases |b|
  {
    if |b| == 0 {
      assert a + b == a;
    } else {
      var init := b[..|b| - 1];
      assert (a + b)[..|a + b| - 1] == a + init;
      FlatMapAppend(a, init, f);
    }
  }

  /** Element `m` of `f(s[k])` sits right after the images of `s[..k]`. */
  lemma FlatMapAt<A, B>(s: seq<A>, f: A -> seq<B>, k: nat, m: nat)
    requires k < |s| && m < |f(s[k])|
    ensures |FlatMap(s[..k], f)| + m < |FlatMap(s, f)|
    ensures FlatMap(s, f)[|FlatMap(s[..k], f)| + m] == f(s[k])[m]
  {
    SplitAt(s, k);
    FlatMapAppend(s[..k], [s[k]] + s[k + 1..], f);
    FlatMapAppend([s[k]], s[k + 1..], f);
    assert [s[k]][..0] == [];
    IndexInMiddle(FlatMap(s[..k], f), f(s[k]), FlatMap(s[k + 1..], f), m);
  }

  /** Every element of the result comes from the image of some element of `s`. */
  lemma {:induction false} FlatMapSource<A, B>(s: seq<A>, f: A -> seq<B>, j: nat) returns (k: nat, m: nat)
    requires j < |FlatMap(s, f)|
    ensures k < |s| && m < |f(s[k])| && FlatMap(s, f)[j] == f(s[k])[m]
    decreases |s|
  {
    var init := s[..|s| - 1];
    var pre := FlatMap(init, f);
    if j < |pre| {
      k, m := FlatMapSource(init, f, j);
      assert init[k] == s[k];
    } else {
      k, m := |s| - 1, j - |pre|;
    }
  }

  /** When `all` begins with `a + b`, the slice of `all` after `a` of the length of `b`
      is `b`, also after a further prefix `h`. */
  lemma SliceAfterPrefix<T>(h: seq<T>, all: seq<T>, a: seq<T>, b: seq<T>)
    requires |a| + |b| <= |all| && all[..|a| + |b|] == a + b
    ensures (h + all)[|h + a|..|h + a| + |b|] == b
  {
    assert (h + all)[|h + a|..|h + a| + |b|] == all[|a|..|a| + |b|];
    assert all[|a|..|a| + |b|] == (a + b)[|a|..];
  }

  lemma ConcatAssoc<T>(a: seq<T>, b: seq<T>, c: seq<T>)
    ensures (a + b) + c == a + (b + c)
  {
  }

  lemma ConcatAssoc4<T>(a: seq<T>, b: seq<T>, c: seq<T>, d: seq<T>)
    ensures ((a + b) + c) + d == a + ((b + c) + d)
  {
  }
}
