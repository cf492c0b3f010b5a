/**
 * Order-preserving selection over sequences: the meaning of JavaScript's
 * `Array.prototype.filter`, which the visit screen uses both for its
 * projection and for deletion.
 */
module Sequences {

  /** `xs` can be obtained from `ys` by deleting elements: a subsequence
      in the order-preserving sense. */
  predicate IsSubsequence<T(==)>(xs: seq<T>, ys: seq<T>)
    decreases |ys|
  {
    if xs == [] then true
    else if ys == [] then false
    else (xs[0] == ys[0] && IsSubsequence(xs[1..], ys[1..])) || IsSubsequence(xs, ys[1..])
  }

  /** `s.filter(p)`: the elements of `s` that satisfy `p`, in their order. */
  function Keep<T(==,!new)>(s: seq<T>, p: T -> bool): (r: seq<T>)
    ensures |r| <= |s|
    ensures forall x :: x in r <==> x in s && p(x)
    decreases |s|
  {
    if s == [] then []
    else
      var rest := Keep(s[1..], p);
      assert s == [s[0]] + s[1..];
      if p(s[0]) then [s[0]] + rest else rest
  }

  /** The first element is kept exactly when it satisfies `p`. */
  lemma KeepCons<T(!new)>(x: T, s: seq<T>, p: T -> bool)
    ensures Keep([x] + s, p) == if p(x) then [x] + Keep(s, p) else Keep(s, p)
  {
    assert ([x] + s)[1..] == s;
  }

  /** Filtering by a predicate every element satisfies changes nothing. */
  lemma {:induction false} KeepAll<T(!new)>(s: seq<T>, p: T -> bool)
    requires forall x :: x in s ==> p(x)
    ensures Keep(s, p) == s
    decreases |s|
  {
    if s != [] {
      assert forall x :: x in s[1..] ==> x in s;
      KeepAll(s[1..], p);
      assert s == [s[0]] + s[1..];
    }
  }

  /** Filtering deletes elements and never reorders the rest. */
  lemma {:induction false} KeepIsSubsequence<T(!new)>(s: seq<T>, p: T -> bool)
    ensures IsSubsequence(Keep(s, p), s)
    decreases |s|
  {
    if s != [] {
      KeepIsSubsequence(s[1..], p);
      assert s == [s[0]] + s[1..];
      KeepCons(s[0], s[1..], p);
      var rest := Keep(s[1..], p);
      if p(s[0]) {
        assert ([s[0]] + rest)[1..] == rest;
      }
    }
  }

  /** Each element is kept as often as it occurs if it satisfies `p`, and
      not at all otherwise. */
  lemma {:induction false} KeepCounts<T(!new)>(s: seq<T>, p: T -> bool)
    ensures forall x :: multiset(Keep(s, p))[x] == if p(x) then multiset(s)[x] else 0
    decreases |s|
  {
    if s != [] {
      KeepCounts(s[1..], p);
      assert s == [s[0]] + s[1..];
      KeepCons(s[0], s[1..], p);
    }
  }

  /** Filtering by a predicate no element satisfies leaves nothing. */
  lemma {:induction false} KeepNone<T(!new)>(s: seq<T>, p: T -> bool)
    requires forall x :: x in s ==> !p(x)
    ensures Keep(s, p) == []
    decreases |s|
  {
    if s != [] {
      assert forall x :: x in s[1..] ==> x in s;
      KeepNone(s[1..], p);
    }
  }

  /** When `p` holds of position `k` alone, filtering leaves just that element. */
  lemma {:induction false} KeepExactlyOne<T(!new)>(s: seq<T>, k: int, p: T -> bool)
    requires 0 <= k < |s| && p(s[k])
    requires forall j :: 0 <= j < |s| && j != k ==> !p(s[j])
    ensures Keep(s, p) == [s[k]]
    decreases |s|
  {
    var rest := s[1..];
    assert s == [s[0]] + rest;
    KeepCons(s[0], rest, p);
    if k == 0 {
      forall x | x in rest ensures !p(x) {
        var j :| 0 <= j < |rest| && rest[j] == x;
        assert s[j + 1] == x;
      }
      KeepNone(rest, p);
    } else {
      assert rest[k - 1] == s[k];
      forall j | 0 <= j < |rest| && j != k - 1 ensures !p(rest[j]) {
        assert rest[j] == s[j + 1];
      }
      KeepExactlyOne(rest, k - 1, p);
    }
  }

  /** A failing head followed by passing elements leaves just the tail. */
  lemma KeepDropsHead<T(!new)>(s: seq<T>, p: T -> bool)
    requires s != [] && !p(s[0])
    requires forall x :: x in s[1..] ==> p(x)
    ensures Keep(s, p) == s[1..]
  {
    KeepAll(s[1..], p);
  }

  /** Putting the head back in front of the tail with one element cut out
      is the sequence with that element cut out. */
  lemma ConsAroundCut<T>(s: seq<T>, k: int)
    requires 0 < k < |s|
    ensures [s[0]] + (s[1..][..k - 1] + s[1..][k..]) == s[..k] + s[k + 1..]
  {
    var a, b := s[1..][..k - 1], s[1..][k..];
    assert [s[0]] + a == s[..k];
    assert b == s[k + 1..];
    assert [s[0]] + (a + b) == ([s[0]] + a) + b;
  }

  /** A passing head stays in front of what filtering leaves of the tail. */
  lemma KeepDropsOneStep<T(!new)>(s: seq<T>, k: int, p: T -> bool)
    requires 0 < k < |s| && p(s[0])
    requires Keep(s[1..], p) == s[1..][..k - 1] + s[1..][k..]
    ensures Keep(s, p) == s[..k] + s[k + 1..]
  {
    ConsAroundCut(s, k);
  }

  /** When `p` fails at position `k` alone, filtering drops just that element. */
  lemma {:induction false} KeepDropsOne<T(!new)>(s: seq<T>, k: int, p: T -> bool)
    requires 0 <= k < |s| && !p(s[k])
    requires forall j :: 0 <= j < |s| && j != k ==> p(s[j])
    ensures Keep(s, p) == s[..k] + s[k + 1..]
    decreases |s|
  {
    var rest := s[1..];
    if k == 0 {
      forall x | x in rest ensures p(x) {
        var j :| 0 <= j < |rest| && rest[j] == x;
        assert s[j + 1] == x;
      }
      KeepDropsHead(s, p);
    } else {
      forall j | 0 <= j < |rest| && j != k - 1 ensures p(rest[j]) {
        assert rest[j] == s[j + 1];
      }
      assert !p(rest[k - 1]) by {
        assert rest[k - 1] == s[k];
      }
      KeepDropsOne(rest, k - 1, p);
      KeepDropsOneStep(s, k, p);
    }
  }

  /** Every element of a subsequence is an element of the sequence. */
  lemma {:induction false} SubsequenceMembers<T>(xs: seq<T>, ys: seq<T>)
    requires IsSubsequence(xs, ys)
    ensures forall x :: x in xs ==> x in ys
    decreases |ys|
  {
    if xs != [] {
      if xs[0] == ys[0] && IsSubsequence(xs[1..], ys[1..]) {
        SubsequenceMembers(xs[1..], ys[1..]);
        assert xs == [xs[0]] + xs[1..];
        assert ys == [ys[0]] + ys[1..];
      } else {
        SubsequenceMembers(xs, ys[1..]);
        assert ys == [ys[0]] + ys[1..];
      }
    }
  }

  /** Filtering by `p` and then by `q` is filtering once by their conjunction `pq`. */
  lemma {:induction false} KeepKeep<T(!new)>(s: seq<T>, p: T -> bool, q: T -> bool, pq: T -> bool)
    requires forall x :: x in s ==> (pq(x) <==> p(x) && q(x))
    ensures Keep(Keep(s, p), q) == Keep(s, pq)
    decreases |s|
  {
    if s != [] {
      assert forall x :: x in s[1..] ==> x in s;
      KeepKeep(s[1..], p, q, pq);
      var rest := Keep(s[1..], p);
      if p(s[0]) {
        assert ([s[0]] + rest)[1..] == rest;
      }
    }
  }

  /** Filtering depends only on the verdict of the predicate on the elements. */
  lemma {:induction false} KeepCongruent<T(!new)>(s: seq<T>, p: T -> bool, q: T -> bool)
    requires forall x :: x in s ==> (p(x) <==> q(x))
    ensures Keep(s, p) == Keep(s, q)
    decreases |s|
  {
    if s != [] {
      assert forall x :: x in s[1..] ==> x in s;
      KeepCongruent(s[1..], p, q);
    }
  }
}
