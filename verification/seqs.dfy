/** Sequence helpers shared by the model: filtering, mapping, extrema, prefixes and reversal. */
module Seqs {
  import opened Wrappers

  /** Kotlin's `filter` / a Python list comprehension with a condition: keeps order. */
  function Filter<T(!new)>(s: seq<T>, p: T -> bool): (r: seq<T>)
    ensures |r| <= |s|
    ensures forall x :: x in r <==> x in s && p(x)
    ensures forall i :: 0 <= i < |r| ==> p(r[i])
  {
    if |s| == 0 then []
    else
      assert s == [s[0]] + s[1..];
      (if p(s[0]) then [s[0]] else []) + Filter(s[1..], p)
  }

  lemma {:induction false} FilterConcat<T(!new)>(a: seq<T>, b: seq<T>, p: T -> bool)
    ensures Filter(a + b, p) == Filter(a, p) + Filter(b, p)
  {
    if |a| == 0 {
      assert a + b == b;
    } else {
      assert (a + b)[1..] == a[1..] + b;
      FilterConcat(a[1..], b, p);
    }
  }

  /** An element is kept exactly when it occurs in the input and meets the condition. */
  lemma FilterMembership<T(!new)>(s: seq<T>, p: T -> bool, x: T)
    ensures x in Filter(s, p) <==> x in s && p(x)
  {
  }

  /** Filtering leaves something exactly when some element meets the condition. */
  lemma {:induction false} FilterNonEmpty<T(!new)>(s: seq<T>, p: T -> bool)
    ensures Filter(s, p) != [] <==> exists k :: 0 <= k < |s| && p(s[k])
  {
    if |s| > 0 {
      FilterNonEmpty(s[1..], p);
      if exists k :: 0 <= k < |s[1..]| && p(s[1..][k]) {
        var k :| 0 <= k < |s[1..]| && p(s[1..][k]);
        assert p(s[k + 1]);
      }
      if exists k :: 0 <= k < |s| && p(s[k]) {
        var k :| 0 <= k < |s| && p(s[k]);
        if k > 0 {
          assert p(s[1..][k - 1]);
        }
      }
    }
  }

  lemma FilterCons<T(!new)>(x: T, s: seq<T>, p: T -> bool)
    ensures Filter([x] + s, p) == (if p(x) then [x] else []) + Filter(s, p)
  {
    assert ([x] + s)[1..] == s;
  }

  lemma MapCons<T, U>(x: T, s: seq<T>, f: T -> U)
    ensures Map([x] + s, f) == [f(x)] + Map(s, f)
  {
    assert ([x] + s)[1..] == s;
  }

  /** Filtering with a condition that no element meets gives the empty sequence. */
  lemma FilterNone<T(!new)>(s: seq<T>, p: T -> bool)
    requires forall i :: 0 <= i < |s| ==> !p(s[i])
    ensures Filter(s, p) == []
  {
  }

  /** Filtering with a condition every element meets is the identity. */
  lemma {:induction false} FilterAll<T(!new)>(s: seq<T>, p: T -> bool)
    requires forall i :: 0 <= i < |s| ==> p(s[i])
    ensures Filter(s, p) == s
  {
    if |s| > 0 {
      FilterAll(s[1..], p);
    }
  }

  /** Two conditions that agree on every element filter alike. */
  lemma {:induction false} FilterCongruent<T(!new)>(s: seq<T>, p: T -> bool, q: T -> bool)
    requires forall i :: 0 <= i < |s| ==> p(s[i]) == q(s[i])
    ensures Filter(s, p) == Filter(s, q)
  {
    if |s| > 0 {
      FilterCongruent(s[1..], p, q);
    }
  }

  /** Kotlin's `map`. */
  function Map<T, U>(s: seq<T>, f: T -> U): (r: seq<U>)
    ensures |r| == |s|
    ensures forall i :: 0 <= i < |s| ==> r[i] == f(s[i])
  {
    if |s| == 0 then [] else [f(s[0])] + Map(s[1..], f)
  }

  lemma {:induction false} MapConcat<T, U>(a: seq<T>, b: seq<T>, f: T -> U)
    ensures Map(a + b, f) == Map(a, f) + Map(b, f)
  {
    if |a| == 0 {
      assert a + b == b;
    } else {
      assert (a + b)[1..] == a[1..] + b;
      MapConcat(a[1..], b, f);
    }
  }

  /** Every element of `a + b` satisfies `p` when every element of `a` and of `b` does. */
  lemma AllConcat<T>(a: seq<T>, b: seq<T>, p: T -> bool)
    requires forall i :: 0 <= i < |a| ==> p(a[i])
    requires forall i :: 0 <= i < |b| ==> p(b[i])
    ensures forall i :: 0 <= i < |a + b| ==> p((a + b)[i])
  {
    forall i | 0 <= i < |a + b|
      ensures p((a + b)[i])
    {
      if i >= |a| {
        assert (a + b)[i] == b[i - |a|];
      }
    }
  }

  /**
   * Up to `m` elements meeting `p`, then up to `n` meeting its complement `q`:
   * each part is a prefix of the filtered input of the length the limit
   * allows, and the first part comes first.
   */
  lemma TakeFilters<T(!new)>(all: seq<T>, p: T -> bool, q: T -> bool, m: nat, n: nat)
    requires forall x :: q(x) == !p(x)
    ensures var r := Take(Filter(all, p), m) + Take(Filter(all, q), n);
            Filter(r, p) <= Filter(all, p) && |Filter(r, p)| == Min(|Filter(all, p)|, m)
            && Filter(r, q) <= Filter(all, q) && |Filter(r, q)| == Min(|Filter(all, q)|, n)
            && (forall i, j :: 0 <= i < j < |r| && p(r[j]) ==> p(r[i]))
            && (forall x :: x in r ==> x in all)
  {
    var ps := Take(Filter(all, p), m);
    var qs := Take(Filter(all, q), n);
    var r := ps + qs;
    assert forall i :: 0 <= i < |ps| ==> ps[i] in Filter(all, p);
    assert forall i :: 0 <= i < |qs| ==> qs[i] in Filter(all, q);
    FilterConcat(ps, qs, p);
    FilterConcat(ps, qs, q);
    FilterAll(ps, p);
    FilterNone(qs, p);
    FilterNone(ps, q);
    FilterAll(qs, q);
    assert Filter(r, p) == ps + [];
    assert Filter(r, q) == [] + qs;
    ConcatPartition(ps, qs, p);
  }

  /** When every element of `a` meets `p` and none of `b` does, `p` holds exactly on the part from `a`. */
  lemma ConcatPartition<T>(a: seq<T>, b: seq<T>, p: T -> bool)
    requires forall i :: 0 <= i < |a| ==> p(a[i])
    requires forall i :: 0 <= i < |b| ==> !p(b[i])
    ensures forall i :: 0 <= i < |a + b| ==> (p((a + b)[i]) <==> i < |a|)
  {
    forall i | 0 <= i < |a + b|
      ensures p((a + b)[i]) <==> i < |a|
    {
      if i >= |a| {
        assert (a + b)[i] == b[i - |a|];
      }
    }
  }

  function Min(a: int, b: int): int
  {
    if a <= b then a else b
  }

  /** Kotlin's `maxOrNull` over integers. */
  function MaxOpt(s: seq<int>): (r: Option<int>)
    ensures r.None? <==> |s| == 0
    ensures r.Some? ==> r.value in s && forall x :: x in s ==> x <= r.value
  {
    if |s| == 0 then None
    else
      assert s == [s[0]] + s[1..];
      var rest := MaxOpt(s[1..]);
      if rest.None? || s[0] >= rest.value then Some(s[0]) else rest
  }

  /** Kotlin's `minOrNull` over integers. */
  function MinOpt(s: seq<int>): (r: Option<int>)
    ensures r.None? <==> |s| == 0
    ensures r.Some? ==> r.value in s && forall x :: x in s ==> r.value <= x
  {
    if |s| == 0 then None
    else
      assert s == [s[0]] + s[1..];
      var rest := MinOpt(s[1..]);
      if rest.None? || s[0] <= rest.value then Some(s[0]) else rest
  }

  lemma {:induction false} MaxOptSnoc(s: seq<int>, x: int)
    ensures MaxOpt(s + [x]) == (if MaxOpt(s).None? || x >= MaxOpt(s).value then Some(x) else MaxOpt(s))
  {
    var m := MaxOpt(s + [x]);
    assert x in s + [x];
    assert forall y :: y in s ==> y in s + [x];
    if MaxOpt(s).Some? {
      assert MaxOpt(s).value in s + [x];
    }
    assert forall y :: y in s + [x] ==> y in s || y == x;
  }

  /** Sum of a sequence of integers. */
  function Sum(s: seq<int>): int
  {
    if |s| == 0 then 0 else s[0] + Sum(s[1..])
  }

  lemma {:induction false} SumConcat(a: seq<int>, b: seq<int>)
    ensures Sum(a + b) == Sum(a) + Sum(b)
  {
    if |a| == 0 {
      assert a + b == b;
    } else {
      assert (a + b)[1..] == a[1..] + b;
      SumConcat(a[1..], b);
    }
  }

  /** Kotlin's `take(n)`: the first min(n, |s|) elements. */
  function Take<T>(s: seq<T>, n: nat): (r: seq<T>)
    ensures |r| == if n <= |s| then n else |s|
    ensures r <= s
  {
    if n <= |s| then s[..n] else s
  }

  /** Keeping a positive number of items of a sequence that starts with `a` keeps `a` first. */
  lemma TakeCons<T>(a: T, t: seq<T>, k: nat)
    requires k > 0
    ensures Take([a] + t, k) == [a] + Take(t, k - 1)
  {
    if k - 1 <= |t| {
      assert ([a] + t)[..k] == [a] + t[..k - 1];
    }
  }

  /** Kotlin's `reversed`. */
  function Reverse<T>(s: seq<T>): (r: seq<T>)
    ensures |r| == |s|
    ensures forall i :: 0 <= i < |s| ==> r[i] == s[|s| - 1 - i]
  {
    if |s| == 0 then [] else Reverse(s[1..]) + [s[0]]
  }

  lemma ReverseInvolutive<T>(s: seq<T>)
    ensures Reverse(Reverse(s)) == s
  {
  }

  lemma ReversePermutes<T>(s: seq<T>)
    ensures multiset(Reverse(s)) == multiset(s)
  {
    if |s| > 0 {
      ReversePermutes(s[1..]);
      assert s == [s[0]] + s[1..];
    }
  }

  /** No element occurs twice. */
  predicate NoDuplicates<T(==)>(s: seq<T>)
  {
    forall i, j :: 0 <= i < j < |s| ==> s[i] != s[j]
  }

  /** Filtering a sequence without duplicates leaves none. */
  lemma {:induction false} FilterNoDuplicates<T(!new)>(s: seq<T>, p: T -> bool)
    requires NoDuplicates(s)
    ensures NoDuplicates(Filter(s, p))
  {
    if |s| > 0 {
      assert NoDuplicates(s[1..]);
      FilterNoDuplicates(s[1..], p);
      FilterCons(s[0], s[1..], p);
      assert s == [s[0]] + s[1..];
      assert s[0] !in s[1..];
    }
  }

  /** The sequences of `ss`, one after another. */
  function Concat<T>(ss: seq<seq<T>>): seq<T>
  {
    if |ss| == 0 then [] else ss[0] + Concat(ss[1..])
  }

  /** k * d by repeated addition, so that index arithmetic stays linear. */
  function Times(k: nat, d: nat): nat
  {
    if k == 0 then 0 else d + Times(k - 1, d)
  }

  lemma {:induction false} TimesIsProduct(k: nat, d: nat)
    ensures Times(k, d) == k * d
  {
    if k > 0 {
      TimesIsProduct(k - 1, d);
    }
  }

  /** Concatenating `n` blocks of length `d` gives `n * d` elements; element j of block k sits at k * d + j. */
  lemma {:induction false} ConcatUniform<T>(ss: seq<seq<T>>, d: nat, k: nat, j: nat)
    requires forall i :: 0 <= i < |ss| ==> |ss[i]| == d
    requires k < |ss| && j < d
    ensures |Concat(ss)| == Times(|ss|, d)
    ensures Times(k, d) + j < |Concat(ss)|
    ensures Concat(ss)[Times(k, d) + j] == ss[k][j]
  {
    ConcatLength(ss, d);
    ConcatLength(ss[1..], d);
    var rest := Concat(ss[1..]);
    assert Concat(ss) == ss[0] + rest;
    if k > 0 {
      ConcatUniform(ss[1..], d, k - 1, j);
      assert Concat(ss)[d + (Times(k - 1, d) + j)] == rest[Times(k - 1, d) + j];
    }
  }

  lemma {:induction false} ConcatLength<T>(ss: seq<seq<T>>, d: nat)
    requires forall i :: 0 <= i < |ss| ==> |ss[i]| == d
    ensures |Concat(ss)| == Times(|ss|, d)
  {
    if |ss| > 0 {
      ConcatLength(ss[1..], d);
    }
  }
}
