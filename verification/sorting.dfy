/**
 * A stable sort over a total preorder. Kotlin's `sortedWith`, `sortedBy`,
 * `sortedDescending` and Python's `list.sort` are all stable, so the model uses
 * one stable insertion sort for every ordering rule of the system; a comparator
 * is a relation `le(a, b)` meaning "a may come before b".
 */
module Sorting {
  import opened Seqs

  ghost predicate TotalPreorder<T(!new)>(le: (T, T) -> bool)
  {
    (forall a, b :: le(a, b) || le(b, a)) &&
    (forall a, b, c :: le(a, b) && le(b, c) ==> le(a, c))
  }

  predicate SortedBy<T>(s: seq<T>, le: (T, T) -> bool)
  {
    forall i, j :: 0 <= i < j < |s| ==> le(s[i], s[j])
  }

  /** Inserts `x` after every leading element that may precede it. */
  function Insert<T>(x: T, s: seq<T>, le: (T, T) -> bool): (r: seq<T>)
    ensures |r| == |s| + 1
    ensures multiset(r) == multiset(s) + multiset{x}
  {
    if |s| == 0 then [x]
    else if le(s[0], x) then
      assert s == [s[0]] + s[1..];
      [s[0]] + Insert(x, s[1..], le)
    else [x] + s
  }

  /** Stable insertion sort: each element is inserted behind its equals. */
  function SortBy<T>(s: seq<T>, le: (T, T) -> bool): (r: seq<T>)
    ensures |r| == |s|
    ensures multiset(r) == multiset(s)
  {
    if |s| == 0 then []
    else
      assert s == s[..|s| - 1] + [s[|s| - 1]];
      Insert(s[|s| - 1], SortBy(s[..|s| - 1], le), le)
  }

  lemma {:induction false} InsertSorted<T(!new)>(x: T, s: seq<T>, le: (T, T) -> bool)
    requires TotalPreorder(le)
    requires SortedBy(s, le)
    ensures SortedBy(Insert(x, s, le), le)
  {
    if |s| > 0 {
      if le(s[0], x) {
        var tail := Insert(x, s[1..], le);
        InsertSorted(x, s[1..], le);
        forall j | 0 <= j < |tail|
          ensures le(s[0], tail[j])
        {
          assert tail[j] in multiset(tail);
          assert tail[j] in multiset(s[1..]) || tail[j] == x;
          if tail[j] != x {
            var k :| 0 <= k < |s[1..]| && s[1..][k] == tail[j];
            assert s[k + 1] == tail[j];
          }
        }
      } else {
        assert le(x, s[0]);
      }
    }
  }

  /** The result of SortBy is ordered by `le`. */
  lemma {:induction false} SortBySorted<T(!new)>(s: seq<T>, le: (T, T) -> bool)
    requires TotalPreorder(le)
    ensures SortedBy(SortBy(s, le), le)
  {
    if |s| > 0 {
      SortBySorted(s[..|s| - 1], le);
      InsertSorted(s[|s| - 1], SortBy(s[..|s| - 1], le), le);
    }
  }

  /** `y` and `z` are equivalent under the preorder: neither strictly precedes the other. */
  function EquivTo<T>(le: (T, T) -> bool, z: T): T -> bool
  {
    y => le(y, z) && le(z, y)
  }

  /** In an ordered sequence that `x` must precede, nothing is equivalent to `x`. */
  lemma NothingEquivalentAfter<T(!new)>(x: T, s: seq<T>, le: (T, T) -> bool, z: T)
    requires TotalPreorder(le)
    requires SortedBy(s, le)
    requires |s| > 0 && !le(s[0], x)
    requires EquivTo(le, z)(x)
    ensures forall i :: 0 <= i < |s| ==> !EquivTo(le, z)(s[i])
  {
    forall i | 0 <= i < |s|
      ensures !EquivTo(le, z)(s[i])
    {
      if i > 0 {
        assert le(s[0], s[i]);
      }
    }
  }

  lemma {:induction false} InsertFilterEquiv<T(!new)>(x: T, s: seq<T>, le: (T, T) -> bool, z: T)
    requires TotalPreorder(le)
    requires SortedBy(s, le)
    ensures Filter(Insert(x, s, le), EquivTo(le, z))
         == Filter(s, EquivTo(le, z)) + (if EquivTo(le, z)(x) then [x] else [])
  {
    var p := EquivTo(le, z);
    var px := if p(x) then [x] else [];
    if |s| == 0 {
      assert Insert(x, s, le) == [x];
      assert Filter([x], p) == px + Filter([x][1..], p);
    } else if le(s[0], x) {
      assert SortedBy(s[1..], le);
      InsertFilterEquiv(x, s[1..], le, z);
      FilterPassHead(x, s, le, p);
    } else {
      assert Insert(x, s, le) == [x] + s;
      assert ([x] + s)[1..] == s;
      if p(x) {
        NothingEquivalentAfter(x, s, le, z);
        FilterNone(s, p);
      }
    }
  }

  lemma AppendAssoc<T>(a: seq<T>, b: seq<T>, c: seq<T>)
    ensures a + (b + c) == (a + b) + c
  {
  }

  lemma FilterUnfold<T(!new)>(s: seq<T>, p: T -> bool)
    requires |s| > 0
    ensures Filter(s, p) == (if p(s[0]) then [s[0]] else []) + Filter(s[1..], p)
  {
  }

  lemma FilterPassHead<T(!new)>(x: T, s: seq<T>, le: (T, T) -> bool, p: T -> bool)
    requires |s| > 0 && le(s[0], x)
    requires Filter(Insert(x, s[1..], le), p) == Filter(s[1..], p) + (if p(x) then [x] else [])
    ensures Filter(Insert(x, s, le), p) == Filter(s, p) + (if p(x) then [x] else [])
  {
    var tail := Insert(x, s[1..], le);
    var ins := Insert(x, s, le);
    var head := if p(s[0]) then [s[0]] else [];
    var px := if p(x) then [x] else [];
    var a := Filter(s[1..], p);
    assert ins == [s[0]] + tail;
    assert ins[0] == s[0] && ins[1..] == tail;
    calc {
      Filter(ins, p);
      head + Filter(tail, p);
      head + (a + px);
      { AppendAssoc(head, a, px); }
      (head + a) + px;
      { FilterUnfold(s, p); }
      Filter(s, p) + px;
    }
  }

  /**
   * Stability: within every class of equivalent elements, SortBy keeps the input order.
   */
  lemma {:induction false} SortByStable<T(!new)>(s: seq<T>, le: (T, T) -> bool, z: T)
    requires TotalPreorder(le)
    ensures Filter(SortBy(s, le), EquivTo(le, z)) == Filter(s, EquivTo(le, z))
  {
    if |s| > 0 {
      var p := EquivTo(le, z);
      var init, x := s[..|s| - 1], s[|s| - 1];
      var tail := if p(x) then [x] else [];
      assert s == init + [x];
      calc {
        Filter(SortBy(s, le), p);
        { SortBySnoc(init, x, le); }
        Filter(Insert(x, SortBy(init, le), le), p);
        { SortBySorted(init, le); InsertFilterEquiv(x, SortBy(init, le), le, z); }
        Filter(SortBy(init, le), p) + tail;
        { SortByStable(init, le, z); }
        Filter(init, p) + tail;
        { assert Filter([x], p) == tail + Filter([x][1..], p); }
        Filter(init, p) + Filter([x], p);
        { FilterConcat(init, [x], p); }
        Filter(s, p);
      }
    }
  }

  lemma InitLast<T>(s: seq<T>)
    requires |s| > 0
    ensures s == s[..|s| - 1] + [s[|s| - 1]]
  {
  }

  lemma {:induction false} InsertAtEnd<T>(x: T, s: seq<T>, le: (T, T) -> bool)
    requires forall i :: 0 <= i < |s| ==> le(s[i], x)
    ensures Insert(x, s, le) == s + [x]
  {
    if |s| > 0 {
      InsertAtEnd(x, s[1..], le);
      assert s == [s[0]] + s[1..];
    }
  }

  /** Sorting a sequence that is already ordered changes nothing. */
  lemma {:induction false} SortBySortedIdentity<T>(s: seq<T>, le: (T, T) -> bool)
    requires SortedBy(s, le)
    ensures SortBy(s, le) == s
  {
    if |s| > 0 {
      var init, x := s[..|s| - 1], s[|s| - 1];
      forall i, j | 0 <= i < j < |init|
        ensures le(init[i], init[j])
      {
        assert init[i] == s[i] && init[j] == s[j];
      }
      SortBySortedIdentity(init, le);
      forall i | 0 <= i < |init|
        ensures le(init[i], x)
      {
        assert init[i] == s[i];
      }
      InsertAtEnd(x, init, le);
      InitLast(s);
    }
  }

  /** Appending one element to the input inserts it into the sorted output. */
  lemma SortBySnoc<T>(s: seq<T>, x: T, le: (T, T) -> bool)
    ensures SortBy(s + [x], le) == Insert(x, SortBy(s, le), le)
  {
    assert (s + [x])[..|s + [x]| - 1] == s;
  }

  /** Inserting and then keeping a prefix only needs the prefix of the input. */
  lemma {:induction false} TakeInsert<T>(x: T, s: seq<T>, le: (T, T) -> bool, k: nat)
    ensures Take(Insert(x, s, le), k) == Take(Insert(x, Take(s, k), le), k)
  {
    if k == 0 || |s| == 0 {
    } else {
      var head, tail := s[0], s[1..];
      assert s == [head] + tail;
      TakeCons(head, tail, k);
      var t := Take(s, k);
      assert t[0] == head && t[1..] == Take(tail, k - 1);
      if le(head, x) {
        TakeInsert(x, tail, le, k - 1);
        TakeCons(head, Insert(x, tail, le), k);
        TakeCons(head, Insert(x, Take(tail, k - 1), le), k);
      } else {
        TakeCons(x, s, k);
        TakeCons(x, t, k);
        assert Take(t, k - 1) == Take(s, k - 1);
      }
    }
  }

  /** Lexicographic combination of two comparators ("compareBy a thenBy b"). */
  function ThenBy<T>(first: (T, T) -> bool, second: (T, T) -> bool): (T, T) -> bool
  {
    (a, b) => first(a, b) && (!first(b, a) || second(a, b))
  }

  lemma ThenByTotalPreorder<T(!new)>(first: (T, T) -> bool, second: (T, T) -> bool)
    requires TotalPreorder(first) && TotalPreorder(second)
    ensures TotalPreorder(ThenBy(first, second))
  {
  }

  /** The preorder induced by an integer key, ascending. */
  function ByIntKey<T>(key: T -> int): (T, T) -> bool
  {
    (a, b) => key(a) <= key(b)
  }

  /** The preorder induced by an integer key, descending. */
  function ByIntKeyDesc<T>(key: T -> int): (T, T) -> bool
  {
    (a, b) => key(a) >= key(b)
  }

  lemma ByIntKeyTotalPreorder<T(!new)>(key: T -> int)
    ensures TotalPreorder(ByIntKey(key))
    ensures TotalPreorder(ByIntKeyDesc(key))
  {
  }

  /** Orders integers from largest to smallest (`sortedDescending`). */
  predicate GeInt(a: int, b: int)
  {
    a >= b
  }

  lemma GeIntTotalPreorder()
    ensures TotalPreorder(GeInt)
  {
  }
}
