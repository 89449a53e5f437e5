/**
 * The Abandoned screen: non-favourite pieces not played in the last 31 days
 * (or never), practised ones first from most to least recent, never-played
 * ones last, names breaking ties; shown reversed by default.
 */
module AbandonedView {
  import opened Wrappers
  import opened Seqs
  import opened Sorting
  import opened Text
  import opened Decimal
  import opened Entities
  import opened Suggestions
  import opened PiecesView

  /** A listed piece with its last activity and the whole days since. */
  datatype AbandonedItem = AbandonedItem(
    piece: PieceOrTechnique,
    lastActivityDate: Option<int>,
    daysSinceLastActivity: int)

  /** The screen opens with the reversed order; its toggle is `PiecesView.Flip`, with the same two-toggle property. */
  const INITIAL_DIRECTION: SortDirection := DESCENDING

  /** Only pieces (not techniques) that are not favourites are considered. */
  predicate Considered(p: PieceWithFavoriteStatus)
  {
    p.piece.itemType == PIECE && !p.isFavorite
  }

  /** Never played, or last played strictly before `now` minus 31 days. */
  predicate Stale(last: Option<int>, now: int)
  {
    last.None? || last.value < DaysAgo(now, 31)
  }

  predicate Listed(p: PieceWithFavoriteStatus, acts: seq<Activity>, now: int)
  {
    Considered(p) && Stale(LastActivityDate(acts, p.piece.id), now)
  }

  function ItemFor(p: PieceWithFavoriteStatus, acts: seq<Activity>, now: int): (r: AbandonedItem)
    ensures r.piece == p.piece
    ensures r.lastActivityDate.None? <==> ForPiece(acts, p.piece.id) == []
  {
    var last := LastActivityDate(acts, p.piece.id);
    FilterNonEmpty(acts, (a: Activity) => a.pieceOrTechniqueId == p.piece.id);
    AbandonedItem(p.piece, last, DaysSince(now, last))
  }

  /** The listed pieces in repository order, before sorting. */
  function Collected(pieces: seq<PieceWithFavoriteStatus>, acts: seq<Activity>, now: int): (r: seq<AbandonedItem>)
    ensures |r| <= |pieces|
    ensures forall i :: 0 <= i < |pieces| && Listed(pieces[i], acts, now) ==> ItemFor(pieces[i], acts, now) in r
    ensures forall x :: x in r ==> exists i :: 0 <= i < |pieces| && Listed(pieces[i], acts, now) && x == ItemFor(pieces[i], acts, now)
  {
    var kept := Filter(pieces, p => Listed(p, acts, now));
    var r := Map(kept, p => ItemFor(p, acts, now));
    forall i | 0 <= i < |pieces| && Listed(pieces[i], acts, now)
      ensures ItemFor(pieces[i], acts, now) in r
    {
      assert pieces[i] in kept;
      var k :| 0 <= k < |kept| && kept[k] == pieces[i];
      assert r[k] == ItemFor(pieces[i], acts, now);
    }
    forall x | x in r
      ensures exists i :: 0 <= i < |pieces| && Listed(pieces[i], acts, now) && x == ItemFor(pieces[i], acts, now)
    {
      var k :| 0 <= k < |r| && r[k] == x;
      assert kept[k] in kept;
      var i :| 0 <= i < |pieces| && pieces[i] == kept[k];
    }
    r
  }

  function NeverPlayed(x: AbandonedItem): int
  {
    if x.lastActivityDate.None? then 1 else 0
  }

  function LastOrZero(x: AbandonedItem): int
  {
    match x.lastActivityDate
    case None => 0
    case Some(t) => t
  }

  function NameKey(x: AbandonedItem): string
  {
    Lower(x.piece.name)
  }

  /** Played before never played, then latest first, then by lowercase name. */
  function AbandonedOrder(): (AbandonedItem, AbandonedItem) -> bool
  {
    ThenBy(ThenBy(ByIntKey(NeverPlayed), ByIntKeyDesc(LastOrZero)), ByUtf16Key(NameKey))
  }

  lemma AbandonedOrderTotal()
    ensures TotalPreorder(AbandonedOrder())
  {
    ByIntKeyTotalPreorder(NeverPlayed);
    ByIntKeyTotalPreorder(LastOrZero);
    ThenByTotalPreorder(ByIntKey(NeverPlayed), ByIntKeyDesc(LastOrZero));
    ByUtf16KeyTotalPreorder(NameKey);
    ThenByTotalPreorder(ThenBy(ByIntKey(NeverPlayed), ByIntKeyDesc(LastOrZero)), ByUtf16Key(NameKey));
  }

  /** The items sorted by the screen's order, then reversed when DESCENDING. */
  function Arranged(items: seq<AbandonedItem>, dir: SortDirection): (r: seq<AbandonedItem>)
    ensures multiset(r) == multiset(items)
  {
    var sorted := SortBy(items, AbandonedOrder());
    ReversePermutes(sorted);
    if dir == DESCENDING then Reverse(sorted) else sorted
  }

  /** abandonedPieces: the listed items, arranged. */
  function AbandonedPieces(pieces: seq<PieceWithFavoriteStatus>, acts: seq<Activity>, now: int, dir: SortDirection)
    : (r: seq<AbandonedItem>)
    ensures multiset(r) == multiset(Collected(pieces, acts, now))
  {
    Arranged(Collected(pieces, acts, now), dir)
  }

  /** An item is shown exactly when its piece is a stale non-favourite piece. */
  lemma AbandonedMembership(pieces: seq<PieceWithFavoriteStatus>, acts: seq<Activity>, now: int, dir: SortDirection, x: AbandonedItem)
    ensures x in AbandonedPieces(pieces, acts, now, dir)
            <==> exists i :: 0 <= i < |pieces| && Listed(pieces[i], acts, now) && x == ItemFor(pieces[i], acts, now)
  {
    var r := AbandonedPieces(pieces, acts, now, dir);
    assert x in r <==> x in multiset(r);
    if exists i :: 0 <= i < |pieces| && Listed(pieces[i], acts, now) && x == ItemFor(pieces[i], acts, now) {
      var i :| 0 <= i < |pieces| && Listed(pieces[i], acts, now) && x == ItemFor(pieces[i], acts, now);
      assert x in Collected(pieces, acts, now);
    }
  }

  /** The pairwise meaning of the ascending order. */
  predicate AscendingPair(a: AbandonedItem, b: AbandonedItem)
  {
    (a.lastActivityDate.None? ==> b.lastActivityDate.None?)
    && (a.lastActivityDate.Some? && b.lastActivityDate.Some? ==>
          a.lastActivityDate.value >= b.lastActivityDate.value
          && (a.lastActivityDate == b.lastActivityDate ==> Utf16Le(Lower(a.piece.name), Lower(b.piece.name))))
    && (a.lastActivityDate.None? && b.lastActivityDate.None? ==> Utf16Le(Lower(a.piece.name), Lower(b.piece.name)))
  }

  lemma OrderMeansPair(a: AbandonedItem, b: AbandonedItem)
    requires AbandonedOrder()(a, b)
    ensures AscendingPair(a, b)
  {
    var first := ThenBy(ByIntKey(NeverPlayed), ByIntKeyDesc(LastOrZero));
    assert first(a, b) && (!first(b, a) || Utf16Le(NameKey(a), NameKey(b)));
    assert NeverPlayed(a) <= NeverPlayed(b);
    assert NeverPlayed(b) <= NeverPlayed(a) ==> LastOrZero(a) >= LastOrZero(b);
    assert a.lastActivityDate == b.lastActivityDate ==> first(b, a);
  }

  lemma SortedMeansPairs(s: seq<AbandonedItem>)
    requires SortedBy(s, AbandonedOrder())
    ensures forall i, j :: 0 <= i < j < |s| ==> AscendingPair(s[i], s[j])
  {
    forall i, j | 0 <= i < j < |s|
      ensures AscendingPair(s[i], s[j])
    {
      OrderMeansPair(s[i], s[j]);
    }
  }

  lemma SortedByOrder(items: seq<AbandonedItem>)
    ensures SortedBy(SortBy(items, AbandonedOrder()), AbandonedOrder())
  {
    AbandonedOrderTotal();
    SortBySorted(items, AbandonedOrder());
  }

  lemma ReversedPairs(s: seq<AbandonedItem>)
    requires forall i, j :: 0 <= i < j < |s| ==> AscendingPair(s[i], s[j])
    ensures forall i, j :: 0 <= i < j < |Reverse(s)| ==> AscendingPair(Reverse(s)[j], Reverse(s)[i])
  {
    var back := Reverse(s);
    forall i, j | 0 <= i < j < |back|
      ensures AscendingPair(back[j], back[i])
    {
      assert back[j] == s[|s| - 1 - j] && back[i] == s[|s| - 1 - i];
    }
  }

  /**
   * Arranged ascending, every earlier item relates to every later one as
   * described above; descending, the same holds read from the end.
   */
  lemma ArrangedPairs(items: seq<AbandonedItem>, dir: SortDirection)
    ensures var r := Arranged(items, dir);
            (dir == ASCENDING ==> forall i, j :: 0 <= i < j < |r| ==> AscendingPair(r[i], r[j]))
            && (dir == DESCENDING ==> forall i, j :: 0 <= i < j < |r| ==> AscendingPair(r[j], r[i]))
  {
    var sorted := SortBy(items, AbandonedOrder());
    SortedByOrder(items);
    SortedMeansPairs(sorted);
    if dir == DESCENDING {
      ReversedPairs(sorted);
    }
  }

  /** The screen's list in either direction is ordered as ArrangedPairs describes. */
  lemma AbandonedOrdered(pieces: seq<PieceWithFavoriteStatus>, acts: seq<Activity>, now: int, dir: SortDirection)
    ensures var r := AbandonedPieces(pieces, acts, now, dir);
            (dir == ASCENDING ==> forall i, j :: 0 <= i < j < |r| ==> AscendingPair(r[i], r[j]))
            && (dir == DESCENDING ==> forall i, j :: 0 <= i < j < |r| ==> AscendingPair(r[j], r[i]))
  {
    ArrangedPairs(Collected(pieces, acts, now), dir);
  }

  /** DESCENDING is exactly ASCENDING read backwards. */
  lemma AbandonedDescendingReverses(pieces: seq<PieceWithFavoriteStatus>, acts: seq<Activity>, now: int)
    ensures AbandonedPieces(pieces, acts, now, DESCENDING) == Reverse(AbandonedPieces(pieces, acts, now, ASCENDING))
  {
  }

  /**
   * A listed piece that was played shows at least 31 days since, unless the
   * day count is too large for a 32-bit Int and wraps.
   */
  lemma ListedDaysAtLeast31(p: PieceWithFavoriteStatus, acts: seq<Activity>, now: int)
    requires Listed(p, acts, now)
    ensures var x := ItemFor(p, acts, now);
            x.lastActivityDate.None? ==> x.daysSinceLastActivity == INT_MAX
    ensures var x := ItemFor(p, acts, now);
            x.lastActivityDate.Some? && (now - x.lastActivityDate.value) / DAY_MS <= INT_MAX
            ==> x.daysSinceLastActivity == (now - x.lastActivityDate.value) / DAY_MS >= 31
  {
    var x := ItemFor(p, acts, now);
    if x.lastActivityDate.Some? {
      var d := now - x.lastActivityDate.value;
      assert d > 31 * DAY_MS;
      assert d / DAY_MS >= 31;
    }
  }
}
