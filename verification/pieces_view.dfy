/**
 * The Pieces screen: each piece with its activity count and last activity
 * date, sorted by name, last date or count in either direction, with the
 * sort-state machine behind the sort controls and the favourite toggle that
 * respects the free tier's favourite limit.
 */
module PiecesView {
  import opened Wrappers
  import opened Seqs
  import opened Sorting
  import opened Text
  import opened Entities
  import opened ProUser

  datatype SortType = ALPHABETICAL | LAST_DATE | ACTIVITY_COUNT

  datatype SortDirection = ASCENDING | DESCENDING

  datatype SortState = SortState(sortType: SortType, direction: SortDirection)

  /** The sort state a new Pieces screen starts in. */
  const INITIAL_SORT: SortState := SortState(ALPHABETICAL, ASCENDING)

  /** Choosing a sort type also picks its natural direction: A to Z, newest first, most first. */
  function SetSortType(s: SortState, t: SortType): (r: SortState)
    ensures r.sortType == t
    ensures r.direction == ASCENDING <==> t == ALPHABETICAL
  {
    SortState(t, if t == ALPHABETICAL then ASCENDING else DESCENDING)
  }

  function Flip(d: SortDirection): (r: SortDirection)
    ensures r != d
  {
    if d == ASCENDING then DESCENDING else ASCENDING
  }

  function ToggleSortDirection(s: SortState): (r: SortState)
    ensures r.sortType == s.sortType && r.direction != s.direction
  {
    s.(direction := Flip(s.direction))
  }

  /** Two toggles restore the sort state. */
  lemma ToggleTwice(s: SortState)
    ensures ToggleSortDirection(ToggleSortDirection(s)) == s
  {
  }

  /** A piece with whether it is a favourite, as the repository pairs them. */
  datatype PieceWithFavoriteStatus = PieceWithFavoriteStatus(piece: PieceOrTechnique, isFavorite: bool)

  /** getPiecesWithFavoriteStatus: every piece, in table order, flagged when its id is a favourite. */
  function WithFavoriteStatus(pieces: seq<PieceOrTechnique>, favorites: set<int>): (r: seq<PieceWithFavoriteStatus>)
    ensures |r| == |pieces|
    ensures forall i :: 0 <= i < |pieces| ==> r[i].piece == pieces[i] && (r[i].isFavorite <==> pieces[i].id in favorites)
  {
    seq(|pieces|, i requires 0 <= i < |pieces| => PieceWithFavoriteStatus(pieces[i], pieces[i].id in favorites))
  }

  datatype PieceWithStats = PieceWithStats(
    piece: PieceOrTechnique,
    activityCount: int,
    lastActivityDate: Option<int>,
    isFavorite: bool)

  /** The latest timestamp among the activities of piece `id` (`maxByOrNull { it.timestamp }`), if it has any. */
  function LastActivityDate(acts: seq<Activity>, id: int): (r: Option<int>)
    ensures r.None? <==> forall i :: 0 <= i < |acts| ==> acts[i].pieceOrTechniqueId != id
    ensures r.Some? ==>
              (exists i :: 0 <= i < |acts| && acts[i].pieceOrTechniqueId == id && acts[i].timestamp == r.value)
              && forall i :: 0 <= i < |acts| && acts[i].pieceOrTechniqueId == id ==> acts[i].timestamp <= r.value
  {
    LatestOfPiece(acts, id);
    MaxOpt(Timestamps(ForPiece(acts, id)))
  }

  lemma LatestOfPiece(acts: seq<Activity>, id: int)
    ensures var r := MaxOpt(Timestamps(ForPiece(acts, id)));
            (r.None? <==> forall i :: 0 <= i < |acts| ==> acts[i].pieceOrTechniqueId != id)
            && (r.Some? ==>
                  (exists i :: 0 <= i < |acts| && acts[i].pieceOrTechniqueId == id && acts[i].timestamp == r.value)
                  && forall i :: 0 <= i < |acts| && acts[i].pieceOrTechniqueId == id ==> acts[i].timestamp <= r.value)
  {
    var own := ForPiece(acts, id);
    var ts := Timestamps(own);
    var r := MaxOpt(ts);
    if r.Some? {
      var j :| 0 <= j < |ts| && ts[j] == r.value;
      assert own[j] in own;
      var i :| 0 <= i < |acts| && acts[i] == own[j];
      assert acts[i].pieceOrTechniqueId == id && acts[i].timestamp == r.value;
      forall i | 0 <= i < |acts| && acts[i].pieceOrTechniqueId == id
        ensures acts[i].timestamp <= r.value
      {
        assert acts[i] in own;
        var k :| 0 <= k < |own| && own[k] == acts[i];
        assert ts[k] in ts;
      }
    } else {
      forall i | 0 <= i < |acts|
        ensures acts[i].pieceOrTechniqueId != id
      {
        FilterMembership(acts, (a: Activity) => a.pieceOrTechniqueId == id, acts[i]);
      }
    }
  }

  /** A piece's row: how many activities it has and the latest of them. */
  function StatsFor(p: PieceWithFavoriteStatus, acts: seq<Activity>): (r: PieceWithStats)
    ensures r.piece == p.piece && r.isFavorite == p.isFavorite
    ensures r.activityCount == |ForPiece(acts, p.piece.id)|
    ensures r.lastActivityDate.None? <==> r.activityCount == 0
  {
    FilterNonEmpty(acts, (a: Activity) => a.pieceOrTechniqueId == p.piece.id);
    PieceWithStats(p.piece, |ForPiece(acts, p.piece.id)|, LastActivityDate(acts, p.piece.id), p.isFavorite)
  }

  function RowsFor(pieces: seq<PieceWithFavoriteStatus>, acts: seq<Activity>): (r: seq<PieceWithStats>)
    ensures |r| == |pieces|
    ensures forall i :: 0 <= i < |pieces| ==> r[i] == StatsFor(pieces[i], acts)
  {
    seq(|pieces|, i requires 0 <= i < |pieces| => StatsFor(pieces[i], acts))
  }

  function LowerName(s: PieceWithStats): string
  {
    Lower(s.piece.name)
  }

  /** The last date with a never-played piece counted as 0 (`lastActivityDate ?: 0L`). */
  function LastDateOrZero(s: PieceWithStats): int
  {
    match s.lastActivityDate
    case None => 0
    case Some(t) => t
  }

  function CountOfRow(s: PieceWithStats): int
  {
    s.activityCount
  }

  /** The ascending order of each sort type. */
  function OrderFor(t: SortType): (PieceWithStats, PieceWithStats) -> bool
  {
    match t
    case ALPHABETICAL => ByUtf16Key(LowerName)
    case LAST_DATE => ByIntKey(LastDateOrZero)
    case ACTIVITY_COUNT => ByIntKey(CountOfRow)
  }

  lemma OrderForTotal(t: SortType)
    ensures TotalPreorder(OrderFor(t))
  {
    ByUtf16KeyTotalPreorder(LowerName);
    ByIntKeyTotalPreorder(LastDateOrZero);
    ByIntKeyTotalPreorder(CountOfRow);
  }

  /**
   * piecesWithStats: the rows sorted stably in ascending order of the sort
   * type, reversed when the direction is DESCENDING.
   */
  function PiecesWithStats(pieces: seq<PieceWithFavoriteStatus>, acts: seq<Activity>, state: SortState)
    : (r: seq<PieceWithStats>)
    ensures |r| == |pieces|
    ensures multiset(r) == multiset(RowsFor(pieces, acts))
  {
    var sorted := SortBy(RowsFor(pieces, acts), OrderFor(state.sortType));
    ReversePermutes(sorted);
    if state.direction == DESCENDING then Reverse(sorted) else sorted
  }

  /** DESCENDING is exactly ASCENDING read backwards. */
  lemma DescendingReversesAscending(pieces: seq<PieceWithFavoriteStatus>, acts: seq<Activity>, t: SortType)
    ensures PiecesWithStats(pieces, acts, SortState(t, DESCENDING)) == Reverse(PiecesWithStats(pieces, acts, SortState(t, ASCENDING)))
  {
  }

  /** The list ascends by the sort type's key, or descends when the direction is DESCENDING. */
  lemma PiecesWithStatsOrdered(pieces: seq<PieceWithFavoriteStatus>, acts: seq<Activity>, state: SortState)
    ensures var r := PiecesWithStats(pieces, acts, state);
            (state.direction == ASCENDING ==> SortedBy(r, OrderFor(state.sortType)))
            && (state.direction == DESCENDING ==> SortedBy(Reverse(r), OrderFor(state.sortType)))
  {
    var t := state.sortType;
    var sorted := SortBy(RowsFor(pieces, acts), OrderFor(t));
    OrderForTotal(t);
    SortBySorted(RowsFor(pieces, acts), OrderFor(t));
    ReverseInvolutive(sorted);
  }

  /** Every row shown is a piece's own row: its favourite flag, count and last date. */
  lemma PiecesWithStatsRows(pieces: seq<PieceWithFavoriteStatus>, acts: seq<Activity>, state: SortState, x: PieceWithStats)
    requires x in PiecesWithStats(pieces, acts, state)
    ensures exists i :: 0 <= i < |pieces| && pieces[i].piece == x.piece && pieces[i].isFavorite == x.isFavorite
    ensures x.activityCount == |ForPiece(acts, x.piece.id)| && x.lastActivityDate == LastActivityDate(acts, x.piece.id)
  {
    var rows := RowsFor(pieces, acts);
    assert x in multiset(PiecesWithStats(pieces, acts, state));
    assert x in multiset(rows);
    var i :| 0 <= i < |rows| && rows[i] == x;
    assert rows[i] == StatsFor(pieces[i], acts);
  }

  /**
   * The list ascends by the sort type's key (descends when DESCENDING) and
   * shows each piece once, with its own count and last date.
   */
  lemma PiecesWithStatsSpec(pieces: seq<PieceWithFavoriteStatus>, acts: seq<Activity>, state: SortState)
    ensures var r := PiecesWithStats(pieces, acts, state);
            (state.direction == ASCENDING ==> SortedBy(r, OrderFor(state.sortType)))
            && (state.direction == DESCENDING ==> SortedBy(Reverse(r), OrderFor(state.sortType)))
            && forall x :: x in r ==>
                 (exists i :: 0 <= i < |pieces| && pieces[i].piece == x.piece && pieces[i].isFavorite == x.isFavorite)
                 && x.activityCount == |ForPiece(acts, x.piece.id)|
                 && x.lastActivityDate == LastActivityDate(acts, x.piece.id)
  {
    PiecesWithStatsOrdered(pieces, acts, state);
    forall x | x in PiecesWithStats(pieces, acts, state)
      ensures (exists i :: 0 <= i < |pieces| && pieces[i].piece == x.piece && pieces[i].isFavorite == x.isFavorite)
      ensures x.activityCount == |ForPiece(acts, x.piece.id)| && x.lastActivityDate == LastActivityDate(acts, x.piece.id)
    {
      PiecesWithStatsRows(pieces, acts, state, x);
    }
  }

  /** Rows the sort type ranks equal keep the order the repository returned them in. */
  lemma PiecesWithStatsStable(pieces: seq<PieceWithFavoriteStatus>, acts: seq<Activity>, t: SortType, z: PieceWithStats)
    ensures Filter(PiecesWithStats(pieces, acts, SortState(t, ASCENDING)), EquivTo(OrderFor(t), z))
            == Filter(RowsFor(pieces, acts), EquivTo(OrderFor(t), z))
  {
    OrderForTotal(t);
    SortByStable(RowsFor(pieces, acts), OrderFor(t), z);
  }

  /**
   * toggleFavorite on the favourite ids: removing always succeeds; adding
   * succeeds only while the tier allows one more, and otherwise nothing
   * changes and false is returned.
   */
  function ToggleFavorite(favorites: set<int>, pieceId: int, isPro: bool): (r: (bool, set<int>))
    ensures pieceId in favorites ==> r == (true, favorites - {pieceId})
    ensures pieceId !in favorites && CanAddMoreFavorites(isPro, |favorites|) ==> r == (true, favorites + {pieceId})
    ensures pieceId !in favorites && !CanAddMoreFavorites(isPro, |favorites|) ==> r == (false, favorites)
  {
    if pieceId in favorites then (true, favorites - {pieceId})
    else if !CanAddMoreFavorites(isPro, |favorites|) then (false, favorites)
    else (true, favorites + {pieceId})
  }

  /** A free user never gets past four favourites by toggling; a Pro user always may add. */
  lemma ToggleFavoriteLimit(favorites: set<int>, pieceId: int, isPro: bool)
    ensures var (ok, after) := ToggleFavorite(favorites, pieceId, isPro);
            (!isPro && |favorites| <= FREE_USER_FAVORITE_LIMIT ==> |after| <= FREE_USER_FAVORITE_LIMIT)
            && (isPro ==> ok)
            && (ok ==> (pieceId in after <==> pieceId !in favorites))
            && (forall id :: id != pieceId ==> (id in after <==> id in favorites))
  {
  }
}
