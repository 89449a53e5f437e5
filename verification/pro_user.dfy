/**
 * Pro status and the limits that depend on it. The status is the one stored
 * preference; a missing preference reads as a free user.
 */
module ProUser {
  import opened Wrappers

  const FREE_USER_FAVORITE_LIMIT: int := 4
  const FREE_USER_ACTIVITY_LIMIT: int := 3000
  const PRO_USER_ACTIVITY_LIMIT: int := 4000
  const FREE_USER_PIECE_LIMIT: int := 500
  const PRO_USER_PIECE_LIMIT: int := 550

  const FREE_USER_PRACTICE_FAVORITE_SUGGESTIONS: int := 1
  const PRO_USER_PRACTICE_FAVORITE_SUGGESTIONS: int := 4
  const FREE_USER_PRACTICE_NON_FAVORITE_SUGGESTIONS: int := 2
  const PRO_USER_PRACTICE_NON_FAVORITE_SUGGESTIONS: int := 4
  const PRO_USER_PERFORMANCE_SUGGESTIONS: int := 5

  /** The stored preferences: the Pro flag, absent until first written. */
  datatype ProPrefs = ProPrefs(storedIsPro: Option<bool>)

  function IsProUser(p: ProPrefs): bool
  {
    p.storedIsPro.GetOr(false)
  }

  function SetProUser(p: ProPrefs, isPro: bool): (q: ProPrefs)
    ensures IsProUser(q) == isPro
  {
    ProPrefs(Some(isPro))
  }

  /** toggleProStatus: stores the negated status and returns it. */
  function ToggleProStatus(p: ProPrefs): (r: (ProPrefs, bool))
    ensures r.1 == !IsProUser(p) && IsProUser(r.0) == r.1
  {
    var newStatus := !IsProUser(p);
    (SetProUser(p, newStatus), newStatus)
  }

  /** Two toggles restore the status. */
  lemma ToggleTwice(p: ProPrefs)
    ensures IsProUser(ToggleProStatus(ToggleProStatus(p).0).0) == IsProUser(p)
  {
  }

  function ResetToFreeUser(p: ProPrefs): (q: ProPrefs)
    ensures !IsProUser(q)
  {
    SetProUser(p, false)
  }

  /** canAddMoreFavorites: unlimited for Pro users, fewer than four favourites otherwise. */
  function CanAddMoreFavorites(isPro: bool, currentFavoriteCount: int): (ok: bool)
  {
    if isPro then true else currentFavoriteCount < FREE_USER_FAVORITE_LIMIT
  }

  function PieceLimit(isPro: bool): (n: int)
  {
    if isPro then PRO_USER_PIECE_LIMIT else FREE_USER_PIECE_LIMIT
  }

  function ActivityLimit(isPro: bool): (n: int)
  {
    if isPro then PRO_USER_ACTIVITY_LIMIT else FREE_USER_ACTIVITY_LIMIT
  }

  /** canAddMorePieces: below the limit of the current user type. */
  function CanAddMorePieces(isPro: bool, currentPieceCount: int): (ok: bool)
  {
    currentPieceCount < PieceLimit(isPro)
  }

  /**
   * The limits as a table: favourites are capped at 4 for free users only,
   * pieces at 550 / 500 and activities at 4000 / 3000.
   */
  lemma LimitTable(isPro: bool, n: int)
    ensures CanAddMoreFavorites(isPro, n) <==> isPro || n < 4
    ensures CanAddMorePieces(isPro, n) <==> n < (if isPro then 550 else 500)
    ensures ActivityLimit(isPro) == (if isPro then 4000 else 3000)
  {
  }

  /**
   * Everything a free user may add a Pro user may add too, and being below a
   * limit stays true for smaller counts.
   */
  lemma ProDominatesFree(n: int, m: int)
    requires m <= n
    ensures CanAddMoreFavorites(false, n) ==> CanAddMoreFavorites(true, n) && CanAddMoreFavorites(false, m)
    ensures CanAddMorePieces(false, n) ==> CanAddMorePieces(true, n) && CanAddMorePieces(false, m)
    ensures PieceLimit(false) <= PieceLimit(true) && ActivityLimit(false) <= ActivityLimit(true)
  {
  }

  function PracticeFavoriteLimit(isPro: bool): (n: int)
  {
    if isPro then PRO_USER_PRACTICE_FAVORITE_SUGGESTIONS else FREE_USER_PRACTICE_FAVORITE_SUGGESTIONS
  }

  function PracticeNonFavoriteLimit(isPro: bool): (n: int)
  {
    if isPro then PRO_USER_PRACTICE_NON_FAVORITE_SUGGESTIONS else FREE_USER_PRACTICE_NON_FAVORITE_SUGGESTIONS
  }

  /** Free users get no performance suggestions. */
  function PerformanceLimit(isPro: bool): (n: int)
  {
    if isPro then PRO_USER_PERFORMANCE_SUGGESTIONS else 0
  }

  /** Each Pro suggestion limit is at least the free one, and all are positive for Pro users. */
  lemma SuggestionLimitsOrdered()
    ensures PracticeFavoriteLimit(false) <= PracticeFavoriteLimit(true)
    ensures PracticeNonFavoriteLimit(false) <= PracticeNonFavoriteLimit(true)
    ensures PerformanceLimit(false) == 0 < PerformanceLimit(true)
  {
  }
}
