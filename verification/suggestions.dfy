/**
 * The practice and performance suggestion engine. The clock is a parameter:
 * `now` in milliseconds and `startOfToday`, the start of the current local
 * day. Only items of type PIECE are ever suggested.
 */
module Suggestions {
  import opened Wrappers
  import opened Seqs
  import opened Sorting
  import opened Text
  import opened Decimal
  import opened Entities
  import opened ProUser

  datatype SuggestionType = ForPractice | ForPerformance

  datatype SuggestionItem = SuggestionItem(
    piece: PieceOrTechnique,
    lastActivityDate: Option<int>,
    daysSinceLastActivity: int,
    suggestionReason: Reason,
    suggestionType: SuggestionType)

  function DaysAgo(now: int, days: int): int
  {
    now - days * DAY_MS
  }

  predicate IsPiece(p: PieceOrTechnique)
  {
    p.itemType == PIECE
  }

  /**
   * The most recent activity of a piece and whether it was a performance. A
   * practice wins only when strictly later than the last performance.
   */
  function LastActivity(p: PieceOrTechnique): (r: (Option<int>, bool))
  {
    match (p.lastPracticeDate, p.lastPerformanceDate)
    case (Some(practice), Some(performance)) =>
      if practice > performance then (Some(practice), false) else (Some(performance), true)
    case (Some(practice), None) => (Some(practice), false)
    case (None, Some(performance)) => (Some(performance), true)
    case (None, None) => (None, false)
  }

  /** The last activity is the later of the two dates, a tie counting as a performance. */
  lemma LastActivitySpec(p: PieceOrTechnique)
    ensures LastActivity(p).0.None? <==> p.lastPracticeDate.None? && p.lastPerformanceDate.None?
    ensures LastActivity(p).0.Some? ==>
              (p.lastPracticeDate.Some? ==> p.lastPracticeDate.value <= LastActivity(p).0.value)
              && (p.lastPerformanceDate.Some? ==> p.lastPerformanceDate.value <= LastActivity(p).0.value)
              && LastActivity(p).0 in {p.lastPracticeDate, p.lastPerformanceDate}
    ensures LastActivity(p).1 <==> p.lastPerformanceDate.Some?
                                   && (p.lastPracticeDate.None? || p.lastPracticeDate.value <= p.lastPerformanceDate.value)
  {
  }

  /** Whole days since `last`, Long division then `toInt()`; Int.MAX_VALUE when there is none. */
  function DaysSince(now: int, last: Option<int>): (d: int)
    ensures INT_MIN <= d <= INT_MAX
    ensures last.None? ==> d == INT_MAX
  {
    match last
    case None => INT_MAX
    case Some(t) => Wrap32(TruncDiv(now - t, DAY_MS))
  }

  /** Why a piece is suggested, kept as data; ReasonText renders the sentence shown. */
  datatype Reason =
    | FavoriteNeverPracticed
    | FavoriteAgo(isPerformance: bool, days: int)
    | NeverPracticed
    | Ago(isPerformance: bool, days: int)
    | NeverPerformed(favorite: bool, practices: nat)
    | PerformedAgo(favorite: bool, practices: nat, days: int)

  function ActivityText(isPerformance: bool): string
  {
    if isPerformance then "Last performance" else "Last practice"
  }

  function DayText(days: int): string
  {
    if days == 1 then "day" else "days"
  }

  /** "<Last practice|Last performance> N day(s) ago". */
  function AgoText(isPerformance: bool, days: int): string
  {
    ActivityText(isPerformance) + " " + IntToString(days) + " " + DayText(days) + " ago"
  }

  /** A star marks favourites among the performance suggestions. */
  function StarText(favorite: bool): string
  {
    if favorite then "\U{2B50} " else ""
  }

  function ReasonText(r: Reason): string
  {
    match r
    case FavoriteNeverPracticed => "Favorite piece - Never practiced"
    case FavoriteAgo(isPerformance, days) => "Favorite piece - " + AgoText(isPerformance, days)
    case NeverPracticed => "Never practiced"
    case Ago(isPerformance, days) => AgoText(isPerformance, days)
    case NeverPerformed(favorite, n) => StarText(favorite) + IntToString(n) + " practices, never performed"
    case PerformedAgo(favorite, n, days) =>
      StarText(favorite) + IntToString(n) + " practices, last performance " + IntToString(days) + " days ago"
  }

  /** The suggestion for a piece, dated by its last activity. */
  function PracticeItem(p: PieceOrTechnique, now: int): (item: SuggestionItem)
    ensures item.piece == p && item.lastActivityDate == LastActivity(p).0 && item.suggestionType == ForPractice
  {
    var (last, isPerformance) := LastActivity(p);
    var days := DaysSince(now, last);
    var reason :=
      if p.isFavorite then (if last.None? then FavoriteNeverPracticed else FavoriteAgo(isPerformance, days))
      else if last.None? then NeverPracticed
      else Ago(isPerformance, days);
    SuggestionItem(p, last, days, reason, ForPractice)
  }

  // ---------------------------------------------------------------------------
  // Practice suggestions: the main lists.
  // ---------------------------------------------------------------------------

  /** A favourite is due when it has no activity, or none since two days ago and none today. */
  predicate FavoriteDue(p: PieceOrTechnique, now: int, startOfToday: int)
  {
    var last := LastActivity(p).0;
    IsPiece(p) && p.isFavorite
    && (last.None? || last.value < DaysAgo(now, 2))
    && (last.None? || last.value < startOfToday)
  }

  /** A non-favourite is due when its last activity lies in [31 days ago, 7 days ago). */
  predicate NonFavoriteDue(p: PieceOrTechnique, now: int)
  {
    var last := LastActivity(p).0;
    IsPiece(p) && !p.isFavorite && last.Some? && DaysAgo(now, 31) <= last.value < DaysAgo(now, 7)
  }

  function LastActivityKey(item: SuggestionItem): int
  {
    item.lastActivityDate.GetOr(0)
  }

  function LowerName(item: SuggestionItem): string
  {
    Lower(item.piece.name)
  }

  /** Items built for the pieces meeting `due`, least recent first (no activity counts as 0). */
  function MainList(pieces: seq<PieceOrTechnique>, due: PieceOrTechnique -> bool, now: int): (r: seq<SuggestionItem>)
    ensures forall i :: 0 <= i < |r| ==> due(r[i].piece) && r[i] == PracticeItem(r[i].piece, now)
  {
    var items := Map(Filter(pieces, due), (p: PieceOrTechnique) => PracticeItem(p, now));
    var r := SortBy(items, ByIntKey(LastActivityKey));
    forall i | 0 <= i < |r|
      ensures due(r[i].piece) && r[i] == PracticeItem(r[i].piece, now)
    {
      assert r[i] in multiset(items);
    }
    r
  }

  /** The ids of the pieces the items are for. */
  function PieceIds(items: seq<SuggestionItem>): (ids: set<int>)
    ensures forall i :: 0 <= i < |items| ==> items[i].piece.id in ids
  {
    if |items| == 0 then {} else {items[0].piece.id} + PieceIds(items[1..])
  }

  // ---------------------------------------------------------------------------
  // Practice suggestions: the fallbacks.
  // ---------------------------------------------------------------------------

  function DaysSinceOf(item: SuggestionItem): int
  {
    item.daysSinceLastActivity
  }

  /** A favourite not yet chosen that has no activity today. */
  predicate FavoriteFallbackEligible(p: PieceOrTechnique, used: set<int>, startOfToday: int)
  {
    var last := LastActivity(p).0;
    IsPiece(p) && p.isFavorite && p.id !in used && (last.None? || last.value < startOfToday)
  }

  /** The items for the favourites eligible as fallback, in piece order. */
  function FavoriteEligibleItems(pieces: seq<PieceOrTechnique>, used: set<int>, now: int, startOfToday: int)
    : (r: seq<SuggestionItem>)
    ensures forall i :: 0 <= i < |r| ==>
              FavoriteFallbackEligible(r[i].piece, used, startOfToday) && r[i] == PracticeItem(r[i].piece, now)
  {
    if |pieces| == 0 then []
    else
      var rest := FavoriteEligibleItems(pieces[1..], used, now, startOfToday);
      if FavoriteFallbackEligible(pieces[0], used, startOfToday) then [PracticeItem(pieces[0], now)] + rest else rest
  }

  /** The eligible items whose day count is `maxDays`. */
  function AtDays(items: seq<SuggestionItem>, maxDays: int): (r: seq<SuggestionItem>)
    ensures forall i :: 0 <= i < |r| ==> r[i] in items && r[i].daysSinceLastActivity == maxDays
  {
    Filter(items, (item: SuggestionItem) => item.daysSinceLastActivity == maxDays)
  }

  /**
   * The favourites with the largest day count among the eligible ones, earliest
   * first then by name, at most `needed` of them.
   */
  function FavoriteFallback(pieces: seq<PieceOrTechnique>, used: set<int>, needed: nat, now: int, startOfToday: int)
    : (r: seq<SuggestionItem>)
  {
    var eligible := FavoriteEligibleItems(pieces, used, now, startOfToday);
    match MaxOpt(Map(eligible, DaysSinceOf))
    case None => []
    case Some(maxDays) =>
      Take(SortBy(AtDays(eligible, maxDays), ThenBy(ByIntKey(LastActivityKey), ByUtf16Key(LowerName))), needed)
  }

  /** A non-favourite not yet chosen that has been inactive since 31 days ago, or never active. */
  predicate NonFavoriteFallbackEligible(p: PieceOrTechnique, used: set<int>, now: int)
  {
    var last := LastActivity(p).0;
    IsPiece(p) && !p.isFavorite && p.id !in used && (last.None? || last.value < DaysAgo(now, 31))
  }

  /** The items for the non-favourites eligible as fallback, in piece order. */
  function NonFavoriteEligibleItems(pieces: seq<PieceOrTechnique>, used: set<int>, now: int)
    : (r: seq<SuggestionItem>)
    ensures forall i :: 0 <= i < |r| ==>
              NonFavoriteFallbackEligible(r[i].piece, used, now) && r[i] == PracticeItem(r[i].piece, now)
  {
    if |pieces| == 0 then []
    else
      var rest := NonFavoriteEligibleItems(pieces[1..], used, now);
      if NonFavoriteFallbackEligible(pieces[0], used, now) then [PracticeItem(pieces[0], now)] + rest else rest
  }

  /** Fewest days first, then the latest date, then by name. */
  function AbandonedOrder(): (SuggestionItem, SuggestionItem) -> bool
  {
    ThenBy(ByIntKey(DaysSinceOf), ThenBy(ByIntKeyDesc(LastActivityKey), ByUtf16Key(LowerName)))
  }

  /** The abandoned non-favourites, most recently active first, at most `needed` of them. */
  function NonFavoriteFallback(pieces: seq<PieceOrTechnique>, used: set<int>, needed: nat, now: int)
    : (r: seq<SuggestionItem>)
  {
    Take(SortBy(NonFavoriteEligibleItems(pieces, used, now), AbandonedOrder()), needed)
  }

  /** The due favourites, least recent first. */
  function FavoritesMain(pieces: seq<PieceOrTechnique>, now: int, startOfToday: int): (r: seq<SuggestionItem>)
    ensures forall i :: 0 <= i < |r| ==>
              FavoriteDue(r[i].piece, now, startOfToday) && r[i] == PracticeItem(r[i].piece, now)
  {
    MainList(pieces, (p: PieceOrTechnique) => FavoriteDue(p, now, startOfToday), now)
  }

  /** The due non-favourites, least recent first. */
  function NonFavoritesMain(pieces: seq<PieceOrTechnique>, now: int): (r: seq<SuggestionItem>)
    ensures forall i :: 0 <= i < |r| ==> NonFavoriteDue(r[i].piece, now) && r[i] == PracticeItem(r[i].piece, now)
  {
    MainList(pieces, (p: PieceOrTechnique) => NonFavoriteDue(p, now), now)
  }

  /** How many items a list of `main` items lacks to reach `limit`. */
  function Needed(main: seq<SuggestionItem>, limit: int): nat
  {
    if |main| < limit then limit - |main| else 0
  }

  /**
   * The `main` list, followed by `extra` when it is shorter than `limit`. The
   * fallback is only consulted when needed; being side-effect free, computing
   * it in every case changes nothing.
   */
  function TopUp(main: seq<SuggestionItem>, extra: seq<SuggestionItem>, limit: int): seq<SuggestionItem>
  {
    if |main| < limit then main + extra else main
  }

  /** The due favourites, topped up from the fallback when fewer than `limit`. */
  function ToppedUpFavorites(pieces: seq<PieceOrTechnique>, limit: int, now: int, startOfToday: int)
    : seq<SuggestionItem>
  {
    var main := FavoritesMain(pieces, now, startOfToday);
    TopUp(main, FavoriteFallback(pieces, PieceIds(main), Needed(main, limit), now, startOfToday), limit)
  }

  /** The due non-favourites, topped up from the fallback when fewer than `limit`. */
  function ToppedUpNonFavorites(pieces: seq<PieceOrTechnique>, limit: int, now: int): seq<SuggestionItem>
  {
    var main := NonFavoritesMain(pieces, now);
    TopUp(main, NonFavoriteFallback(pieces, PieceIds(main), Needed(main, limit), now), limit)
  }

  function FinalFavorites(pieces: seq<PieceOrTechnique>, isPro: bool, now: int, startOfToday: int): seq<SuggestionItem>
  {
    ToppedUpFavorites(pieces, PracticeFavoriteLimit(isPro), now, startOfToday)
  }

  function FinalNonFavorites(pieces: seq<PieceOrTechnique>, isPro: bool, now: int): seq<SuggestionItem>
  {
    ToppedUpNonFavorites(pieces, PracticeNonFavoriteLimit(isPro), now)
  }

  function AsPractice(item: SuggestionItem): SuggestionItem
  {
    item.(suggestionType := ForPractice)
  }

  /** generatePracticeSuggestions: favourites, then non-favourites, all tagged as practice. */
  function PracticeSuggestions(pieces: seq<PieceOrTechnique>, isPro: bool, now: int, startOfToday: int)
    : (r: seq<SuggestionItem>)
    ensures forall i :: 0 <= i < |r| ==> r[i].suggestionType == ForPractice
  {
    Map(FinalFavorites(pieces, isPro, now, startOfToday) + FinalNonFavorites(pieces, isPro, now), AsPractice)
  }

  // ---------------------------------------------------------------------------
  // Performance suggestions.
  // ---------------------------------------------------------------------------

  /** The piece's practices at or after 28 days ago. */
  function RecentPractices(acts: seq<Activity>, pieceId: int, now: int): (r: seq<Activity>)
    ensures forall i :: 0 <= i < |r| ==>
              r[i].pieceOrTechniqueId == pieceId && r[i].activityType == PRACTICE && r[i].timestamp >= DaysAgo(now, 28)
  {
    Filter(acts, (a: Activity) => a.pieceOrTechniqueId == pieceId && a.activityType == PRACTICE && a.timestamp >= DaysAgo(now, 28))
  }

  function IsLevelFour(a: Activity): bool
  {
    a.level == 4
  }

  /** Ready to perform: at least three recent practices, one of them at level 4. */
  predicate PerformanceReady(p: PieceOrTechnique, acts: seq<Activity>, now: int)
  {
    var recent := RecentPractices(acts, p.id, now);
    IsPiece(p) && |recent| >= 3 && exists i :: 0 <= i < |recent| && IsLevelFour(recent[i])
  }

  /** First tier: ready, and not performed since 28 days ago. */
  predicate FirstTier(p: PieceOrTechnique, acts: seq<Activity>, now: int)
  {
    PerformanceReady(p, acts, now)
    && (p.lastPerformanceDate.None? || p.lastPerformanceDate.value < DaysAgo(now, 28))
  }

  /** Second tier: ready, performed since 28 days ago, but not today. */
  predicate SecondTier(p: PieceOrTechnique, acts: seq<Activity>, now: int, startOfToday: int)
  {
    PerformanceReady(p, acts, now) && !FirstTier(p, acts, now) && p.lastPerformanceDate.value < startOfToday
  }

  function FirstTierItem(p: PieceOrTechnique, acts: seq<Activity>, now: int): (item: SuggestionItem)
    ensures item.piece == p && item.suggestionType == ForPerformance
  {
    var n := |RecentPractices(acts, p.id, now)|;
    var reason :=
      if p.lastPerformanceDate.None? then NeverPerformed(p.isFavorite, n)
      else PerformedAgo(p.isFavorite, n, DaysSince(now, p.lastPerformanceDate));
    SuggestionItem(p, p.lastPracticeDate, DaysSince(now, p.lastPracticeDate), reason, ForPerformance)
  }

  function SecondTierItem(p: PieceOrTechnique, acts: seq<Activity>, now: int): (item: SuggestionItem)
    ensures item.piece == p && item.suggestionType == ForPerformance
  {
    var days := DaysSince(now, p.lastPerformanceDate);
    SuggestionItem(p, p.lastPerformanceDate, days,
                   PerformedAgo(p.isFavorite, |RecentPractices(acts, p.id, now)|, days), ForPerformance)
  }

  /** Fewest days since the last practice first, then by name. */
  function FirstTierOrder(): (SuggestionItem, SuggestionItem) -> bool
  {
    ThenBy(ByIntKey(DaysSinceOf), ByUtf16Key(LowerName))
  }

  /** Most days since the last performance first, then most recent practices, then by name. */
  function SecondTierOrder(acts: seq<Activity>, now: int): (SuggestionItem, SuggestionItem) -> bool
  {
    var practiceCount := (item: SuggestionItem) => |RecentPractices(acts, item.piece.id, now)|;
    ThenBy(ByIntKeyDesc(DaysSinceOf), ThenBy(ByIntKeyDesc(practiceCount), ByUtf16Key(LowerName)))
  }

  function FirstTierList(pieces: seq<PieceOrTechnique>, acts: seq<Activity>, now: int): (r: seq<SuggestionItem>)
    ensures forall i :: 0 <= i < |r| ==> FirstTier(r[i].piece, acts, now) && r[i].suggestionType == ForPerformance
  {
    var items := Map(Filter(pieces, (p: PieceOrTechnique) => FirstTier(p, acts, now)),
                     (p: PieceOrTechnique) => FirstTierItem(p, acts, now));
    var r := SortBy(items, FirstTierOrder());
    forall i | 0 <= i < |r|
      ensures FirstTier(r[i].piece, acts, now) && r[i].suggestionType == ForPerformance
    {
      assert r[i] in multiset(items);
    }
    r
  }

  function SecondTierList(pieces: seq<PieceOrTechnique>, acts: seq<Activity>, now: int, startOfToday: int)
    : (r: seq<SuggestionItem>)
    ensures forall i :: 0 <= i < |r| ==>
              SecondTier(r[i].piece, acts, now, startOfToday) && r[i].suggestionType == ForPerformance
  {
    var items := Map(Filter(pieces, (p: PieceOrTechnique) => SecondTier(p, acts, now, startOfToday)),
                     (p: PieceOrTechnique) => SecondTierItem(p, acts, now));
    var r := SortBy(items, SecondTierOrder(acts, now));
    forall i | 0 <= i < |r|
      ensures SecondTier(r[i].piece, acts, now, startOfToday) && r[i].suggestionType == ForPerformance
    {
      assert r[i] in multiset(items);
    }
    r
  }

  /** generatePerformanceSuggestions: nothing for free users; first tier, then second, at most five. */
  function PerformanceSuggestions(pieces: seq<PieceOrTechnique>, acts: seq<Activity>, isPro: bool, now: int,
                                  startOfToday: int): (r: seq<SuggestionItem>)
    ensures !isPro ==> r == []
    ensures |r| <= PRO_USER_PERFORMANCE_SUGGESTIONS
  {
    if !isPro then []
    else Take(FirstTierList(pieces, acts, now) + SecondTierList(pieces, acts, now, startOfToday), PRO_USER_PERFORMANCE_SUGGESTIONS)
  }

  // ---------------------------------------------------------------------------
  // All suggestions.
  // ---------------------------------------------------------------------------

  function IsFavoriteItem(item: SuggestionItem): bool
  {
    item.piece.isFavorite
  }

  function IsNonFavoriteItem(item: SuggestionItem): bool
  {
    !item.piece.isFavorite
  }

  /** generateAllSuggestions: the favourites of both lists up to their limit, then the non-favourites up to theirs. */
  function AllSuggestions(pieces: seq<PieceOrTechnique>, acts: seq<Activity>, isPro: bool, now: int, startOfToday: int)
    : (r: seq<SuggestionItem>)
  {
    var all := PracticeSuggestions(pieces, isPro, now, startOfToday) + PerformanceSuggestions(pieces, acts, isPro, now, startOfToday);
    Take(Filter(all, IsFavoriteItem), PracticeFavoriteLimit(isPro)) + Take(Filter(all, IsNonFavoriteItem), PracticeNonFavoriteLimit(isPro))
  }

  // ---------------------------------------------------------------------------
  // Properties.
  // ---------------------------------------------------------------------------

  /** Some item of `items` is for piece `p`. */
  predicate Suggests(items: seq<SuggestionItem>, p: PieceOrTechnique)
  {
    exists i :: 0 <= i < |items| && items[i].piece == p
  }

  lemma MapFilterSuggests(pieces: seq<PieceOrTechnique>, due: PieceOrTechnique -> bool,
                          f: PieceOrTechnique -> SuggestionItem, p: PieceOrTechnique)
    requires forall q :: f(q).piece == q
    ensures Suggests(Map(Filter(pieces, due), f), p) <==> p in pieces && due(p)
  {
    var kept := Filter(pieces, due);
    var items := Map(kept, f);
    if p in pieces && due(p) {
      var k :| 0 <= k < |kept| && kept[k] == p;
      assert items[k].piece == p;
    }
    if Suggests(items, p) {
      var k :| 0 <= k < |items| && items[k].piece == p;
      assert kept[k] == p;
    }
  }

  lemma SortBySuggests(items: seq<SuggestionItem>, le: (SuggestionItem, SuggestionItem) -> bool, p: PieceOrTechnique)
    ensures Suggests(SortBy(items, le), p) <==> Suggests(items, p)
  {
    var r := SortBy(items, le);
    if Suggests(items, p) {
      var k :| 0 <= k < |items| && items[k].piece == p;
      assert items[k] in multiset(r);
    }
    if Suggests(r, p) {
      var k :| 0 <= k < |r| && r[k].piece == p;
      assert r[k] in multiset(items);
    }
  }

  /**
   * The main practice lists: a piece is in the favourite list exactly when it
   * is a due favourite and in the non-favourite list exactly when it is a due
   * non-favourite, each list ordered least recent first.
   */
  lemma MainListsSpec(pieces: seq<PieceOrTechnique>, now: int, startOfToday: int, p: PieceOrTechnique)
    ensures var favorites := FavoritesMain(pieces, now, startOfToday);
            var others := NonFavoritesMain(pieces, now);
            (Suggests(favorites, p) <==> p in pieces && FavoriteDue(p, now, startOfToday))
            && (Suggests(others, p) <==> p in pieces && NonFavoriteDue(p, now))
            && SortedBy(favorites, ByIntKey(LastActivityKey)) && SortedBy(others, ByIntKey(LastActivityKey))
  {
    var item := (q: PieceOrTechnique) => PracticeItem(q, now);
    var fav := (q: PieceOrTechnique) => FavoriteDue(q, now, startOfToday);
    var other := (q: PieceOrTechnique) => NonFavoriteDue(q, now);
    MapFilterSuggests(pieces, fav, item, p);
    MapFilterSuggests(pieces, other, item, p);
    SortBySuggests(Map(Filter(pieces, fav), item), ByIntKey(LastActivityKey), p);
    SortBySuggests(Map(Filter(pieces, other), item), ByIntKey(LastActivityKey), p);
    ByIntKeyTotalPreorder(LastActivityKey);
    SortBySorted(Map(Filter(pieces, fav), item), ByIntKey(LastActivityKey));
    SortBySorted(Map(Filter(pieces, other), item), ByIntKey(LastActivityKey));
  }

  /** A piece gets an eligible-favourite item exactly when it is in the list and eligible. */
  lemma {:induction false} FavoriteEligibleItemsSuggest(pieces: seq<PieceOrTechnique>, used: set<int>, now: int,
                                                        startOfToday: int, q: PieceOrTechnique)
    ensures Suggests(FavoriteEligibleItems(pieces, used, now, startOfToday), q)
            <==> q in pieces && FavoriteFallbackEligible(q, used, startOfToday)
  {
    if |pieces| > 0 {
      FavoriteEligibleItemsSuggest(pieces[1..], used, now, startOfToday, q);
      var rest := FavoriteEligibleItems(pieces[1..], used, now, startOfToday);
      var r := FavoriteEligibleItems(pieces, used, now, startOfToday);
      assert pieces == [pieces[0]] + pieces[1..];
      if FavoriteFallbackEligible(pieces[0], used, startOfToday) {
        assert r[0].piece == pieces[0];
        assert forall k :: 0 <= k < |rest| ==> r[k + 1] == rest[k];
        if Suggests(r, q) && q != pieces[0] {
          var k :| 0 <= k < |r| && r[k].piece == q;
          assert rest[k - 1].piece == q;
        }
      }
    }
  }

  lemma {:induction false} NonFavoriteEligibleItemsSuggest(pieces: seq<PieceOrTechnique>, used: set<int>, now: int,
                                                           q: PieceOrTechnique)
    ensures Suggests(NonFavoriteEligibleItems(pieces, used, now), q)
            <==> q in pieces && NonFavoriteFallbackEligible(q, used, now)
  {
    if |pieces| > 0 {
      NonFavoriteEligibleItemsSuggest(pieces[1..], used, now, q);
      var rest := NonFavoriteEligibleItems(pieces[1..], used, now);
      var r := NonFavoriteEligibleItems(pieces, used, now);
      assert pieces == [pieces[0]] + pieces[1..];
      if NonFavoriteFallbackEligible(pieces[0], used, now) {
        assert r[0].piece == pieces[0];
        assert forall k :: 0 <= k < |rest| ==> r[k + 1] == rest[k];
        if Suggests(r, q) && q != pieces[0] {
          var k :| 0 <= k < |r| && r[k].piece == q;
          assert rest[k - 1].piece == q;
        }
      }
    }
  }

  /**
   * The favourite fallback takes at most `needed` eligible favourites: not yet
   * used, and no activity today.
   */
  lemma FavoriteFallbackSound(pieces: seq<PieceOrTechnique>, used: set<int>, needed: nat, now: int, startOfToday: int)
    ensures var r := FavoriteFallback(pieces, used, needed, now, startOfToday);
            |r| <= needed
            && forall i :: 0 <= i < |r| ==>
                 FavoriteFallbackEligible(r[i].piece, used, startOfToday) && r[i] == PracticeItem(r[i].piece, now)
  {
    var eligible := FavoriteEligibleItems(pieces, used, now, startOfToday);
    var days := Map(eligible, DaysSinceOf);
    var r := FavoriteFallback(pieces, used, needed, now, startOfToday);
    if MaxOpt(days).Some? {
      var maxDays := MaxOpt(days).value;
      var candidates := AtDays(eligible, maxDays);
      var sorted := SortBy(candidates, ThenBy(ByIntKey(LastActivityKey), ByUtf16Key(LowerName)));
      forall i | 0 <= i < |r|
        ensures r[i] in eligible
      {
        assert r[i] == sorted[i];
        assert sorted[i] in multiset(candidates);
      }
    }
  }

  /** Each favourite the fallback takes has the largest day count among all the eligible ones. */
  lemma FavoriteFallbackMaximal(pieces: seq<PieceOrTechnique>, used: set<int>, needed: nat, now: int,
                                startOfToday: int)
    ensures var r := FavoriteFallback(pieces, used, needed, now, startOfToday);
            forall i, q :: 0 <= i < |r| && q in pieces && FavoriteFallbackEligible(q, used, startOfToday) ==>
              PracticeItem(q, now).daysSinceLastActivity <= r[i].daysSinceLastActivity
  {
    var eligible := FavoriteEligibleItems(pieces, used, now, startOfToday);
    var days := Map(eligible, DaysSinceOf);
    var r := FavoriteFallback(pieces, used, needed, now, startOfToday);
    if MaxOpt(days).Some? {
      var maxDays := MaxOpt(days).value;
      var candidates := AtDays(eligible, maxDays);
      var sorted := SortBy(candidates, ThenBy(ByIntKey(LastActivityKey), ByUtf16Key(LowerName)));
      forall i | 0 <= i < |r|
        ensures r[i].daysSinceLastActivity == maxDays
      {
        assert r[i] == sorted[i];
        assert sorted[i] in multiset(candidates);
      }
      forall i, q | 0 <= i < |r| && q in pieces && FavoriteFallbackEligible(q, used, startOfToday)
        ensures PracticeItem(q, now).daysSinceLastActivity <= r[i].daysSinceLastActivity
      {
        FavoriteEligibleItemsSuggest(pieces, used, now, startOfToday, q);
        var k :| 0 <= k < |eligible| && eligible[k].piece == q;
        assert days[k] in days;
      }
    }
  }

  /** The favourite fallback is empty only when nothing is needed or no favourite is eligible. */
  lemma FavoriteFallbackEmpty(pieces: seq<PieceOrTechnique>, used: set<int>, needed: nat, now: int, startOfToday: int)
    ensures FavoriteFallback(pieces, used, needed, now, startOfToday) == []
            <==> needed == 0 || forall q :: q in pieces ==> !FavoriteFallbackEligible(q, used, startOfToday)
  {
    var eligible := FavoriteEligibleItems(pieces, used, now, startOfToday);
    var days := Map(eligible, DaysSinceOf);
    if MaxOpt(days).Some? {
      var maxDays := MaxOpt(days).value;
      var m :| 0 <= m < |days| && days[m] == maxDays;
      var candidates := AtDays(eligible, maxDays);
      assert eligible[m] in candidates;
      var sorted := SortBy(candidates, ThenBy(ByIntKey(LastActivityKey), ByUtf16Key(LowerName)));
      assert |sorted| > 0;
      FavoriteEligibleItemsSuggest(pieces, used, now, startOfToday, eligible[m].piece);
    } else if exists q :: q in pieces && FavoriteFallbackEligible(q, used, startOfToday) {
      var q :| q in pieces && FavoriteFallbackEligible(q, used, startOfToday);
      FavoriteEligibleItemsSuggest(pieces, used, now, startOfToday, q);
    }
  }

  /**
   * The non-favourite fallback takes at most `needed` eligible non-favourites:
   * not yet used, and inactive since 31 days ago.
   */
  lemma NonFavoriteFallbackSound(pieces: seq<PieceOrTechnique>, used: set<int>, needed: nat, now: int)
    ensures var r := NonFavoriteFallback(pieces, used, needed, now);
            |r| <= needed
            && forall i :: 0 <= i < |r| ==>
                 NonFavoriteFallbackEligible(r[i].piece, used, now) && r[i] == PracticeItem(r[i].piece, now)
  {
    var eligible := NonFavoriteEligibleItems(pieces, used, now);
    var sorted := SortBy(eligible, AbandonedOrder());
    var r := NonFavoriteFallback(pieces, used, needed, now);
    forall i | 0 <= i < |r|
      ensures r[i] in eligible
    {
      assert r[i] == sorted[i];
      assert sorted[i] in multiset(eligible);
    }
  }

  /** The non-favourite fallback lists the fewest days since the last activity first. */
  lemma NonFavoriteFallbackOrdered(pieces: seq<PieceOrTechnique>, used: set<int>, needed: nat, now: int)
    ensures DaysAscendingFrom(NonFavoriteFallback(pieces, used, needed, now), 0)
  {
    var eligible := NonFavoriteEligibleItems(pieces, used, now);
    var sorted := SortBy(eligible, AbandonedOrder());
    var r := NonFavoriteFallback(pieces, used, needed, now);
    AbandonedOrderTotal();
    SortBySorted(eligible, AbandonedOrder());
    forall i, j | 0 <= i < j < |r|
      ensures r[i].daysSinceLastActivity <= r[j].daysSinceLastActivity
    {
      assert r[i] == sorted[i] && r[j] == sorted[j];
      assert AbandonedOrder()(sorted[i], sorted[j]);
      AbandonedOrderDays(sorted[i], sorted[j]);
    }
  }

  /** The non-favourite fallback is empty only when nothing is needed or nothing is eligible. */
  lemma NonFavoriteFallbackEmpty(pieces: seq<PieceOrTechnique>, used: set<int>, needed: nat, now: int)
    ensures NonFavoriteFallback(pieces, used, needed, now) == []
            <==> needed == 0 || forall q :: q in pieces ==> !NonFavoriteFallbackEligible(q, used, now)
  {
    if exists q :: q in pieces && NonFavoriteFallbackEligible(q, used, now) {
      var q :| q in pieces && NonFavoriteFallbackEligible(q, used, now);
      NonFavoriteEligibleItemsSuggest(pieces, used, now, q);
      assert |SortBy(NonFavoriteEligibleItems(pieces, used, now), AbandonedOrder())| > 0;
    } else {
      var eligible := NonFavoriteEligibleItems(pieces, used, now);
      if |eligible| > 0 {
        NonFavoriteEligibleItemsSuggest(pieces, used, now, eligible[0].piece);
        assert false;
      }
    }
  }

  lemma AbandonedOrderDays(a: SuggestionItem, b: SuggestionItem)
    requires AbandonedOrder()(a, b)
    ensures a.daysSinceLastActivity <= b.daysSinceLastActivity
  {
    var second := ThenBy(ByIntKeyDesc(LastActivityKey), ByUtf16Key(LowerName));
    assert AbandonedOrder() == ThenBy(ByIntKey(DaysSinceOf), second);
    assert ByIntKey(DaysSinceOf)(a, b);
    assert DaysSinceOf(a) <= DaysSinceOf(b);
  }

  lemma AbandonedOrderTotal()
    ensures TotalPreorder(AbandonedOrder())
  {
    ByIntKeyTotalPreorder(DaysSinceOf);
    ByIntKeyTotalPreorder(LastActivityKey);
    ByUtf16KeyTotalPreorder(LowerName);
    ThenByTotalPreorder(ByIntKeyDesc(LastActivityKey), ByUtf16Key(LowerName));
    ThenByTotalPreorder(ByIntKey(DaysSinceOf), ThenBy(ByIntKeyDesc(LastActivityKey), ByUtf16Key(LowerName)));
  }

  /**
   * The favourite practice list starts with the due favourites, and when they
   * are fewer than the limit it is topped up to at most the limit.
   */
  lemma ToppedUpFavoritesShape(pieces: seq<PieceOrTechnique>, limit: int, now: int, startOfToday: int)
    ensures var main := FavoritesMain(pieces, now, startOfToday);
            var r := ToppedUpFavorites(pieces, limit, now, startOfToday);
            main <= r && (|main| >= limit ==> r == main) && (|main| < limit ==> |r| <= limit)
  {
    var main := FavoritesMain(pieces, now, startOfToday);
    if |main| < limit {
      FavoriteFallbackSound(pieces, PieceIds(main), limit - |main|, now, startOfToday);
    }
  }

  /** The item is the practice item of a piece whose favourite flag is `fav`. */
  predicate PracticeItemOf(item: SuggestionItem, fav: bool, now: int)
  {
    IsPiece(item.piece) && item.piece.isFavorite == fav && item == PracticeItem(item.piece, now)
  }

  /** Every item is the practice item of a piece whose favourite flag is `fav`, checked head first. */
  predicate PracticeItemsOf(items: seq<SuggestionItem>, fav: bool, now: int)
    decreases |items|
  {
    |items| == 0 || (PracticeItemOf(items[0], fav, now) && PracticeItemsOf(items[1..], fav, now))
  }

  lemma {:induction false} PracticeItemsOfSpec(items: seq<SuggestionItem>, fav: bool, now: int)
    ensures PracticeItemsOf(items, fav, now) <==> forall i :: 0 <= i < |items| ==> PracticeItemOf(items[i], fav, now)
    decreases |items|
  {
    if |items| > 0 {
      PracticeItemsOfSpec(items[1..], fav, now);
      assert forall i :: 1 <= i < |items| ==> items[1..][i - 1] == items[i];
    }
  }

  /** Practice items of pieces with one favourite flag stay so when two lists are joined. */
  lemma {:induction false} PracticeItemsConcat(a: seq<SuggestionItem>, b: seq<SuggestionItem>, fav: bool, now: int)
    requires PracticeItemsOf(a, fav, now) && PracticeItemsOf(b, fav, now)
    ensures PracticeItemsOf(a + b, fav, now)
    decreases |a|
  {
    if |a| > 0 {
      PracticeItemsConcat(a[1..], b, fav, now);
      assert (a + b)[0] == a[0] && (a + b)[1..] == a[1..] + b;
    } else {
      assert a + b == b;
    }
  }

  lemma FavoritesMainPractice(pieces: seq<PieceOrTechnique>, now: int, startOfToday: int)
    ensures PracticeItemsOf(FavoritesMain(pieces, now, startOfToday), true, now)
  {
    PracticeItemsOfSpec(FavoritesMain(pieces, now, startOfToday), true, now);
  }

  lemma FavoriteFallbackPractice(pieces: seq<PieceOrTechnique>, used: set<int>, needed: nat, now: int, startOfToday: int)
    ensures PracticeItemsOf(FavoriteFallback(pieces, used, needed, now, startOfToday), true, now)
  {
    FavoriteFallbackSound(pieces, used, needed, now, startOfToday);
    PracticeItemsOfSpec(FavoriteFallback(pieces, used, needed, now, startOfToday), true, now);
  }

  /** Every item of the favourite practice list is the practice item of a favourite piece. */
  lemma ToppedUpFavoritesItems(pieces: seq<PieceOrTechnique>, limit: int, now: int, startOfToday: int)
    ensures PracticeItemsOf(ToppedUpFavorites(pieces, limit, now, startOfToday), true, now)
  {
    var main := FavoritesMain(pieces, now, startOfToday);
    FavoritesMainPractice(pieces, now, startOfToday);
    FavoriteFallbackPractice(pieces, PieceIds(main), Needed(main, limit), now, startOfToday);
    TopUpPractice(main, FavoriteFallback(pieces, PieceIds(main), Needed(main, limit), now, startOfToday), limit, true, now);
  }

  /** The items after the due favourites are eligible favourites not already listed. */
  lemma ToppedUpFavoritesExtra(pieces: seq<PieceOrTechnique>, limit: int, now: int, startOfToday: int)
    ensures var main := FavoritesMain(pieces, now, startOfToday);
            var r := ToppedUpFavorites(pieces, limit, now, startOfToday);
            forall i :: |main| <= i < |r| ==> FavoriteFallbackEligible(r[i].piece, PieceIds(main), startOfToday)
  {
    var main := FavoritesMain(pieces, now, startOfToday);
    if |main| < limit {
      FavoriteFallbackSound(pieces, PieceIds(main), limit - |main|, now, startOfToday);
      FavoriteSuffixEligible(main, FavoriteFallback(pieces, PieceIds(main), limit - |main|, now, startOfToday),
                             PieceIds(main), startOfToday);
      ToppedUpFavoritesJoin(pieces, limit, now, startOfToday);
    }
  }

  /** Below the limit the favourite list is the due list followed by the fallback. */
  lemma ToppedUpFavoritesJoin(pieces: seq<PieceOrTechnique>, limit: int, now: int, startOfToday: int)
    ensures var main := FavoritesMain(pieces, now, startOfToday);
            |main| < limit ==>
              ToppedUpFavorites(pieces, limit, now, startOfToday)
              == main + FavoriteFallback(pieces, PieceIds(main), limit - |main|, now, startOfToday)
  {
  }

  lemma FavoriteSuffixEligible(main: seq<SuggestionItem>, extra: seq<SuggestionItem>, used: set<int>, startOfToday: int)
    requires forall i :: 0 <= i < |extra| ==> FavoriteFallbackEligible(extra[i].piece, used, startOfToday)
    ensures forall i :: |main| <= i < |main + extra| ==> FavoriteFallbackEligible((main + extra)[i].piece, used, startOfToday)
  {
    var r := main + extra;
    forall i | |main| <= i < |r|
      ensures FavoriteFallbackEligible(r[i].piece, used, startOfToday)
    {
      assert r[i] == extra[i - |main|];
    }
  }


  /**
   * The non-favourite practice list starts with the due non-favourites, and
   * when they are fewer than the limit it is topped up to at most the limit.
   */
  lemma ToppedUpNonFavoritesShape(pieces: seq<PieceOrTechnique>, limit: int, now: int)
    ensures var main := NonFavoritesMain(pieces, now);
            var r := ToppedUpNonFavorites(pieces, limit, now);
            main <= r && (|main| >= limit ==> r == main) && (|main| < limit ==> |r| <= limit)
  {
    var main := NonFavoritesMain(pieces, now);
    if |main| < limit {
      NonFavoriteFallbackSound(pieces, PieceIds(main), limit - |main|, now);
    }
  }

  lemma NonFavoritesMainPractice(pieces: seq<PieceOrTechnique>, now: int)
    ensures PracticeItemsOf(NonFavoritesMain(pieces, now), false, now)
  {
    PracticeItemsOfSpec(NonFavoritesMain(pieces, now), false, now);
  }

  lemma NonFavoriteFallbackPractice(pieces: seq<PieceOrTechnique>, used: set<int>, needed: nat, now: int)
    ensures PracticeItemsOf(NonFavoriteFallback(pieces, used, needed, now), false, now)
  {
    NonFavoriteFallbackSound(pieces, used, needed, now);
    PracticeItemsOfSpec(NonFavoriteFallback(pieces, used, needed, now), false, now);
  }

  /** Every item of the non-favourite practice list is the practice item of a non-favourite piece. */
  lemma ToppedUpNonFavoritesItems(pieces: seq<PieceOrTechnique>, limit: int, now: int)
    ensures PracticeItemsOf(ToppedUpNonFavorites(pieces, limit, now), false, now)
  {
    var main := NonFavoritesMain(pieces, now);
    NonFavoritesMainPractice(pieces, now);
    NonFavoriteFallbackPractice(pieces, PieceIds(main), Needed(main, limit), now);
    TopUpPractice(main, NonFavoriteFallback(pieces, PieceIds(main), Needed(main, limit), now), limit, false, now);
  }

  /** Topping up a list of practice items with more of them gives practice items. */
  lemma TopUpPractice(main: seq<SuggestionItem>, extra: seq<SuggestionItem>, limit: int, fav: bool, now: int)
    requires PracticeItemsOf(main, fav, now) && PracticeItemsOf(extra, fav, now)
    ensures PracticeItemsOf(TopUp(main, extra, limit), fav, now)
  {
    if |main| < limit {
      PracticeItemsConcat(main, extra, fav, now);
    }
  }

  /** The items after the due non-favourites are abandoned non-favourites not already listed. */
  lemma ToppedUpNonFavoritesExtra(pieces: seq<PieceOrTechnique>, limit: int, now: int)
    ensures var main := NonFavoritesMain(pieces, now);
            var r := ToppedUpNonFavorites(pieces, limit, now);
            forall i :: |main| <= i < |r| ==> NonFavoriteFallbackEligible(r[i].piece, PieceIds(main), now)
  {
    var main := NonFavoritesMain(pieces, now);
    if |main| < limit {
      NonFavoriteFallbackSound(pieces, PieceIds(main), limit - |main|, now);
      NonFavoriteSuffixEligible(main, NonFavoriteFallback(pieces, PieceIds(main), limit - |main|, now), PieceIds(main), now);
      ToppedUpNonFavoritesJoin(pieces, limit, now);
    }
  }

  lemma NonFavoriteSuffixEligible(main: seq<SuggestionItem>, extra: seq<SuggestionItem>, used: set<int>, now: int)
    requires forall i :: 0 <= i < |extra| ==> NonFavoriteFallbackEligible(extra[i].piece, used, now)
    ensures forall i :: |main| <= i < |main + extra| ==> NonFavoriteFallbackEligible((main + extra)[i].piece, used, now)
  {
    var r := main + extra;
    forall i | |main| <= i < |r|
      ensures NonFavoriteFallbackEligible(r[i].piece, used, now)
    {
      assert r[i] == extra[i - |main|];
    }
  }


  /** Below the limit the non-favourite list is the due list followed by the fallback. */
  lemma ToppedUpNonFavoritesJoin(pieces: seq<PieceOrTechnique>, limit: int, now: int)
    ensures var main := NonFavoritesMain(pieces, now);
            |main| < limit ==> ToppedUpNonFavorites(pieces, limit, now) == main + NonFavoriteFallback(pieces, PieceIds(main), limit - |main|, now)
  {
  }

  /** From position `k` on, the items come in non-decreasing order of days since the last activity. */
  predicate DaysAscendingFrom(s: seq<SuggestionItem>, k: nat)
  {
    forall i, j :: k <= i < j < |s| ==> s[i].daysSinceLastActivity <= s[j].daysSinceLastActivity
  }

  /** A list ordered by day count stays so as the suffix of a longer list. */
  lemma SuffixDaysOrdered(main: seq<SuggestionItem>, extra: seq<SuggestionItem>)
    requires DaysAscendingFrom(extra, 0)
    ensures DaysAscendingFrom(main + extra, |main|)
  {
    var r := main + extra;
    forall i, j | |main| <= i < j < |r|
      ensures r[i].daysSinceLastActivity <= r[j].daysSinceLastActivity
    {
      assert r[i] == extra[i - |main|] && r[j] == extra[j - |main|];
    }
  }

  /** The items after the due non-favourites come fewest days first. */
  lemma ToppedUpNonFavoritesExtraOrdered(pieces: seq<PieceOrTechnique>, limit: int, now: int)
    ensures var main := NonFavoritesMain(pieces, now);
            DaysAscendingFrom(ToppedUpNonFavorites(pieces, limit, now), |main|)
  {
    var main := NonFavoritesMain(pieces, now);
    if |main| < limit {
      NonFavoriteFallbackOrdered(pieces, PieceIds(main), limit - |main|, now);
      SuffixDaysOrdered(main, NonFavoriteFallback(pieces, PieceIds(main), limit - |main|, now));
      ToppedUpNonFavoritesJoin(pieces, limit, now);
    }
  }

  /**
   * The practice suggestions are the favourite list followed by the
   * non-favourite list, unchanged by the retagging as practice.
   */
  lemma PracticeSuggestionsSpec(pieces: seq<PieceOrTechnique>, isPro: bool, now: int, startOfToday: int)
    ensures var favorites := FinalFavorites(pieces, isPro, now, startOfToday);
            var others := FinalNonFavorites(pieces, isPro, now);
            var r := PracticeSuggestions(pieces, isPro, now, startOfToday);
            r == favorites + others
            && (forall i :: 0 <= i < |r| ==> IsPiece(r[i].piece))
            && (forall i :: 0 <= i < |r| ==> (IsFavoriteItem(r[i]) <==> i < |favorites|))
  {
    ToppedUpFavoritesItems(pieces, PracticeFavoriteLimit(isPro), now, startOfToday);
    ToppedUpNonFavoritesItems(pieces, PracticeNonFavoriteLimit(isPro), now);
    PracticeJoin(FinalFavorites(pieces, isPro, now, startOfToday), FinalNonFavorites(pieces, isPro, now), now);
  }

  /** Favourite practice items followed by non-favourite ones: pieces only, favourites exactly up front. */
  lemma PracticeJoin(favorites: seq<SuggestionItem>, others: seq<SuggestionItem>, now: int)
    requires PracticeItemsOf(favorites, true, now) && PracticeItemsOf(others, false, now)
    ensures var r := favorites + others;
            Map(r, AsPractice) == r
            && (forall i :: 0 <= i < |r| ==> IsPiece(r[i].piece))
            && (forall i :: 0 <= i < |r| ==> (IsFavoriteItem(r[i]) <==> i < |favorites|))
  {
    var r := favorites + others;
    PracticeItemsOfSpec(favorites, true, now);
    PracticeItemsOfSpec(others, false, now);
    forall i | 0 <= i < |r|
      ensures PracticeItemOf(r[i], i < |favorites|, now)
    {
      if i < |favorites| {
        assert r[i] == favorites[i];
      } else {
        assert r[i] == others[i - |favorites|];
      }
    }
    AsPracticeUnchanged(r);
  }

  /** Retagging as practice changes nothing in a list of practice items. */
  lemma AsPracticeUnchanged(items: seq<SuggestionItem>)
    requires forall i :: 0 <= i < |items| ==> items[i].suggestionType == ForPractice
    ensures Map(items, AsPractice) == items
  {
  }


  /** A piece is in a tier list exactly when it is in the list of pieces and in that tier. */
  lemma TierListsSuggest(pieces: seq<PieceOrTechnique>, acts: seq<Activity>, now: int, startOfToday: int,
                         p: PieceOrTechnique)
    ensures Suggests(FirstTierList(pieces, acts, now), p) <==> p in pieces && FirstTier(p, acts, now)
    ensures Suggests(SecondTierList(pieces, acts, now, startOfToday), p)
            <==> p in pieces && SecondTier(p, acts, now, startOfToday)
  {
    var first := (q: PieceOrTechnique) => FirstTier(q, acts, now);
    var second := (q: PieceOrTechnique) => SecondTier(q, acts, now, startOfToday);
    var firstItem := (q: PieceOrTechnique) => FirstTierItem(q, acts, now);
    var secondItem := (q: PieceOrTechnique) => SecondTierItem(q, acts, now);
    MapFilterSuggests(pieces, first, firstItem, p);
    MapFilterSuggests(pieces, second, secondItem, p);
    SortBySuggests(Map(Filter(pieces, first), firstItem), FirstTierOrder(), p);
    SortBySuggests(Map(Filter(pieces, second), secondItem), SecondTierOrder(acts, now), p);
  }

  /** The first `n` of the first tier followed by the second: first-tier items first, all of a tier. */
  lemma TiersPrefix(pieces: seq<PieceOrTechnique>, acts: seq<Activity>, now: int, startOfToday: int, n: nat)
    ensures var r := Take(FirstTierList(pieces, acts, now) + SecondTierList(pieces, acts, now, startOfToday), n);
            (forall i :: 0 <= i < |r| ==> r[i].suggestionType == ForPerformance)
            && (forall i :: 0 <= i < |r| ==>
                  FirstTier(r[i].piece, acts, now) || SecondTier(r[i].piece, acts, now, startOfToday))
            && (forall i, j :: 0 <= i < j < |r| && FirstTier(r[j].piece, acts, now) ==> FirstTier(r[i].piece, acts, now))
  {
    TakeTiers(FirstTierList(pieces, acts, now), SecondTierList(pieces, acts, now, startOfToday), acts, now, startOfToday, n);
  }

  /** Any prefix of a first-tier list followed by a second-tier list keeps the tiers apart and in order. */
  lemma TakeTiers(first: seq<SuggestionItem>, second: seq<SuggestionItem>, acts: seq<Activity>, now: int,
                  startOfToday: int, n: nat)
    requires forall i :: 0 <= i < |first| ==> FirstTier(first[i].piece, acts, now) && first[i].suggestionType == ForPerformance
    requires forall i :: 0 <= i < |second| ==>
               SecondTier(second[i].piece, acts, now, startOfToday) && second[i].suggestionType == ForPerformance
    ensures var r := Take(first + second, n);
            (forall i :: 0 <= i < |r| ==> r[i].suggestionType == ForPerformance)
            && (forall i :: 0 <= i < |r| ==>
                  FirstTier(r[i].piece, acts, now) || SecondTier(r[i].piece, acts, now, startOfToday))
            && (forall i, j :: 0 <= i < j < |r| && FirstTier(r[j].piece, acts, now) ==> FirstTier(r[i].piece, acts, now))
  {
    var r := Take(first + second, n);
    forall i | 0 <= i < |r|
      ensures r[i].suggestionType == ForPerformance
      ensures FirstTier(r[i].piece, acts, now) || SecondTier(r[i].piece, acts, now, startOfToday)
      ensures FirstTier(r[i].piece, acts, now) <==> i < |first|
    {
      if i < |first| {
        assert r[i] == first[i];
      } else {
        assert r[i] == second[i - |first|];
      }
    }
  }

  /**
   * Every performance suggestion is for a ready piece of the first or second
   * tier, and the first tier comes first.
   */
  lemma PerformanceSuggestionsSound(pieces: seq<PieceOrTechnique>, acts: seq<Activity>, isPro: bool, now: int,
                                    startOfToday: int)
    ensures var r := PerformanceSuggestions(pieces, acts, isPro, now, startOfToday);
            (forall i :: 0 <= i < |r| ==> r[i].suggestionType == ForPerformance)
            && (forall i :: 0 <= i < |r| ==>
                  FirstTier(r[i].piece, acts, now) || SecondTier(r[i].piece, acts, now, startOfToday))
            && (forall i, j :: 0 <= i < j < |r| && FirstTier(r[j].piece, acts, now) ==> FirstTier(r[i].piece, acts, now))
  {
    if isPro {
      TiersPrefix(pieces, acts, now, startOfToday, PRO_USER_PERFORMANCE_SUGGESTIONS);
    }
  }

  /**
   * No suggested piece was performed today, when today started within the
   * last 28 days.
   */
  lemma PerformanceSuggestionsNotToday(pieces: seq<PieceOrTechnique>, acts: seq<Activity>, isPro: bool, now: int,
                                       startOfToday: int)
    requires DaysAgo(now, 28) <= startOfToday
    ensures var r := PerformanceSuggestions(pieces, acts, isPro, now, startOfToday);
            forall i :: 0 <= i < |r| ==>
              r[i].piece.lastPerformanceDate.None? || r[i].piece.lastPerformanceDate.value < startOfToday
  {
    PerformanceSuggestionsSound(pieces, acts, isPro, now, startOfToday);
  }

  /** Some item of a concatenation is for `p` exactly when some item of either part is. */
  lemma SuggestsConcat(a: seq<SuggestionItem>, b: seq<SuggestionItem>, p: PieceOrTechnique)
    ensures Suggests(a + b, p) <==> Suggests(a, p) || Suggests(b, p)
  {
    if Suggests(a + b, p) {
      var k :| 0 <= k < |a + b| && (a + b)[k].piece == p;
      if k >= |a| {
        assert b[k - |a|].piece == p;
      }
    }
    if Suggests(b, p) {
      var k :| 0 <= k < |b| && b[k].piece == p;
      assert (a + b)[|a| + k].piece == p;
    }
    if Suggests(a, p) {
      var k :| 0 <= k < |a| && a[k].piece == p;
      assert (a + b)[k].piece == p;
    }
  }

  /** Only pieces of the list are offered for performance. */
  lemma PerformanceSuggestionsFromPieces(pieces: seq<PieceOrTechnique>, acts: seq<Activity>, isPro: bool, now: int,
                                         startOfToday: int, p: PieceOrTechnique)
    ensures Suggests(PerformanceSuggestions(pieces, acts, isPro, now, startOfToday), p) ==> p in pieces
  {
    var first := FirstTierList(pieces, acts, now);
    var second := SecondTierList(pieces, acts, now, startOfToday);
    var r := PerformanceSuggestions(pieces, acts, isPro, now, startOfToday);
    if Suggests(r, p) {
      var k :| 0 <= k < |r| && r[k].piece == p;
      assert (first + second)[k] == r[k];
      SuggestsConcat(first, second, p);
      TierListsSuggest(pieces, acts, now, startOfToday, p);
    }
  }

  /**
   * A Pro user with fewer than five performance suggestions is offered every
   * piece of the first and second tiers.
   */
  lemma PerformanceSuggestionsComplete(pieces: seq<PieceOrTechnique>, acts: seq<Activity>, isPro: bool, now: int,
                                       startOfToday: int, p: PieceOrTechnique)
    requires isPro && p in pieces && (FirstTier(p, acts, now) || SecondTier(p, acts, now, startOfToday))
    ensures var r := PerformanceSuggestions(pieces, acts, isPro, now, startOfToday);
            |r| < PRO_USER_PERFORMANCE_SUGGESTIONS ==> Suggests(r, p)
  {
    var first := FirstTierList(pieces, acts, now);
    var second := SecondTierList(pieces, acts, now, startOfToday);
    var r := PerformanceSuggestions(pieces, acts, isPro, now, startOfToday);
    if |r| < PRO_USER_PERFORMANCE_SUGGESTIONS {
      assert r == first + second;
      TierListsSuggest(pieces, acts, now, startOfToday, p);
      SuggestsConcat(first, second, p);
    }
  }

  /**
   * All suggestions: the favourites of the practice and performance lists, in
   * order and up to the favourite limit, then the non-favourites likewise.
   */
  lemma AllSuggestionsSpec(pieces: seq<PieceOrTechnique>, acts: seq<Activity>, isPro: bool, now: int,
                           startOfToday: int)
    ensures var all := PracticeSuggestions(pieces, isPro, now, startOfToday)
                       + PerformanceSuggestions(pieces, acts, isPro, now, startOfToday);
            var r := AllSuggestions(pieces, acts, isPro, now, startOfToday);
            var favorites := Filter(r, IsFavoriteItem);
            var others := Filter(r, IsNonFavoriteItem);
            favorites <= Filter(all, IsFavoriteItem)
            && |favorites| == Min(|Filter(all, IsFavoriteItem)|, PracticeFavoriteLimit(isPro))
            && others <= Filter(all, IsNonFavoriteItem)
            && |others| == Min(|Filter(all, IsNonFavoriteItem)|, PracticeNonFavoriteLimit(isPro))
            && (forall i, j :: 0 <= i < j < |r| && IsFavoriteItem(r[j]) ==> IsFavoriteItem(r[i]))
            && (forall x :: x in r ==> x in all)
  {
    var all := PracticeSuggestions(pieces, isPro, now, startOfToday)
               + PerformanceSuggestions(pieces, acts, isPro, now, startOfToday);
    TakeFilters(all, IsFavoriteItem, IsNonFavoriteItem, PracticeFavoriteLimit(isPro), PracticeNonFavoriteLimit(isPro));
  }
}
