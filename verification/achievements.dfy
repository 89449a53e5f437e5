/**
 * Achievements (Achievement.kt, AchievementDefinitions.kt and
 * AchievementManager.kt): the thirteen definitions, the achievement table
 * keyed by type, unlocking, the refresh of definitions that keeps unlock
 * state, start-up initialisation and retroactive detection from the stored
 * pieces and activities. The table is a map from type to row, as the type is
 * the primary key; the clock is a parameter.
 */
module Achievements {
  import opened Wrappers
  import opened Seqs
  import opened Text
  import opened Entities
  import opened Streak

  datatype AchievementType =
    | FIRST_PIECE
    | FIRST_TECHNIQUE
    | FIRST_PRACTICE
    | FIRST_PERFORMANCE
    | FIRST_ONLINE_PERFORMANCE
    | FIRST_LIVE_PERFORMANCE
    | STREAK_3_DAYS
    | STREAK_5_DAYS
    | STREAK_8_DAYS
    | STREAK_14_DAYS
    | STREAK_30_DAYS
    | STREAK_61_DAYS
    | STREAK_100_DAYS

  datatype Achievement = Achievement(
    achievementType: AchievementType,
    title: string,
    description: string,
    iconEmoji: string,
    isUnlocked: bool,
    unlockedAt: Option<int>,
    dateCreated: int)

  /** A definition as the constructor's defaults create it: locked, never unlocked, created now. */
  function Define(t: AchievementType, title: string, description: string, icon: string, now: int): (a: Achievement)
    ensures a.achievementType == t && !a.isUnlocked && a.unlockedAt.None? && a.dateCreated == now
  {
    Achievement(t, title, description, icon, false, None, now)
  }

  // ---------------------------------------------------------------------------
  // The definitions.

  function Title(t: AchievementType): string
  {
    match t
    case FIRST_PIECE => "First Steps"
    case FIRST_TECHNIQUE => "Skill Builder"
    case FIRST_PRACTICE => "Practice Makes Perfect"
    case FIRST_PERFORMANCE => "Debut Performance"
    case FIRST_ONLINE_PERFORMANCE => "Digital Debut"
    case FIRST_LIVE_PERFORMANCE => "Stage Presence"
    case STREAK_3_DAYS => "Getting Started"
    case STREAK_5_DAYS => "Building Momentum"
    case STREAK_8_DAYS => "Consistency Counts"
    case STREAK_14_DAYS => "Two Week Warrior"
    case STREAK_30_DAYS => "Monthly Master"
    case STREAK_61_DAYS => "Diamond Dedication"
    case STREAK_100_DAYS => "Elite Performer"
  }

  function Description(t: AchievementType): string
  {
    match t
    case FIRST_PIECE => "Added your first piece to PlayStreak"
    case FIRST_TECHNIQUE => "Added your first technique to PlayStreak"
    case FIRST_PRACTICE => "Completed your first practice session"
    case FIRST_PERFORMANCE => "Completed your first performance"
    case FIRST_ONLINE_PERFORMANCE => "Completed your first online performance"
    case FIRST_LIVE_PERFORMANCE => "Completed your first live performance"
    case STREAK_3_DAYS => "Maintained a 3-day practice streak"
    case STREAK_5_DAYS => "Maintained a 5-day practice streak"
    case STREAK_8_DAYS => "Maintained an 8-day practice streak"
    case STREAK_14_DAYS => "Maintained a 14-day practice streak"
    case STREAK_30_DAYS => "Maintained a 30-day practice streak"
    case STREAK_61_DAYS => "Maintained a 61-day practice streak"
    case STREAK_100_DAYS => "Maintained a 100-day practice streak"
  }

  function Icon(t: AchievementType): string
  {
    match t
    case FIRST_PIECE => "\U{1F3B9}"
    case FIRST_TECHNIQUE => "\U{1F6E0}\U{FE0F}"
    case FIRST_PRACTICE => "\U{1F4AA}"
    case FIRST_PERFORMANCE => "\U{1F3AD}"
    case FIRST_ONLINE_PERFORMANCE => "\U{1F4BB}"
    case FIRST_LIVE_PERFORMANCE => "\U{1F3A4}"
    case STREAK_3_DAYS => "\U{1F3B5}"
    case STREAK_5_DAYS => "\U{1F3B6}"
    case STREAK_8_DAYS => "\U{1F525}"
    case STREAK_14_DAYS => "\U{1F525}\U{1F525}\U{1F525}"
    case STREAK_30_DAYS => "\U{2B50}\U{2B50}\U{2B50}"
    case STREAK_61_DAYS => "\U{1F48E}\U{1F48E}\U{1F48E}"
    case STREAK_100_DAYS => "\U{1F680}\U{1F680}\U{1F680}"
  }

  /** The definition of one type: its texts, locked, created now. */
  function DefinitionOf(t: AchievementType, now: int): (a: Achievement)
    ensures a.achievementType == t && !a.isUnlocked && a.unlockedAt.None? && a.dateCreated == now
  {
    Define(t, Title(t), Description(t), Icon(t), now)
  }

  /** The types in declaration order, the order of the definition list. */
  const ALL_TYPES: seq<AchievementType> :=
    [FIRST_PIECE, FIRST_TECHNIQUE, FIRST_PRACTICE, FIRST_PERFORMANCE, FIRST_ONLINE_PERFORMANCE,
     FIRST_LIVE_PERFORMANCE, STREAK_3_DAYS, STREAK_5_DAYS, STREAK_8_DAYS, STREAK_14_DAYS, STREAK_30_DAYS,
     STREAK_61_DAYS, STREAK_100_DAYS]

  /** A type's position in declaration order. */
  function Ordinal(t: AchievementType): (k: nat)
    ensures k < |ALL_TYPES| && ALL_TYPES[k] == t
  {
    match t
    case FIRST_PIECE => 0
    case FIRST_TECHNIQUE => 1
    case FIRST_PRACTICE => 2
    case FIRST_PERFORMANCE => 3
    case FIRST_ONLINE_PERFORMANCE => 4
    case FIRST_LIVE_PERFORMANCE => 5
    case STREAK_3_DAYS => 6
    case STREAK_5_DAYS => 7
    case STREAK_8_DAYS => 8
    case STREAK_14_DAYS => 9
    case STREAK_30_DAYS => 10
    case STREAK_61_DAYS => 11
    case STREAK_100_DAYS => 12
  }

  /** getAllAchievementDefinitions; `now` is the creation time every definition receives. */
  function AllDefinitions(now: int): (defs: seq<Achievement>)
  {
    seq(|ALL_TYPES|, i requires 0 <= i < |ALL_TYPES| => DefinitionOf(ALL_TYPES[i], now))
  }

  /** No two entries share a type. */
  predicate DistinctTypes(defs: seq<Achievement>)
  {
    forall i, j :: 0 <= i < j < |defs| ==> defs[i].achievementType != defs[j].achievementType
  }

  /** Some entry has type t. */
  predicate HasType(defs: seq<Achievement>, t: AchievementType)
  {
    exists i :: 0 <= i < |defs| && defs[i].achievementType == t
  }

  /**
   * Every achievement type is defined exactly once, every definition starts
   * locked with no unlock time, and so there are thirteen definitions.
   */
  lemma DefinitionsComplete(now: int)
    ensures var defs := AllDefinitions(now);
            DistinctTypes(defs)
            && (forall t: AchievementType :: HasType(defs, t))
            && (forall i :: 0 <= i < |defs| ==> !defs[i].isUnlocked && defs[i].unlockedAt.None?)
            && |defs| == 13
  {
    var defs := AllDefinitions(now);
    forall t: AchievementType
      ensures HasType(defs, t)
    {
      assert defs[Ordinal(t)].achievementType == t;
    }
    forall i, j | 0 <= i < j < |defs|
      ensures defs[i].achievementType != defs[j].achievementType
    {
      assert Ordinal(ALL_TYPES[i]) == i && Ordinal(ALL_TYPES[j]) == j by { OrdinalInverse(i); OrdinalInverse(j); }
    }
  }

  /** Declaration order lists each type once: the ordinal of the k-th type is k. */
  lemma OrdinalInverse(k: int)
    requires 0 <= k < |ALL_TYPES|
    ensures Ordinal(ALL_TYPES[k]) == k
  {
  }

  /** The first entry of the given type, as Kotlin's `find` returns it. */
  function FindType(defs: seq<Achievement>, t: AchievementType): (r: Option<Achievement>)
    ensures r.Some? ==> r.value in defs && r.value.achievementType == t
    ensures r.None? <==> !HasType(defs, t)
  {
    if |defs| == 0 then None
    else if defs[0].achievementType == t then Some(defs[0])
    else
      var rest := FindType(defs[1..], t);
      assert HasType(defs, t) ==> HasType(defs[1..], t) by {
        if HasType(defs, t) {
          var i :| 0 <= i < |defs| && defs[i].achievementType == t;
          assert defs[1..][i - 1] == defs[i];
        }
      }
      assert HasType(defs[1..], t) ==> HasType(defs, t) by {
        if HasType(defs[1..], t) {
          var i :| 0 <= i < |defs[1..]| && defs[1..][i].achievementType == t;
          assert defs[i + 1] == defs[1..][i];
        }
      }
      rest
  }

  /** getAchievementByType: never null, and it is the definition of that type. */
  function AchievementByType(t: AchievementType, now: int): (r: Option<Achievement>)
    ensures r.Some? && r.value.achievementType == t && r.value in AllDefinitions(now)
    ensures !r.value.isUnlocked && r.value.unlockedAt.None?
  {
    DefinitionsComplete(now);
    FindType(AllDefinitions(now), t)
  }

  /** getTotalAchievementsCount: one per achievement type. */
  function TotalAchievementsCount(now: int): (n: int)
    ensures n == 13
  {
    DefinitionsComplete(now);
    |AllDefinitions(now)|
  }

  // ---------------------------------------------------------------------------
  // Categories.

  /** The streak length a type stands for, None for the first-action types. */
  function Milestone(t: AchievementType): Option<int>
  {
    match t
    case STREAK_3_DAYS => Some(3)
    case STREAK_5_DAYS => Some(5)
    case STREAK_8_DAYS => Some(8)
    case STREAK_14_DAYS => Some(14)
    case STREAK_30_DAYS => Some(30)
    case STREAK_61_DAYS => Some(61)
    case STREAK_100_DAYS => Some(100)
    case _ => None
  }

  /** The analytics category of an unlocked type. */
  function Category(t: AchievementType): (c: string)
    ensures c == "first_action" || c == "streak_milestone"
  {
    match t
    case FIRST_PIECE | FIRST_TECHNIQUE | FIRST_PRACTICE | FIRST_PERFORMANCE
       | FIRST_ONLINE_PERFORMANCE | FIRST_LIVE_PERFORMANCE => "first_action"
    case STREAK_3_DAYS | STREAK_5_DAYS | STREAK_8_DAYS | STREAK_14_DAYS
       | STREAK_30_DAYS | STREAK_61_DAYS | STREAK_100_DAYS => "streak_milestone"
  }

  /** The streak types, exactly those with a milestone, are the "streak_milestone" category. */
  lemma CategoryMatchesMilestone(t: AchievementType)
    ensures Category(t) == "streak_milestone" <==> Milestone(t).Some?
    ensures Category(t) == "first_action" <==> Milestone(t).None?
  {
  }

  /** The enum constant's name, as `type.name` gives it. */
  function TypeName(t: AchievementType): string
  {
    match t
    case FIRST_PIECE => "FIRST_PIECE"
    case FIRST_TECHNIQUE => "FIRST_TECHNIQUE"
    case FIRST_PRACTICE => "FIRST_PRACTICE"
    case FIRST_PERFORMANCE => "FIRST_PERFORMANCE"
    case FIRST_ONLINE_PERFORMANCE => "FIRST_ONLINE_PERFORMANCE"
    case FIRST_LIVE_PERFORMANCE => "FIRST_LIVE_PERFORMANCE"
    case STREAK_3_DAYS => "STREAK_3_DAYS"
    case STREAK_5_DAYS => "STREAK_5_DAYS"
    case STREAK_8_DAYS => "STREAK_8_DAYS"
    case STREAK_14_DAYS => "STREAK_14_DAYS"
    case STREAK_30_DAYS => "STREAK_30_DAYS"
    case STREAK_61_DAYS => "STREAK_61_DAYS"
    case STREAK_100_DAYS => "STREAK_100_DAYS"
  }

  // ---------------------------------------------------------------------------
  // The table.

  type Table = map<AchievementType, Achievement>

  /** Each row is stored under its own type, as the primary key requires. */
  predicate WellKeyed(table: Table)
  {
    forall t :: t in table ==> table[t].achievementType == t
  }

  /** isAchievementUnlocked: a row of that type exists and is unlocked. */
  predicate IsUnlocked(table: Table, t: AchievementType)
  {
    t in table && table[t].isUnlocked
  }

  function UnlockedTypes(table: Table): set<AchievementType>
  {
    set t | t in table && table[t].isUnlocked
  }

  /** getAchievementCounts: (unlocked, total). */
  function Counts(table: Table): (c: (int, int))
    ensures 0 <= c.0 <= c.1
    ensures c.0 == 0 <==> forall t :: t in table ==> !table[t].isUnlocked
  {
    var u := UnlockedTypes(table);
    UnlockedTypesFacts(table);
        (|u|, |table|)
  }

  lemma UnlockedTypesFacts(table: Table)
    ensures |UnlockedTypes(table)| <= |table|
    ensures |UnlockedTypes(table)| == 0 <==> forall t :: t in table ==> !table[t].isUnlocked
  {
    var u := UnlockedTypes(table);
    SubsetCardinality(u, table.Keys);
    assert forall t :: t in table && table[t].isUnlocked ==> t in u;
    if |u| > 0 {
      var t :| t in u;
    }
  }

  lemma SubsetCardinality<T>(a: set<T>, b: set<T>)
    requires a <= b
    ensures |a| <= |b|
  {
    assert b == a + (b - a);
  }

  /** insertAchievement: a row replaces any row of the same type. */
  function Insert(table: Table, a: Achievement): (r: Table)
    ensures r.Keys == table.Keys + {a.achievementType}
    ensures r[a.achievementType] == a
    ensures forall t :: t in table && t != a.achievementType ==> r[t] == table[t]
  {
    table[a.achievementType := a]
  }

  /** insertAllAchievements: the rows inserted in order, later rows replacing earlier ones. */
  function InsertAll(table: Table, defs: seq<Achievement>): (r: Table)
    decreases |defs|
  {
    if |defs| == 0 then table else InsertAll(Insert(table, defs[0]), defs[1..])
  }

  /** Inserting rows of distinct types stores each row under its type and keeps every other row. */
  lemma {:induction false} InsertAllSpec(table: Table, defs: seq<Achievement>)
    requires DistinctTypes(defs)
    decreases |defs|
    ensures forall i :: 0 <= i < |defs| ==>
              defs[i].achievementType in InsertAll(table, defs) && InsertAll(table, defs)[defs[i].achievementType] == defs[i]
    ensures forall t :: t in InsertAll(table, defs) <==> t in table || HasType(defs, t)
    ensures forall t :: t in table && !HasType(defs, t) ==> InsertAll(table, defs)[t] == table[t]
  {
    if |defs| > 0 {
      var rest := defs[1..];
      DistinctTail(defs);
      InsertAllSpec(Insert(table, defs[0]), rest);
      forall i | 1 <= i < |defs| ensures rest[i - 1] == defs[i] { }
    }
  }

  /** The types of a list are its head's and its tail's; with distinct types the head's type is not in the tail. */
  lemma DistinctTail(defs: seq<Achievement>)
    requires |defs| > 0
    ensures forall t :: HasType(defs, t) <==> t == defs[0].achievementType || HasType(defs[1..], t)
    ensures DistinctTypes(defs) ==> DistinctTypes(defs[1..]) && !HasType(defs[1..], defs[0].achievementType)
  {
    var rest := defs[1..];
    assert forall k :: 0 <= k < |rest| ==> rest[k] == defs[k + 1];
    forall t | HasType(defs, t) && t != defs[0].achievementType ensures HasType(rest, t) {
      var i :| 0 <= i < |defs| && defs[i].achievementType == t;
      assert rest[i - 1] == defs[i];
    }
  }

  /** The analytics event sent for an unlock: the type's name and its category. */
  datatype UnlockEvent = UnlockEvent(typeName: string, category: string)

  datatype UnlockOutcome = UnlockOutcome(table: Table, event: Option<UnlockEvent>)

  /**
   * unlockAchievement. An unlocked type is left alone. Otherwise the row, if
   * there is one, becomes unlocked at `at`, and the unlock is reported to
   * analytics whether or not a row was there to update.
   */
  function Unlock(table: Table, t: AchievementType, at: int): (r: UnlockOutcome)
    ensures r.table.Keys == table.Keys
    ensures IsUnlocked(table, t) ==> r.table == table && r.event.None?
    ensures !IsUnlocked(table, t) ==> r.event == Some(UnlockEvent(TypeName(t), Category(t)))
    ensures !IsUnlocked(table, t) && t in table ==>
              r.table[t] == table[t].(isUnlocked := true, unlockedAt := Some(at))
    ensures forall u :: u in table && u != t ==> r.table[u] == table[u]
  {
    if IsUnlocked(table, t) then UnlockOutcome(table, None)
    else
      var updated := if t in table then table[t := table[t].(isUnlocked := true, unlockedAt := Some(at))] else table;
      UnlockOutcome(updated, Some(UnlockEvent(TypeName(t), Category(t))))
  }

  /**
   * A second unlock of the same type, at any time, changes nothing: the first
   * unlock time is kept and no second event is sent.
   */
  lemma UnlockIdempotent(table: Table, t: AchievementType, first: int, second: int)
    requires t in table
    ensures var once := Unlock(table, t, first).table;
            Unlock(once, t, second) == UnlockOutcome(once, None)
            && once[t].unlockedAt == (if IsUnlocked(table, t) then table[t].unlockedAt else Some(first))
  {
  }

  /** Unlocking never locks anything: every unlocked row keeps its unlock time. */
  lemma UnlockMonotone(table: Table, t: AchievementType, at: int)
    ensures var r := Unlock(table, t, at).table;
            forall u :: IsUnlocked(table, u) ==> IsUnlocked(r, u) && r[u].unlockedAt == table[u].unlockedAt
  {
  }

  /** resetAllAchievements (before detection runs again): every row locked with no unlock time. */
  function ResetAll(table: Table): (r: Table)
    ensures r.Keys == table.Keys
    ensures forall t :: t in r ==> !r[t].isUnlocked && r[t].unlockedAt.None?
    ensures forall t :: t in r ==> r[t].(isUnlocked := table[t].isUnlocked, unlockedAt := table[t].unlockedAt) == table[t]
  {
    map t | t in table :: table[t].(isUnlocked := false, unlockedAt := None)
  }

  // ---------------------------------------------------------------------------
  // Refreshing definitions.

  /** The fields the refresh keeps from an existing row. */
  predicate SameState(a: Achievement, b: Achievement)
  {
    a.isUnlocked == b.isUnlocked && a.unlockedAt == b.unlockedAt && a.dateCreated == b.dateCreated
  }

  /** One step of updateAchievementDefinitionsPreservingState. */
  function RefreshOne(table: Table, def: Achievement): (r: Table)
  {
    var t := def.achievementType;
    if t in table then
      Insert(table, def.(isUnlocked := table[t].isUnlocked, unlockedAt := table[t].unlockedAt,
                         dateCreated := table[t].dateCreated))
    else Insert(table, def)
  }

  /** updateAchievementDefinitionsPreservingState: every new definition in order. */
  function Refresh(table: Table, defs: seq<Achievement>): (r: Table)
    decreases |defs|
  {
    if |defs| == 0 then table else Refresh(RefreshOne(table, defs[0]), defs[1..])
  }

  /**
   * The refresh keeps every existing row's unlock state and creation date,
   * adds exactly the types of the new definitions, gives each of them its new
   * definition's texts, and leaves types without a new definition alone.
   */
  lemma {:induction false} RefreshSpec(table: Table, defs: seq<Achievement>)
    requires DistinctTypes(defs)
    decreases |defs|
    ensures var r := Refresh(table, defs);
            (forall t :: t in r <==> t in table || HasType(defs, t))
            && (forall t :: t in table ==> SameState(r[t], table[t]))
            && (forall t :: t in table && !HasType(defs, t) ==> r[t] == table[t])
            && (forall i :: 0 <= i < |defs| ==>
                  var t := defs[i].achievementType;
                  r[t] == (if t in table
                           then defs[i].(isUnlocked := table[t].isUnlocked, unlockedAt := table[t].unlockedAt,
                                         dateCreated := table[t].dateCreated)
                           else defs[i]))
  {
    if |defs| > 0 {
      var rest := defs[1..];
      var next := RefreshOne(table, defs[0]);
      RefreshSpec(next, rest);
      var r := Refresh(table, defs);
      assert r == Refresh(next, rest);
      var t0 := defs[0].achievementType;
      DistinctTail(defs);
      forall i | 1 <= i < |defs|
        ensures defs[i].achievementType in table <==> defs[i].achievementType in next
      {
        assert defs[i].achievementType != t0;
      }
      forall i | 1 <= i < |defs| ensures rest[i - 1] == defs[i] { }
    }
  }

  /** A refresh keeps the table keyed by type. */
  lemma {:induction false} RefreshWellKeyed(table: Table, defs: seq<Achievement>)
    requires WellKeyed(table)
    decreases |defs|
    ensures WellKeyed(Refresh(table, defs))
  {
    if |defs| > 0 {
      RefreshWellKeyed(RefreshOne(table, defs[0]), defs[1..]);
    }
  }

  /** Refreshing with the same definitions a second time changes nothing. */
  lemma RefreshIdempotent(table: Table, defs: seq<Achievement>)
    requires DistinctTypes(defs)
    ensures Refresh(Refresh(table, defs), defs) == Refresh(table, defs)
  {
    var once := Refresh(table, defs);
    var twice := Refresh(once, defs);
    RefreshSpec(table, defs);
    RefreshSpec(once, defs);
    forall t | t in twice ensures twice[t] == once[t] {
      if HasType(defs, t) {
        var i :| 0 <= i < |defs| && defs[i].achievementType == t;
        assert twice[t] == once[t];
      }
    }
  }

  // ---------------------------------------------------------------------------
  // Retroactive detection.

  /** The earliest value of `key` over the entries `keep` selects, as minByOrNull finds it. */
  function EarliestBy<T(!new)>(s: seq<T>, keep: T -> bool, key: T -> int): (r: Option<int>)
    ensures r.None? <==> forall i :: 0 <= i < |s| ==> !keep(s[i])
    ensures r.Some? ==> (exists i :: 0 <= i < |s| && keep(s[i]) && key(s[i]) == r.value)
                        && forall i :: 0 <= i < |s| && keep(s[i]) ==> r.value <= key(s[i])
  {
    var m := MinOpt(Map(Filter(s, keep), key));
    EarliestByFacts(s, keep, key);
    m
  }

  lemma EarliestByFacts<T(!new)>(s: seq<T>, keep: T -> bool, key: T -> int)
    ensures var m := MinOpt(Map(Filter(s, keep), key));
            (m.None? <==> forall i :: 0 <= i < |s| ==> !keep(s[i]))
            && (m.Some? ==> (exists i :: 0 <= i < |s| && keep(s[i]) && key(s[i]) == m.value)
                            && forall i :: 0 <= i < |s| && keep(s[i]) ==> m.value <= key(s[i]))
  {
    var kept := Filter(s, keep);
    var keys := Map(kept, key);
    var m := MinOpt(keys);
    forall i | 0 <= i < |s| && keep(s[i]) ensures s[i] in kept { FilterMembership(s, keep, s[i]); }
    assert forall x :: x in kept ==> key(x) in keys;
    if m.Some? {
      assert m.value in keys;
      var k :| 0 <= k < |keys| && keys[k] == m.value;
      assert kept[k] in kept;
      FilterMembership(s, keep, kept[k]);
    } else {
      assert |kept| == 0;
    }
  }

  predicate IsPieceItem(p: PieceOrTechnique) { p.itemType == PIECE }
  predicate IsTechniqueItem(p: PieceOrTechnique) { p.itemType == TECHNIQUE }
  function DateCreatedOf(p: PieceOrTechnique): int { p.dateCreated }

  predicate IsPracticeActivity(a: Activity) { a.activityType == PRACTICE }
  predicate IsPerformanceActivity(a: Activity) { a.activityType == PERFORMANCE }

  /** A performance whose performance type, lower-cased, is `kind`. */
  predicate IsPerformanceOfKind(a: Activity, kind: string)
  {
    a.activityType == PERFORMANCE && Lower(a.performanceType) == kind
  }

  predicate IsOnlinePerformance(a: Activity) { IsPerformanceOfKind(a, "online") }
  predicate IsLivePerformance(a: Activity) { IsPerformanceOfKind(a, "live") }

  /** A request to unlock a type at a time. */
  datatype UnlockRequest = UnlockRequest(achievementType: AchievementType, at: int)

  function OptionalRequest(t: AchievementType, at: Option<int>): seq<UnlockRequest>
  {
    if at.Some? then [UnlockRequest(t, at.value)] else []
  }

  /** The earliest time of each first action, None where there is none. */
  datatype Firsts = Firsts(
    piece: Option<int>,
    technique: Option<int>,
    practice: Option<int>,
    performance: Option<int>,
    online: Option<int>,
    live: Option<int>)

  /** The earliest piece and technique creation and the earliest practice, performance, online and live performance. */
  function EarliestFirsts(pieces: seq<PieceOrTechnique>, acts: seq<Activity>): Firsts
  {
    Firsts(EarliestBy(pieces, IsPieceItem, DateCreatedOf),
           EarliestBy(pieces, IsTechniqueItem, DateCreatedOf),
           EarliestBy(acts, IsPracticeActivity, TimestampOf),
           EarliestBy(acts, IsPerformanceActivity, TimestampOf),
           EarliestBy(acts, IsOnlinePerformance, TimestampOf),
           EarliestBy(acts, IsLivePerformance, TimestampOf))
  }

  /** The time a first-action type stands for, None for a streak type. */
  function FirstOf(f: Firsts, t: AchievementType): Option<int>
  {
    match t
    case FIRST_PIECE => f.piece
    case FIRST_TECHNIQUE => f.technique
    case FIRST_PRACTICE => f.practice
    case FIRST_PERFORMANCE => f.performance
    case FIRST_ONLINE_PERFORMANCE => f.online
    case FIRST_LIVE_PERFORMANCE => f.live
    case _ => None
  }

  /** The first-action unlocks in the order detection asks for them; online and live only after some performance. */
  function FirstActionRequestsOf(f: Firsts): seq<UnlockRequest>
  {
    OptionalRequest(FIRST_PIECE, f.piece)
    + (OptionalRequest(FIRST_TECHNIQUE, f.technique)
       + (OptionalRequest(FIRST_PRACTICE, f.practice)
          + (OptionalRequest(FIRST_PERFORMANCE, f.performance)
             + (if f.performance.Some? then
                  OptionalRequest(FIRST_ONLINE_PERFORMANCE, f.online) + OptionalRequest(FIRST_LIVE_PERFORMANCE, f.live)
                else []))))
  }

  /** The first-action part of detectRetroactiveAchievements. */
  function FirstActionRequests(pieces: seq<PieceOrTechnique>, acts: seq<Activity>): seq<UnlockRequest>
  {
    FirstActionRequestsOf(EarliestFirsts(pieces, acts))
  }

  /** With no performance there is no online or live performance either. */
  predicate ConsistentFirsts(f: Firsts)
  {
    f.performance.None? ==> f.online.None? && f.live.None?
  }

  /** Every online or live performance is a performance, so the performance check never hides one. */
  lemma EarliestFirstsConsistent(pieces: seq<PieceOrTechnique>, acts: seq<Activity>)
    ensures ConsistentFirsts(EarliestFirsts(pieces, acts))
  {
    var f := EarliestFirsts(pieces, acts);
    if f.online.Some? {
      var i :| 0 <= i < |acts| && IsOnlinePerformance(acts[i]);
      assert IsPerformanceActivity(acts[i]);
    }
    if f.live.Some? {
      var i :| 0 <= i < |acts| && IsLivePerformance(acts[i]);
      assert IsPerformanceActivity(acts[i]);
    }
  }

  /** Each first-action type is asked for once, at its earliest time, and no streak type is. */
  lemma FirstActionRequestsSpec(f: Firsts, t: AchievementType)
    requires ConsistentFirsts(f)
    ensures FirstRequestAt(FirstActionRequestsOf(f), t) == FirstOf(f, t)
  {
    var r1 := OptionalRequest(FIRST_PIECE, f.piece);
    var r2 := OptionalRequest(FIRST_TECHNIQUE, f.technique);
    var r3 := OptionalRequest(FIRST_PRACTICE, f.practice);
    var r4 := OptionalRequest(FIRST_PERFORMANCE, f.performance);
    var r5 := OptionalRequest(FIRST_ONLINE_PERFORMANCE, f.online);
    var r6 := OptionalRequest(FIRST_LIVE_PERFORMANCE, f.live);
    var tail := if f.performance.Some? then r5 + r6 else [];
    FirstRequestAtConcat(r1, r2 + (r3 + (r4 + tail)), t);
    FirstRequestAtConcat(r2, r3 + (r4 + tail), t);
    FirstRequestAtConcat(r3, r4 + tail, t);
    FirstRequestAtConcat(r4, tail, t);
    FirstRequestAtConcat(r5, r6, t);
    OptionalRequestFirst(FIRST_PIECE, f.piece, t);
    OptionalRequestFirst(FIRST_TECHNIQUE, f.technique, t);
    OptionalRequestFirst(FIRST_PRACTICE, f.practice, t);
    OptionalRequestFirst(FIRST_PERFORMANCE, f.performance, t);
    OptionalRequestFirst(FIRST_ONLINE_PERFORMANCE, f.online, t);
    OptionalRequestFirst(FIRST_LIVE_PERFORMANCE, f.live, t);
  }

  lemma OptionalRequestFirst(u: AchievementType, at: Option<int>, t: AchievementType)
    ensures FirstRequestAt(OptionalRequest(u, at), t) == if u == t then at else None
  {
  }

  /** The milestones in ascending order, with their types. */
  const MILESTONES: seq<int> := [3, 5, 8, 14, 30, 61, 100]
  const MILESTONE_TYPES: seq<AchievementType> :=
    [STREAK_3_DAYS, STREAK_5_DAYS, STREAK_8_DAYS, STREAK_14_DAYS, STREAK_30_DAYS, STREAK_61_DAYS, STREAK_100_DAYS]

  /** The position of a streak type in the milestone lists. */
  function MilestonePosition(t: AchievementType): (k: int)
    ensures Milestone(t).Some? ==> 0 <= k < |MILESTONES| && MILESTONE_TYPES[k] == t && MILESTONES[k] == Milestone(t).value
    ensures Milestone(t).None? ==> k == -1 && forall j :: 0 <= j < |MILESTONE_TYPES| ==> MILESTONE_TYPES[j] != t
  {
    match t
    case STREAK_3_DAYS => 0
    case STREAK_5_DAYS => 1
    case STREAK_8_DAYS => 2
    case STREAK_14_DAYS => 3
    case STREAK_30_DAYS => 4
    case STREAK_61_DAYS => 5
    case STREAK_100_DAYS => 6
    case _ => -1
  }

  /**
   * The loop over the milestones from index i on: each milestone the current
   * streak reaches and that has a date (`dateOf`, the milestone-date search)
   * asks for its type at that date.
   */
  function StreakRequestsFrom(dateOf: int -> Option<int>, streak: int, i: nat): (r: seq<UnlockRequest>)
    requires i <= |MILESTONES|
    decreases |MILESTONES| - i
  {
    if i == |MILESTONES| then []
    else
      var m := MILESTONES[i];
      (if streak >= m && dateOf(m).Some? then [UnlockRequest(MILESTONE_TYPES[i], dateOf(m).value)] else [])
      + StreakRequestsFrom(dateOf, streak, i + 1)
  }

  /** The time of the first request for type t, None when t is not requested. */
  function FirstRequestAt(reqs: seq<UnlockRequest>, t: AchievementType): Option<int>
  {
    if |reqs| == 0 then None
    else if reqs[0].achievementType == t then Some(reqs[0].at)
    else FirstRequestAt(reqs[1..], t)
  }

  lemma {:induction false} FirstRequestAtConcat(a: seq<UnlockRequest>, b: seq<UnlockRequest>, t: AchievementType)
    ensures FirstRequestAt(a + b, t) == if FirstRequestAt(a, t).Some? then FirstRequestAt(a, t) else FirstRequestAt(b, t)
  {
    if |a| == 0 {
      assert a + b == b;
    } else {
      assert (a + b)[1..] == a[1..] + b;
      FirstRequestAtConcat(a[1..], b, t);
    }
  }

  /** The loop from index i on asks for a streak type when it is at or after i, reached, and dated. */
  lemma {:induction false} StreakRequestsFromSpec(dateOf: int -> Option<int>, streak: int, i: nat, t: AchievementType)
    requires i <= |MILESTONES|
    decreases |MILESTONES| - i
    ensures FirstRequestAt(StreakRequestsFrom(dateOf, streak, i), t) ==
              if Milestone(t).Some? && i <= MilestonePosition(t) && streak >= Milestone(t).value
              then dateOf(Milestone(t).value) else None
  {
    if i < |MILESTONES| {
      StreakRequestsFromSpec(dateOf, streak, i + 1, t);
      var m := MILESTONES[i];
      var head := if streak >= m && dateOf(m).Some? then [UnlockRequest(MILESTONE_TYPES[i], dateOf(m).value)] else [];
      FirstRequestAtConcat(head, StreakRequestsFrom(dateOf, streak, i + 1), t);
      assert MILESTONE_TYPES[i] == t ==> MilestonePosition(t) == i;
    }
  }

  /** The milestone date of m over the given timestamps. */
  function MilestoneDateOf(ts: seq<int>): int -> Option<int>
  {
    (m: int) => MilestoneDate(ts, m)
  }

  /** detectRetroactiveStreakAchievements; nothing for no activities. */
  function StreakRequests(acts: seq<Activity>, todayStart: int): seq<UnlockRequest>
  {
    if |acts| == 0 then []
    else
      var ts := Timestamps(acts);
      StreakRequestsFrom(MilestoneDateOf(ts), CurrentStreak(ts, todayStart), 0)
  }

  /** Everything detectRetroactiveAchievements asks to unlock, in order. */
  function DetectionRequests(pieces: seq<PieceOrTechnique>, acts: seq<Activity>, todayStart: int)
    : seq<UnlockRequest>
  {
    FirstActionRequests(pieces, acts) + StreakRequests(acts, todayStart)
  }

  /** The time a streak type is detected: its milestone date when the current streak reaches the milestone. */
  function StreakAt(acts: seq<Activity>, todayStart: int, t: AchievementType): Option<int>
  {
    if Milestone(t).Some? && |acts| > 0 && CurrentStreak(Timestamps(acts), todayStart) >= Milestone(t).value
    then MilestoneDate(Timestamps(acts), Milestone(t).value)
    else None
  }

  /** Each streak type is asked for once, at the time StreakAt gives, and no first-action type is. */
  lemma StreakRequestsSpec(acts: seq<Activity>, todayStart: int, t: AchievementType)
    ensures FirstRequestAt(StreakRequests(acts, todayStart), t) == StreakAt(acts, todayStart, t)
  {
    if |acts| > 0 {
      var ts := Timestamps(acts);
      StreakRequestsFromSpec(MilestoneDateOf(ts), CurrentStreak(ts, todayStart), 0, t);
    }
  }

  /**
   * When each type is detected, and at what time, read directly off the
   * detection rules: the earliest piece, technique, practice, performance,
   * online and live performance, and for each streak type its milestone date
   * when the current streak reaches the milestone.
   */
  function DetectedAt(pieces: seq<PieceOrTechnique>, acts: seq<Activity>, todayStart: int, t: AchievementType)
    : Option<int>
  {
    if Milestone(t).None? then FirstOf(EarliestFirsts(pieces, acts), t) else StreakAt(acts, todayStart, t)
  }

  /** The first request detection makes for each type is at the time DetectedAt gives. */
  lemma DetectionRequestsSpec(pieces: seq<PieceOrTechnique>, acts: seq<Activity>, todayStart: int, t: AchievementType)
    ensures FirstRequestAt(DetectionRequests(pieces, acts, todayStart), t) == DetectedAt(pieces, acts, todayStart, t)
  {
    var f := EarliestFirsts(pieces, acts);
    EarliestFirstsConsistent(pieces, acts);
    FirstActionRequestsSpec(f, t);
    StreakRequestsSpec(acts, todayStart, t);
    FirstRequestAtConcat(FirstActionRequests(pieces, acts), StreakRequests(acts, todayStart), t);
  }

  // ---------------------------------------------------------------------------
  // Applying detection and initialising.

  /** The unlocks of a detection run, one after another (their analytics events are not collected). */
  function ApplyUnlocks(table: Table, reqs: seq<UnlockRequest>): (r: Table)
    decreases |reqs|
  {
    if |reqs| == 0 then table
    else ApplyUnlocks(Unlock(table, reqs[0].achievementType, reqs[0].at).table, reqs[1..])
  }

  /**
   * After a run of unlocks the table has the same rows; unlocked rows and
   * rows never requested are unchanged; a locked, requested row is unlocked at
   * the time of its first request.
   */
  lemma {:induction false} ApplyUnlocksSpec(table: Table, reqs: seq<UnlockRequest>)
    decreases |reqs|
    ensures var r := ApplyUnlocks(table, reqs);
            r.Keys == table.Keys
            && forall t :: t in table ==>
                 r[t] == (if !IsUnlocked(table, t) && FirstRequestAt(reqs, t).Some?
                          then table[t].(isUnlocked := true, unlockedAt := FirstRequestAt(reqs, t))
                          else table[t])
  {
    if |reqs| > 0 {
      var next := Unlock(table, reqs[0].achievementType, reqs[0].at).table;
      ApplyUnlocksSpec(next, reqs[1..]);
    }
  }

  /** detectRetroactiveAchievements. */
  function Detect(table: Table, pieces: seq<PieceOrTechnique>, acts: seq<Activity>, todayStart: int): (r: Table)
  {
    ApplyUnlocks(table, DetectionRequests(pieces, acts, todayStart))
  }

  /**
   * Detection keeps every row and every unlocked row, and unlocks each locked
   * row whose type is detected, at the detected time.
   */
  lemma DetectSpec(table: Table, pieces: seq<PieceOrTechnique>, acts: seq<Activity>, todayStart: int)
    ensures var r := Detect(table, pieces, acts, todayStart);
            r.Keys == table.Keys
            && forall t :: t in table ==>
                 r[t] == (if !IsUnlocked(table, t) && DetectedAt(pieces, acts, todayStart, t).Some?
                          then table[t].(isUnlocked := true, unlockedAt := DetectedAt(pieces, acts, todayStart, t))
                          else table[t])
  {
    ApplyUnlocksSpec(table, DetectionRequests(pieces, acts, todayStart));
    forall t | t in table
      ensures FirstRequestAt(DetectionRequests(pieces, acts, todayStart), t) == DetectedAt(pieces, acts, todayStart, t)
    {
      DetectionRequestsSpec(pieces, acts, todayStart, t);
    }
  }

  /**
   * initializeAchievements: an empty table receives all definitions and then
   * detection; otherwise the definitions are refreshed, and detection runs
   * only when no achievement was unlocked.
   */
  function Initialize(table: Table, now: int, pieces: seq<PieceOrTechnique>, acts: seq<Activity>, todayStart: int)
    : (r: Table)
  {
    var defs := AllDefinitions(now);
    if |table| == 0 then Detect(InsertAll(table, defs), pieces, acts, todayStart)
    else
      var refreshed := Refresh(table, defs);
      if |UnlockedTypes(table)| == 0 then Detect(refreshed, pieces, acts, todayStart) else refreshed
  }

  /**
   * On first start every type gets its definition, unlocked exactly when it
   * is detected, at the detected time.
   */
  lemma InitializeFirstStart(now: int, pieces: seq<PieceOrTechnique>, acts: seq<Activity>, todayStart: int)
    ensures var r := Initialize(map[], now, pieces, acts, todayStart);
            forall t: AchievementType ::
              t in r && r[t].achievementType == t && r[t].dateCreated == now
              && (r[t].isUnlocked <==> DetectedAt(pieces, acts, todayStart, t).Some?)
              && r[t].unlockedAt == DetectedAt(pieces, acts, todayStart, t)
  {
    var inserted := InsertAll(map[], AllDefinitions(now));
    InsertedDefinitions(now);
    DetectSpec(inserted, pieces, acts, todayStart);
    var r := Detect(inserted, pieces, acts, todayStart);
    assert Initialize(map[], now, pieces, acts, todayStart) == r;
    forall t: AchievementType
      ensures t in r && r[t].achievementType == t && r[t].dateCreated == now
              && (r[t].isUnlocked <==> DetectedAt(pieces, acts, todayStart, t).Some?)
              && r[t].unlockedAt == DetectedAt(pieces, acts, todayStart, t)
    {
      assert !IsUnlocked(inserted, t);
    }
  }

  /** Every type has a locked row of its own type, created at `now`. */
  predicate FreshRows(table: Table, now: int)
  {
    forall t: AchievementType ::
      t in table && table[t].achievementType == t && !table[t].isUnlocked
      && table[t].unlockedAt.None? && table[t].dateCreated == now
  }

  /** Inserting the definitions into an empty table gives every type a locked row created now. */
  lemma InsertedDefinitions(now: int)
    ensures FreshRows(InsertAll(map[], AllDefinitions(now)), now)
  {
    var defs := AllDefinitions(now);
    DefinitionsComplete(now);
    InsertAllSpec(map[], defs);
    forall t: AchievementType
      ensures t in InsertAll(map[], defs) && InsertAll(map[], defs)[t] == DefinitionOf(t, now)
    {
      assert HasType(defs, t);
      var i :| 0 <= i < |defs| && defs[i].achievementType == t;
      assert defs[i] == DefinitionOf(defs[i].achievementType, now);
    }
  }

  /**
   * Initialising never loses an unlock: every unlocked row stays unlocked with
   * its unlock time and creation date, and when some row is unlocked detection
   * is skipped, so no row changes its unlock state.
   */
  lemma InitializeKeepsUnlocks(table: Table, now: int, pieces: seq<PieceOrTechnique>, acts: seq<Activity>,
                               todayStart: int)
    ensures var r := Initialize(table, now, pieces, acts, todayStart);
            (forall t :: IsUnlocked(table, t) ==> t in r && SameState(r[t], table[t]))
            && (|UnlockedTypes(table)| > 0 ==> forall t :: t in table ==> t in r && SameState(r[t], table[t]))
  {
    var defs := AllDefinitions(now);
    DefinitionsComplete(now);
    if |table| > 0 {
      var refreshed := Refresh(table, defs);
      RefreshSpec(table, defs);
      if |UnlockedTypes(table)| == 0 {
        UnlockedTypesFacts(table);
      }
    } else {
      assert forall t :: t !in table;
    }
  }

  /** After initialising a table keyed by type, every type has its row, still keyed by type. */
  lemma InitializeComplete(table: Table, now: int, pieces: seq<PieceOrTechnique>, acts: seq<Activity>, todayStart: int)
    requires WellKeyed(table)
    ensures var r := Initialize(table, now, pieces, acts, todayStart);
            WellKeyed(r) && forall t: AchievementType :: t in r
  {
    if |table| == 0 {
      InitializeFirstStart(now, pieces, acts, todayStart);
      assert table == map[];
    } else {
      var defs := AllDefinitions(now);
      var refreshed := Refresh(table, defs);
      RefreshComplete(table, now);
      DetectWellKeyed(refreshed, pieces, acts, todayStart);
    }
  }

  /** Refreshing with the definitions gives every type a row, keyed by its type. */
  lemma RefreshComplete(table: Table, now: int)
    requires WellKeyed(table)
    ensures var r := Refresh(table, AllDefinitions(now));
            WellKeyed(r) && forall t: AchievementType :: t in r
  {
    DefinitionsComplete(now);
    RefreshSpec(table, AllDefinitions(now));
    RefreshWellKeyed(table, AllDefinitions(now));
  }

  /** Detection keeps the rows and their keys. */
  lemma DetectWellKeyed(table: Table, pieces: seq<PieceOrTechnique>, acts: seq<Activity>, todayStart: int)
    requires WellKeyed(table)
    ensures var r := Detect(table, pieces, acts, todayStart);
            WellKeyed(r) && r.Keys == table.Keys
  {
    DetectSpec(table, pieces, acts, todayStart);
  }

  /** resetAllAchievements: every row is locked again, then detection runs. */
  function ResetAchievements(table: Table, pieces: seq<PieceOrTechnique>, acts: seq<Activity>, todayStart: int)
    : (r: Table)
  {
    Detect(ResetAll(table), pieces, acts, todayStart)
  }

  /**
   * After a reset exactly the detected types are unlocked, each at its
   * detected time, and the texts and creation dates are unchanged.
   */
  lemma ResetAchievementsSpec(table: Table, pieces: seq<PieceOrTechnique>, acts: seq<Activity>, todayStart: int)
    ensures var r := ResetAchievements(table, pieces, acts, todayStart);
            r.Keys == table.Keys
            && forall t :: t in r ==>
                 (r[t].isUnlocked <==> DetectedAt(pieces, acts, todayStart, t).Some?)
                 && r[t].unlockedAt == DetectedAt(pieces, acts, todayStart, t)
                 && r[t].(isUnlocked := table[t].isUnlocked, unlockedAt := table[t].unlockedAt) == table[t]
  {
    var reset := ResetAll(table);
    DetectSpec(reset, pieces, acts, todayStart);
    var r := ResetAchievements(table, pieces, acts, todayStart);
    forall t | t in r
      ensures r[t].unlockedAt == DetectedAt(pieces, acts, todayStart, t)
    {
      assert !IsUnlocked(reset, t);
    }
  }
}
