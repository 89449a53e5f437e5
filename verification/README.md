# PlayStreak in Dafny

PlayStreak is an Android app for logging piano practice and performances.
Its building blocks are:

- pieces and techniques;
- activities: a practice or a performance of one piece at a moment in time, with a level, a duration and notes;
- favourites;
- achievements.

This project models the app's logic as pure Dafny functions over immutable
values and proves properties of them. The database tables become sequences
and maps, and the preferences become small records. Clocks, the time zone
and the user's Pro status become parameters.

The modules follow the app's structure:

| module | models |
|---|---|
| `Entities` | the Room entities: pieces and techniques, activities, favourites |
| `Streak` | the day-streak calculator and the search for the day a streak milestone was reached |
| `Achievements` | the achievement definitions, the achievement table and retroactive detection |
| `ProUser`, `Configuration`, `Analytics` | the Pro/free limits, the configuration preferences, the streak emoji level |
| `RepositoryStats` | the per-piece statistics kept by the repository, both incremental and recalculated |
| `StatsValidator`, `StatsHelper` | the statistics validator and helper |
| `RepositoryImport` | the repository's import paths |
| `Csv` | the CSV record format and the activity CSV handler |
| `JsonExport`, `JsonImport` | the JSON export and import |
| `Suggestions` | the practice and performance suggestions service |
| `PiecesView`, `AbandonedView` | the Pieces and Abandoned screens |
| `CalendarDates`, `Calendar` | the calendar's month navigation, day grouping and colours |
| `EditStorage`, `OneShotEvent` | the edit-activity hand-over and the one-shot UI event |
| `DateFormatter` | the date formatting helpers |
| `Historical` | `app/docs/convert_historical_data.py`, the historical spreadsheet converter |
| `Playtest` | `app/docs/make_large_playtest.py`, the large play-test generator |

`Wrappers`, `Seqs`, `Sorting`, `Text` and `Decimal` are generic foundations:

- `Wrappers`: an option type.
- `Seqs`: filters, counts, maxima and prefixes of sequences.
- `Sorting`: a stable sort over any total preorder. It models Kotlin's `sortedBy`/`sortedWith` and Python's `list.sort`.
- `Text`: case folding and trimming, for ASCII letters and whitespace only (see "Left out"), and the two string orders: Kotlin's `compareTo` on UTF-16 code units and Python's comparison on code points.
- `Decimal`: decimal text for integers and 32-bit wrap-around.

## Model

| member | source | states |
|---|---|---|
| Achievements.Define | app/src/main/java/com/pseddev/playstreak/data/entities/Achievement.kt:7-17 | a new achievement row of a type is locked, has no unlock time and is created at the given moment |
| Achievements.DefinitionOf | app/src/main/java/com/pseddev/playstreak/utils/AchievementDefinitions.kt:8-92 | each type's definition has that type and starts locked, with no unlock time |
| Achievements.DefinitionsComplete | app/src/main/java/com/pseddev/playstreak/utils/AchievementDefinitions.kt:8-92 | the definition list names each of the thirteen types exactly once, and every entry starts locked |
| Achievements.Ordinal | app/src/main/java/com/pseddev/playstreak/data/entities/Achievement.kt:19-33 | every type has a position in declaration order, and the type at that position is the type itself |
| Achievements.OrdinalInverse | app/src/main/java/com/pseddev/playstreak/data/entities/Achievement.kt:19-33 | declaration order lists each type once: the position of the k-th type is k |
| Achievements.FindType | app/src/main/java/com/pseddev/playstreak/utils/AchievementDefinitions.kt:95 | the search finds an entry of the type exactly when the list has one, and what it finds is in the list with that type |
| Achievements.AchievementByType | app/src/main/java/com/pseddev/playstreak/utils/AchievementDefinitions.kt:94-96 | the lookup never returns null; it returns the locked definition of that type |
| Achievements.TotalAchievementsCount | app/src/main/java/com/pseddev/playstreak/utils/AchievementDefinitions.kt:98-100 | the total count is 13, one per type |
| Achievements.Category | app/src/main/java/com/pseddev/playstreak/utils/AchievementManager.kt:191-206 | an unlock is reported as "first_action" or "streak_milestone" |
| Achievements.CategoryMatchesMilestone | app/src/main/java/com/pseddev/playstreak/utils/AchievementManager.kt:191-206 | "streak_milestone" is reported exactly for the types that stand for a streak length |
| Achievements.Counts | app/src/main/java/com/pseddev/playstreak/utils/AchievementManager.kt:230-239 | the unlocked count never exceeds the total, and it is 0 exactly when no row is unlocked |
| Achievements.UnlockedTypesFacts | app/src/main/java/com/pseddev/playstreak/data/daos/AchievementDao.kt:30-34 | the unlocked count is at most the row count, and it is 0 exactly when no row is unlocked |
| Achievements.Insert | app/src/main/java/com/pseddev/playstreak/data/daos/AchievementDao.kt:36-37 | an insert stores the row under its type, replaces any row of that type and keeps every other row |
| Achievements.InsertAllSpec | app/src/main/java/com/pseddev/playstreak/data/daos/AchievementDao.kt:39-40 | inserting rows of distinct types stores each under its type, adds exactly their types, and keeps every other row |
| Achievements.Unlock | app/src/main/java/com/pseddev/playstreak/utils/AchievementManager.kt:183-213 | an unlocked type is left alone and sends no event; otherwise its row becomes unlocked at the given time, an event with its name and category is sent, and no other row changes |
| Achievements.UnlockIdempotent | app/src/main/java/com/pseddev/playstreak/utils/AchievementManager.kt:183-213 | a second unlock of the same type changes nothing and sends nothing; the first unlock time stays |
| Achievements.UnlockMonotone | app/src/main/java/com/pseddev/playstreak/utils/AchievementManager.kt:183-213 | an unlock never locks a row or changes the unlock time of an unlocked row |
| Achievements.ResetAll | app/src/main/java/com/pseddev/playstreak/data/daos/AchievementDao.kt:54-55 | a reset locks every row and clears its unlock time, and changes nothing else |
| Achievements.RefreshSpec | app/src/main/java/com/pseddev/playstreak/utils/AchievementManager.kt:244-267 | a refresh keeps each existing row's unlock state and creation date, adds exactly the new definitions' types with their new texts, and leaves other types alone |
| Achievements.RefreshWellKeyed | app/src/main/java/com/pseddev/playstreak/utils/AchievementManager.kt:244-267 | a refresh keeps every row stored under its own type |
| Achievements.RefreshIdempotent | app/src/main/java/com/pseddev/playstreak/utils/AchievementManager.kt:244-267 | refreshing twice with the same definitions gives the same table as refreshing once |
| Achievements.EarliestBy | app/src/main/java/com/pseddev/playstreak/utils/AchievementManager.kt:80-117 | a minByOrNull finds nothing exactly when no entry qualifies; otherwise it finds the smallest key among the qualifying entries |
| Achievements.EarliestFirstsConsistent | app/src/main/java/com/pseddev/playstreak/utils/AchievementManager.kt:98-118 | every online or live performance is also a performance, so checking performances first never hides one |
| Achievements.FirstActionRequestsSpec | app/src/main/java/com/pseddev/playstreak/utils/AchievementManager.kt:79-118 | detection asks to unlock each first-action type at the earliest matching item, and never asks for a streak type |
| Achievements.MilestonePosition | app/src/main/java/com/pseddev/playstreak/utils/AchievementManager.kt:143-152 | the milestone list pairs each streak type with its streak length; first-action types are not in it |
| Achievements.StreakRequestsFromSpec | app/src/main/java/com/pseddev/playstreak/utils/AchievementManager.kt:155-164 | the milestone loop asks for a streak type exactly when the current streak reaches its length and a milestone date exists |
| Achievements.StreakRequestsSpec | app/src/main/java/com/pseddev/playstreak/utils/AchievementManager.kt:132-168 | the streak detection asks for each streak type at its milestone date when the current streak reaches it, and asks for nothing when there are no activities |
| Achievements.DetectionRequestsSpec | app/src/main/java/com/pseddev/playstreak/utils/AchievementManager.kt:71-127 | the first request for each type is at the time the detection rules give |
| Achievements.ApplyUnlocksSpec | app/src/main/java/com/pseddev/playstreak/utils/AchievementManager.kt:183-213 | a run of unlocks keeps the rows; each locked row it asks for becomes unlocked at its first request, and every other row is unchanged |
| Achievements.DetectSpec | app/src/main/java/com/pseddev/playstreak/utils/AchievementManager.kt:71-127 | detection unlocks exactly the locked rows whose type is detected, at the detected time, and keeps every other row |
| Achievements.InsertedDefinitions | app/src/main/java/com/pseddev/playstreak/utils/AchievementManager.kt:37-39 | inserting the definitions into an empty table gives every type a locked row of its own, created now |
| Achievements.InitializeFirstStart | app/src/main/java/com/pseddev/playstreak/utils/AchievementManager.kt:37-45 | on first start every type gets its row, unlocked exactly when detected and at the detected time |
| Achievements.InitializeKeepsUnlocks | app/src/main/java/com/pseddev/playstreak/utils/AchievementManager.kt:46-59 | initialising never loses an unlock or its time, and when some row is already unlocked no row changes its unlock state |
| Achievements.InitializeComplete | app/src/main/java/com/pseddev/playstreak/utils/AchievementManager.kt:27-66 | after initialising, every type has a row stored under that type |
| Achievements.RefreshComplete | app/src/main/java/com/pseddev/playstreak/utils/AchievementManager.kt:46-50 | refreshing with the definitions gives every type a row stored under that type |
| Analytics.EmojiLevelThresholds | app/src/main/java/com/pseddev/playstreak/analytics/AnalyticsManager.kt:93-101 | the emoji level counts how many of the thresholds 3, 5, 8 and 14 the streak reaches, so a longer streak never shows a lower level |
| Configuration.SetPruningEnabled | app/src/main/java/com/pseddev/playstreak/utils/ConfigurationManager.kt:19-31 | the stored pruning flag reads back as written, and the other keys are untouched |
| Configuration.SetLifetimeActivityCount | app/src/main/java/com/pseddev/playstreak/utils/ConfigurationManager.kt:37-49 | the stored count reads back as written, and the other keys are untouched |
| Configuration.IncrementLifetimeActivityCount | app/src/main/java/com/pseddev/playstreak/utils/ConfigurationManager.kt:55-58 | the count grows by the increment while the sum fits in an Int, and other keys are untouched |
| Configuration.IncrementTwice | app/src/main/java/com/pseddev/playstreak/utils/ConfigurationManager.kt:55-58 | two increments equal one increment by the 32-bit wrapped sum |
| Configuration.InitializeLifetimeCounter | app/src/main/java/com/pseddev/playstreak/utils/ConfigurationManager.kt:64-72 | after initialising the counter, the flag is set and the pruning preference is untouched |
| Configuration.InitializeOnce | app/src/main/java/com/pseddev/playstreak/utils/ConfigurationManager.kt:64-72 | on fresh preferences initialisation stores the count; any later initialisation changes nothing |
| EditStorage.SetEditActivity | app/src/main/java/com/pseddev/playstreak/ui/progress/EditActivityStorage.kt:15-31 | after a set, the getters return the activity, the name and the type that were written |
| EditStorage.SetEditActivityDefaults | app/src/main/java/com/pseddev/playstreak/ui/progress/EditActivityStorage.kt:15 | a set with the activity alone stores the name "" and the type PIECE |
| EditStorage.ClearEditActivity | app/src/main/java/com/pseddev/playstreak/ui/progress/EditActivityStorage.kt:33-37 | after a clear, all three getters return null |
| EditStorage.EditStateCoherent | app/src/main/java/com/pseddev/playstreak/ui/progress/EditActivityStorage.kt:15-41 | the three slots are filled and emptied together, so edit mode means a name and a type are stored; setting the same values twice equals setting them once |
| OneShotEvent.NewEvent | app/src/main/java/com/pseddev/playstreak/ui/importexport/ImportExportViewModel.kt:235-236 | a new event is not yet handled |
| OneShotEvent.GetContentIfNotHandled | app/src/main/java/com/pseddev/playstreak/ui/importexport/ImportExportViewModel.kt:238-245 | the content is returned exactly when the event was not yet handled, and afterwards the event is handled |
| OneShotEvent.DeliveredOnce | app/src/main/java/com/pseddev/playstreak/ui/importexport/ImportExportViewModel.kt:235-245 | of two reads of a new event, the first gets the content and the second gets null |
| ProUser.SetProUser | app/src/main/java/com/pseddev/playstreak/utils/ProUserManager.kt:21-33 | the stored Pro flag reads back as written |
| ProUser.ToggleProStatus | app/src/main/java/com/pseddev/playstreak/utils/ProUserManager.kt:39-43 | a toggle stores the negated status and returns the new value |
| ProUser.ToggleTwice | app/src/main/java/com/pseddev/playstreak/utils/ProUserManager.kt:39-43 | two toggles restore the status |
| ProUser.ResetToFreeUser | app/src/main/java/com/pseddev/playstreak/utils/ProUserManager.kt:48-50 | after a reset the user is not Pro |
| ProUser.LimitTable | app/src/main/java/com/pseddev/playstreak/utils/ProUserManager.kt:57-114 | favourites are capped at 4 for free users only; pieces at 500 free and 550 Pro; activities at 3000 free and 4000 Pro |
| ProUser.ProDominatesFree | app/src/main/java/com/pseddev/playstreak/utils/ProUserManager.kt:57-97 | whatever a free user may add, a Pro user may add too; a smaller count also stays below the limit; Pro limits are at least the free ones |
| ProUser.SuggestionLimitsOrdered | app/src/main/java/com/pseddev/playstreak/utils/ProUserManager.kt:110-114 | each Pro suggestion limit is at least the free one, and free users get no performance suggestions while Pro users get some |
| Streak.StreakStart | app/src/main/java/com/pseddev/playstreak/utils/StreakCalculator.kt:18-35 | counting starts today exactly when today has an activity, and otherwise yesterday |
| Streak.BackIsProduct | app/src/main/java/com/pseddev/playstreak/utils/StreakCalculator.kt:52 | stepping back n days one at a time lands n whole days earlier |
| Streak.RunBack | app/src/main/java/com/pseddev/playstreak/utils/StreakCalculator.kt:37-56 | the backward loop counts a run of active days and stops at the first inactive day |
| Streak.CurrentStreak | app/src/main/java/com/pseddev/playstreak/utils/StreakCalculator.kt:8-59 | the streak is 0 without activities; otherwise the n days ending at the start day are all active and the day before them is not |
| Streak.CurrentStreakUnique | app/src/main/java/com/pseddev/playstreak/utils/StreakCalculator.kt:8-59 | the characterisation determines the streak: any length with that property is the streak |
| Streak.CurrentStreakIdle | app/src/main/java/com/pseddev/playstreak/utils/StreakCalculator.kt:18-58 | with no activity today or yesterday the streak is 0 |
| Streak.CurrentStreakToday | app/src/main/java/com/pseddev/playstreak/utils/StreakCalculator.kt:18-58 | an activity today makes the streak at least one day long |
| Streak.DayIndexWindow | app/src/main/java/com/pseddev/playstreak/utils/StreakCalculator.kt:69-77 | a timestamp lies within the day its day start opens |
| Streak.SortedDistinct | app/src/main/java/com/pseddev/playstreak/utils/StreakCalculator.kt:80 | the sorted keys of a grouping are strictly increasing, and are exactly the distinct values |
| Streak.ActiveDays | app/src/main/java/com/pseddev/playstreak/utils/StreakCalculator.kt:69-80 | the practice dates are strictly increasing, and are exactly the days of the activities |
| Streak.RunEndsAtDays | app/src/main/java/com/pseddev/playstreak/utils/StreakCalculator.kt:86-108 | in the sorted dates, m consecutive entries one day apart are the same as m consecutive calendar days being active |
| Streak.MilestoneScan | app/src/main/java/com/pseddev/playstreak/utils/StreakCalculator.kt:84-118 | the scan returns the first index that ends a run of m consecutive days, and nothing when there is no such run |
| Streak.MilestoneIndex | app/src/main/java/com/pseddev/playstreak/utils/StreakCalculator.kt:81-118 | the milestone index is the first that ends a run of m consecutive days; nothing is found when there are fewer than m dates or no such run |
| Streak.MilestoneDate | app/src/main/java/com/pseddev/playstreak/utils/StreakCalculator.kt:65-119 | there is no date for no activities, a milestone below 1 or fewer than m active days; a date found is the start of an active day |
| Streak.MilestoneDateEarliest | app/src/main/java/com/pseddev/playstreak/utils/StreakCalculator.kt:65-119 | for m of 2 or more, the date is the earliest active day completing m consecutive active days, and there is none exactly when no day does |
| Streak.DaysRunNeedsDays | app/src/main/java/com/pseddev/playstreak/utils/StreakCalculator.kt:81 | a run of m days needs m dates, so the early return for too few dates loses nothing |
| Streak.MilestoneDateOneDay | app/src/main/java/com/pseddev/playstreak/utils/StreakCalculator.kt:65-119 | a one-day milestone always has a date once there is an activity |
| Streak.PeriodsScan | app/src/main/java/com/pseddev/playstreak/utils/StreakCalculator.kt:141-163 | every reported period spans more than one day, and the periods come in increasing order of their last day |
| Streak.PeriodsScanSound | app/src/main/java/com/pseddev/playstreak/utils/StreakCalculator.kt:144-163 | every reported period is a maximal run of consecutive days |
| Streak.PeriodsScanComplete | app/src/main/java/com/pseddev/playstreak/utils/StreakCalculator.kt:144-163 | every maximal run of more than one day is reported |
| Streak.Periods | app/src/main/java/com/pseddev/playstreak/utils/StreakCalculator.kt:124-125 | there are no periods without activities |
| Streak.DayPeriodsSpec | app/src/main/java/com/pseddev/playstreak/utils/StreakCalculator.kt:124-166 | the periods are exactly the maximal runs of more than one consecutive day |
| Streak.PeriodsChronological | app/src/main/java/com/pseddev/playstreak/utils/StreakCalculator.kt:124-166 | the periods come in chronological order |
| Streak.RunSpan | app/src/main/java/com/pseddev/playstreak/utils/StreakCalculator.kt:144-157 | along a run the dates grow by exactly one day per entry |
| Streak.MaximalRunDays | app/src/main/java/com/pseddev/playstreak/utils/StreakCalculator.kt:144-163 | in calendar terms a maximal run is a stretch of active days with inactive days on both sides |
| Streak.DayPeriodsDays | app/src/main/java/com/pseddev/playstreak/utils/StreakCalculator.kt:124-166 | (length, day) is reported exactly when the length exceeds 1, those days are active, and the days just before and just after are inactive |
| RepositoryStats.Recalculated | app/src/main/java/com/pseddev/playstreak/data/repository/PianoRepository.kt:316-363 | a recount changes only the statistics and the update time, and leaves them consistent with the piece's activities |
| RepositoryStats.TypesPartition | app/src/main/java/com/pseddev/playstreak/data/repository/PianoRepository.kt:321-326 | practices and performances together account for every activity |
| RepositoryStats.TimestampsOfType | app/src/main/java/com/pseddev/playstreak/data/repository/PianoRepository.kt:327-328 | the timestamps of one type are exactly those of the activities of that type |
| RepositoryStats.LatestOfType | app/src/main/java/com/pseddev/playstreak/data/repository/PianoRepository.kt:327-328 | the last date of a type is absent exactly when there is no activity of that type, and is otherwise the latest such timestamp |
| RepositoryStats.DurationsNonNegative | app/src/main/java/com/pseddev/playstreak/data/repository/PianoRepository.kt:329 | the total practice duration is never negative |
| RepositoryStats.AverageAbsent | app/src/main/java/com/pseddev/playstreak/data/repository/PianoRepository.kt:332-335 | the average is absent exactly when no practice has a positive level |
| RepositoryStats.RecentOfType | app/src/main/java/com/pseddev/playstreak/data/repository/PianoRepository.kt:337-345 | the recent list reads back as the at most three latest timestamps, latest first, and no dropped timestamp is later than a kept one |
| RepositoryStats.ConsistentDates | app/src/main/java/com/pseddev/playstreak/data/repository/PianoRepository.kt:321-328 | consistent counts add up to the number of activities, and consistent last dates are the latest timestamp of each type |
| RepositoryStats.ConsistentTotals | app/src/main/java/com/pseddev/playstreak/data/repository/PianoRepository.kt:329-335 | a consistent duration is never negative, and a consistent average is absent exactly when no practice has a positive level |
| RepositoryStats.ConsistentRecent | app/src/main/java/com/pseddev/playstreak/data/repository/PianoRepository.kt:337-359 | consistent recent lists hold the at most three latest timestamps of each type, latest first |
| RepositoryStats.RecalculatePiece | app/src/main/java/com/pseddev/playstreak/data/repository/PianoRepository.kt:316-363 | the piece with that id gets the recount of its own activities; other pieces, and a table without that id, are unchanged |
| RepositoryStats.Later | app/src/main/java/com/pseddev/playstreak/data/repository/PianoRepository.kt:269-311 | the later of a stored date and a new timestamp is at least both, and is one of them |
| RepositoryStats.InsertedStatsAsWritten | app/src/main/java/com/pseddev/playstreak/data/daos/PieceOrTechniqueDao.kt:44-48 | as the update queries are written, the activity's type gains one in its count and the activity's time becomes that type's last date, whatever the stored date was |
| RepositoryStats.InsertedStatsAsWrittenBackdated | app/src/main/java/com/pseddev/playstreak/data/repository/PianoRepository.kt:282-287 | after a practice at 2000 and then one at 1000, the written update stores 1000 as the last practice date while a recount gives 2000 |
| RepositoryStats.InsertedStats | app/src/main/java/com/pseddev/playstreak/data/repository/PianoRepository.kt:269-311 | the corrected update of the Findings row, not the program's: the DAO update with the later last date kept; it keeps the piece's identity |
| RepositoryStats.InsertedPracticeFields | app/src/main/java/com/pseddev/playstreak/data/repository/PianoRepository.kt:273-293 | a practice adds one to the practice count and its positive minutes to the total, keeps the later last date, joins the recent list, recomputes the average only for a positive level, and leaves the performance fields alone |
| RepositoryStats.InsertedPerformanceFields | app/src/main/java/com/pseddev/playstreak/data/repository/PianoRepository.kt:295-309 | a performance adds one to the performance count, keeps the later last date, joins the recent list, and leaves the practice fields alone |
| RepositoryStats.InsertedStatsConsistent | app/src/main/java/com/pseddev/playstreak/data/repository/PianoRepository.kt:125-128 | the incremental update, with the later date kept, agrees with a recount of the activities plus the new one |
| RepositoryStats.OfTypeSnoc | app/src/main/java/com/pseddev/playstreak/data/repository/PianoRepository.kt:272-310 | a new activity joins the activities of its own type only |
| RepositoryStats.RecentSnoc | app/src/main/java/com/pseddev/playstreak/utils/PieceStatisticsHelper.kt:35-42 | adding a timestamp to the stored three latest gives the three latest of all the timestamps |
| RepositoryStats.AverageLevelByPositive | app/src/main/java/com/pseddev/playstreak/data/repository/PianoRepository.kt:368-376 | the average depends only on the positive levels |
| RepositoryStats.AverageSnocNonPositive | app/src/main/java/com/pseddev/playstreak/data/repository/PianoRepository.kt:289-292 | a practice without a positive level leaves the average unchanged, which is why the update skips it |
| RepositoryStats.LatestSnoc | app/src/main/java/com/pseddev/playstreak/data/repository/PianoRepository.kt:327 | the latest timestamp after one more activity is the later of the previous latest and the new one |
| RepositoryStats.DurationSnoc | app/src/main/java/com/pseddev/playstreak/data/repository/PianoRepository.kt:285 | the total after one more practice grows by exactly its positive minutes |
| RepositoryStats.AverageSnoc | app/src/main/java/com/pseddev/playstreak/data/repository/PianoRepository.kt:289-292 | after one more practice the average is recomputed for a positive level and unchanged otherwise |
| RepositoryStats.InsertedPracticeConsistent | app/src/main/java/com/pseddev/playstreak/data/repository/PianoRepository.kt:273-293 | a practice added through the corrected update keeps the statistics consistent |
| RepositoryStats.InsertedPerformanceConsistent | app/src/main/java/com/pseddev/playstreak/data/repository/PianoRepository.kt:295-309 | a performance added through the corrected update keeps the statistics consistent |
| StatsValidator.ValidateStatistics | app/src/main/java/com/pseddev/playstreak/utils/PieceStatisticsValidator.kt:21-80 | the result is valid exactly when no inconsistency was found |
| StatsValidator.FindingsSpec | app/src/main/java/com/pseddev/playstreak/utils/PieceStatisticsValidator.kt:31-73 | each of the six checks reports exactly when its stored value differs from the recount, so a piece draws at most six findings |
| StatsValidator.FindingsCounts | app/src/main/java/com/pseddev/playstreak/utils/PieceStatisticsValidator.kt:31-41 | a count finding is reported exactly when the stored count differs from the recount |
| StatsValidator.FindingsDates | app/src/main/java/com/pseddev/playstreak/utils/PieceStatisticsValidator.kt:43-53 | a last-date finding is reported exactly when the stored date differs from the latest timestamp |
| StatsValidator.FindingsTotals | app/src/main/java/com/pseddev/playstreak/utils/PieceStatisticsValidator.kt:55-73 | a duration finding is reported exactly when the totals differ; an average finding exactly when one average is absent and the other is not, or when they differ by more than 0.01 |
| StatsValidator.RecountOfSpec | app/src/main/java/com/pseddev/playstreak/utils/PieceStatisticsValidator.kt:27-65 | the recount's counts add up to the activities, its last practice date is the latest, its duration is non-negative, and its average is absent exactly when no practice has a positive level |
| StatsValidator.ConsistentPieceValid | app/src/main/java/com/pseddev/playstreak/utils/PieceStatisticsValidator.kt:26-74 | a piece whose statistics match a recount draws no finding |
| StatsValidator.ValidPieceMatches | app/src/main/java/com/pseddev/playstreak/utils/PieceStatisticsValidator.kt:26-74 | a piece without findings has the recounted counts, dates and duration, and an average within 0.01 of the recount's |
| StatsValidator.ValidateStatisticsSpec | app/src/main/java/com/pseddev/playstreak/utils/PieceStatisticsValidator.kt:21-80 | validation passes exactly when every piece passes, and reports at most six findings per piece |
| StatsValidator.ValidAfterRecount | app/src/main/java/com/pseddev/playstreak/utils/PieceStatisticsValidator.kt:21-80 | right after every piece was recounted, validation passes |
| StatsValidator.RecalculatedValid | app/src/main/java/com/pseddev/playstreak/data/repository/PianoRepository.kt:316-363 | a piece recounted by the repository passes validation |
| StatsHelper.EncodeLongs | app/src/main/java/com/pseddev/playstreak/utils/PieceStatisticsHelper.kt:15-17 | the stored text of a timestamp list is a JSON array in brackets |
| StatsHelper.ParseLongs | app/src/main/java/com/pseddev/playstreak/utils/PieceStatisticsHelper.kt:22-30 | a list of number texts parses exactly when every element parses as a Long |
| StatsHelper.DecodeLongs | app/src/main/java/com/pseddev/playstreak/utils/PieceStatisticsHelper.kt:22-30 | text that decodes is a bracketed array of Longs |
| StatsHelper.TimestampsToJson | app/src/main/java/com/pseddev/playstreak/utils/PieceStatisticsHelper.kt:15-17 | an empty list is stored as no text, and any other list as text |
| StatsHelper.JsonToTimestamps | app/src/main/java/com/pseddev/playstreak/utils/PieceStatisticsHelper.kt:22-30 | no text, empty text and unreadable text all read as the empty list; readable text reads as its Longs |
| StatsHelper.DecodeEncodeLongs | app/src/main/java/com/pseddev/playstreak/utils/PieceStatisticsHelper.kt:15-30 | reading back the JSON text of a list of Longs gives the list |
| StatsHelper.TimestampsRoundTrip | app/src/main/java/com/pseddev/playstreak/utils/PieceStatisticsHelper.kt:15-30 | storing a timestamp list and reading it back gives the list, including the empty one |
| StatsHelper.Descending | app/src/main/java/com/pseddev/playstreak/utils/PieceStatisticsHelper.kt:40 | sorting descending keeps the same timestamps |
| StatsHelper.AddTimestampToRecent | app/src/main/java/com/pseddev/playstreak/utils/PieceStatisticsHelper.kt:35-42 | adding a timestamp always stores some text |
| StatsHelper.TopKSpec | app/src/main/java/com/pseddev/playstreak/utils/PieceStatisticsHelper.kt:40 | taking three after sorting descending keeps the three largest, largest first, and drops nothing larger than what it keeps |
| StatsHelper.AddTimestampToRecentSpec | app/src/main/java/com/pseddev/playstreak/utils/PieceStatisticsHelper.kt:35-42 | the stored list reads back as the at most three latest of the old timestamps and the new one, latest first |
| StatsHelper.TopKSnoc | app/src/main/java/com/pseddev/playstreak/utils/PieceStatisticsHelper.kt:35-42 | adding timestamps one at a time keeps the same three as taking the three largest of all of them |
| StatsHelper.AverageLevel | app/src/main/java/com/pseddev/playstreak/utils/PieceStatisticsHelper.kt:47-50 | there is no average exactly when no level is positive |
| StatsHelper.AverageLevelBounds | app/src/main/java/com/pseddev/playstreak/utils/PieceStatisticsHelper.kt:47-50 | a present average lies between 1 and the largest level |
| Suggestions.LastActivitySpec | app/src/main/java/com/pseddev/playstreak/ui/progress/SuggestionsService.kt:255-267 | a piece's last activity is the later of its last practice and last performance, a tie counting as a performance, and is absent when both are |
| Suggestions.DaysSince | app/src/main/java/com/pseddev/playstreak/ui/progress/SuggestionsService.kt:269-273 | the day count fits an Int, and is Int.MAX_VALUE for a piece never played |
| Suggestions.PracticeItem | app/src/main/java/com/pseddev/playstreak/ui/progress/SuggestionsService.kt:279-290 | a practice suggestion is for its piece and dated by the piece's last activity |
| Suggestions.MainList | app/src/main/java/com/pseddev/playstreak/ui/progress/SuggestionsService.kt:250-311 | every collected suggestion is for a piece meeting the rule, built from that piece |
| Suggestions.PieceIds | app/src/main/java/com/pseddev/playstreak/ui/progress/SuggestionsService.kt:335 | the used ids include the id of every listed piece |
| Suggestions.FavoriteEligibleItems | app/src/main/java/com/pseddev/playstreak/ui/progress/SuggestionsService.kt:338-380 | every fallback candidate is an unused favourite with no activity today |
| Suggestions.AtDays | app/src/main/java/com/pseddev/playstreak/ui/progress/SuggestionsService.kt:383-384 | the candidates kept are those with the largest day count |
| Suggestions.NonFavoriteEligibleItems | app/src/main/java/com/pseddev/playstreak/ui/progress/SuggestionsService.kt:418-458 | every fallback candidate is an unused non-favourite inactive for 31 days or never played |
| Suggestions.FavoritesMain | app/src/main/java/com/pseddev/playstreak/ui/progress/SuggestionsService.kt:275-291 | every main favourite suggestion is a favourite with no activity in the last two days and none today |
| Suggestions.NonFavoritesMain | app/src/main/java/com/pseddev/playstreak/ui/progress/SuggestionsService.kt:293-309 | every main non-favourite suggestion was last active between 31 and 7 days ago |
| Suggestions.PracticeSuggestions | app/src/main/java/com/pseddev/playstreak/ui/progress/SuggestionsService.kt:480-483 | every practice suggestion is tagged as practice |
| Suggestions.RecentPractices | app/src/main/java/com/pseddev/playstreak/ui/progress/SuggestionsService.kt:139-141 | the recent practices are the piece's practices from the last 28 days |
| Suggestions.FirstTierItem | app/src/main/java/com/pseddev/playstreak/ui/progress/SuggestionsService.kt:163-177 | a first-tier suggestion is a performance suggestion for its piece |
| Suggestions.SecondTierItem | app/src/main/java/com/pseddev/playstreak/ui/progress/SuggestionsService.kt:178-189 | a second-tier suggestion is a performance suggestion for its piece |
| Suggestions.FirstTierList | app/src/main/java/com/pseddev/playstreak/ui/progress/SuggestionsService.kt:134-198 | every first-tier suggestion is a ready piece not performed in the last 28 days |
| Suggestions.SecondTierList | app/src/main/java/com/pseddev/playstreak/ui/progress/SuggestionsService.kt:134-212 | every second-tier suggestion is a ready piece performed in the last 28 days but not today |
| Suggestions.PerformanceSuggestions | app/src/main/java/com/pseddev/playstreak/ui/progress/SuggestionsService.kt:106-231 | free users get no performance suggestions, and nobody gets more than five |
| Suggestions.MainListsSpec | app/src/main/java/com/pseddev/playstreak/ui/progress/SuggestionsService.kt:250-330 | a piece is in the main favourite list exactly when it is a due favourite, and in the main non-favourite list exactly when it is a due non-favourite; both lists run least recent first |
| Suggestions.FavoriteEligibleItemsSuggest | app/src/main/java/com/pseddev/playstreak/ui/progress/SuggestionsService.kt:338-380 | a piece is a favourite fallback candidate exactly when it is listed and eligible |
| Suggestions.NonFavoriteEligibleItemsSuggest | app/src/main/java/com/pseddev/playstreak/ui/progress/SuggestionsService.kt:418-458 | a piece is a non-favourite fallback candidate exactly when it is listed and eligible |
| Suggestions.FavoriteFallbackSound | app/src/main/java/com/pseddev/playstreak/ui/progress/SuggestionsService.kt:333-390 | the favourite fallback adds at most the number needed, each an eligible favourite |
| Suggestions.FavoriteFallbackMaximal | app/src/main/java/com/pseddev/playstreak/ui/progress/SuggestionsService.kt:381-388 | each favourite the fallback adds has the largest day count among all eligible favourites |
| Suggestions.FavoriteFallbackEmpty | app/src/main/java/com/pseddev/playstreak/ui/progress/SuggestionsService.kt:333-390 | the favourite fallback adds nothing only when nothing is needed or no favourite is eligible |
| Suggestions.NonFavoriteFallbackSound | app/src/main/java/com/pseddev/playstreak/ui/progress/SuggestionsService.kt:413-469 | the non-favourite fallback adds at most the number needed, each an abandoned unused non-favourite |
| Suggestions.NonFavoriteFallbackOrdered | app/src/main/java/com/pseddev/playstreak/ui/progress/SuggestionsService.kt:459-467 | the non-favourite fallback lists the fewest days since the last activity first |
| Suggestions.NonFavoriteFallbackEmpty | app/src/main/java/com/pseddev/playstreak/ui/progress/SuggestionsService.kt:413-469 | the non-favourite fallback adds nothing only when nothing is needed or nothing is eligible |
| Suggestions.AbandonedOrderTotal | app/src/main/java/com/pseddev/playstreak/ui/progress/SuggestionsService.kt:462-466 | the abandoned-candidate comparator is a total preorder, so the sort is well defined |
| Suggestions.ToppedUpFavoritesShape | app/src/main/java/com/pseddev/playstreak/ui/progress/SuggestionsService.kt:332-393 | the favourite list starts with the main favourites; at the limit or beyond it is exactly them, and below the limit the top-up stays within the limit |
| Suggestions.ToppedUpFavoritesItems | app/src/main/java/com/pseddev/playstreak/ui/progress/SuggestionsService.kt:332-393 | every favourite practice suggestion is the practice item built for a favourite piece (not a technique) |
| Suggestions.ToppedUpFavoritesJoin | app/src/main/java/com/pseddev/playstreak/ui/progress/SuggestionsService.kt:337-392 | below the limit, the favourite list is the main favourites followed by the fallback chosen to fill the remaining places |
| Suggestions.ToppedUpFavoritesExtra | app/src/main/java/com/pseddev/playstreak/ui/progress/SuggestionsService.kt:337-392 | the items after the main favourites are eligible favourites not already listed |
| Suggestions.ToppedUpNonFavoritesShape | app/src/main/java/com/pseddev/playstreak/ui/progress/SuggestionsService.kt:412-472 | the non-favourite list starts with the main non-favourites; at the limit or beyond it is exactly them, and below the limit the top-up stays within the limit |
| Suggestions.ToppedUpNonFavoritesItems | app/src/main/java/com/pseddev/playstreak/ui/progress/SuggestionsService.kt:412-472 | every non-favourite practice suggestion is the practice item built for a non-favourite piece (not a technique) |
| Suggestions.ToppedUpNonFavoritesJoin | app/src/main/java/com/pseddev/playstreak/ui/progress/SuggestionsService.kt:417-471 | below the limit, the non-favourite list is the main non-favourites followed by the fallback chosen to fill the remaining places |
| Suggestions.ToppedUpNonFavoritesExtra | app/src/main/java/com/pseddev/playstreak/ui/progress/SuggestionsService.kt:417-471 | the items after the main non-favourites are abandoned non-favourites not already listed |
| Suggestions.ToppedUpNonFavoritesExtraOrdered | app/src/main/java/com/pseddev/playstreak/ui/progress/SuggestionsService.kt:459-471 | the items after the main non-favourites come fewest days first |
| Suggestions.PracticeSuggestionsSpec | app/src/main/java/com/pseddev/playstreak/ui/progress/SuggestionsService.kt:480-483 | the practice suggestions are the favourite list followed by the non-favourite list, all pieces, with the favourites exactly at the front |
| Suggestions.TierListsSuggest | app/src/main/java/com/pseddev/playstreak/ui/progress/SuggestionsService.kt:134-212 | a piece is in a tier list exactly when it is listed and meets that tier's rule |
| Suggestions.TiersPrefix | app/src/main/java/com/pseddev/playstreak/ui/progress/SuggestionsService.kt:223 | any prefix of the two tiers holds only tier pieces, with the first tier before the second |
| Suggestions.PerformanceSuggestionsSound | app/src/main/java/com/pseddev/playstreak/ui/progress/SuggestionsService.kt:106-231 | every performance suggestion is for a first- or second-tier piece, and the first tier comes first |
| Suggestions.PerformanceSuggestionsNotToday | app/src/main/java/com/pseddev/playstreak/ui/progress/SuggestionsService.kt:162-190 | no piece performed today is suggested for performance |
| Suggestions.PerformanceSuggestionsFromPieces | app/src/main/java/com/pseddev/playstreak/ui/progress/SuggestionsService.kt:134 | only listed pieces are suggested for performance |
| Suggestions.PerformanceSuggestionsComplete | app/src/main/java/com/pseddev/playstreak/ui/progress/SuggestionsService.kt:116-223 | a Pro user shown fewer than five performance suggestions is shown every piece of both tiers |
| Suggestions.AllSuggestionsSpec | app/src/main/java/com/pseddev/playstreak/ui/progress/SuggestionsService.kt:40-100 | all suggestions are the favourites of the combined lists, in order, up to the favourite limit, followed by the non-favourites likewise, and nothing else |
| Csv.DoubleQuotes | app/src/main/java/com/pseddev/playstreak/utils/CsvHandler.kt:98 | doubling the quotes never shortens a field, and changes nothing in a field without quotes |
| Csv.EscapeField | app/src/main/java/com/pseddev/playstreak/utils/CsvHandler.kt:96-102 | a field holding a comma, a quote or a line feed is written between quotes |
| Csv.DoubleQuotesPaired | app/src/main/java/com/pseddev/playstreak/utils/CsvHandler.kt:98 | after doubling, every quote inside the field is one of a pair |
| Csv.EscapeFieldIdentity | app/src/main/java/com/pseddev/playstreak/utils/CsvHandler.kt:96-102 | a field is written as it is exactly when it holds no comma, quote or line feed; otherwise its quotes are paired inside the outer quotes |
| Csv.ParseUnquoted | app/src/main/java/com/pseddev/playstreak/utils/CsvHandler.kt:121 | an unquoted field runs up to the first comma |
| Csv.ParseFirstField | app/src/main/java/com/pseddev/playstreak/utils/CsvHandler.kt:96-102 | an escaped field followed by a comma or the end of the record reads back as the field |
| Csv.ParseRenderRecord | app/src/main/java/com/pseddev/playstreak/utils/CsvHandler.kt:54-74 | reading back a written record gives its fields, so escaping loses nothing |
| Csv.UnescapeEscapeField | app/src/main/java/com/pseddev/playstreak/utils/CsvHandler.kt:96-102 | unquoting an escaped field gives the field back |
| Csv.ValidateHeader | app/src/main/java/com/pseddev/playstreak/utils/CsvHandler.kt:248-257 | a header is accepted exactly when it has at least six columns and they start DateTime, Length, ActivityType, Piece, Level, PerformanceType |
| Csv.ExportHeaderAccepted | app/src/main/java/com/pseddev/playstreak/utils/CsvHandler.kt:45-54 | the header the export writes passes the import's header check |
| Csv.TypeOfName | app/src/main/java/com/pseddev/playstreak/utils/CsvHandler.kt:150 | exactly "PRACTICE" and "PERFORMANCE" name an activity type, and the name read is the type's own name |
| Csv.TypeNameRoundTrip | app/src/main/java/com/pseddev/playstreak/utils/CsvHandler.kt:68 | an activity type written by name reads back as itself |
| Csv.ExportRow | app/src/main/java/com/pseddev/playstreak/utils/CsvHandler.kt:64-73 | an exported activity is written as seven fields, one per header column |
| Csv.ExportRows | app/src/main/java/com/pseddev/playstreak/utils/CsvHandler.kt:61-82 | at most one row is written per activity, each with seven fields |
| Csv.ExportCsv | app/src/main/java/com/pseddev/playstreak/utils/CsvHandler.kt:31-94 | the export starts with the header row |
| Csv.ExportRowsSpec | app/src/main/java/com/pseddev/playstreak/utils/CsvHandler.kt:61-82 | exactly the activities whose piece is known are written, in input order, each with its own piece's row |
| Csv.ImportLine | app/src/main/java/com/pseddev/playstreak/utils/CsvHandler.kt:122-229 | a data line is imported exactly when every field parses and the level is in range (1-4 for practice, 1-3 for performance); a short line reports "Invalid number of columns"; each error starts with "Line n: " |
| Csv.ImportLines | app/src/main/java/com/pseddev/playstreak/utils/CsvHandler.kt:118-236 | each data line yields either an activity or an error, and every imported activity has a level in range and a piece name |
| Csv.ImportCsv | app/src/main/java/com/pseddev/playstreak/utils/CsvHandler.kt:104-246 | a missing or wrong header gives only the header error; otherwise each data line is counted once, as an activity or as an error |
| Csv.ImportLinesSpec | app/src/main/java/com/pseddev/playstreak/utils/CsvHandler.kt:201-229 | the piece-name set is exactly the names of the imported activities, and the activities are those of the accepted lines |
| Csv.ImportCsvSpec | app/src/main/java/com/pseddev/playstreak/utils/CsvHandler.kt:104-246 | the import yields one activity per accepted line and one error per other line, and its piece names are non-empty and exactly those imported |
| Csv.ExportImportRoundTrip | app/src/main/java/com/pseddev/playstreak/utils/CsvHandler.kt:31-229 | an exported activity imports back as itself except that its timestamp is cut to its second, since the date pattern has no milliseconds; provided the format reads back the written second, the normalisers are idempotent and the level is in range |
| Entities.ToSecond | app/src/main/java/com/pseddev/playstreak/utils/CsvHandler.kt:18-20 | the greatest whole second not after the timestamp, what a date text without milliseconds keeps |
| DateFormatter.FormatDate | app/src/main/java/com/pseddev/playstreak/utils/DateFormatter.kt:13-40 | a null or zero timestamp is shown as "Never" |
| DateFormatter.FormatAbsolute | app/src/main/java/com/pseddev/playstreak/utils/DateFormatter.kt:45-60 | a null or zero timestamp is shown as "Never", and any other timestamp in its platform date format |
| DateFormatter.FormatDateWithFallback | app/src/main/java/com/pseddev/playstreak/utils/DateFormatter.kt:65-68 | a null or zero timestamp shows the fallback text, and any other timestamp is shown as by formatDate |
| DateFormatter.BucketSpec | app/src/main/java/com/pseddev/playstreak/utils/DateFormatter.kt:13-40 | the relative forms show the whole minutes, hours or days elapsed, switching at one minute, one hour, one day and seven days; a future timestamp is "Just now" |
| DateFormatter.BucketMonotone | app/src/main/java/com/pseddev/playstreak/utils/DateFormatter.kt:21-39 | an older timestamp never lands in an earlier kind of bucket |
| DateFormatter.FormatTimeSince | app/src/main/java/com/pseddev/playstreak/utils/DateFormatter.kt:73-74 | a null or zero timestamp is shown as "Never" |
| DateFormatter.SinceSpec | app/src/main/java/com/pseddev/playstreak/utils/DateFormatter.kt:73-102 | formatTimeSince shows whole units, with 30-day months and 365-day years, switching at one minute, hour, day, 30 days and 365 days |
| DateFormatter.CountTextPlural | app/src/main/java/com/pseddev/playstreak/utils/DateFormatter.kt:83-99 | the unit is plural exactly when the count is not 1 |
| JsonExport.FormatTimestamp | app/src/main/java/com/pseddev/playstreak/utils/JsonExporter.kt:127-133 | an absent, zero or negative timestamp has no text; any other is written in the ISO format |
| JsonExport.FormatRequired | app/src/main/java/com/pseddev/playstreak/utils/JsonExporter.kt:95-96 | a required date falls back to the export time's text when it is not positive |
| JsonExport.ConvertPiece | app/src/main/java/com/pseddev/playstreak/utils/JsonExporter.kt:83-106 | the exported piece keeps the id, name, type, favourite flag and both counts |
| JsonExport.ConvertActivity | app/src/main/java/com/pseddev/playstreak/utils/JsonExporter.kt:111-122 | the exported activity keeps the id, piece id, type, level, performance type, minutes and notes |
| JsonExport.ConvertPieces | app/src/main/java/com/pseddev/playstreak/utils/JsonExporter.kt:65-67 | one exported record per piece, in the same order |
| JsonExport.ConvertActivities | app/src/main/java/com/pseddev/playstreak/utils/JsonExporter.kt:69-71 | one exported record per activity, in the same order |
| JsonExport.CreateExportData | app/src/main/java/com/pseddev/playstreak/utils/JsonExporter.kt:54-78 | the export says version "1.0" and format "combined_data", and holds every piece and activity, in order |
| JsonExport.PieceIds | app/src/main/java/com/pseddev/playstreak/utils/JsonExporter.kt:177 | the id set holds exactly the ids of the exported pieces |
| JsonExport.AllPieceErrorsEmpty | app/src/main/java/com/pseddev/playstreak/utils/JsonExporter.kt:151-163 | no piece finding exactly when every piece has a non-blank name and non-negative counts |
| JsonExport.AllActivityErrorsEmpty | app/src/main/java/com/pseddev/playstreak/utils/JsonExporter.kt:166-174 | no activity finding exactly when every level is at least 1 and every minute count at least -1 |
| JsonExport.RelationErrorsSpec | app/src/main/java/com/pseddev/playstreak/utils/JsonExporter.kt:177-182 | an activity is reported with its id and piece id exactly when its piece is not in the export |
| JsonExport.ValidateEmptyIff | app/src/main/java/com/pseddev/playstreak/utils/JsonExporter.kt:138-185 | validateExportData reports nothing exactly when the version and date are present and every piece and activity is well formed |
| JsonExport.ValidateReportsUnknownPieces | app/src/main/java/com/pseddev/playstreak/utils/JsonExporter.kt:177-182 | every activity of a piece missing from the export appears among the findings |
| JsonExport.ExportValidates | app/src/main/java/com/pseddev/playstreak/utils/JsonExporter.kt:30-78 | what createExportData builds from named pieces with valid counts and activities of known pieces passes validateExportData |
| JsonImport.ParseTimestamp | app/src/main/java/com/pseddev/playstreak/utils/JsonImporter.kt:270-294 | an absent or blank text has no time; otherwise the date formats are tried first and the text as a decimal Long after them |
| JsonImport.ParseTimestampDecimal | app/src/main/java/com/pseddev/playstreak/utils/JsonImporter.kt:287-289 | a timestamp written as plain decimal digits is read back exactly |
| JsonImport.NameWalkSpec | app/src/main/java/com/pseddev/playstreak/utils/JsonImporter.kt:61-70 | the set-based name check reports, piece by piece, exactly the blank names and the names repeating an earlier one ignoring case |
| JsonImport.NameErrorsFromMembers | app/src/main/java/com/pseddev/playstreak/utils/JsonImporter.kt:62-69 | every blank name and every case-insensitive repeat of an earlier non-blank name is reported |
| JsonImport.NameErrorsFromSound | app/src/main/java/com/pseddev/playstreak/utils/JsonImporter.kt:62-69 | every name finding belongs to a blank or repeated name of some piece |
| JsonImport.ReferenceErrorsSpec | app/src/main/java/com/pseddev/playstreak/utils/JsonImporter.kt:73-78 | an activity is reported with its id and piece id exactly when its piece id is not among the pieces' ids |
| JsonImport.DateFieldErrors | app/src/main/java/com/pseddev/playstreak/utils/JsonImporter.kt:299-305 | a date text is reported, once, exactly when it is present, not blank and unreadable |
| JsonImport.FieldErrorsSpec | app/src/main/java/com/pseddev/playstreak/utils/JsonImporter.kt:81-92 | the date checks of a piece report only unreadable dates, and nothing exactly when every field is readable or blank |
| JsonImport.ActivityDateErrorsEmpty | app/src/main/java/com/pseddev/playstreak/utils/JsonImporter.kt:94-96 | no activity date is reported exactly when every activity timestamp is readable or blank |
| JsonImport.ValidateJson | app/src/main/java/com/pseddev/playstreak/utils/JsonImporter.kt:33-125 | valid exactly when there are no errors; parsed data reports its piece and activity counts and its version; a parse failure is invalid with one error, zero counts and no version |
| JsonImport.ValidateJsonFindings | app/src/main/java/com/pseddev/playstreak/utils/JsonImporter.kt:42-58 | an empty export is invalid, a blank version is reported, and each limit error appears exactly when that limit is exceeded |
| JsonImport.HeaderErrorsSpec | app/src/main/java/com/pseddev/playstreak/utils/JsonImporter.kt:42-58 | each structural finding appears exactly when its condition holds |
| JsonImport.ContentErrorsNoLimit | app/src/main/java/com/pseddev/playstreak/utils/JsonImporter.kt:60-96 | the name, reference and date checks never report a limit |
| JsonImport.AllPieceDateErrorsBad | app/src/main/java/com/pseddev/playstreak/utils/JsonImporter.kt:81-92 | the piece date checks report only bad dates |
| JsonImport.ActivityDateErrorsBad | app/src/main/java/com/pseddev/playstreak/utils/JsonImporter.kt:94-96 | the activity date checks report only bad dates |
| JsonImport.ValidateJsonReports | app/src/main/java/com/pseddev/playstreak/utils/JsonImporter.kt:60-96 | every blank name, every repeated name, every unknown piece reference is among the errors, and an unreadable activity timestamp makes the file invalid |
| JsonImport.Positive | app/src/main/java/com/pseddev/playstreak/utils/JsonExporter.kt:127-133 | a timestamp survives the exporter only when it is positive |
| JsonImport.PieceFromExport | app/src/main/java/com/pseddev/playstreak/utils/JsonImporter.kt:230-249 | the imported piece has id 0 for the database to assign, the trimmed name, and the export's type, favourite flag and counts |
| JsonImport.ActivityFromExport | app/src/main/java/com/pseddev/playstreak/utils/JsonImporter.kt:254-265 | the imported activity has id 0, keeps the export's piece id and fields, and takes the current time when its timestamp is unreadable |
| JsonImport.ActivityRoundTrip | app/src/main/java/com/pseddev/playstreak/utils/JsonImporter.kt:254-265 | an activity with a positive timestamp comes back from an export and an import with a new id and its timestamp cut to the whole second, the only precision the ISO pattern writes |
| JsonImport.PieceRoundTrip | app/src/main/java/com/pseddev/playstreak/utils/JsonImporter.kt:230-249 | a piece comes back from an export and an import with id 0, its name trimmed, every date cut to its second, its optional dates kept only when positive, and the statistics the export does not carry reset |
| JsonImport.RoundTripOptional | app/src/main/java/com/pseddev/playstreak/utils/JsonImporter.kt:239-246 | an optional date comes back cut to its second when positive and is dropped otherwise |
| JsonImport.DecimalSecondsToSecond | app/src/main/java/com/pseddev/playstreak/utils/JsonExporter.kt:23-25 | the whole-second read-back the round trips assume is met by a formatter that writes whole seconds |
| JsonImport.ActivityLosesMilliseconds | app/src/main/java/com/pseddev/playstreak/utils/JsonExporter.kt:23-25 | an activity at 1700000000123 is imported at 1700000000000 |
| JsonImport.SecondIfPositive | app/src/main/java/com/pseddev/playstreak/utils/JsonImporter.kt:239-246 | an optional date after the round trip: present iff it was positive, and then its whole second, never later than it |
| JsonImport.OriginalIdsSpec | app/src/main/java/com/pseddev/playstreak/utils/JsonImporter.kt:143-148 | the name map holds exactly the pieces' names and maps each to the id of the last piece with that name |
| JsonImport.ImportFromJson | app/src/main/java/com/pseddev/playstreak/utils/JsonImporter.kt:130-199 | a parse failure imports nothing and reports one error; otherwise every piece and activity is converted and stored, and success means no errors |
| JsonImport.ImportFromJsonConverts | app/src/main/java/com/pseddev/playstreak/utils/JsonImporter.kt:144-162 | the stored pieces are the export's in order, with id 0 and trimmed names, and each stored activity keeps its export piece id |
| RepositoryImport.FavoriteNames | app/src/main/java/com/pseddev/playstreak/data/repository/PianoRepository.kt:197-198 | the names of the favourite pieces are remembered before the tables are cleared |
| RepositoryImport.UpdatedPieces | app/src/main/java/com/pseddev/playstreak/data/daos/PieceOrTechniqueDao.kt:44-48 | the activity's own piece gains one in the count of its type and takes the activity's timestamp as its last date of that type, however old; every other piece is untouched |
| RepositoryImport.InsertActivity | app/src/main/java/com/pseddev/playstreak/data/repository/PianoRepository.kt:125-128 | insertActivity stores the activity under the next id, adds it to its piece's count of its type and overwrites that piece's last date of the type with its timestamp, leaving the other pieces, the favourites and the piece counter alone |
| RepositoryImport.InsertAll | app/src/main/java/com/pseddev/playstreak/data/repository/PianoRepository.kt:250-263 | inserting a list keeps every piece's identity, the favourites and the piece counter, and advances the activity counter by the list's length |
| RepositoryImport.InsertAllStores | app/src/main/java/com/pseddev/playstreak/data/repository/PianoRepository.kt:250-263 | the inserted activities are appended in order under consecutive ids |
| RepositoryImport.LastStampOfSpec | app/src/main/java/com/pseddev/playstreak/data/repository/PianoRepository.kt:250-263 | the reference "last inserted activity of a piece and type" exists exactly when one matches, and no matching activity follows it |
| RepositoryImport.InsertAllLastDates | app/src/main/java/com/pseddev/playstreak/data/daos/PieceOrTechniqueDao.kt:44-48 | after inserting a list, a piece's last date of a type is the timestamp of the last inserted activity of that type, even when an earlier one is later, or the old date when none was inserted |
| RepositoryImport.InsertAllCounts | app/src/main/java/com/pseddev/playstreak/data/repository/PianoRepository.kt:250-263 | each piece's count of a type grows by the number of its inserted activities of that type |
| RepositoryImport.ItemTypeFor | app/src/main/java/com/pseddev/playstreak/data/repository/PianoRepository.kt:213-225 | an explicit type wins; without one a name holding Scale, Arpeggio, Exercise or Technique in any case is a technique and any other name a piece |
| RepositoryImport.ExplicitType | app/src/main/java/com/pseddev/playstreak/data/repository/PianoRepository.kt:213-216 | the type of the first activity of that name carrying one, or none when no such activity carries a type |
| RepositoryImport.FirstOccurrences | app/src/main/java/com/pseddev/playstreak/utils/CsvHandler.kt:202-217 | the new names, each once, in the order first met |
| RepositoryImport.DistinctNames | app/src/main/java/com/pseddev/playstreak/utils/CsvHandler.kt:202-217 | the imported names, each once: exactly the names the activities carry |
| RepositoryImport.NamedByDistinct | app/src/main/java/com/pseddev/playstreak/data/repository/PianoRepository.kt:211-244 | pieces created one per distinct name are one piece per imported name |
| RepositoryImport.Converted | app/src/main/java/com/pseddev/playstreak/data/repository/PianoRepository.kt:249-261 | an imported activity is stored against the id of the piece created for its name |
| RepositoryImport.CreatedPieces | app/src/main/java/com/pseddev/playstreak/data/repository/PianoRepository.kt:211-235 | one fresh piece per distinct name, numbered on from the counter, typed explicitly or by its name, with no counts |
| RepositoryImport.RestoredFavorites | app/src/main/java/com/pseddev/playstreak/data/repository/PianoRepository.kt:237-240 | a new piece is a favourite exactly when its name was one |
| RepositoryImport.ConvertedAll | app/src/main/java/com/pseddev/playstreak/data/repository/PianoRepository.kt:249-261 | every imported activity has a piece for its name and is converted against it |
| RepositoryImport.ImportFromCsv | app/src/main/java/com/pseddev/playstreak/data/repository/PianoRepository.kt:193-266 | the id counters never go back |
| RepositoryImport.ImportNothing | app/src/main/java/com/pseddev/playstreak/data/repository/PianoRepository.kt:200-207 | an import that read no activity leaves no pieces, activities or favourites, whatever the errors |
| RepositoryImport.ImportUnfolds | app/src/main/java/com/pseddev/playstreak/data/repository/PianoRepository.kt:207-263 | an import that read activities is the insertion of the converted activities into the freshly built pieces |
| RepositoryImport.ImportedPieces | app/src/main/java/com/pseddev/playstreak/data/repository/PianoRepository.kt:211-244 | the pieces are the distinct names in order, numbered on from the old counter |
| RepositoryImport.ImportPieceNames | app/src/main/java/com/pseddev/playstreak/data/repository/PianoRepository.kt:211-244 | after an import there is exactly one piece per distinct imported name |
| RepositoryImport.ImportPieceIds | app/src/main/java/com/pseddev/playstreak/data/repository/PianoRepository.kt:211-235 | the pieces are fresh, numbered on from the old counter, and typed by the first explicit type for their name or else by the name |
| RepositoryImport.ImportFavorites | app/src/main/java/com/pseddev/playstreak/data/repository/PianoRepository.kt:195-240 | a piece is a favourite after the import exactly when its name was a favourite's name before |
| RepositoryImport.WithPiecesBuilt | app/src/main/java/com/pseddev/playstreak/data/repository/PianoRepository.kt:200-244 | once cleared and rebuilt, the store holds the new pieces with no counts and no activities |
| RepositoryImport.StoredAgainstPieces | app/src/main/java/com/pseddev/playstreak/data/repository/PianoRepository.kt:249-263 | each inserted activity keeps its fields and points at the piece of its name |
| RepositoryImport.ImportActivities | app/src/main/java/com/pseddev/playstreak/data/repository/PianoRepository.kt:249-263 | every imported activity is stored in order under fresh ids, with its fields kept and its piece the one created for its name |
| RepositoryImport.ConvertedCount | app/src/main/java/com/pseddev/playstreak/data/repository/PianoRepository.kt:249-261 | counting converted activities by piece id is counting imported ones by name |
| RepositoryImport.TalliesById | app/src/main/java/com/pseddev/playstreak/data/daos/PieceOrTechniqueDao.kt:44-48 | inserting into a piece with nothing counted leaves it named as before and counting exactly its own activities |
| RepositoryImport.TalliesAfterInsert | app/src/main/java/com/pseddev/playstreak/data/repository/PianoRepository.kt:249-263 | inserting converted activities into fresh pieces leaves each counting those imported under its name |
| RepositoryImport.ImportLastDates | app/src/main/java/com/pseddev/playstreak/data/repository/PianoRepository.kt:250-263 | after an import each piece's last practice and performance dates are the timestamps of the last such lines imported under its name, in file order, and absent when there is none |
| RepositoryImport.ImportCounts | app/src/main/java/com/pseddev/playstreak/data/repository/PianoRepository.kt:193-266 | after an import each piece counts the practices and performances imported under its name |
| RepositoryImport.ScaleGuessedTechnique | app/src/main/java/com/pseddev/playstreak/data/repository/PianoRepository.kt:220-224 | the technique words match in any case |
| RepositoryImport.EtudeGuessedPiece | app/src/main/java/com/pseddev/playstreak/data/repository/PianoRepository.kt:225 | a name with none of the technique words is a piece |
| Historical.CleanCode | app/docs/convert_historical_data.py:25 | the cleaned code keeps exactly the code's characters among p, P, a, A, X and x |
| Historical.PracticeLevels | app/docs/convert_historical_data.py:37-43 | the levels a code asks for are among 4, 2 and 1, and there is one exactly when P, A, p or a occurs |
| Historical.MapActivityCode | app/docs/convert_historical_data.py:19-48 | nothing for a code with no meaningful character; X is a satisfactory and x an unsatisfactory performance; otherwise a practice at level 1, 2 or 4 |
| Historical.PracticeLevelIsHighest | app/docs/convert_historical_data.py:38-46 | a practice code takes the highest level any of its letters names: P 4, A 2, p or a 1 |
| Historical.MapActivityCodeIgnoresNoise | app/docs/convert_historical_data.py:24-25 | characters outside the code alphabet never change the decoding |
| Historical.ParseDate | app/docs/convert_historical_data.py:10-17 | an eight-character date becomes the ten-character dashed form; anything else passes through |
| Historical.ParseDateRoundTrip | app/docs/convert_historical_data.py:12-16 | removing the dashes from a reformatted date gives back the header |
| Historical.CellStep | app/docs/convert_historical_data.py:89-118 | a blank cell is skipped; a non-blank cell past the last header raises; a cell under a non-date header or with an undecodable code is skipped; any other cell emits its row |
| Historical.OutcomesFrom | app/docs/convert_historical_data.py:89 | the inner loop visits a row's cells in column order |
| Historical.CollectSpec | app/docs/convert_historical_data.py:66-118 | the walk fails exactly when some visited cell fails, and otherwise yields the emitted rows in visiting order |
| Historical.CollectMembership | app/docs/convert_historical_data.py:110-118 | a row is collected exactly when some visited cell emits it |
| Historical.RowOutcomesCells | app/docs/convert_historical_data.py:78-89 | the outcomes of a visited row are those of its cells |
| Historical.SheetOutcomesCells | app/docs/convert_historical_data.py:75-89 | the outcomes of the walk are exactly those of the visited cells |
| Historical.ConvertCsvSpec | app/docs/convert_historical_data.py:50-121 | the script raises exactly when some visited cell fails; otherwise the output is the emitted rows, one per emitting cell |
| Historical.ConvertCsvFailsIff | app/docs/convert_historical_data.py:89-94 | the script raises exactly when a row has a non-blank code in a column past the last header |
| Historical.ConvertCsvMembership | app/docs/convert_historical_data.py:89-121 | the output holds exactly the rows visited cells emit |
| Historical.EmittedRowShape | app/docs/convert_historical_data.py:103-118 | every output row is at 13:00 on a reformatted date header, with length -1, no notes, a non-blank piece, and a level matching its activity type |
| Historical.ConvertCsvSorted | app/docs/convert_historical_data.py:121 | the output is sorted by its timestamp text |
| Historical.ConvertCsvStable | app/docs/convert_historical_data.py:121 | rows with the same timestamp keep the order the walk produced them in |
| Historical.SameKeyIffEquivalent | app/docs/convert_historical_data.py:121 | two rows tie in the sort exactly when their timestamps are equal |
| Playtest.ChangeYear | app/docs/make_large_playtest.py:7-10 | a row whose first field starts with the old year gets the new year in its place; every other field and row is unchanged |
| Playtest.ChangeYearSameYear | app/docs/make_large_playtest.py:7-10 | shifting a row to its own year changes nothing |
| Playtest.ChangeYearRoundTrip | app/docs/make_large_playtest.py:7-10 | for a row whose first field starts with the old year, shifting to another year and back restores the row |
| Playtest.YearBlock | app/docs/make_large_playtest.py:22-23 | a year's block has one row per data row |
| Playtest.YearBlockAt | app/docs/make_large_playtest.py:22-23 | row j of a year's block is data row j shifted to that year |
| Playtest.Blocks | app/docs/make_large_playtest.py:21-23 | one block per year, each as long as the data |
| Playtest.BlockAt | app/docs/make_large_playtest.py:21-23 | block k is the block for the k-th year of the list |
| Playtest.Expand | app/docs/make_large_playtest.py:12-23 | an empty input raises; otherwise the header comes first, then one row per year and data row |
| Playtest.ExpandLength | app/docs/make_large_playtest.py:5-23 | the output has the header plus five copies of the data |
| Playtest.ExpandIndex | app/docs/make_large_playtest.py:21-23 | data row j of year k sits at index 1 + k times the data length + j, shifted to that year |
| Playtest.ExpandLayout | app/docs/make_large_playtest.py:5-23 | the layout with the script's year list, shifting from 2024 |
| Playtest.ExpandFirstBlockVerbatim | app/docs/make_large_playtest.py:5-23 | the first block, for 2024, is the data unchanged |
| PiecesView.SetSortType | app/src/main/java/com/pseddev/playstreak/ui/progress/PiecesViewModel.kt:115-123 | choosing a sort type makes it current and picks ascending for names and descending for dates and counts |
| PiecesView.Flip | app/src/main/java/com/pseddev/playstreak/ui/progress/PiecesViewModel.kt:126-130 | the direction always changes |
| PiecesView.ToggleSortDirection | app/src/main/java/com/pseddev/playstreak/ui/progress/PiecesViewModel.kt:125-131 | toggling keeps the sort type and changes the direction |
| PiecesView.ToggleTwice | app/src/main/java/com/pseddev/playstreak/ui/progress/PiecesViewModel.kt:125-131 | two toggles restore the sort state |
| PiecesView.WithFavoriteStatus | app/src/main/java/com/pseddev/playstreak/data/repository/PianoRepository.kt:391-404 | every piece, in table order, flagged exactly when its id is among the favourites |
| PiecesView.LastActivityDate | app/src/main/java/com/pseddev/playstreak/ui/progress/PiecesViewModel.kt:62-66 | a piece's last date is absent exactly when it has no activity, and otherwise is the timestamp of one of its activities and at least every other |
| PiecesView.LatestOfPiece | app/src/main/java/com/pseddev/playstreak/ui/progress/PiecesViewModel.kt:62-66 | the maximum over the piece's own timestamps is the latest of its activities |
| PiecesView.StatsFor | app/src/main/java/com/pseddev/playstreak/ui/progress/PiecesViewModel.kt:60-68 | a row carries the piece, its favourite flag, the number of its activities, and a last date exactly when that number is positive |
| PiecesView.RowsFor | app/src/main/java/com/pseddev/playstreak/ui/progress/PiecesViewModel.kt:59-69 | one row per piece, in the repository's order |
| PiecesView.OrderForTotal | app/src/main/java/com/pseddev/playstreak/ui/progress/PiecesViewModel.kt:72-76 | each sort key gives a total preorder, so the stable sort is well defined |
| PiecesView.PiecesWithStats | app/src/main/java/com/pseddev/playstreak/ui/progress/PiecesViewModel.kt:52-84 | the list shows every piece's row exactly once |
| PiecesView.DescendingReversesAscending | app/src/main/java/com/pseddev/playstreak/ui/progress/PiecesViewModel.kt:78-83 | the descending list is the ascending list reversed |
| PiecesView.PiecesWithStatsSpec | app/src/main/java/com/pseddev/playstreak/ui/progress/PiecesViewModel.kt:52-84 | the list ascends by lowercase name under Kotlin's `compareTo` on UTF-16 code units, by last date (never played as 0) or by count, or descends when DESCENDING, and each row is a piece with its own count and last date |
| PiecesView.PiecesWithStatsOrdered | app/src/main/java/com/pseddev/playstreak/ui/progress/PiecesViewModel.kt:72-83 | the list ascends by the chosen key, or descends by it when DESCENDING |
| PiecesView.PiecesWithStatsRows | app/src/main/java/com/pseddev/playstreak/ui/progress/PiecesViewModel.kt:59-69 | every row shown is for a piece of the list, with its favourite flag, its own activity count and its last activity date |
| PiecesView.PiecesWithStatsStable | app/src/main/java/com/pseddev/playstreak/ui/progress/PiecesViewModel.kt:72-76 | rows with equal keys keep the repository's order in the ascending list |
| PiecesView.ToggleFavorite | app/src/main/java/com/pseddev/playstreak/ui/progress/PiecesViewModel.kt:136-157 | removing a favourite always succeeds; adding succeeds only while the tier allows one more, and otherwise nothing changes and the result is false |
| PiecesView.ToggleFavoriteLimit | app/src/main/java/com/pseddev/playstreak/utils/ProUserManager.kt:57-62 | a free user never gets past four favourites by toggling, a Pro user always succeeds, and no other piece's flag changes |
| AbandonedView.ItemFor | app/src/main/java/com/pseddev/playstreak/ui/progress/AbandonedViewModel.kt:42-51 | an item carries its piece and has no last date exactly when the piece has no activity |
| AbandonedView.Collected | app/src/main/java/com/pseddev/playstreak/ui/progress/AbandonedViewModel.kt:39-63 | exactly the non-favourite pieces (not techniques) never played or last played more than 31 days ago are collected |
| AbandonedView.AbandonedOrderTotal | app/src/main/java/com/pseddev/playstreak/ui/progress/AbandonedViewModel.kt:66-70 | the three-key comparator is a total preorder |
| AbandonedView.Arranged | app/src/main/java/com/pseddev/playstreak/ui/progress/AbandonedViewModel.kt:66-77 | arranging only reorders the items |
| AbandonedView.AbandonedPieces | app/src/main/java/com/pseddev/playstreak/ui/progress/AbandonedViewModel.kt:29-79 | the list holds the collected items, each once |
| AbandonedView.AbandonedMembership | app/src/main/java/com/pseddev/playstreak/ui/progress/AbandonedViewModel.kt:39-63 | an item is shown exactly when it belongs to a stale non-favourite piece |
| AbandonedView.OrderMeansPair | app/src/main/java/com/pseddev/playstreak/ui/progress/AbandonedViewModel.kt:66-70 | the comparator puts played pieces before never-played ones, later dates first, then lowercase names in Kotlin's UTF-16 code-unit order |
| AbandonedView.SortedMeansPairs | app/src/main/java/com/pseddev/playstreak/ui/progress/AbandonedViewModel.kt:66-70 | in the sorted list every earlier item relates to every later one as the comparator says |
| AbandonedView.ArrangedPairs | app/src/main/java/com/pseddev/playstreak/ui/progress/AbandonedViewModel.kt:66-77 | ascending, every earlier item precedes every later one by the comparator; descending, the same read from the end |
| AbandonedView.AbandonedOrdered | app/src/main/java/com/pseddev/playstreak/ui/progress/AbandonedViewModel.kt:29-79 | the shown list is ordered as the comparator says, in the chosen direction |
| AbandonedView.AbandonedDescendingReverses | app/src/main/java/com/pseddev/playstreak/ui/progress/AbandonedViewModel.kt:73-77 | the descending list is the ascending list reversed |
| AbandonedView.ListedDaysAtLeast31 | app/src/main/java/com/pseddev/playstreak/ui/progress/AbandonedViewModel.kt:47-54 | a never-played piece shows Int.MAX_VALUE days; a played one shows at least 31 days while the count fits in an Int |
| CalendarDates.LengthOfMonth | app/src/main/java/com/pseddev/playstreak/ui/progress/CalendarFragment.kt:331 | months have 28 to 31 days: 31 for the long months, 30 for April, June, September and November, 29 exactly for a leap February |
| CalendarDates.YearMonthOf | app/src/main/java/com/pseddev/playstreak/ui/progress/CalendarFragment.kt:304-316 | month numbers and calendar months correspond one to one, so moving one month back or on is well defined |
| CalendarDates.YearMonthOfIndex | app/src/main/java/com/pseddev/playstreak/ui/progress/CalendarFragment.kt:304-316 | numbering a month and reading the number back gives the same month |
| CalendarDates.FirstDayStep | app/src/main/java/com/pseddev/playstreak/ui/progress/CalendarViewModel.kt:102 | a month starts where the previous one ends |
| CalendarDates.FirstDayMonotone | app/src/main/java/com/pseddev/playstreak/ui/progress/CalendarViewModel.kt:92-104 | later months start strictly later |
| CalendarDates.InMonthUnique | app/src/main/java/com/pseddev/playstreak/ui/progress/CalendarViewModel.kt:92-104 | a day lies in one month only |
| CalendarDates.MonthAt | app/src/main/java/com/pseddev/playstreak/ui/progress/CalendarViewModel.kt:92-100 | every day lies in some month |
| CalendarDates.StartOfDayMillis | app/src/main/java/com/pseddev/playstreak/ui/progress/CalendarFragment.kt:326-340 | a date's midnight is a whole day of milliseconds and falls on that date |
| CalendarDates.DateAt | app/src/main/java/com/pseddev/playstreak/ui/progress/CalendarViewModel.kt:28-34 | every instant falls on a valid date |
| CalendarDates.DateAtStartOfDay | app/src/main/java/com/pseddev/playstreak/ui/progress/CalendarFragment.kt:326-340 | a date is the date of its own midnight |
| CalendarDates.DayWindow | app/src/main/java/com/pseddev/playstreak/ui/progress/CalendarViewModel.kt:28-36 | the selected-day window runs from the instant's midnight for exactly one day and contains the instant |
| CalendarDates.DayWindowMeansSameDay | app/src/main/java/com/pseddev/playstreak/ui/progress/CalendarViewModel.kt:28-38 | an instant lies in another's day window exactly when both fall on the same day |
| CalendarDates.MonthWindow | app/src/main/java/com/pseddev/playstreak/ui/progress/CalendarViewModel.kt:92-104 | the month window runs from midnight on the first of the instant's month to midnight on the first of the next month, and contains the instant |
| CalendarDates.MonthWindowMeansSameMonth | app/src/main/java/com/pseddev/playstreak/ui/progress/CalendarViewModel.kt:82-85 | two instants have the same month window exactly when they fall in the same month |
| CalendarDates.MonthWindowContains | app/src/main/java/com/pseddev/playstreak/ui/progress/CalendarViewModel.kt:49-50 | an instant lies in another's month window exactly when both fall in the same month |
| CalendarDates.DayToSelect | app/src/main/java/com/pseddev/playstreak/ui/progress/CalendarFragment.kt:326-337 | after a month switch the same day of the month is selected when the new month has it, its last day otherwise, and day 1 when nothing was selected |
| CalendarDates.DayToSelectClosest | app/src/main/java/com/pseddev/playstreak/ui/progress/CalendarFragment.kt:326-337 | the chosen day is the latest day of the new month not after the old day, and it lies in the new month |
| CalendarDates.DayToSelectRoundTrip | app/src/main/java/com/pseddev/playstreak/ui/progress/CalendarFragment.kt:326-337 | switching away and back returns to the same date when both months have its day |
| CalendarDates.ClampToFebruary | app/src/main/java/com/pseddev/playstreak/ui/progress/CalendarFragment.kt:333-335 | from 31 January the next month shows 29 February in a leap year and 28 February otherwise |
| CalendarDates.InitialState | app/src/main/java/com/pseddev/playstreak/ui/progress/CalendarViewModel.kt:23-24 | the calendar opens on the current instant with its month loaded |
| CalendarDates.SelectDate | app/src/main/java/com/pseddev/playstreak/ui/progress/CalendarViewModel.kt:78-86 | selecting an instant makes it current and leaves its month loaded |
| CalendarDates.SelectDateKeepsMonth | app/src/main/java/com/pseddev/playstreak/ui/progress/CalendarViewModel.kt:81-85 | the loaded window stays exactly when the new instant is in the same month |
| Calendar.FindPiece | app/src/main/java/com/pseddev/playstreak/ui/progress/CalendarViewModel.kt:41 | the lookup finds nothing exactly when no piece has the id, and otherwise a piece with that id |
| Calendar.FindPieceFirst | app/src/main/java/com/pseddev/playstreak/ui/progress/CalendarViewModel.kt:41 | the lookup returns the first piece with the id |
| Calendar.Joined | app/src/main/java/com/pseddev/playstreak/ui/progress/CalendarViewModel.kt:40-43 | each activity is paired with its piece, those whose piece is gone are dropped, and the order is kept |
| Calendar.SelectedDateActivities | app/src/main/java/com/pseddev/playstreak/ui/progress/CalendarViewModel.kt:26-46 | exactly the activities on the selected day whose piece still exists are shown |
| Calendar.Days | app/src/main/java/com/pseddev/playstreak/ui/progress/CalendarViewModel.kt:58-67 | the day keys are each active day once, in order of first occurrence |
| Calendar.Summarize | app/src/main/java/com/pseddev/playstreak/ui/progress/CalendarViewModel.kt:57-73 | the total counts the activities, every group is a non-empty set of one day's activities, and the days are distinct and no more than the activities |
| Calendar.GroupsNonEmpty | app/src/main/java/com/pseddev/playstreak/ui/progress/CalendarViewModel.kt:58-67 | every listed day has at least one activity |
| Calendar.GroupSizesTotal | app/src/main/java/com/pseddev/playstreak/ui/progress/CalendarViewModel.kt:58-72 | every activity lies in exactly one day's group |
| Calendar.MonthlySummary | app/src/main/java/com/pseddev/playstreak/ui/progress/CalendarViewModel.kt:48-76 | the month's summary counts the activities in the month window that still have a piece, grouped by day into non-empty distinct groups |
| Calendar.MonthlySummaryTotals | app/src/main/java/com/pseddev/playstreak/ui/progress/CalendarViewModel.kt:69-73 | the groups add up to the total |
| Calendar.IntensityMonotone | app/src/main/java/com/pseddev/playstreak/ui/progress/CalendarFragment.kt:279-289 | more activities never give a lighter shade; dark from 11, light below 5 |
| Calendar.ColorFor | app/src/main/java/com/pseddev/playstreak/ui/progress/CalendarFragment.kt:262-291 | no colour for an empty day; a free user sees light practice for any activity; a Pro user sees the performance shades exactly when the day has a performance, darker with more activities |
| Calendar.ColorMonotone | app/src/main/java/com/pseddev/playstreak/ui/progress/CalendarFragment.kt:273-290 | for a Pro user a busier day of the same kind is never lighter |
| Calendar.TypeDescription | app/src/main/java/com/pseddev/playstreak/ui/progress/CalendarFragment.kt:236-246 | "Mixed" exactly when the day has a performance and a practice, "Performance" when only performances, "Practice" when no performance |
| Achievements.DetectWellKeyed | app/src/main/java/com/pseddev/playstreak/utils/AchievementManager.kt:71-127 | detection keeps the table keyed by type and adds or drops no row |
| Achievements.ResetAchievementsSpec | app/src/main/java/com/pseddev/playstreak/utils/AchievementManager.kt:272-284 | after a reset exactly the detected types are unlocked, each at its detected time, and the texts and creation dates are unchanged |
| Decimal.ParseInt32 | app/src/main/java/com/pseddev/playstreak/utils/CsvHandler.kt:141 | reading a 32-bit Int accepts exactly the texts of an optional sign and ASCII decimal digits whose value fits in 32 bits |
| Decimal.ParseInt32ToString | app/src/main/java/com/pseddev/playstreak/utils/CsvHandler.kt:141 | every 32-bit Int written in decimal is read back unchanged |
| Decimal.ParseInt64 | app/src/main/java/com/pseddev/playstreak/utils/JsonImporter.kt:289 | reading a Long accepts exactly the texts of an optional sign and ASCII decimal digits whose value fits in 64 bits |
| Text.Utf16Units | app/src/main/java/com/pseddev/playstreak/ui/progress/PiecesViewModel.kt:73 | a character is one code unit below U+10000 and otherwise a high and a low surrogate that encode it |
| Text.ByUtf16KeyTotalPreorder | app/src/main/java/com/pseddev/playstreak/ui/progress/PiecesViewModel.kt:73 | sorting by a string key under Kotlin's `compareTo` is a total preorder |
| Text.Utf16LeInBmp | app/src/main/java/com/pseddev/playstreak/ui/progress/AbandonedViewModel.kt:69 | for characters below U+10000 Kotlin's code-unit order agrees with code-point order |
| Text.SurrogatesSortFirst | app/src/main/java/com/pseddev/playstreak/ui/progress/AbandonedViewModel.kt:67-69 | Kotlin's order puts a character above U+FFFF before U+FF21, while Python's code-point sort puts it after |

## Left out

- Android UI: fragments, adapters, dialogs, navigation, toasts and layouts. From `CalendarFragment.kt` only the colour, description and day-clamp rules are modelled.
- Persistence and reactive plumbing: Room, the migration SQL, Flow, LiveData and coroutines. Tables are sequences and maps, preferences are records, and each `combine` lambda is a plain function of its inputs.
- The `ORDER BY timestamp DESC` of the DAO queries: activities arrive in whatever order the caller passes them.
- Network and foreign services: Google Sign-In, Google Drive, sync, Firebase event logging and Crashlytics. Of `AnalyticsManager.kt` only the streak emoji level is modelled.
- Libraries: Gson, OpenCSV, `SimpleDateFormat`, `java.util.Calendar`, the platform date formats and `TextNormalizer` (Unicode normalisation and regular expressions). Date parsing and formatting, name and note normalisation are function parameters. JSON text is not modelled except the compact `[t1,t2,...]` list the statistics helper stores.
- Csv.ParseRecord: models OpenCSV only as an RFC 4180 reader of one record. Splitting a file into records and OpenCSV's own leniency are not modelled.
- StatsHelper.JsonToTimestamps: reads only the compact form the writer produces. Gson's lenient forms (spaces, strings for numbers) count as unparseable.
- Time zones and daylight saving: instants are read in a zone without offset, so every day is exactly 24 hours long. Months follow the proleptic Gregorian calendar, so `java.util.Calendar`'s Julian dates before 1582 are not modelled.
- Floating point: average practice levels are exact rationals (`real`), not 32-bit floats. The text-colour luminance in `CalendarFragment.kt` is not modelled.
- Kotlin `Long` overflow: timestamps are unbounded integers. Where a value is stored back as a `Long`, the model requires it to be in range. Kotlin `Int` wrap-around is modelled for the lifetime counter and the `toInt()` of day counts, but not for the `Int` sums of practice minutes (next lines).
- RepositoryStats.DurationsNonNegative: the total practice duration is an unbounded sum. Kotlin's `sumOf` over `Int` minutes (`PianoRepository.kt:329`) wraps past 2147483647, so in the app a total above that turns negative; such totals (over 4000 years of practice) are not modelled.
- RepositoryStats.ConsistentTotals: "a consistent duration is never negative" relies on the same unbounded sum; the app's wrapped `Int` total can be negative.
- StatsValidator.RecountOfSpec: the validator's recount of minutes (`PieceStatisticsValidator.kt:56`) is the same `Int` `sumOf`; the model's sum does not wrap, so its non-negative duration is not the app's for totals past 2147483647.
- Decimal.ParseInt32: only the ASCII digits 0-9 are read. Kotlin's `toInt()` reads any Unicode decimal digit through `Character.digit`, so "٣٠" is 30 in the app and unreadable here; the Unicode digit tables are not modelled.
- Decimal.ParseInt64: the same for `toLong()`: only ASCII digits are read.
- Csv.ImportLine: the minutes and level columns (`CsvHandler.kt:141`, `:173`) are read with ASCII digits only, so a line with Arabic-Indic or full-width digits is reported as an error here and imported by the app.
- JsonImport.ParseTimestamp: the decimal fallback (`JsonImporter.kt:289`) reads ASCII digits only, so a timestamp in other Unicode digits has no time here and a time in the app.
- Historical.CellStep: the date-header test stands for Python's `isdigit()` (`convert_historical_data.py:95`) on ASCII digits only; a header such as "２０２４０１０１" is skipped here and converted by the script.
- Dates as text: the platform formatters are parameters. The round trips assume that the written text reads back as the timestamp's whole second; for the CSV's local-time pattern this fails in the repeated hour when daylight saving ends, which is not modelled.
- Text.Lower, Text.Trim, Text.IsBlank: only ASCII letters are case folded and only ASCII whitespace is trimmed. Kotlin's `lowercase()`, `trim()`, `isBlank()` and `contains(ignoreCase = true)` and Python's `strip()` follow Unicode, so for example `É` and `é`, or a no-break space, are treated differently by the app. The same gap reaches the members below, the lower-case sort keys of `PiecesView` and `AbandonedView`, and `Historical.CellStep`'s cell cleaning.
- JsonImport.NameWalkSpec: a repeated name is detected with ASCII-only case folding, so "Étude" after "étude" is not reported, while `JsonImporter.kt:61-70` reports it.
- JsonImport.NameErrorsFromMembers: the same ASCII-only case folding; repeats differing only in non-ASCII case are not among the reported errors.
- JsonImport.ValidateJsonReports: "every repeated name" means repeated up to ASCII case only.
- RepositoryImport.ItemTypeFor: the technique words are matched ignoring ASCII case only; Kotlin's `contains(ignoreCase = true)` also matches other case variants such as "ſcale".
- Achievements.AllDefinitions and the JSON export take one `now` (and one export time text) for every object they build, while the app reads the clock for each object (`Achievement.kt:16`), so creation times a few milliseconds apart are not modelled.
- JsonImport.ImportFromJson: every conversion succeeds in the model, so the per-item "Failed to convert" errors never arise. Gson's nulls for missing fields, which cause those failures, are not modelled.
- JsonImport.ImportFromJson: does not store the lifetime activity count. `JsonImporter.kt:177` reads a field that `ExportData.kt` does not declare.
- Streak.MilestoneDateOneDay: for milestone 1 it states only that a date exists, not that it is the earliest active day. The scan can return a later day in that case.
- Legacy copies: the packages `com.example.pianotrackopus` and `com.pseddev.practicetracker` are not modelled. Neither are the older inline suggestion algorithms in `DashboardViewModel.kt` and `SuggestionsViewModel.kt`.
- Missing functions: `ImportExportViewModel.kt` calls an undefined `CsvHandler.validateCsv`, and `AchievementCelebrationManager` calls an undefined configuration method. Neither call is modelled. Only the `Event` wrapper of `ImportExportViewModel.kt` is modelled.
- `ImportedActivity.pieceType`, which `PianoRepository.kt` reads but the CSV handler never fills, is an optional type that the CSV import always leaves absent.
- Repository operations outside the import and statistics paths: piece and activity deletion, `updateActivity`'s other effects, the "recently practised" and "most practised" queries, and the favourites CSV export.
- The Pieces screen's selected-piece details and piece deletion.
- Suggestion reason texts: each suggestion carries its reason as a `Reason` value. `Suggestions.ReasonText` renders it as the app's string, but no property of the rendered text is proved.
- The Python scripts' file input and output, and the summary printout of `convert_historical_data.py`. That printout aggregates the wrong columns, and its `min()` raises on an empty result.

## Findings

| source | as written | input that shows it | evidently intended | confidence | as-written member | corrected member |
|---|---|---|---|---|---|---|
| app/src/main/java/com/pseddev/playstreak/data/repository/PianoRepository.kt:282-287 | the incremental statistics update always stores the new activity's timestamp as the last practice (or performance) date, through `updatePracticeStats` and `updatePerformanceStats` (`PieceOrTechniqueDao.kt:44-48`) | a piece with one practice at 2000, then a practice logged with the earlier time 1000: the stored last practice date becomes 1000, while a recount gives 2000 | keep the later of the stored date and the new timestamp, as `recalculatePieceStatistics` and the statistics validator do | high; not executed | RepositoryStats.InsertedStatsAsWrittenBackdated | RepositoryStats.InsertedStatsConsistent |
