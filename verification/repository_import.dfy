/**
 * The repository's CSV import: the stored data is cleared, one piece is
 * created per distinct imported name (typed by the activity's explicit type or
 * by a name heuristic), favourites are restored by name, and every imported
 * activity is inserted against its piece, each insert running the incremental
 * statistics update. Row ids come from counters that, as with SQLite's
 * AUTOINCREMENT keys, keep growing across a clear.
 */
module RepositoryImport {
  import opened Wrappers
  import opened Seqs
  import opened Text
  import opened Decimal
  import opened Entities
  import opened Csv
  import opened RepositoryStats

  /** The rows the repository keeps: pieces, activities, the favourite piece ids and the next free ids. */
  datatype Db = Db(
    pieces: seq<PieceOrTechnique>,
    activities: seq<Activity>,
    favorites: set<int>,
    nextPieceId: int,
    nextActivityId: int)

  /** The names of the pieces marked favourite. */
  function FavoriteNames(db: Db): (r: set<string>)
    ensures forall p :: p in db.pieces && p.id in db.favorites ==> p.name in r
  {
    set p | p in db.pieces && p.id in db.favorites :: p.name
  }

  // ---------------------------------------------------------------------------
  // Inserting one activity.
  // ---------------------------------------------------------------------------

  /** The stored count of activities of type `t` of a piece. */
  function Tally(p: PieceOrTechnique, t: ActivityType): int
  {
    match t
    case PRACTICE => p.practiceCount
    case PERFORMANCE => p.performanceCount
  }

  /** Whether `a` is an activity of type `t` of piece `id`: 1 if so, 0 otherwise. */
  function Counts(a: Activity, id: int, t: ActivityType): nat
  {
    if a.pieceOrTechniqueId == id && a.activityType == t then 1 else 0
  }

  /** The stored last date of activities of type `t` of a piece. */
  function LastDate(p: PieceOrTechnique, t: ActivityType): Option<int>
  {
    match t
    case PRACTICE => p.lastPracticeDate
    case PERFORMANCE => p.lastPerformanceDate
  }

  /**
   * The pieces after `stored` was inserted into `acts`: its own piece has
   * its statistics updated by the DAO's update queries, which overwrite the
   * last date of the activity's type with its timestamp; the others are
   * untouched.
   */
  function UpdatedPieces(pieces: seq<PieceOrTechnique>, stored: Activity, acts: seq<Activity>, now: int)
    : (r: seq<PieceOrTechnique>)
    requires LONG_MIN <= stored.timestamp <= LONG_MAX
    ensures |r| == |pieces|
    ensures forall k :: 0 <= k < |pieces| ==>
              r[k].id == pieces[k].id && r[k].name == pieces[k].name && r[k].itemType == pieces[k].itemType
              && (pieces[k].id != stored.pieceOrTechniqueId ==> r[k] == pieces[k])
    ensures forall k, t :: 0 <= k < |pieces| ==> Tally(r[k], t) == Tally(pieces[k], t) + Counts(stored, pieces[k].id, t)
    ensures forall k, t :: 0 <= k < |pieces| ==>
              LastDate(r[k], t) == if Counts(stored, pieces[k].id, t) == 1 then Some(stored.timestamp) else LastDate(pieces[k], t)
  {
    if |pieces| == 0 then []
    else
      var p := pieces[0];
      var q := if p.id == stored.pieceOrTechniqueId then InsertedStatsAsWritten(p, stored, ForPiece(acts, p.id), now) else p;
      [q] + UpdatedPieces(pieces[1..], stored, acts, now)
  }

  /**
   * insertActivity: the activity is stored under the next activity id and
   * the statistics of its piece are updated incrementally.
   */
  function InsertActivity(db: Db, a: Activity, now: int): (r: Db)
    requires LONG_MIN <= a.timestamp <= LONG_MAX
    ensures r.activities == db.activities + [a.(id := db.nextActivityId)]
    ensures r.nextActivityId == db.nextActivityId + 1
    ensures r.favorites == db.favorites && r.nextPieceId == db.nextPieceId
    ensures |r.pieces| == |db.pieces|
    ensures forall k :: 0 <= k < |db.pieces| ==>
              r.pieces[k].id == db.pieces[k].id && r.pieces[k].name == db.pieces[k].name
              && r.pieces[k].itemType == db.pieces[k].itemType
              && (db.pieces[k].id != a.pieceOrTechniqueId ==> r.pieces[k] == db.pieces[k])
    ensures forall k, t :: 0 <= k < |db.pieces| ==> Tally(r.pieces[k], t) == Tally(db.pieces[k], t) + Counts(a, db.pieces[k].id, t)
    ensures forall k, t :: 0 <= k < |db.pieces| ==>
              LastDate(r.pieces[k], t) == if Counts(a, db.pieces[k].id, t) == 1 then Some(a.timestamp) else LastDate(db.pieces[k], t)
  {
    var stored := a.(id := db.nextActivityId);
    var acts := db.activities + [stored];
    db.(pieces := UpdatedPieces(db.pieces, stored, acts, now), activities := acts, nextActivityId := db.nextActivityId + 1)
  }

  /** The number of activities of type `t` of piece `id` in `acts`. */
  function CountOf(acts: seq<Activity>, id: int, t: ActivityType): nat
  {
    if |acts| == 0 then 0 else Counts(acts[0], id, t) + CountOf(acts[1..], id, t)
  }

  function LongRange(acts: seq<Activity>): bool
  {
    forall i :: 0 <= i < |acts| ==> LONG_MIN <= acts[i].timestamp <= LONG_MAX
  }

  /** The activities inserted one after another. */
  function InsertAll(db: Db, acts: seq<Activity>, now: int): (r: Db)
    requires LongRange(acts)
    ensures r.favorites == db.favorites && r.nextPieceId == db.nextPieceId
    ensures r.nextActivityId == db.nextActivityId + |acts|
    ensures |r.pieces| == |db.pieces|
    ensures forall k :: 0 <= k < |db.pieces| ==>
              r.pieces[k].id == db.pieces[k].id && r.pieces[k].name == db.pieces[k].name
              && r.pieces[k].itemType == db.pieces[k].itemType
    decreases |acts|
  {
    if |acts| == 0 then db else InsertAll(InsertActivity(db, acts[0], now), acts[1..], now)
  }

  /** Inserting a list stores each activity, in order, under consecutive ids. */
  lemma {:induction false} InsertAllStores(db: Db, acts: seq<Activity>, now: int)
    requires LongRange(acts)
    ensures var r := InsertAll(db, acts, now);
            |r.activities| == |db.activities| + |acts|
            && r.activities[..|db.activities|] == db.activities
            && forall i :: 0 <= i < |acts| ==>
                 r.activities[|db.activities| + i] == acts[i].(id := db.nextActivityId + i)
    decreases |acts|
  {
    if |acts| > 0 {
      var db1 := InsertActivity(db, acts[0], now);
      InsertAllStores(db1, acts[1..], now);
      var r := InsertAll(db, acts, now);
      assert r == InsertAll(db1, acts[1..], now);
      forall i | 0 <= i < |acts|
        ensures r.activities[|db.activities| + i] == acts[i].(id := db.nextActivityId + i)
      {
        if i > 0 {
          assert acts[1..][i - 1] == acts[i];
          assert r.activities[|db1.activities| + (i - 1)] == acts[1..][i - 1].(id := db1.nextActivityId + (i - 1));
        } else {
          assert r.activities[..|db1.activities|] == db1.activities;
          assert r.activities[|db.activities|] == db1.activities[|db.activities|];
        }
      }
      assert r.activities[..|db.activities|] == r.activities[..|db1.activities|][..|db.activities|];
    }
  }

  /** Inserting a list adds, to each piece, its activities of each type among them. */
  lemma {:induction false} InsertAllCounts(db: Db, acts: seq<Activity>, now: int, t: ActivityType)
    requires LongRange(acts)
    ensures var r := InsertAll(db, acts, now);
            forall k :: 0 <= k < |db.pieces| ==>
              Tally(r.pieces[k], t) == Tally(db.pieces[k], t) + CountOf(acts, db.pieces[k].id, t)
    decreases |acts|
  {
    if |acts| > 0 {
      var db1 := InsertActivity(db, acts[0], now);
      InsertAllCounts(db1, acts[1..], now, t);
      assert InsertAll(db, acts, now) == InsertAll(db1, acts[1..], now);
    }
  }

  lemma InsertAllCountAt(db: Db, acts: seq<Activity>, now: int, t: ActivityType, k: nat)
    requires LongRange(acts) && k < |db.pieces|
    ensures Tally(InsertAll(db, acts, now).pieces[k], t) == Tally(db.pieces[k], t) + CountOf(acts, db.pieces[k].id, t)
  {
    InsertAllCounts(db, acts, now, t);
  }

  /** The timestamp of the last activity of type `t` of piece `id` in `acts`, if there is one. */
  function LastStampOf(acts: seq<Activity>, id: int, t: ActivityType): Option<int>
  {
    if |acts| == 0 then None
    else
      var later := LastStampOf(acts[1..], id, t);
      if later.Some? then later
      else if Counts(acts[0], id, t) == 1 then Some(acts[0].timestamp)
      else None
  }

  /**
   * LastStampOf names the last matching activity: there is one exactly when
   * some activity matches, and no matching activity comes after it.
   */
  lemma {:induction false} LastStampOfSpec(acts: seq<Activity>, id: int, t: ActivityType)
    ensures LastStampOf(acts, id, t).None? <==> CountOf(acts, id, t) == 0
    ensures LastStampOf(acts, id, t).Some? ==>
              exists i :: 0 <= i < |acts| && Counts(acts[i], id, t) == 1 && acts[i].timestamp == LastStampOf(acts, id, t).value
                          && forall j :: i < j < |acts| ==> Counts(acts[j], id, t) == 0
    decreases |acts|
  {
    if |acts| > 0 {
      LastStampOfSpec(acts[1..], id, t);
      var r := LastStampOf(acts, id, t);
      var later := LastStampOf(acts[1..], id, t);
      if later.Some? {
        var i :| 0 <= i < |acts[1..]| && Counts(acts[1..][i], id, t) == 1 && acts[1..][i].timestamp == later.value
                 && forall j :: i < j < |acts[1..]| ==> Counts(acts[1..][j], id, t) == 0;
        assert acts[i + 1] == acts[1..][i];
        forall j | i + 1 < j < |acts|
          ensures Counts(acts[j], id, t) == 0
        {
          assert acts[j] == acts[1..][j - 1];
        }
      } else if r.Some? {
        forall j | 0 < j < |acts|
          ensures Counts(acts[j], id, t) == 0
        {
          assert acts[j] == acts[1..][j - 1];
          CountOfZero(acts[1..], id, t, j - 1);
        }
      }
    }
  }

  lemma {:induction false} CountOfZero(acts: seq<Activity>, id: int, t: ActivityType, j: nat)
    requires CountOf(acts, id, t) == 0 && j < |acts|
    ensures Counts(acts[j], id, t) == 0
    decreases |acts|
  {
    if j > 0 {
      CountOfZero(acts[1..], id, t, j - 1);
      assert acts[j] == acts[1..][j - 1];
    }
  }

  /**
   * Inserting a list leaves, as each piece's last date of a type, the
   * timestamp of the last inserted activity of that type, however old, or
   * the old date when none was inserted.
   */
  lemma {:induction false} InsertAllLastDates(db: Db, acts: seq<Activity>, now: int, t: ActivityType, k: nat)
    requires LongRange(acts) && k < |db.pieces|
    ensures var last := LastStampOf(acts, db.pieces[k].id, t);
            LastDate(InsertAll(db, acts, now).pieces[k], t) == if last.Some? then last else LastDate(db.pieces[k], t)
    decreases |acts|
  {
    if |acts| > 0 {
      var db1 := InsertActivity(db, acts[0], now);
      InsertAllLastDates(db1, acts[1..], now, t, k);
      assert InsertAll(db, acts, now) == InsertAll(db1, acts[1..], now);
      assert db1.pieces[k].id == db.pieces[k].id;
    }
  }

  // ---------------------------------------------------------------------------
  // The import.
  // ---------------------------------------------------------------------------

  /** The words whose presence, in any case, makes an untyped imported name a technique. */
  const TECHNIQUE_WORDS: seq<string> := ["Scale", "Arpeggio", "Exercise", "Technique"]

  function LooksLikeTechnique(name: string): bool
  {
    exists i :: 0 <= i < |TECHNIQUE_WORDS| && ContainsIgnoreCase(name, TECHNIQUE_WORDS[i])
  }

  /** The type of a new piece: the explicit one when an activity gave it, else guessed from the name. */
  function ItemTypeFor(name: string, explicit: Option<ItemType>): (r: ItemType)
    ensures explicit.Some? ==> r == explicit.value
    ensures explicit.None? ==> (r == TECHNIQUE <==> LooksLikeTechnique(name))
  {
    match explicit
    case Some(t) => t
    case None => if LooksLikeTechnique(name) then TECHNIQUE else PIECE
  }

  /**
   * The type given by the first activity named `name` that carries one;
   * `types[i]` is the optional type of `acts[i]`.
   */
  function ExplicitType(acts: seq<ImportedActivity>, types: seq<Option<ItemType>>, name: string): (r: Option<ItemType>)
    requires |types| == |acts|
    ensures r.None? <==> forall i :: 0 <= i < |acts| && acts[i].pieceName == name ==> types[i].None?
    ensures r.Some? ==> exists i :: 0 <= i < |acts| && acts[i].pieceName == name && types[i] == r
                          && forall j :: 0 <= j < i && acts[j].pieceName == name ==> types[j].None?
  {
    if |acts| == 0 then None
    else if acts[0].pieceName == name && types[0].Some? then types[0]
    else
      var rest := ExplicitType(acts[1..], types[1..], name);
      assert forall i :: 1 <= i < |acts| ==> acts[i] == acts[1..][i - 1] && types[i] == types[1..][i - 1];
      rest
  }

  /** The names of `names` not in `seen`, each once, in order of first occurrence. */
  function FirstOccurrences(names: seq<string>, seen: set<string>): (r: seq<string>)
    ensures NoDuplicates(r)
    ensures forall x :: x in r <==> x in names && x !in seen
  {
    if |names| == 0 then []
    else if names[0] in seen then FirstOccurrences(names[1..], seen)
    else [names[0]] + FirstOccurrences(names[1..], seen + {names[0]})
  }

  /** The distinct names of the imported activities, in the order the CSV reader first met them. */
  function DistinctNames(acts: seq<ImportedActivity>): (r: seq<string>)
    ensures NoDuplicates(r)
    ensures forall x :: x in r <==> exists i :: 0 <= i < |acts| && acts[i].pieceName == x
  {
    var names := Map(acts, PieceNameOf);
    assert forall x :: x in names <==> exists i :: 0 <= i < |acts| && acts[i].pieceName == x by {
      forall x | x in names ensures exists i :: 0 <= i < |acts| && acts[i].pieceName == x {
        var i :| 0 <= i < |names| && names[i] == x;
        assert acts[i].pieceName == x;
      }
    }
    FirstOccurrences(names, {})
  }

  function NameOf(p: PieceOrTechnique): string
  {
    p.name
  }

  /**
   * One piece per imported name: each piece is named by an imported
   * activity, each imported name has a piece, and no two share a name.
   */
  predicate OnePiecePerName(pieces: seq<PieceOrTechnique>, acts: seq<ImportedActivity>)
  {
    var pieceNames := Map(pieces, NameOf);
    var importedNames := Map(acts, PieceNameOf);
    NoDuplicates(pieceNames)
    && (forall k :: 0 <= k < |pieceNames| ==> pieceNames[k] in importedNames)
    && (forall i :: 0 <= i < |importedNames| ==> importedNames[i] in pieceNames)
  }

  /** Pieces named by the distinct names, in order, are one per imported name. */
  lemma NamedByDistinct(pieces: seq<PieceOrTechnique>, acts: seq<ImportedActivity>)
    requires |pieces| == |DistinctNames(acts)|
    requires forall k :: 0 <= k < |pieces| ==> pieces[k].name == DistinctNames(acts)[k]
    ensures OnePiecePerName(pieces, acts)
  {
    var names := DistinctNames(acts);
    var pieceNames := Map(pieces, NameOf);
    var importedNames := Map(acts, PieceNameOf);
    assert pieceNames == names;
    forall i | 0 <= i < |importedNames| ensures importedNames[i] in names {
      assert acts[i].pieceName == importedNames[i];
    }
    forall k | 0 <= k < |names| ensures names[k] in importedNames {
      assert names[k] in names;
      var i :| 0 <= i < |acts| && acts[i].pieceName == names[k];
      assert importedNames[i] == names[k];
    }
  }

  /** The position of `x` in a sequence holding it. */
  function IndexOf(s: seq<string>, x: string): (i: nat)
    requires x in s
    ensures i < |s| && s[i] == x
    ensures forall j :: 0 <= j < i ==> s[j] != x
  {
    if s[0] == x then 0 else 1 + IndexOf(s[1..], x)
  }

  /** The piece created for the `i`th distinct name. */
  function CreatedPiece(names: seq<string>, i: nat, acts: seq<ImportedActivity>, types: seq<Option<ItemType>>,
                        firstId: int, now: int): PieceOrTechnique
    requires i < |names| && |types| == |acts|
  {
    NewPiece(firstId + i, names[i], ItemTypeFor(names[i], ExplicitType(acts, types, names[i])), false, now)
  }

  /** The imported activity stored against the piece created for its name. */
  function Converted(a: ImportedActivity, names: seq<string>, firstId: int): (r: Activity)
    requires a.pieceName in names
    ensures 0 <= r.pieceOrTechniqueId - firstId < |names| && names[r.pieceOrTechniqueId - firstId] == a.pieceName
  {
    Activity(0, a.timestamp, firstId + IndexOf(names, a.pieceName), a.activityType, a.level,
             a.performanceType, a.minutes, a.notes)
  }

  predicate ImportedLongRange(acts: seq<ImportedActivity>)
  {
    forall i :: 0 <= i < |acts| ==> LONG_MIN <= acts[i].timestamp <= LONG_MAX
  }

  /** One fresh piece per distinct name, numbered from `firstId`, typed explicitly or by its name. */
  function CreatedPieces(names: seq<string>, acts: seq<ImportedActivity>, types: seq<Option<ItemType>>,
                         firstId: int, now: int): (r: seq<PieceOrTechnique>)
    requires |types| == |acts|
    ensures |r| == |names|
    ensures forall k :: 0 <= k < |names| ==>
              r[k].id == firstId + k && r[k].name == names[k]
              && r[k].itemType == ItemTypeFor(names[k], ExplicitType(acts, types, names[k]))
              && Tally(r[k], PRACTICE) == 0 && Tally(r[k], PERFORMANCE) == 0
              && r[k].lastPracticeDate.None? && r[k].lastPerformanceDate.None?
  {
    seq(|names|, i requires 0 <= i < |names| => CreatedPiece(names, i, acts, types, firstId, now))
  }

  /** The new ids of the names that were favourites. */
  function RestoredFavorites(names: seq<string>, favoriteNames: set<string>, firstId: int): (r: set<int>)
    ensures forall id :: id in r <==> exists k :: 0 <= k < |names| && id == firstId + k && names[k] in favoriteNames
  {
    set i | 0 <= i < |names| && names[i] in favoriteNames :: firstId + i
  }

  /** The store once it is cleared and the pieces are created. */
  function WithPieces(db: Db, acts: seq<ImportedActivity>, types: seq<Option<ItemType>>, now: int): Db
    requires |types| == |acts|
  {
    var names := DistinctNames(acts);
    Db(CreatedPieces(names, acts, types, db.nextPieceId, now), [],
       RestoredFavorites(names, FavoriteNames(db), db.nextPieceId),
       db.nextPieceId + |names|, db.nextActivityId)
  }

  /** The imported activities, each against the id its name's piece gets. */
  function ConvertedAll(acts: seq<ImportedActivity>, firstId: int): (r: seq<Activity>)
    ensures |r| == |acts|
    ensures forall i :: 0 <= i < |acts| ==>
              acts[i].pieceName in DistinctNames(acts) && r[i] == Converted(acts[i], DistinctNames(acts), firstId)
  {
    var names := DistinctNames(acts);
    assert forall i :: 0 <= i < |acts| ==> acts[i].pieceName in names;
    seq(|acts|, i requires 0 <= i < |acts| => Converted(acts[i], names, firstId))
  }

  /**
   * importFromCsv after the CSV was read into `result`: the favourite names
   * are saved, everything is cleared whatever the errors, and only when some
   * activity was read are the pieces created, favourites restored and the
   * activities inserted. `types[i]` is the optional explicit type of the
   * `i`th imported activity.
   */
  function ImportFromCsv(db: Db, result: ImportResult, types: seq<Option<ItemType>>, now: int): (r: Db)
    requires |types| == |result.activities|
    requires ImportedLongRange(result.activities)
    ensures r.nextPieceId >= db.nextPieceId && r.nextActivityId >= db.nextActivityId
  {
    var acts := result.activities;
    if |acts| == 0 then Db([], [], {}, db.nextPieceId, db.nextActivityId)
    else
      var created := WithPieces(db, acts, types, now);
      var converted := ConvertedAll(acts, db.nextPieceId);
      assert LongRange(converted);
      InsertAll(created, converted, now)
  }

  // ---------------------------------------------------------------------------
  // What the import promises.
  // ---------------------------------------------------------------------------

  /** Nothing read means nothing kept: no pieces, activities or favourites survive. */
  lemma ImportNothing(db: Db, result: ImportResult, types: seq<Option<ItemType>>, now: int)
    requires |types| == |result.activities| && ImportedLongRange(result.activities)
    requires |result.activities| == 0
    ensures var r := ImportFromCsv(db, result, types, now);
            r.pieces == [] && r.activities == [] && r.favorites == {}
  {
  }

  /** An import that read some activity is the insertion of its activities into the freshly built store. */
  lemma ImportUnfolds(db: Db, result: ImportResult, types: seq<Option<ItemType>>, now: int)
    requires |types| == |result.activities| && ImportedLongRange(result.activities)
    requires |result.activities| > 0
    ensures var converted := ConvertedAll(result.activities, db.nextPieceId);
            LongRange(converted)
            && ImportFromCsv(db, result, types, now) == InsertAll(WithPieces(db, result.activities, types, now), converted, now)
  {
  }

  /** The pieces an import leaves, in terms of the distinct names. */
  lemma ImportedPieces(db: Db, result: ImportResult, types: seq<Option<ItemType>>, now: int)
    requires |types| == |result.activities| && ImportedLongRange(result.activities)
    requires |result.activities| > 0
    ensures var r := ImportFromCsv(db, result, types, now);
            var names := DistinctNames(result.activities);
            |r.pieces| == |names| && r.nextPieceId == db.nextPieceId + |names|
            && forall k :: 0 <= k < |names| ==> r.pieces[k].id == db.nextPieceId + k && r.pieces[k].name == names[k]
  {
    ImportUnfolds(db, result, types, now);
  }

  /** After an import there is exactly one piece per distinct imported name. */
  lemma ImportPieceNames(db: Db, result: ImportResult, types: seq<Option<ItemType>>, now: int)
    requires |types| == |result.activities| && ImportedLongRange(result.activities)
    requires |result.activities| > 0
    ensures OnePiecePerName(ImportFromCsv(db, result, types, now).pieces, result.activities)
  {
    ImportedPieces(db, result, types, now);
    NamedByDistinct(ImportFromCsv(db, result, types, now).pieces, result.activities);
  }

  /**
   * The pieces are fresh, numbered on from the old counter, and typed by
   * the first explicit type given for their name or else by the name.
   */
  lemma ImportPieceIds(db: Db, result: ImportResult, types: seq<Option<ItemType>>, now: int)
    requires |types| == |result.activities| && ImportedLongRange(result.activities)
    requires |result.activities| > 0
    ensures var r := ImportFromCsv(db, result, types, now);
            (forall k :: 0 <= k < |r.pieces| ==>
               r.pieces[k].id == db.nextPieceId + k
               && r.pieces[k].itemType == ItemTypeFor(r.pieces[k].name, ExplicitType(result.activities, types, r.pieces[k].name)))
            && r.nextPieceId == db.nextPieceId + |r.pieces|
  {
    ImportUnfolds(db, result, types, now);
  }

  /** A favourite after an import is a new piece whose name was a favourite before, and every such piece is one. */
  lemma ImportFavorites(db: Db, result: ImportResult, types: seq<Option<ItemType>>, now: int)
    requires |types| == |result.activities| && ImportedLongRange(result.activities)
    ensures var r := ImportFromCsv(db, result, types, now);
            forall id :: id in r.favorites <==>
              exists k :: 0 <= k < |r.pieces| && r.pieces[k].id == id && r.pieces[k].name in FavoriteNames(db)
  {
    if |result.activities| > 0 {
      ImportUnfolds(db, result, types, now);
    }
  }

  /**
   * The pieces of a store built for `names` from `firstId` on, and the
   * imported activities converted against them.
   */
  predicate BuiltFor(created: Db, converted: seq<Activity>, acts: seq<ImportedActivity>, names: seq<string>, firstId: int)
  {
    NoDuplicates(names) && |created.pieces| == |names|
    && (forall k :: 0 <= k < |names| ==> created.pieces[k].id == firstId + k && created.pieces[k].name == names[k])
    && |converted| == |acts|
    && (forall i :: 0 <= i < |acts| ==> acts[i].pieceName in names && converted[i] == Converted(acts[i], names, firstId))
  }

  lemma WithPiecesBuilt(db: Db, acts: seq<ImportedActivity>, types: seq<Option<ItemType>>, now: int)
    requires |types| == |acts|
    ensures var created := WithPieces(db, acts, types, now);
            BuiltFor(created, ConvertedAll(acts, db.nextPieceId), acts, DistinctNames(acts), db.nextPieceId)
            && created.activities == [] && created.nextActivityId == db.nextActivityId
            && (forall k :: 0 <= k < |created.pieces| ==> Tally(created.pieces[k], PRACTICE) == 0 && Tally(created.pieces[k], PERFORMANCE) == 0)
  {
    var names := DistinctNames(acts);
    var pieces := CreatedPieces(names, acts, types, db.nextPieceId, now);
    assert WithPieces(db, acts, types, now).pieces == pieces;
    assert forall k :: 0 <= k < |names| ==> pieces[k].id == db.nextPieceId + k && pieces[k].name == names[k];
    var converted := ConvertedAll(acts, db.nextPieceId);
    assert forall i :: 0 <= i < |acts| ==> acts[i].pieceName in names && converted[i] == Converted(acts[i], names, db.nextPieceId);
  }

  /** The freshly built pieces carry no last date of either type. */
  lemma WithPiecesUndated(db: Db, acts: seq<ImportedActivity>, types: seq<Option<ItemType>>, now: int, t: ActivityType)
    requires |types| == |acts|
    ensures var created := WithPieces(db, acts, types, now);
            forall k :: 0 <= k < |created.pieces| ==> LastDate(created.pieces[k], t).None?
  {
  }

  /** Inserting converted activities stores each against the piece of its name. */
  lemma StoredAgainstPieces(created: Db, converted: seq<Activity>, acts: seq<ImportedActivity>, names: seq<string>,
                            firstId: int, now: int)
    requires LongRange(converted) && BuiltFor(created, converted, acts, names, firstId)
    requires created.activities == []
    ensures var r := InsertAll(created, converted, now);
            |r.activities| == |acts|
            && forall i :: 0 <= i < |acts| ==>
                 var s := r.activities[i];
                 s.id == created.nextActivityId + i && s.timestamp == acts[i].timestamp
                 && s.activityType == acts[i].activityType && s.level == acts[i].level
                 && s.performanceType == acts[i].performanceType && s.minutes == acts[i].minutes
                 && s.notes == acts[i].notes
                 && exists k :: 0 <= k < |r.pieces| && r.pieces[k].id == s.pieceOrTechniqueId
                                && r.pieces[k].name == acts[i].pieceName
  {
    InsertAllStores(created, converted, now);
    var r := InsertAll(created, converted, now);
    forall i | 0 <= i < |acts|
      ensures r.activities[i] == converted[i].(id := created.nextActivityId + i)
      ensures exists k :: 0 <= k < |r.pieces| && r.pieces[k].id == r.activities[i].pieceOrTechniqueId
                          && r.pieces[k].name == acts[i].pieceName
    {
      assert r.activities[0 + i] == converted[i].(id := created.nextActivityId + i);
      var k := converted[i].pieceOrTechniqueId - firstId;
      assert r.pieces[k].id == created.pieces[k].id;
    }
  }

  /**
   * Every imported activity is stored, in order and under fresh ids, with its
   * fields kept and its piece id that of the piece created for its name.
   */
  lemma ImportActivities(db: Db, result: ImportResult, types: seq<Option<ItemType>>, now: int)
    requires |types| == |result.activities| && ImportedLongRange(result.activities)
    ensures var r := ImportFromCsv(db, result, types, now);
            var acts := result.activities;
            |r.activities| == |acts|
            && forall i :: 0 <= i < |acts| ==>
                 var s := r.activities[i];
                 s.id == db.nextActivityId + i && s.timestamp == acts[i].timestamp
                 && s.activityType == acts[i].activityType && s.level == acts[i].level
                 && s.performanceType == acts[i].performanceType && s.minutes == acts[i].minutes
                 && s.notes == acts[i].notes
                 && exists k :: 0 <= k < |r.pieces| && r.pieces[k].id == s.pieceOrTechniqueId
                                && r.pieces[k].name == acts[i].pieceName
  {
    var acts := result.activities;
    if |acts| > 0 {
      ImportUnfolds(db, result, types, now);
      WithPiecesBuilt(db, acts, types, now);
      StoredAgainstPieces(WithPieces(db, acts, types, now), ConvertedAll(acts, db.nextPieceId), acts,
                          DistinctNames(acts), db.nextPieceId, now);
    }
  }

  /** The activities of type `t` among the imported ones named `name`. */
  function ImportedCount(acts: seq<ImportedActivity>, name: string, t: ActivityType): nat
  {
    if |acts| == 0 then 0
    else (if acts[0].pieceName == name && acts[0].activityType == t then 1 else 0) + ImportedCount(acts[1..], name, t)
  }

  /** Counting converted activities by piece id is counting imported ones by name. */
  lemma {:induction false} ConvertedCount(acts: seq<ImportedActivity>, names: seq<string>, firstId: int,
                                          k: nat, t: ActivityType, converted: seq<Activity>)
    requires NoDuplicates(names) && k < |names|
    requires |converted| == |acts|
    requires forall i :: 0 <= i < |acts| ==> acts[i].pieceName in names && converted[i] == Converted(acts[i], names, firstId)
    ensures CountOf(converted, firstId + k, t) == ImportedCount(acts, names[k], t)
    decreases |acts|
  {
    if |acts| > 0 {
      assert forall i :: 1 <= i < |acts| ==> acts[1..][i - 1] == acts[i] && converted[1..][i - 1] == converted[i];
      ConvertedCount(acts[1..], names, firstId, k, t, converted[1..]);
      var j := converted[0].pieceOrTechniqueId - firstId;
      assert names[j] == acts[0].pieceName;
      assert j == k <==> acts[0].pieceName == names[k];
    }
  }

  /** Inserting into pieces with nothing counted leaves each counting its own activities. */
  lemma TalliesById(created: Db, converted: seq<Activity>, names: seq<string>, firstId: int, now: int,
                    t: ActivityType, k: nat)
    requires LongRange(converted) && |created.pieces| == |names| && k < |names|
    requires created.pieces[k].id == firstId + k && created.pieces[k].name == names[k]
    requires Tally(created.pieces[k], t) == 0
    ensures var r := InsertAll(created, converted, now);
            |r.pieces| == |names| && r.pieces[k].name == names[k]
            && Tally(r.pieces[k], t) == CountOf(converted, firstId + k, t)
  {
    InsertAllCountAt(created, converted, now, t, k);
  }

  /** Inserting converted activities into empty pieces leaves each counting those of its name. */
  lemma TalliesAfterInsert(created: Db, converted: seq<Activity>, acts: seq<ImportedActivity>, names: seq<string>,
                           firstId: int, now: int, t: ActivityType)
    requires LongRange(converted) && BuiltFor(created, converted, acts, names, firstId)
    requires forall k :: 0 <= k < |created.pieces| ==> Tally(created.pieces[k], t) == 0
    ensures var r := InsertAll(created, converted, now);
            forall k :: 0 <= k < |r.pieces| ==> Tally(r.pieces[k], t) == ImportedCount(acts, r.pieces[k].name, t)
  {
    var r := InsertAll(created, converted, now);
    forall k | 0 <= k < |r.pieces|
      ensures Tally(r.pieces[k], t) == ImportedCount(acts, r.pieces[k].name, t)
    {
      TalliesById(created, converted, names, firstId, now, t, k);
      ConvertedCount(acts, names, firstId, k, t, converted);
    }
  }

  /** After an import each piece counts the practices and performances imported under its name. */
  lemma ImportCounts(db: Db, result: ImportResult, types: seq<Option<ItemType>>, now: int, t: ActivityType)
    requires |types| == |result.activities| && ImportedLongRange(result.activities)
    ensures var r := ImportFromCsv(db, result, types, now);
            forall k :: 0 <= k < |r.pieces| ==> Tally(r.pieces[k], t) == ImportedCount(result.activities, r.pieces[k].name, t)
  {
    var acts := result.activities;
    if |acts| > 0 {
      ImportUnfolds(db, result, types, now);
      WithPiecesBuilt(db, acts, types, now);
      TalliesAfterInsert(WithPieces(db, acts, types, now), ConvertedAll(acts, db.nextPieceId), acts,
                         DistinctNames(acts), db.nextPieceId, now, t);
    }
  }

  /** The timestamp of the last imported activity of type `t` named `name`, if there is one. */
  function ImportedLastStamp(acts: seq<ImportedActivity>, name: string, t: ActivityType): Option<int>
  {
    if |acts| == 0 then None
    else
      var later := ImportedLastStamp(acts[1..], name, t);
      if later.Some? then later
      else if acts[0].pieceName == name && acts[0].activityType == t then Some(acts[0].timestamp)
      else None
  }

  /** The last converted activity of a piece id is the last imported one of its name. */
  lemma {:induction false} ConvertedLastStamp(acts: seq<ImportedActivity>, names: seq<string>, firstId: int,
                                              k: nat, t: ActivityType, converted: seq<Activity>)
    requires NoDuplicates(names) && k < |names|
    requires |converted| == |acts|
    requires forall i :: 0 <= i < |acts| ==> acts[i].pieceName in names && converted[i] == Converted(acts[i], names, firstId)
    ensures LastStampOf(converted, firstId + k, t) == ImportedLastStamp(acts, names[k], t)
    decreases |acts|
  {
    if |acts| > 0 {
      assert forall i :: 1 <= i < |acts| ==> acts[1..][i - 1] == acts[i] && converted[1..][i - 1] == converted[i];
      ConvertedLastStamp(acts[1..], names, firstId, k, t, converted[1..]);
      var j := converted[0].pieceOrTechniqueId - firstId;
      assert names[j] == acts[0].pieceName;
      assert j == k <==> acts[0].pieceName == names[k];
    }
  }

  /** Inserting into an undated piece dates it by the last activity of its id, if any. */
  lemma LastDateById(created: Db, converted: seq<Activity>, names: seq<string>, firstId: int, now: int,
                     t: ActivityType, k: nat)
    requires LongRange(converted) && |created.pieces| == |names| && k < |names|
    requires created.pieces[k].id == firstId + k && created.pieces[k].name == names[k]
    requires LastDate(created.pieces[k], t).None?
    ensures var r := InsertAll(created, converted, now);
            |r.pieces| == |names| && r.pieces[k].name == names[k]
            && LastDate(r.pieces[k], t) == LastStampOf(converted, firstId + k, t)
  {
    InsertAllLastDates(created, converted, now, t, k);
  }

  /**
   * Inserting converted activities into pieces without dates leaves each
   * dated by the last activity imported under its name.
   */
  lemma LastDatesAfterInsert(created: Db, converted: seq<Activity>, acts: seq<ImportedActivity>, names: seq<string>,
                             firstId: int, now: int, t: ActivityType)
    requires LongRange(converted) && BuiltFor(created, converted, acts, names, firstId)
    requires forall k :: 0 <= k < |created.pieces| ==> LastDate(created.pieces[k], t).None?
    ensures var r := InsertAll(created, converted, now);
            forall k :: 0 <= k < |r.pieces| ==> LastDate(r.pieces[k], t) == ImportedLastStamp(acts, r.pieces[k].name, t)
  {
    var r := InsertAll(created, converted, now);
    forall k | 0 <= k < |r.pieces|
      ensures LastDate(r.pieces[k], t) == ImportedLastStamp(acts, r.pieces[k].name, t)
    {
      LastDateById(created, converted, names, firstId, now, t, k);
      ConvertedLastStamp(acts, names, firstId, k, t, converted);
    }
  }

  /**
   * After an import each piece's last practice (performance) date is the
   * timestamp of the last practice (performance) line imported under its
   * name, even when an earlier line has a later time, and absent when there
   * is none: each insert overwrites the date.
   */
  lemma ImportLastDates(db: Db, result: ImportResult, types: seq<Option<ItemType>>, now: int, t: ActivityType)
    requires |types| == |result.activities| && ImportedLongRange(result.activities)
    ensures var r := ImportFromCsv(db, result, types, now);
            forall k :: 0 <= k < |r.pieces| ==> LastDate(r.pieces[k], t) == ImportedLastStamp(result.activities, r.pieces[k].name, t)
  {
    var acts := result.activities;
    if |acts| > 0 {
      ImportUnfolds(db, result, types, now);
      WithPiecesBuilt(db, acts, types, now);
      WithPiecesUndated(db, acts, types, now, t);
      LastDatesAfterInsert(WithPieces(db, acts, types, now), ConvertedAll(acts, db.nextPieceId), acts,
                           DistinctNames(acts), db.nextPieceId, now, t);
    }
  }

  /** A name holding a technique word in another case is guessed a technique. */
  lemma ScaleGuessedTechnique()
    ensures ItemTypeFor("scales", None) == TECHNIQUE
  {
    assert Lower("Scale") == "scale";
    assert Lower("scales")[0..5] == "scale";
    assert OccursAt(Lower("scales"), Lower(TECHNIQUE_WORDS[0]), 0);
  }

  /** A name holding no technique word is guessed a piece. */
  lemma EtudeGuessedPiece()
    ensures ItemTypeFor("Etude", None) == PIECE
  {
    assert Lower("Etude") == "etude" && Lower("Scale") == "scale";
    forall i | 0 <= i < |TECHNIQUE_WORDS| ensures !ContainsIgnoreCase("Etude", TECHNIQUE_WORDS[i]) {
      if i == 0 {
        assert !OccursAt(Lower("Etude"), Lower("Scale"), 0);
      } else {
        assert |Lower(TECHNIQUE_WORDS[i])| > 5;
      }
    }
  }
}
