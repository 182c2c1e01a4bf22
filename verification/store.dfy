/**
 * The four tables of the local SQLite store as values: their rows, their primary keys, and the
 * effect of each DatabaseHelper statement on a table. The class in database_helper.dfy performs
 * these statements in place; the functions here say what each one does.
 */
module Store {
  import opened Wrappers
  import opened Text

  /** A REAL value, kept opaque as its decimal literal: floating point is not modelled. */
  datatype Real = Real(literal: string)

  const ZeroReal := Real("0.0")

  /** A value in a column whose affinity conversion the model does not follow. */
  datatype Cell = IntCell(i: int) | RealCell(r: Real) | TextCell(s: string)

  /**
   * The `game_details_json` column: a JSON object, given by its string members, or a text written
   * through `updateGameField`, which the model does not parse.
   */
  datatype Details = Object(members: map<string, string>) | Unparsed(text: string)

  /** A row of `user_games`; `id` is the INTEGER PRIMARY KEY. */
  datatype GameRow = GameRow(
    id: int,
    userId: Cell,
    igdbGameId: Cell,
    status: string,
    rating: Cell,
    hoursPlayed: Cell,
    notes: string,
    startDate: string,
    completionDate: string,
    addedAt: string,
    updatedAt: string,
    gameDetails: Details)

  /** The library entry JSON handed to `insertOrUpdateGame`; an absent member is `None`. */
  datatype GameJson = GameJson(
    id: Option<int> := None,
    userId: Option<int> := None,
    igdbGameId: Option<int> := None,
    status: Option<string> := None,
    rating: Option<Real> := None,
    hoursPlayed: Option<Real> := None,
    notes: Option<string> := None,
    startDate: Option<string> := None,
    completionDate: Option<string> := None,
    addedAt: Option<string> := None,
    updatedAt: Option<string> := None,
    gameDetails: Option<map<string, string>> := None)

  /** What a statement throws: a missing JSON member, an unknown column, a bad key value, a UNIQUE clash. */
  datatype Fault = MissingMember(name: string) | NoSuchColumn(name: string) | DatatypeMismatch | UniqueConstraint

  type GameTable = map<int, GameRow>

  /** The primary key of every row is the row's own `id`. */
  ghost predicate GamesKeyed(t: GameTable)
  {
    forall k :: k in t ==> t[k].id == k
  }

  // ---------------------------------------------------------------- insertOrUpdateGame

  /** The row `insertOrUpdateGame` writes for `j`: `getInt`/`getString` throw on a missing required member. */
  function RowFromJson(j: GameJson): (r: Result<GameRow, Fault>)
    ensures r.Err? <==> j.igdbGameId.None? || j.status.None?
    ensures j.igdbGameId.None? ==> r == Err(MissingMember("igdb_game_id"))
    ensures j.igdbGameId.Some? && j.status.None? ==> r == Err(MissingMember("status"))
    ensures r.Ok? ==> r.value.id == j.id.GetOr(0) && r.value.igdbGameId == IntCell(j.igdbGameId.value)
                      && r.value.status == j.status.value
    ensures r.Ok? && j.userId.Some? ==> r.value.userId == IntCell(j.userId.value)
    ensures r.Ok? && j.rating.Some? ==> r.value.rating == RealCell(j.rating.value)
    ensures r.Ok? && j.hoursPlayed.Some? ==> r.value.hoursPlayed == RealCell(j.hoursPlayed.value)
    ensures r.Ok? && j.notes.Some? ==> r.value.notes == j.notes.value
    ensures r.Ok? && j.startDate.Some? ==> r.value.startDate == j.startDate.value
    ensures r.Ok? && j.completionDate.Some? ==> r.value.completionDate == j.completionDate.value
    ensures r.Ok? && j.addedAt.Some? ==> r.value.addedAt == j.addedAt.value
    ensures r.Ok? && j.updatedAt.Some? ==> r.value.updatedAt == j.updatedAt.value
    ensures r.Ok? && j.gameDetails.Some? ==> r.value.gameDetails == Object(j.gameDetails.value)
  {
    if j.igdbGameId.None? then Err(MissingMember("igdb_game_id"))
    else if j.status.None? then Err(MissingMember("status"))
    else Ok(GameRow(
      j.id.GetOr(0),
      IntCell(j.userId.GetOr(0)),
      IntCell(j.igdbGameId.value),
      j.status.value,
      RealCell(j.rating.GetOr(ZeroReal)),
      RealCell(j.hoursPlayed.GetOr(ZeroReal)),
      j.notes.GetOr(""),
      j.startDate.GetOr(""),
      j.completionDate.GetOr(""),
      j.addedAt.GetOr(""),
      j.updatedAt.GetOr(""),
      Object(j.gameDetails.GetOr(map[]))))
  }

  /** Absent optional members take their defaults: 0 for numbers, "" for texts, "{}" for the details. */
  lemma RowDefaults(j: GameJson)
    requires j.igdbGameId.Some? && j.status.Some?
    ensures var row := RowFromJson(j).value;
      && (j.id.None? ==> row.id == 0)
      && (j.userId.None? ==> row.userId == IntCell(0))
      && (j.rating.None? ==> row.rating == RealCell(ZeroReal))
      && (j.hoursPlayed.None? ==> row.hoursPlayed == RealCell(ZeroReal))
      && (j.notes.None? ==> row.notes == "")
      && (j.startDate.None? ==> row.startDate == "")
      && (j.completionDate.None? ==> row.completionDate == "")
      && (j.addedAt.None? ==> row.addedAt == "")
      && (j.updatedAt.None? ==> row.updatedAt == "")
      && (j.gameDetails.None? ==> row.gameDetails == Object(map[]))
  {
  }

  /**
   * `insertOrUpdateGame`: an UPDATE of the row with the JSON's id when that id is positive and
   * present, otherwise an INSERT, which fails (returning -1, table unchanged) when the id is taken.
   */
  function Upsert(t: GameTable, j: GameJson): (r: (Result<int, Fault>, GameTable))
    ensures GamesKeyed(t) ==> GamesKeyed(r.1)
    ensures r.0.Err? <==> RowFromJson(j).Err?
    ensures r.0.Err? ==> r.1 == t
    ensures r.0.Ok? ==>
              || (r.0.value == j.id.GetOr(0) && r.1 == t[r.0.value := RowFromJson(j).value])
              || (r.0.value == -1 && j.id.GetOr(0) <= 0 && j.id.GetOr(0) in t && r.1 == t)
  {
    match RowFromJson(j)
    case Err(e) => (Err(e), t)
    case Ok(row) =>
      var libraryId := j.id.GetOr(0);
      if libraryId > 0 && libraryId in t then (Ok(libraryId), t[libraryId := row])
      else if row.id in t then (Ok(-1), t)
      else (Ok(row.id), t[row.id := row])
  }

  /** A positive id present in the table is updated in place and returned. */
  lemma UpsertPositiveUpdates(t: GameTable, j: GameJson)
    requires RowFromJson(j).Ok? && j.id.Some? && j.id.value > 0
    ensures Upsert(t, j).0 == Ok(j.id.value)
    ensures Upsert(t, j).1 == t[j.id.value := RowFromJson(j).value]
  {
  }

  /** An id <= 0 always takes the insert path: it never overwrites an existing row. */
  lemma UpsertNonPositiveInserts(t: GameTable, j: GameJson)
    requires RowFromJson(j).Ok? && j.id.GetOr(0) <= 0
    ensures j.id.GetOr(0) in t ==> Upsert(t, j) == (Ok(-1), t)
    ensures j.id.GetOr(0) !in t ==> Upsert(t, j) == (Ok(j.id.GetOr(0)), t[j.id.GetOr(0) := RowFromJson(j).value])
  {
  }

  /** Upserting twice with the same positive id leaves one row with that id, holding the second write. */
  lemma UpsertTwice(t: GameTable, j1: GameJson, j2: GameJson)
    requires GamesKeyed(t)
    requires RowFromJson(j1).Ok? && RowFromJson(j2).Ok?
    requires j1.id == j2.id && j1.id.Some? && j1.id.value > 0
    ensures var t2 := Upsert(Upsert(t, j1).1, j2).1;
      && j1.id.value in t2 && t2[j1.id.value] == RowFromJson(j2).value
      && (forall k :: k in t2 && t2[k].id == j1.id.value ==> k == j1.id.value)
      && t2.Keys == t.Keys + {j1.id.value}
  {
    var t1 := Upsert(t, j1).1;
    assert t1 == t[j1.id.value := RowFromJson(j1).value];
  }

  // ---------------------------------------------------------------- updateGameField

  datatype Column = Id | UserId | IgdbGameId | Status | Rating | HoursPlayed | Notes
                  | StartDate | CompletionDate | AddedAt | UpdatedAt | GameDetailsJson

  function ColumnName(c: Column): string
  {
    match c
    case Id => "id"
    case UserId => "user_id"
    case IgdbGameId => "igdb_game_id"
    case Status => "status"
    case Rating => "rating"
    case HoursPlayed => "hours_played"
    case Notes => "notes"
    case StartDate => "start_date"
    case CompletionDate => "completion_date"
    case AddedAt => "added_at"
    case UpdatedAt => "updated_at"
    case GameDetailsJson => "game_details_json"
  }

  /** The column a field name denotes in `user_games`, if any. */
  function ColumnNamed(name: string): (r: Option<Column>)
    ensures r.Some? ==> ColumnName(r.value) == name
  {
    if name == "id" then Some(Id)
    else if name == "user_id" then Some(UserId)
    else if name == "igdb_game_id" then Some(IgdbGameId)
    else if name == "status" then Some(Status)
    else if name == "rating" then Some(Rating)
    else if name == "hours_played" then Some(HoursPlayed)
    else if name == "notes" then Some(Notes)
    else if name == "start_date" then Some(StartDate)
    else if name == "completion_date" then Some(CompletionDate)
    else if name == "added_at" then Some(AddedAt)
    else if name == "updated_at" then Some(UpdatedAt)
    else if name == "game_details_json" then Some(GameDetailsJson)
    else None
  }

  lemma ColumnNameRoundTrip(c: Column)
    ensures ColumnNamed(ColumnName(c)) == Some(c)
  {
  }

  /** The `value: Any` of `updateGameField`: the four kinds it stores, and anything else. */
  datatype FieldValue = Str(s: string) | Dbl(d: Real) | Flt(f: Real) | IntV(i: int) | Other

  /** A column's content, whatever its type. */
  datatype Stored = SInt(i: int) | SCell(c: Cell) | SText(s: string) | SDetails(d: Details)

  function ColumnValue(row: GameRow, c: Column): Stored
  {
    match c
    case Id => SInt(row.id)
    case UserId => SCell(row.userId)
    case IgdbGameId => SCell(row.igdbGameId)
    case Status => SText(row.status)
    case Rating => SCell(row.rating)
    case HoursPlayed => SCell(row.hoursPlayed)
    case Notes => SText(row.notes)
    case StartDate => SText(row.startDate)
    case CompletionDate => SText(row.completionDate)
    case AddedAt => SText(row.addedAt)
    case UpdatedAt => SText(row.updatedAt)
    case GameDetailsJson => SDetails(row.gameDetails)
  }

  /** Rows `a` and `b` agree on every column outside `changed`. */
  ghost predicate SameExcept(a: GameRow, b: GameRow, changed: set<Column>)
  {
    forall c :: c !in changed ==> ColumnValue(a, c) == ColumnValue(b, c)
  }

  /** A TEXT column stores a number as its text (SQLite's TEXT affinity). */
  function AsText(v: FieldValue): string
    requires !v.Other?
  {
    match v
    case Str(s) => s
    case Dbl(d) => d.literal
    case Flt(f) => f.literal
    case IntV(i) => IntToString(i)
  }

  function AsCell(v: FieldValue): Cell
    requires !v.Other?
  {
    match v
    case Str(s) => TextCell(s)
    case Dbl(d) => RealCell(d)
    case Flt(f) => RealCell(f)
    case IntV(i) => IntCell(i)
  }

  /** What column `c` (other than the key) holds after `v` is put into it. */
  function Written(c: Column, v: FieldValue): Stored
    requires !v.Other? && c != Id
  {
    match c
    case UserId | IgdbGameId | Rating | HoursPlayed => SCell(AsCell(v))
    case Status | Notes | StartDate | CompletionDate | AddedAt | UpdatedAt => SText(AsText(v))
    case GameDetailsJson => SDetails(Unparsed(AsText(v)))
  }

  function SetColumn(row: GameRow, c: Column, v: FieldValue): (r: GameRow)
    requires !v.Other? && c != Id
    ensures ColumnValue(r, c) == Written(c, v)
    ensures SameExcept(row, r, {c})
  {
    match c
    case UserId => row.(userId := AsCell(v))
    case IgdbGameId => row.(igdbGameId := AsCell(v))
    case Status => row.(status := AsText(v))
    case Rating => row.(rating := AsCell(v))
    case HoursPlayed => row.(hoursPlayed := AsCell(v))
    case Notes => row.(notes := AsText(v))
    case StartDate => row.(startDate := AsText(v))
    case CompletionDate => row.(completionDate := AsText(v))
    case AddedAt => row.(addedAt := AsText(v))
    case UpdatedAt => row.(updatedAt := AsText(v))
    case GameDetailsJson => row.(gameDetails := Unparsed(AsText(v)))
  }

  /** The statement fails: an unknown column is named, or the row's key cannot take the value. */
  predicate UpdateFails(t: GameTable, id: int, field: string, v: FieldValue)
  {
    && !v.Other?
    && (|| ColumnNamed(field).None?
        || (ColumnNamed(field) == Some(Id) && id in t && (!v.IntV? || (v.i != id && v.i in t))))
  }

  /**
   * `updateGameField(id, field, value)`: `UPDATE user_games SET field = value, updated_at = now
   * WHERE id = ?`, returning the number of rows changed. A value of another kind puts only
   * `updated_at`; putting `updated_at` itself is overridden by the clock.
   */
  function UpdateField(t: GameTable, id: int, field: string, v: FieldValue, now: string): (r: Result<(int, GameTable), Fault>)
    ensures r.Err? <==> UpdateFails(t, id, field, v)
    ensures r.Ok? ==> (r.value.0 == 1 <==> id in t) && (r.value.0 == 0 <==> id !in t)
    ensures r.Ok? && id !in t ==> r.value.1 == t
    ensures r.Ok? ==> forall k :: k in t && k != id ==> k in r.value.1 && r.value.1[k] == t[k]
    ensures r.Ok? && GamesKeyed(t) ==> GamesKeyed(r.value.1)
  {
    if v.Other? then
      if id in t then Ok((1, t[id := t[id].(updatedAt := now)])) else Ok((0, t))
    else match ColumnNamed(field)
      case None => Err(NoSuchColumn(field))
      case Some(c) =>
        if id !in t then Ok((0, t))
        else if c == Id then
          if !v.IntV? then Err(DatatypeMismatch)
          else if v.i != id && v.i in t then Err(UniqueConstraint)
          else Ok((1, (t - {id})[v.i := t[id].(id := v.i, updatedAt := now)]))
        else Ok((1, t[id := SetColumn(t[id], c, v).(updatedAt := now)]))
  }

  /** Writing an ordinary column changes only that column and `updated_at` of the one row. */
  lemma UpdateFieldWritesColumn(t: GameTable, id: int, field: string, v: FieldValue, now: string)
    requires id in t && !v.Other? && ColumnNamed(field).Some? && ColumnNamed(field) != Some(Id)
    ensures var r := UpdateField(t, id, field, v, now); var c := ColumnNamed(field).value;
      && r.Ok? && r.value.1.Keys == t.Keys
      && SameExcept(t[id], r.value.1[id], {c, UpdatedAt})
      && r.value.1[id].updatedAt == now
      && (c != UpdatedAt ==> ColumnValue(r.value.1[id], c) == Written(c, v))
  {
    var c := ColumnNamed(field).value;
    var row' := SetColumn(t[id], c, v).(updatedAt := now);
    assert UpdateField(t, id, field, v, now) == Ok((1, t[id := row']));
    forall c' | c' !in {c, UpdatedAt}
      ensures ColumnValue(t[id], c') == ColumnValue(row', c')
    {
      assert ColumnValue(t[id], c') == ColumnValue(SetColumn(t[id], c, v), c');
    }
  }

  /** A value of another kind than String, Double, Float or Int changes only `updated_at`. */
  lemma UpdateFieldOtherValue(t: GameTable, id: int, field: string, now: string)
    requires id in t
    ensures var r := UpdateField(t, id, field, Other, now);
      && r.Ok? && r.value.1.Keys == t.Keys
      && SameExcept(t[id], r.value.1[id], {UpdatedAt}) && r.value.1[id].updatedAt == now
  {
  }

  /** Putting an Int into `id` re-keys the row, unless another row already holds that key. */
  lemma UpdateFieldRekeys(t: GameTable, id: int, n: int, now: string)
    requires id in t
    ensures var r := UpdateField(t, id, "id", IntV(n), now);
      && (r.Err? <==> n != id && n in t)
      && (r.Ok? ==> r.value.1.Keys == t.Keys - {id} + {n}
                    && r.value.1[n] == t[id].(id := n, updatedAt := now)
                    && SameExcept(t[id], r.value.1[n], {Id, UpdatedAt}))
  {
  }

  /** `deleteGame`: removes only the row with that id and returns how many rows went (0 or 1). */
  function DeleteGame(t: GameTable, id: int): (r: (int, GameTable))
    ensures r.1.Keys == t.Keys - {id}
    ensures forall k :: k in r.1 ==> r.1[k] == t[k]
    ensures r.0 == (if id in t then 1 else 0)
  {
    (if id in t then 1 else 0, t - {id})
  }

  // ---------------------------------------------------------------- listings and search

  /** The rows `SELECT ... WHERE status = ?` selects; with no status, every row. */
  ghost function RowsWithStatus(t: GameTable, status: Option<string>): set<GameRow>
  {
    set k | k in t && (status.None? || t[k].status == status.value) :: t[k]
  }

  function UpdatedAtKey(g: GameRow): string { g.updatedAt }

  /** A JSON member of a row as `cursorToGameJson` emits it. */
  datatype JsonValue = JInt(i: int) | JCell(c: Cell) | JText(s: string) | JObject(d: Details)

  /** `cursorToGameJson`: the members it puts; the details go under "game_details". */
  function RowJson(g: GameRow): (json: map<string, JsonValue>)
    ensures json.Keys == {"id", "user_id", "igdb_game_id", "status", "rating", "hours_played", "notes",
                          "start_date", "completion_date", "added_at", "updated_at", "game_details"}
    ensures json["id"] == JInt(g.id) && json["status"] == JText(g.status)
    ensures json["game_details"] == JObject(g.gameDetails)
  {
    map[
      "id" := JInt(g.id), "user_id" := JCell(g.userId), "igdb_game_id" := JCell(g.igdbGameId),
      "status" := JText(g.status), "rating" := JCell(g.rating), "hours_played" := JCell(g.hoursPlayed),
      "notes" := JText(g.notes), "start_date" := JText(g.startDate),
      "completion_date" := JText(g.completionDate), "added_at" := JText(g.addedAt),
      "updated_at" := JText(g.updatedAt), "game_details" := JObject(g.gameDetails)]
  }

  /** `JSONObject(json.optString(key, "{}"))`: the object under `key`, or the empty object when absent. */
  function ObjectMember(json: map<string, JsonValue>, key: string): Details
  {
    if key !in json then Object(map[])
    else match json[key]
      case JObject(d) => d
      case JText(s) => Unparsed(s)
      case JInt(i) => Unparsed(IntToString(i))
      case JCell(c) => Unparsed(match c case IntCell(i) => IntToString(i) case RealCell(r) => r.literal case TextCell(s) => s)
  }

  /**
   * The details `insertOrUpdateGame` stores from an entry's `game_details` object come back
   * under member "game_details" of the row's JSON.
   */
  lemma GameDetailsRoundTrip(j: GameJson, members: map<string, string>)
    requires RowFromJson(j).Ok? && j.gameDetails == Some(members)
    ensures ObjectMember(RowJson(RowFromJson(j).value), "game_details") == Object(members)
  {
  }

  /** `optString("name", "")` on a details object (an unparsed text yields no name). */
  function NameOf(d: Details): string
  {
    if d.Object? && "name" in d.members then d.members["name"] else ""
  }

  /** The search test `searchGames` applies to a row, reading the details from member `key`. */
  predicate NameMatches(g: GameRow, query: string, key: string)
  {
    Contains(Lower(NameOf(ObjectMember(RowJson(g), key))), Lower(query))
  }

  /** The member `searchGames` reads is not one `cursorToGameJson` emits, so every name reads as "". */
  lemma {:induction false} SearchNameAlwaysEmpty(g: GameRow, query: string)
    ensures NameMatches(g, query, "game_details_json") <==> query == ""
  {
    assert "game_details_json" !in RowJson(g);
    EmptyContains(Lower(query));
    assert |Lower(query)| == |query|;
  }

  // ---------------------------------------------------------------- game_cache

  datatype CacheEntry = CacheEntry(igdbGameId: int, gameDataJson: string, cachedAt: string)

  ghost predicate CacheKeyed(c: map<int, CacheEntry>)
  {
    forall k :: k in c ==> c[k].igdbGameId == k
  }

  // ---------------------------------------------------------------- user_statistics

  /** The statistics JSON handed to `updateStatistics`; an absent member is `None`. */
  datatype StatsJson = StatsJson(
    userId: Option<int> := None,
    totalGames: Option<int> := None,
    completedGames: Option<int> := None,
    playingGames: Option<int> := None,
    backloggedGames: Option<int> := None,
    droppedGames: Option<int> := None,
    onHoldGames: Option<int> := None,
    totalHours: Option<Real> := None)

  /** The counts and hours of a statistics row: what `getStatistics` returns. */
  datatype StatsSummary = StatsSummary(
    totalGames: int, completedGames: int, playingGames: int, backloggedGames: int,
    droppedGames: int, onHoldGames: int, totalHours: Real)

  /** A row of `user_statistics`; `userId` is the INTEGER PRIMARY KEY. */
  datatype StatsRow = StatsRow(userId: int, summary: StatsSummary, updatedAt: string)

  ghost predicate StatsKeyed(s: map<int, StatsRow>)
  {
    forall k :: k in s ==> s[k].userId == k
  }

  /** The row `updateStatistics` writes: user id 1, counts 0 and hours 0.0 when absent. */
  function StatsRowFrom(j: StatsJson, now: string): (r: StatsRow)
    ensures r.userId == (if j.userId.Some? then j.userId.value else 1)
    ensures r.summary.totalGames == (if j.totalGames.Some? then j.totalGames.value else 0)
    ensures r.summary.completedGames == (if j.completedGames.Some? then j.completedGames.value else 0)
    ensures r.summary.playingGames == (if j.playingGames.Some? then j.playingGames.value else 0)
    ensures r.summary.backloggedGames == (if j.backloggedGames.Some? then j.backloggedGames.value else 0)
    ensures r.summary.droppedGames == (if j.droppedGames.Some? then j.droppedGames.value else 0)
    ensures r.summary.onHoldGames == (if j.onHoldGames.Some? then j.onHoldGames.value else 0)
    ensures r.summary.totalHours == (if j.totalHours.Some? then j.totalHours.value else ZeroReal)
    ensures r.updatedAt == now
  {
    StatsRow(
      j.userId.GetOr(1),
      StatsSummary(
        j.totalGames.GetOr(0), j.completedGames.GetOr(0), j.playingGames.GetOr(0),
        j.backloggedGames.GetOr(0), j.droppedGames.GetOr(0), j.onHoldGames.GetOr(0),
        j.totalHours.GetOr(ZeroReal)),
      now)
  }

  // ---------------------------------------------------------------- pending_sync

  /** A member of a queued record's `data_json`. */
  datatype PayloadValue = PInt(i: int) | PText(s: string) | PReal(r: Real)

  type Payload = map<string, PayloadValue>

  /** A row of `pending_sync`; `id` is the AUTOINCREMENT key, `synced` the 0/1 flag. */
  datatype SyncRecord = SyncRecord(
    id: int, libraryId: int, actionType: string, data: Payload, timestamp: string, synced: bool)

  type SyncTable = map<int, SyncRecord>

  ghost predicate QueueKeyed(q: SyncTable)
  {
    forall k :: k in q ==> q[k].id == k
  }

  /** The records `getPendingSyncs` selects: `WHERE synced = 0`. */
  ghost function Unsynced(q: SyncTable): set<SyncRecord>
  {
    set k | k in q && !q[k].synced :: q[k]
  }

  function TimestampKey(s: SyncRecord): string { s.timestamp }

  /** `insertPendingSync` adds one unsynced record under a fresh key and nothing else. */
  lemma {:induction false} EnqueueAddsUnsynced(q: SyncTable, rec: SyncRecord)
    requires QueueKeyed(q) && rec.id !in q && !rec.synced
    ensures QueueKeyed(q[rec.id := rec])
    ensures Unsynced(q[rec.id := rec]) == Unsynced(q) + {rec}
  {
    var q' := q[rec.id := rec];
    forall x | x in Unsynced(q')
      ensures x in Unsynced(q) + {rec}
    {
      var k :| k in q' && !q'[k].synced && q'[k] == x;
      if k != rec.id { assert x in Unsynced(q); }
    }
    forall x | x in Unsynced(q)
      ensures x in Unsynced(q')
    {
      var k :| k in q && !q[k].synced && q[k] == x;
      assert k != rec.id && q'[k] == x;
    }
    assert q'[rec.id] == rec;
  }

  /** `markSyncComplete` sets the flag of one record, which hides it from `getPendingSyncs` but keeps it. */
  function MarkComplete(q: SyncTable, id: int): (r: SyncTable)
    ensures r.Keys == q.Keys
    ensures forall k :: k in q && k != id ==> r[k] == q[k]
    ensures id in q ==> r[id] == q[id].(synced := true)
  {
    if id in q then q[id := q[id].(synced := true)] else q
  }

  lemma {:induction false} MarkCompleteHides(q: SyncTable, id: int)
    requires QueueKeyed(q) && id in q
    ensures QueueKeyed(MarkComplete(q, id))
    ensures Unsynced(MarkComplete(q, id)) == Unsynced(q) - {q[id]}
  {
    var q' := MarkComplete(q, id);
    forall x | x in Unsynced(q')
      ensures x in Unsynced(q) - {q[id]}
    {
      var k :| k in q' && !q'[k].synced && q'[k] == x;
      assert k != id && x == q[k] && x.id == k;
    }
    forall x | x in Unsynced(q) - {q[id]}
      ensures x in Unsynced(q')
    {
      var k :| k in q && !q[k].synced && q[k] == x;
      assert k != id && q'[k] == x;
    }
  }

  /** `deleteSyncRecord` removes one record for good and leaves the others as they were. */
  lemma {:induction false} DeleteRecordRemoves(q: SyncTable, id: int)
    requires QueueKeyed(q)
    ensures QueueKeyed(q - {id})
    ensures id in q ==> Unsynced(q - {id}) == Unsynced(q) - {q[id]}
    ensures id !in q ==> Unsynced(q - {id}) == Unsynced(q)
  {
    var q' := q - {id};
    forall x | x in Unsynced(q')
      ensures x in Unsynced(q) && (id in q ==> x != q[id])
    {
      var k :| k in q' && !q'[k].synced && q'[k] == x;
      assert k != id && x == q[k] && x.id == k;
    }
    forall x | x in Unsynced(q) && (id in q ==> x != q[id])
      ensures x in Unsynced(q')
    {
      var k :| k in q && !q[k].synced && q[k] == x;
      assert k != id && q'[k] == x;
    }
  }
}
