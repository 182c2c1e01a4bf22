/**
 * DatabaseHelper: the local SQLite store. Each of its four tables is a map from primary key to row,
 * held in a field that the statements update in place. Every method is proved against the
 * table-level function in module Store that says what the statement does.
 */
module DatabaseHelper {
  import opened Wrappers
  import opened Ordering
  import opened Filtering
  import opened SetFacts
  import opened Store

  class LocalStore {
    /** `user_games`, keyed by `id`. */
    var userGames: GameTable
    /** `game_cache`, keyed by `igdb_game_id`. */
    var gameCache: map<int, CacheEntry>
    /** `user_statistics`, keyed by `user_id`. */
    var statistics: map<int, StatsRow>
    /** `pending_sync`, keyed by its AUTOINCREMENT `id`. */
    var pendingSync: SyncTable
    /** The largest key `pending_sync` has ever handed out (SQLite's `sqlite_sequence` entry). */
    var syncSequence: nat

    ghost predicate Valid()
      reads this
    {
      && GamesKeyed(userGames)
      && CacheKeyed(gameCache)
      && StatsKeyed(statistics)
      && QueueKeyed(pendingSync)
      && (forall k :: k in pendingSync ==> 1 <= k <= syncSequence)
    }

    /** A freshly created database file: `onCreate` makes the four tables empty. */
    constructor ()
      ensures Valid()
      ensures userGames == map[] && gameCache == map[] && statistics == map[] && pendingSync == map[]
      ensures syncSequence == 0
    {
      userGames, gameCache, statistics, pendingSync := map[], map[], map[], map[];
      syncSequence := 0;
    }

    // ------------------------------------------------------------ user_games

    /** `insertOrUpdateGame`: returns the id written, -1 when the insert clashes, or the JSON error. */
    method InsertOrUpdateGame(j: GameJson) returns (r: Result<int, Fault>)
      requires Valid()
      modifies this
      ensures Valid()
      ensures (r, userGames) == Upsert(old(userGames), j)
      ensures gameCache == old(gameCache) && statistics == old(statistics)
      ensures pendingSync == old(pendingSync) && syncSequence == old(syncSequence)
    {
      var values := RowFromJson(j);
      if values.Err? {
        return Err(values.error);
      }
      var row := values.value;
      var libraryId := j.id.GetOr(0);
      if libraryId > 0 {
        // UPDATE user_games SET ... WHERE id = libraryId
        var count := 0;
        if libraryId in userGames {
          userGames := userGames[libraryId := row];
          count := 1;
        }
        if count > 0 {
          return Ok(libraryId);
        }
      }
      // INSERT: SQLiteDatabase.insert reports a key clash as -1
      if row.id in userGames {
        r := Ok(-1);
      } else {
        userGames := userGames[row.id := row];
        r := Ok(row.id);
      }
    }

    /** `getGame`: the row with that id, or null. */
    method GetGame(libraryId: int) returns (r: Option<GameRow>)
      requires Valid()
      ensures r.Some? <==> libraryId in userGames
      ensures r.Some? ==> r.value == userGames[libraryId] && r.value.id == libraryId
    {
      if libraryId in userGames {
        r := Some(userGames[libraryId]);
      } else {
        r := None;
      }
    }

    /**
     * `SELECT * FROM user_games [WHERE status = ?] ORDER BY updated_at DESC`, read row by row
     * into a list: each row the scan visits is placed at its position in the ordering.
     */
    method SelectGames(status: Option<string>) returns (r: seq<GameRow>)
      requires Valid()
      ensures IsListing(r, RowsWithStatus(userGames, status), UpdatedAtKey, true)
    {
      r := [];
      var remaining := userGames.Keys;
      ListedRowsEnds(userGames, status);
      while remaining != {}
        invariant remaining <= userGames.Keys
        invariant IsListing(r, ListedRows(userGames, remaining, status), UpdatedAtKey, true)
        decreases remaining
      {
        NonEmptyHasMember(remaining);
        var k :| k in remaining;
        var row := userGames[k];
        ListedRowsStep(userGames, remaining, k, status);
        if status.None? || row.status == status.value {
          InsertBySorted(r, row, UpdatedAtKey, true);
          MultisetAddFresh(ListedRows(userGames, remaining, status), row);
          r := InsertBy(r, row, UpdatedAtKey, true);
        }
        remaining := remaining - {k};
      }
      ListedRowsEnds(userGames, status);
    }

    /** `getAllGames`: every row, most recently updated first. */
    method GetAllGames() returns (r: seq<GameRow>)
      requires Valid()
      ensures IsListing(r, RowsWithStatus(userGames, None), UpdatedAtKey, true)
      ensures forall g :: g in r <==> g.id in userGames && userGames[g.id] == g
    {
      r := SelectGames(None);
      ListingSize(r, RowsWithStatus(userGames, None), UpdatedAtKey, true);
    }

    /** `getGamesByStatus`: exactly the rows with that status, most recently updated first. */
    method GetGamesByStatus(status: string) returns (r: seq<GameRow>)
      requires Valid()
      ensures IsListing(r, RowsWithStatus(userGames, Some(status)), UpdatedAtKey, true)
      ensures forall g :: g in r <==> g.id in userGames && userGames[g.id] == g && g.status == status
    {
      r := SelectGames(Some(status));
      ListingSize(r, RowsWithStatus(userGames, Some(status)), UpdatedAtKey, true);
    }

    /**
     * `searchGames` as written: filters the status listing (or all rows) by whether the row's
     * details name contains the query, reading the details from member "game_details_json".
     */
    method SearchGames(query: string, status: Option<string>) returns (r: seq<GameRow>)
      requires Valid()
      ensures query == "" ==> IsListing(r, RowsWithStatus(userGames, status), UpdatedAtKey, true)
      ensures query != "" ==> r == []
    {
      var all: seq<GameRow>;
      if status.Some? {
        all := GetGamesByStatus(status.value);
      } else {
        all := GetAllGames();
      }
      r := FilterRows(all, NameFilter(query, "game_details_json"));
      SearchFindsAllOrNothing(all, query);
    }

    /**
     * `searchGames` as evidently intended: the same filter reading the details from member
     * "game_details", the one `cursorToGameJson` emits.
     */
    method SearchGamesByName(query: string, status: Option<string>) returns (r: seq<GameRow>)
      requires Valid()
      ensures IsListing(r, (set g | g in RowsWithStatus(userGames, status) && NameMatches(g, query, "game_details")), UpdatedAtKey, true)
    {
      var all: seq<GameRow>;
      if status.Some? {
        all := GetGamesByStatus(status.value);
      } else {
        all := GetAllGames();
      }
      r := FilterRows(all, NameFilter(query, "game_details"));
      WhereListing(all, RowsWithStatus(userGames, status), NameFilter(query, "game_details"), UpdatedAtKey, true);
    }

    /** `updateGameField`: the number of rows changed, or the SQLite error. */
    method UpdateGameField(libraryId: int, field: string, value: FieldValue, now: string) returns (r: Result<int, Fault>)
      requires Valid()
      modifies this
      ensures Valid()
      ensures var u := UpdateField(old(userGames), libraryId, field, value, now);
        && (u.Err? ==> r == Err(u.error) && userGames == old(userGames))
        && (u.Ok? ==> r == Ok(u.value.0) && userGames == u.value.1)
      ensures gameCache == old(gameCache) && statistics == old(statistics)
      ensures pendingSync == old(pendingSync) && syncSequence == old(syncSequence)
    {
      if value.Other? {
        // ContentValues holds only updated_at
        if libraryId in userGames {
          userGames := userGames[libraryId := userGames[libraryId].(updatedAt := now)];
          return Ok(1);
        }
        return Ok(0);
      }
      var column := ColumnNamed(field);
      if column.None? {
        return Err(NoSuchColumn(field));
      }
      if libraryId !in userGames {
        return Ok(0);
      }
      var row := userGames[libraryId];
      if column.value == Id {
        if !value.IntV? {
          return Err(DatatypeMismatch);
        }
        var newId := value.i;
        if newId != libraryId && newId in userGames {
          return Err(UniqueConstraint);
        }
        userGames := (userGames - {libraryId})[newId := row.(id := newId, updatedAt := now)];
      } else {
        userGames := userGames[libraryId := SetColumn(row, column.value, value).(updatedAt := now)];
      }
      r := Ok(1);
    }

    /** `deleteGame`: removes the row with that id; returns 1 if there was one, else 0. */
    method DeleteGame(libraryId: int) returns (count: int)
      requires Valid()
      modifies this
      ensures Valid()
      ensures (count, userGames) == Store.DeleteGame(old(userGames), libraryId)
      ensures gameCache == old(gameCache) && statistics == old(statistics)
      ensures pendingSync == old(pendingSync) && syncSequence == old(syncSequence)
    {
      count := if libraryId in userGames then 1 else 0;
      userGames := userGames - {libraryId};
    }

    // ------------------------------------------------------------ game_cache

    /** `insertGameCache`: INSERT OR REPLACE, so the entry replaces any earlier one for the same game. */
    method InsertGameCache(igdbGameId: int, gameDataJson: string, now: string)
      requires Valid()
      modifies this
      ensures Valid()
      ensures gameCache == old(gameCache)[igdbGameId := CacheEntry(igdbGameId, gameDataJson, now)]
      ensures userGames == old(userGames) && statistics == old(statistics)
      ensures pendingSync == old(pendingSync) && syncSequence == old(syncSequence)
    {
      gameCache := gameCache[igdbGameId := CacheEntry(igdbGameId, gameDataJson, now)];
    }

    /** `getGameCache`: the payload last stored for the game, or null. */
    method GetGameCache(igdbGameId: int) returns (r: Option<string>)
      requires Valid()
      ensures r.Some? <==> igdbGameId in gameCache
      ensures r.Some? ==> r.value == gameCache[igdbGameId].gameDataJson
    {
      if igdbGameId in gameCache {
        r := Some(gameCache[igdbGameId].gameDataJson);
      } else {
        r := None;
      }
    }

    // ------------------------------------------------------------ pending_sync

    /** `insertPendingSync`: a new unsynced record under the next AUTOINCREMENT key, which it returns. */
    method InsertPendingSync(libraryId: int, actionType: string, dataJson: Payload, now: string) returns (id: int)
      requires Valid()
      modifies this
      ensures Valid()
      ensures id == old(syncSequence) + 1 && id !in old(pendingSync) && syncSequence == id
      ensures pendingSync == old(pendingSync)[id := SyncRecord(id, libraryId, actionType, dataJson, now, false)]
      ensures userGames == old(userGames) && gameCache == old(gameCache) && statistics == old(statistics)
    {
      id := syncSequence + 1;
      syncSequence := id;
      pendingSync := pendingSync[id := SyncRecord(id, libraryId, actionType, dataJson, now, false)];
    }

    /** `getPendingSyncs`: the records with `synced = 0`, oldest timestamp first. */
    method GetPendingSyncs() returns (r: seq<SyncRecord>)
      requires Valid()
      ensures IsListing(r, Unsynced(pendingSync), TimestampKey, false)
      ensures forall s :: s in r <==> s.id in pendingSync && pendingSync[s.id] == s && !s.synced
    {
      r := [];
      var remaining := pendingSync.Keys;
      ListedRecordsEnds(pendingSync);
      while remaining != {}
        invariant remaining <= pendingSync.Keys
        invariant IsListing(r, ListedRecords(pendingSync, remaining), TimestampKey, false)
        decreases remaining
      {
        NonEmptyHasMember(remaining);
        var k :| k in remaining;
        var rec := pendingSync[k];
        ListedRecordsStep(pendingSync, remaining, k);
        if !rec.synced {
          InsertBySorted(r, rec, TimestampKey, false);
          MultisetAddFresh(ListedRecords(pendingSync, remaining), rec);
          r := InsertBy(r, rec, TimestampKey, false);
        }
        remaining := remaining - {k};
      }
      ListedRecordsEnds(pendingSync);
      ListingSize(r, Unsynced(pendingSync), TimestampKey, false);
    }

    /** `markSyncComplete`: sets `synced = 1` on one record. */
    method MarkSyncComplete(syncId: int)
      requires Valid()
      modifies this
      ensures Valid()
      ensures pendingSync == MarkComplete(old(pendingSync), syncId)
      ensures userGames == old(userGames) && gameCache == old(gameCache)
      ensures statistics == old(statistics) && syncSequence == old(syncSequence)
    {
      if syncId in pendingSync {
        pendingSync := pendingSync[syncId := pendingSync[syncId].(synced := true)];
      }
    }

    /** `deleteSyncRecord`: removes one record. */
    method DeleteSyncRecord(syncId: int)
      requires Valid()
      modifies this
      ensures Valid()
      ensures pendingSync == old(pendingSync) - {syncId}
      ensures userGames == old(userGames) && gameCache == old(gameCache)
      ensures statistics == old(statistics) && syncSequence == old(syncSequence)
    {
      pendingSync := pendingSync - {syncId};
    }

    // ------------------------------------------------------------ user_statistics

    /** `updateStatistics`: INSERT OR REPLACE of the row for the JSON's user id (1 when absent). */
    method UpdateStatistics(statsJson: StatsJson, now: string)
      requires Valid()
      modifies this
      ensures Valid()
      ensures statistics == old(statistics)[StatsRowFrom(statsJson, now).userId := StatsRowFrom(statsJson, now)]
      ensures userGames == old(userGames) && gameCache == old(gameCache)
      ensures pendingSync == old(pendingSync) && syncSequence == old(syncSequence)
    {
      var row := StatsRowFrom(statsJson, now);
      statistics := statistics[row.userId := row];
    }

    /** `getStatistics`: the counts of the first row a scan meets (the smallest user id), or null. */
    method GetStatistics() returns (r: Option<StatsSummary>)
      requires Valid()
      ensures r.None? <==> statistics == map[]
      ensures r.Some? ==> exists k :: k in statistics && r.value == statistics[k].summary
                                      && forall k' :: k' in statistics ==> k <= k'
    {
      if statistics == map[] {
        return None;
      }
      NonEmptyHasMember(statistics.Keys);
      var first :| first in statistics;
      var rest := statistics.Keys - {first};
      while rest != {}
        invariant first in statistics && rest <= statistics.Keys
        invariant forall k :: k in statistics && k !in rest ==> first <= k
        decreases rest
      {
        NonEmptyHasMember(rest);
        var k :| k in rest;
        if k < first {
          first := k;
        }
        rest := rest - {k};
      }
      r := Some(statistics[first].summary);
    }

    /** `clearAllData`: empties the four tables; the AUTOINCREMENT sequence is not reset. */
    method ClearAllData()
      requires Valid()
      modifies this
      ensures Valid()
      ensures userGames == map[] && gameCache == map[] && statistics == map[] && pendingSync == map[]
      ensures syncSequence == old(syncSequence)
    {
      userGames := map[];
      gameCache := map[];
      statistics := map[];
      pendingSync := map[];
    }
  }

  /** The rows a listing loop has taken once the keys in `remaining` are still to visit. */
  ghost function ListedRows(t: GameTable, remaining: set<int>, status: Option<string>): set<GameRow>
  {
    set k | k in t && k !in remaining && (status.None? || t[k].status == status.value) :: t[k]
  }

  /** Visiting key `k` adds its row when the status matches, and that row was not yet taken. */
  lemma ListedRowsStep(t: GameTable, remaining: set<int>, k: int, status: Option<string>)
    requires GamesKeyed(t) && k in remaining && k in t
    ensures var before := ListedRows(t, remaining, status);
      var after := ListedRows(t, remaining - {k}, status);
      if status.None? || t[k].status == status.value then t[k] !in before && after == before + {t[k]}
      else after == before
  {
    var before := ListedRows(t, remaining, status);
    var after := ListedRows(t, remaining - {k}, status);
    if status.None? || t[k].status == status.value {
      assert after == before + {t[k]};
    } else {
      assert after == before;
    }
  }

  /** Before the first visit nothing is taken; after the last, exactly the selected rows. */
  lemma ListedRowsEnds(t: GameTable, status: Option<string>)
    ensures ListedRows(t, t.Keys, status) == {}
    ensures ListedRows(t, {}, status) == RowsWithStatus(t, status)
  {
  }

  /** The unsynced records a listing loop has taken once the keys in `remaining` are still to visit. */
  ghost function ListedRecords(q: SyncTable, remaining: set<int>): set<SyncRecord>
  {
    set k | k in q && k !in remaining && !q[k].synced :: q[k]
  }

  /** Visiting key `k` adds its record when it is unsynced, and that record was not yet taken. */
  lemma ListedRecordsStep(q: SyncTable, remaining: set<int>, k: int)
    requires QueueKeyed(q) && k in remaining && k in q
    ensures var before := ListedRecords(q, remaining);
      var after := ListedRecords(q, remaining - {k});
      if !q[k].synced then q[k] !in before && after == before + {q[k]}
      else after == before
  {
    var before := ListedRecords(q, remaining);
    var after := ListedRecords(q, remaining - {k});
    if !q[k].synced {
      assert after == before + {q[k]};
    } else {
      assert after == before;
    }
  }

  /** Before the first visit nothing is taken; after the last, exactly the unsynced records. */
  lemma ListedRecordsEnds(q: SyncTable)
    ensures ListedRecords(q, q.Keys) == {}
    ensures ListedRecords(q, {}) == Unsynced(q)
  {
  }

  /** The row test of `searchGames`, reading the details name from member `key`. */
  function NameFilter(query: string, key: string): (keep: GameRow -> bool)
    ensures forall g :: keep(g) == NameMatches(g, query, key)
  {
    g => NameMatches(g, query, key)
  }

  /** The filtering loop of `searchGames`: keeps, in order, the rows that pass the test. */
  method FilterRows(all: seq<GameRow>, keep: GameRow -> bool) returns (r: seq<GameRow>)
    ensures r == Where(all, keep)
  {
    r := [];
    var i := 0;
    while i < |all|
      invariant 0 <= i <= |all|
      invariant r == Where(all[..i], keep)
    {
      var game := all[i];
      if keep(game) {
        r := r + [game];
      }
      assert all[..i + 1][..i] == all[..i];
      i := i + 1;
    }
    assert all[..i] == all;
  }

  /** Search as written keeps the whole listing for an empty query and nothing otherwise. */
  lemma SearchFindsAllOrNothing(all: seq<GameRow>, query: string)
    ensures Where(all, NameFilter(query, "game_details_json")) == if query == "" then all else []
  {
    var keep := NameFilter(query, "game_details_json");
    forall g | g in all
      ensures keep(g) == (query == "")
    {
      SearchNameAlwaysEmpty(g, query);
    }
    WhereConstant(all, keep, query == "");  }
}
