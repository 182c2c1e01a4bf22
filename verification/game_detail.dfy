/**
 * The offline writes of GameDetailActivity that fill the sync queue: adding a game under a
 * temporary library id, and changing a game's status. Only their effect on the store is modelled.
 */
module GameDetail {
  import opened Wrappers
  import opened Store
  import opened DatabaseHelper
  import opened SyncManager

  const TwoTo32: int := 0x1_0000_0000
  const TwoTo31: int := 0x8000_0000

  /** Kotlin's `Long.toInt()` and `Int` negation: keep the low 32 bits, read as two's complement. */
  function Wrap32(x: int): (r: int)
    ensures -TwoTo31 <= r < TwoTo31
    ensures (x - r) % TwoTo32 == 0
  {
    var low := x % TwoTo32;
    if low >= TwoTo31 then low - TwoTo32 else low
  }

  /** The temporary id as written: `-(System.currentTimeMillis().toInt())`. */
  function TempLibraryIdAsWritten(millis: nat): (r: int)
    ensures Wrap32(millis) != -TwoTo31 ==> r == -Wrap32(millis)
    ensures Wrap32(millis) == -TwoTo31 ==> r == -TwoTo31
    ensures r > 0 <==> -TwoTo31 < Wrap32(millis) < 0
  {
    Wrap32(-Wrap32(millis))
  }

  /** At a 2023 clock reading the truncated milliseconds are negative, so the "temporary" id is positive. */
  lemma TempIdAsWrittenCanBePositive()
    ensures Wrap32(1700000000000) == -807049216
    ensures TempLibraryIdAsWritten(1700000000000) == 807049216
  {
    assert 1700000000000 % TwoTo32 == 3487918080;
  }

  /** The temporary id, kept negative: a value in -2147483647 .. -1 derived from the clock. */
  function TempLibraryId(millis: nat): (r: int)
    ensures -(TwoTo31 - 1) <= r <= -1
  {
    -1 - millis % (TwoTo31 - 1)
  }

  /** The entry `addGameToLibrary` writes locally. */
  function AddJson(tempId: int, igdbGameId: int, status: string, details: map<string, string>): (j: GameJson)
    ensures RowFromJson(j).Ok?
    ensures j.id == Some(tempId) && j.igdbGameId == Some(igdbGameId) && j.status == Some(status)
  {
    GameJson(id := Some(tempId), igdbGameId := Some(igdbGameId), status := Some(status),
             hoursPlayed := Some(Real("0.00")), notes := Some(""), gameDetails := Some(details))
  }

  /** The `data_json` of the queued ADD. */
  function AddPayload(tempId: int, igdbGameId: int, status: string): (p: Payload)
    ensures LocalLibraryId(Some(p)) == Some(tempId)
  {
    map["igdb_game_id" := PInt(igdbGameId), "status" := PText(status), "local_library_id" := PInt(tempId)]
  }

  /**
   * As written, an id that comes out positive is taken for a server id: with a row already under
   * 807049216, adding a game at clock 1700000000000 overwrites that row instead of inserting.
   */
  lemma AsWrittenAddOverwrites(t: GameTable, igdbGameId: int, status: string, details: map<string, string>)
    requires 807049216 in t
    ensures var j := AddJson(TempLibraryIdAsWritten(1700000000000), igdbGameId, status, details);
      Upsert(t, j).1 == t[807049216 := RowFromJson(j).value]
  {
    TempIdAsWrittenCanBePositive();
  }

  /** With the negative temporary id the local add never overwrites an existing row. */
  lemma TempAddNeverOverwrites(t: GameTable, millis: nat, igdbGameId: int, status: string, details: map<string, string>)
    ensures var r := Upsert(t, AddJson(TempLibraryId(millis), igdbGameId, status, details));
      forall k :: k in t ==> k in r.1 && r.1[k] == t[k]
  {
    UpsertNonPositiveInserts(t, AddJson(TempLibraryId(millis), igdbGameId, status, details));
  }

  /**
   * The local half of `addGameToLibrary`: insert the game under a temporary id and queue an ADD
   * carrying that id. `details` is the cached game's object, or the empty object.
   */
  method AddGameToLibrary(db: LocalStore, igdbGameId: int, status: string, details: map<string, string>, millis: nat, now: string)
    returns (tempId: int)
    requires db.Valid()
    modifies db
    ensures db.Valid()
    ensures db.gameCache == old(db.gameCache) && db.statistics == old(db.statistics)
    ensures db.syncSequence == old(db.syncSequence) + 1
    ensures tempId == TempLibraryId(millis) && tempId < 0
    ensures (Ok(if tempId in old(db.userGames) then -1 else tempId), db.userGames)
            == Upsert(old(db.userGames), AddJson(tempId, igdbGameId, status, details))
    ensures var id := old(db.syncSequence) + 1;
      db.pendingSync == old(db.pendingSync)[id := SyncRecord(id, tempId, "ADD", AddPayload(tempId, igdbGameId, status), now, false)]
  {
    tempId := TempLibraryId(millis);
    var _ := db.InsertOrUpdateGame(AddJson(tempId, igdbGameId, status, details));
    var _ := db.InsertPendingSync(tempId, "ADD", AddPayload(tempId, igdbGameId, status), now);
  }

  /** The local half of `updateExistingGameStatus`: write the status and queue an UPDATE. */
  method UpdateExistingGameStatus(db: LocalStore, libraryId: int, newStatus: string, now: string)
    requires db.Valid()
    modifies db
    ensures db.Valid()
    ensures libraryId in old(db.userGames) ==>
              db.userGames == old(db.userGames)[libraryId := old(db.userGames)[libraryId].(status := newStatus, updatedAt := now)]
    ensures libraryId !in old(db.userGames) ==> db.userGames == old(db.userGames)
    ensures db.gameCache == old(db.gameCache) && db.statistics == old(db.statistics)
    ensures db.syncSequence == old(db.syncSequence) + 1
    ensures var id := old(db.syncSequence) + 1;
      db.pendingSync == old(db.pendingSync)[id := SyncRecord(id, libraryId, "UPDATE", map["status" := PText(newStatus)], now, false)]
  {
    var _ := db.UpdateGameField(libraryId, "status", Str(newStatus), now);
    var _ := db.InsertPendingSync(libraryId, "UPDATE", map["status" := PText(newStatus)], now);
  }

  /**
   * An offline add followed by a successful sync of its record: the game moves from the temporary
   * id to the server's id and the record leaves the queue.
   */
  lemma AddThenSyncRekeys(t: GameTable, q: SyncTable, rec: SyncRecord, token: string, serverId: int, now: string)
    requires rec.actionType == "ADD" && LocalLibraryId(Some(rec.data)).Some?
    requires LocalLibraryId(Some(rec.data)).value in t && serverId !in t
    ensures var temp := LocalLibraryId(Some(rec.data)).value;
      var r := Deliver(t, q, Requests([rec], Some(token)), [Succeeded(Some(serverId))], now);
      && r.1 == q - {rec.id}
      && r.0.Keys == t.Keys - {temp} + {serverId}
      && r.0[serverId] == t[temp].(id := serverId, updatedAt := now)
      && forall k :: k in t && k != temp ==> k in r.0 && r.0[k] == t[k]
  {
    var req := RequestFor(rec, Some(token)).value;
    assert [rec][..0] == [];
    assert Requests([rec], Some(token)) == [req];
    assert [req][..0] == [];
    AddRekeysRow(t, q, req, serverId, now);
  }
}
