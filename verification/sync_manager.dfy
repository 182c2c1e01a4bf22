/**
 * SyncManager: pushes the queued offline changes to the server and pulls the library down.
 *
 * `syncPendingChanges` is modelled in its two halves. The dispatch loop runs synchronously: it
 * turns each queued record into at most one HTTP request and fires `onComplete` after the last
 * record. The response callbacks run later; the model applies them one after another, in
 * dispatch order, each with the outcome the server gave.
 */
module SyncManager {
  import opened Wrappers
  import opened Text
  import opened Ordering
  import opened Filtering
  import opened Store
  import opened DatabaseHelper

  datatype HttpMethod = Get | Post | Patch | Delete

  /** One request handed to the Volley queue; `path` is relative to the build's BASE_URL. */
  datatype Request = Request(
    syncId: int,
    verb: HttpMethod,
    path: string,
    body: Option<Payload>,
    headers: map<string, string>)

  /** What the sync emits, in order: a request sent, or the `onComplete` callback. */
  datatype Event = Send(request: Request) | Complete

  /**
   * The server's answer to one request: an error, or a response. For an ADD the response may
   * carry the new library id at `data.game.id` (`None` when that member is missing).
   */
  datatype RemoteOutcome = Failed | Succeeded(gameId: Option<int>)

  function LibraryPath(libraryId: int): (p: string)
    ensures |p| >= 12 && p[..12] == "api/library/" && p[12..] == IntToString(libraryId)
  {
    "api/library/" + IntToString(libraryId)
  }

  function JsonHeaders(token: string): (h: map<string, string>)
    ensures h.Keys == {"Authorization", "Content-Type"}
    ensures h["Authorization"] == "Bearer " + token && h["Content-Type"] == "application/json"
  {
    map["Authorization" := "Bearer " + token, "Content-Type" := "application/json"]
  }

  /**
   * The request `syncUpdate`, `syncAdd` or `syncDelete` sends for a record: none when the
   * action type is none of the three or there is no saved token.
   */
  function RequestFor(rec: SyncRecord, token: Option<string>): (r: Option<Request>)
    ensures r.Some? <==> token.Some? && rec.actionType in {"UPDATE", "ADD", "DELETE"}
    ensures r.Some? ==> r.value.syncId == rec.id && "Authorization" in r.value.headers && r.value.headers["Authorization"] == "Bearer " + token.value
    ensures r.Some? && rec.actionType == "UPDATE" ==>
              r.value.verb == Patch && r.value.path == LibraryPath(rec.libraryId) && r.value.body == Some(rec.data)
    ensures r.Some? && rec.actionType == "ADD" ==>
              r.value.verb == Post && r.value.path == "api/library" && r.value.body == Some(rec.data)
    ensures r.Some? && rec.actionType == "DELETE" ==>
              r.value.verb == Delete && r.value.path == LibraryPath(rec.libraryId) && r.value.body == None
  {
    if token.None? then None
    else if rec.actionType == "UPDATE" then
      Some(Request(rec.id, Patch, LibraryPath(rec.libraryId), Some(rec.data), JsonHeaders(token.value)))
    else if rec.actionType == "ADD" then
      Some(Request(rec.id, Post, "api/library", Some(rec.data), JsonHeaders(token.value)))
    else if rec.actionType == "DELETE" then
      Some(Request(rec.id, Delete, LibraryPath(rec.libraryId), None,
                   map["Authorization" := "Bearer " + token.value]))
    else None
  }

  /** The requests the dispatch loop sends for `recs`, in order. */
  function Requests(recs: seq<SyncRecord>, token: Option<string>): (r: seq<Request>)
    ensures |r| <= |recs|
  {
    if recs == [] then []
    else
      var init := Requests(recs[..|recs| - 1], token);
      match RequestFor(recs[|recs| - 1], token)
      case Some(req) => init + [req]
      case None => init
  }

  function Sends(reqs: seq<Request>): (e: seq<Event>)
    ensures |e| == |reqs|
    ensures forall i :: 0 <= i < |reqs| ==> e[i] == Send(reqs[i])
  {
    if reqs == [] then [] else Sends(reqs[..|reqs| - 1]) + [Send(reqs[|reqs| - 1])]
  }

  /**
   * The events of one `syncPendingChanges` call: offline, or with nothing queued, only
   * `onComplete`; otherwise the requests, then `onComplete` once the last record is handled.
   */
  function Dispatched(online: bool, recs: seq<SyncRecord>, token: Option<string>): (e: seq<Event>)
    ensures |e| >= 1 && e[|e| - 1] == Complete
  {
    if !online || recs == [] then [Complete] else Sends(Requests(recs, token)) + [Complete]
  }

  function Completions(e: seq<Event>): (n: nat)
    ensures n <= |e|
  {
    if e == [] then 0 else Completions(e[..|e| - 1]) + (if e[|e| - 1].Complete? then 1 else 0)
  }

  /** `onComplete` fires exactly once per call, as the last event, whatever the queue holds. */
  lemma {:induction false} CompletesExactlyOnce(online: bool, recs: seq<SyncRecord>, token: Option<string>)
    ensures Completions(Dispatched(online, recs, token)) == 1
    ensures forall i :: 0 <= i < |Dispatched(online, recs, token)| - 1 ==> Dispatched(online, recs, token)[i].Send?
  {
    var e := Dispatched(online, recs, token);
    if !online || recs == [] {
      assert e[..0] == [];
    } else {
      var s := Sends(Requests(recs, token));
      assert e[..|e| - 1] == s;
      SendsHaveNoCompletion(s);
    }
  }

  lemma {:induction false} SendsHaveNoCompletion(e: seq<Event>)
    requires forall i :: 0 <= i < |e| ==> e[i].Send?
    ensures Completions(e) == 0
  {
    if e != [] {
      SendsHaveNoCompletion(e[..|e| - 1]);
    }
  }

  /** The records the dispatch loop sends a request for. */
  function Dispatches(token: Option<string>): (keep: SyncRecord -> bool)
    ensures forall rec :: keep(rec) <==> RequestFor(rec, token).Some?
  {
    rec => RequestFor(rec, token).Some?
  }

  /**
   * Without a token nothing is sent. With one, request `k` is the request of the `k`-th record
   * of a known action type: every such record gets exactly one request, in listing order.
   */
  lemma {:induction false} RequestsCount(recs: seq<SyncRecord>, token: Option<string>)
    ensures token.None? ==> Requests(recs, token) == []
    ensures |Requests(recs, token)| == |Where(recs, Dispatches(token))|
    ensures var idx := WhereIndices(recs, Dispatches(token));
      && |idx| == |Requests(recs, token)|
      && (forall k :: 0 <= k < |idx| ==> RequestFor(recs[idx[k]], token) == Some(Requests(recs, token)[k]))
      && (forall j :: 0 <= j < |recs| && RequestFor(recs[j], token).Some? ==> j in idx)
  {
    if recs != [] {
      var n := |recs| - 1;
      var front := recs[..n];
      RequestsCount(front, token);
      var keep := Dispatches(token);
      var idx := WhereIndices(recs, keep);
      var fidx := WhereIndices(front, keep);
      assert idx == if keep(recs[n]) then fidx + [n] else fidx;
      var r := Requests(recs, token);
      forall j | 0 <= j < |recs| && RequestFor(recs[j], token).Some?
        ensures j in idx
      {
        WhereIndicesComplete(recs, keep, j);
      }
      forall k | 0 <= k < |idx|
        ensures RequestFor(recs[idx[k]], token) == Some(r[k])
      {
        if k < |fidx| {
          assert idx[k] == fidx[k] && recs[fidx[k]] == front[fidx[k]];
        }
      }
    }
  }

  // ---------------------------------------------------------------- delivering the responses

  /** The outcome of the `i`-th request; a request with no recorded answer counts as failed. */
  function OutcomeAt(outcomes: seq<RemoteOutcome>, i: nat): (o: RemoteOutcome)
    ensures i >= |outcomes| ==> o == Failed
  {
    if i < |outcomes| then outcomes[i] else Failed
  }

  /** The local library id an ADD record carries in its payload (`getInt("local_library_id")`). */
  function LocalLibraryId(body: Option<Payload>): (r: Option<int>)
    ensures r.Some? <==> body.Some? && "local_library_id" in body.value && body.value["local_library_id"].PInt?
  {
    if body.Some? && "local_library_id" in body.value && body.value["local_library_id"].PInt? then
      Some(body.value["local_library_id"].i)
    else None
  }

  /**
   * The response callback of one request. An error keeps the record for retry. A response to an
   * UPDATE or DELETE deletes the record. A response to an ADD re-keys the local row to the
   * server's id and deletes the record; when a member is missing or the re-key throws, the
   * exception is caught and both tables stay as they were.
   */
  function DeliverOne(games: GameTable, queue: SyncTable, req: Request, outcome: RemoteOutcome, now: string)
    : (r: (GameTable, SyncTable))
    ensures r.1 == queue || r.1 == queue - {req.syncId}
    ensures outcome.Failed? ==> r == (games, queue)
    ensures outcome.Succeeded? && req.verb != Post ==> r == (games, queue - {req.syncId})
    ensures GamesKeyed(games) ==> GamesKeyed(r.0)
    ensures r.0 != games ==> req.verb == Post && r.1 == queue - {req.syncId}
    ensures outcome.Succeeded? && req.verb == Post && (outcome.gameId.None? || LocalLibraryId(req.body).None?) ==>
              r == (games, queue)
  {
    match outcome
    case Failed => (games, queue)
    case Succeeded(serverId) =>
      if req.verb != Post then (games, queue - {req.syncId})
      else if serverId.None? || LocalLibraryId(req.body).None? then (games, queue)
      else match UpdateField(games, LocalLibraryId(req.body).value, "id", IntV(serverId.value), now)
        case Err(_) => (games, queue)
        case Ok((_, games')) => (games', queue - {req.syncId})
  }

  /**
   * An ADD answered with a server id whose local row is already gone: `updateGameField` changes
   * no row and returns 0, which is not checked, so the record is still deleted.
   */
  lemma AddTargetGoneDeletesRecord(games: GameTable, queue: SyncTable, req: Request, serverId: int, now: string)
    requires req.verb == Post && LocalLibraryId(req.body).Some? && LocalLibraryId(req.body).value !in games
    ensures DeliverOne(games, queue, req, Succeeded(Some(serverId)), now) == (games, queue - {req.syncId})
  {
  }

  /** The tables after the callbacks of `reqs` have run in order. */
  function Deliver(games: GameTable, queue: SyncTable, reqs: seq<Request>, outcomes: seq<RemoteOutcome>, now: string)
    : (r: (GameTable, SyncTable))
    ensures GamesKeyed(games) ==> GamesKeyed(r.0)
    decreases |reqs|
  {
    if reqs == [] then (games, queue)
    else
      var n := |reqs| - 1;
      var prev := Deliver(games, queue, reqs[..n], outcomes, now);
      DeliverOne(prev.0, prev.1, reqs[n], OutcomeAt(outcomes, n), now)
  }

  /** Delivery only ever deletes records: what is left is part of the queue, unchanged. */
  lemma {:induction false} DeliverOnlyDeletes(games: GameTable, queue: SyncTable, reqs: seq<Request>, outcomes: seq<RemoteOutcome>, now: string)
    ensures var q := Deliver(games, queue, reqs, outcomes, now).1;
      q.Keys <= queue.Keys && forall k :: k in q ==> q[k] == queue[k]
  {
    if reqs != [] {
      DeliverOnlyDeletes(games, queue, reqs[..|reqs| - 1], outcomes, now);
    }
  }

  /** When every request fails (the server is unreachable), both tables are left for the retry. */
  lemma {:induction false} AllFailedChangesNothing(games: GameTable, queue: SyncTable, reqs: seq<Request>, outcomes: seq<RemoteOutcome>, now: string)
    requires forall i :: 0 <= i < |outcomes| ==> outcomes[i].Failed?
    ensures Deliver(games, queue, reqs, outcomes, now) == (games, queue)
  {
    if reqs != [] {
      AllFailedChangesNothing(games, queue, reqs[..|reqs| - 1], outcomes, now);
    }
  }

  /** A record all of whose requests failed is still queued afterwards. */
  lemma {:induction false} FailedRecordStays(games: GameTable, queue: SyncTable, reqs: seq<Request>, outcomes: seq<RemoteOutcome>, now: string, syncId: int)
    requires syncId in queue
    requires forall i :: 0 <= i < |reqs| && reqs[i].syncId == syncId ==> OutcomeAt(outcomes, i).Failed?
    ensures syncId in Deliver(games, queue, reqs, outcomes, now).1
  {
    if reqs != [] {
      FailedRecordStays(games, queue, reqs[..|reqs| - 1], outcomes, now, syncId);
    }
  }

  /** Without a saved token nothing is sent, so every record stays and no row changes. */
  lemma NoTokenChangesNothing(games: GameTable, queue: SyncTable, recs: seq<SyncRecord>, outcomes: seq<RemoteOutcome>, now: string)
    ensures Deliver(games, queue, Requests(recs, None), outcomes, now) == (games, queue)
  {
    RequestsCount(recs, None);
  }

  /** A successful UPDATE or DELETE removes its record, and no later callback brings it back. */
  lemma {:induction false} AnsweredRecordGone(games: GameTable, queue: SyncTable, reqs: seq<Request>, outcomes: seq<RemoteOutcome>, now: string, i: nat)
    requires i < |reqs| && reqs[i].verb != Post && OutcomeAt(outcomes, i).Succeeded?
    ensures reqs[i].syncId !in Deliver(games, queue, reqs, outcomes, now).1
  {
    var n := |reqs| - 1;
    if i < n {
      assert reqs[..n][i] == reqs[i];
      AnsweredRecordGone(games, queue, reqs[..n], outcomes, now, i);
    }
  }

  /** Only a successful ADD changes `user_games`. */
  lemma {:induction false} GamesChangeOnlyByAdd(games: GameTable, queue: SyncTable, reqs: seq<Request>, outcomes: seq<RemoteOutcome>, now: string)
    requires forall i :: 0 <= i < |reqs| && reqs[i].verb == Post ==> OutcomeAt(outcomes, i).Failed?
    ensures Deliver(games, queue, reqs, outcomes, now).0 == games
  {
    if reqs != [] {
      GamesChangeOnlyByAdd(games, queue, reqs[..|reqs| - 1], outcomes, now);
    }
  }

  /**
   * A successful ADD moves the local row under the server's id, stamped with the sync time and
   * otherwise unchanged, and deletes the record.
   */
  lemma AddRekeysRow(games: GameTable, queue: SyncTable, req: Request, serverId: int, now: string)
    requires req.verb == Post && LocalLibraryId(req.body).Some?
    requires LocalLibraryId(req.body).value in games
    requires serverId == LocalLibraryId(req.body).value || serverId !in games
    ensures var local := LocalLibraryId(req.body).value;
      var r := DeliverOne(games, queue, req, Succeeded(Some(serverId)), now);
      && r.1 == queue - {req.syncId}
      && r.0.Keys == games.Keys - {local} + {serverId}
      && r.0[serverId] == games[local].(id := serverId, updatedAt := now)
      && forall k :: k in games && k != local ==> k in r.0 && r.0[k] == games[k]
  {
    UpdateFieldRekeys(games, LocalLibraryId(req.body).value, serverId, now);
  }

  /** An ADD whose server id is already taken by another row throws; the record stays for retry. */
  lemma AddClashKeepsRecord(games: GameTable, queue: SyncTable, req: Request, serverId: int, now: string)
    requires req.verb == Post && LocalLibraryId(req.body).Some?
    requires LocalLibraryId(req.body).value in games
    requires serverId != LocalLibraryId(req.body).value && serverId in games
    ensures DeliverOne(games, queue, req, Succeeded(Some(serverId)), now) == (games, queue)
  {
    UpdateFieldRekeys(games, LocalLibraryId(req.body).value, serverId, now);
  }

  /** Handling one more record adds its request, if it has one, after the earlier ones. */
  lemma RequestsSnoc(recs: seq<SyncRecord>, i: nat, token: Option<string>)
    requires i < |recs|
    ensures Requests(recs[..i + 1], token)
         == Requests(recs[..i], token) + (if RequestFor(recs[i], token).Some? then [RequestFor(recs[i], token).value] else [])
  {
    assert recs[..i + 1][..i] == recs[..i];
  }

  lemma SendsSnoc(reqs: seq<Request>, req: Request)
    ensures Sends(reqs + [req]) == Sends(reqs) + [Send(req)]
  {
    assert (reqs + [req])[..|reqs|] == reqs;
  }

  /**
   * The dispatch loop of `syncPendingChanges` over a non-empty listing: the requests it sends and
   * the events it emits, `onComplete` coming when the count reaches the listing's size.
   */
  method Dispatch(pending: seq<SyncRecord>, token: Option<string>) returns (events: seq<Event>, reqs: seq<Request>)
    requires pending != []
    ensures reqs == Requests(pending, token)
    ensures events == Dispatched(true, pending, token)
  {
    events := [];
    reqs := [];
    var syncedCount := 0;
    while syncedCount < |pending|
      invariant 0 <= syncedCount <= |pending|
      invariant reqs == Requests(pending[..syncedCount], token)
      invariant syncedCount < |pending| ==> events == Sends(reqs)
      invariant syncedCount == |pending| ==> events == Sends(reqs) + [Complete]
    {
      var request := RequestFor(pending[syncedCount], token);
      RequestsSnoc(pending, syncedCount, token);
      if request.Some? {
        SendsSnoc(reqs, request.value);
        reqs := reqs + [request.value];
        events := events + [Send(request.value)];
      }
      syncedCount := syncedCount + 1;
      if syncedCount == |pending| {
        events := events + [Complete];
      }
    }
    assert pending[..syncedCount] == pending;
  }

  /** The response callbacks of `reqs`, run in dispatch order against the store. */
  method DeliverAll(db: LocalStore, reqs: seq<Request>, outcomes: seq<RemoteOutcome>, now: string)
    requires db.Valid()
    modifies db
    ensures db.Valid()
    ensures (db.userGames, db.pendingSync) == Deliver(old(db.userGames), old(db.pendingSync), reqs, outcomes, now)
    ensures db.gameCache == old(db.gameCache) && db.statistics == old(db.statistics)
    ensures db.syncSequence == old(db.syncSequence)
  {
    var j := 0;
    while j < |reqs|
      invariant 0 <= j <= |reqs|
      invariant db.Valid()
      invariant (db.userGames, db.pendingSync) == Deliver(old(db.userGames), old(db.pendingSync), reqs[..j], outcomes, now)
      invariant db.gameCache == old(db.gameCache) && db.statistics == old(db.statistics)
      invariant db.syncSequence == old(db.syncSequence)
    {
      var req := reqs[j];
      var outcome := OutcomeAt(outcomes, j);
      assert reqs[..j + 1][..j] == reqs[..j];
      if outcome.Succeeded? {
        if req.verb != Post {
          db.DeleteSyncRecord(req.syncId);
        } else {
          var local := LocalLibraryId(req.body);
          if outcome.gameId.Some? && local.Some? {
            var updated := db.UpdateGameField(local.value, "id", IntV(outcome.gameId.value), now);
            if updated.Ok? {
              db.DeleteSyncRecord(req.syncId);
            }
          }
        }
      }
      j := j + 1;
    }
    assert reqs[..j] == reqs;
  }

  /**
   * `syncPendingChanges`: returns the events it emits; `listed` is the queue listing the dispatch
   * loop walks. The local tables end as the callbacks leave them, given each request's outcome.
   */
  method SyncPendingChanges(db: LocalStore, online: bool, token: Option<string>, outcomes: seq<RemoteOutcome>, now: string)
    returns (events: seq<Event>, ghost listed: seq<SyncRecord>)
    requires db.Valid()
    modifies db
    ensures db.Valid()
    ensures online ==> IsListing(listed, Unsynced(old(db.pendingSync)), TimestampKey, false)
    ensures events == Dispatched(online, listed, token)
    ensures !online ==> unchanged(db)
    ensures online ==> (db.userGames, db.pendingSync)
                       == Deliver(old(db.userGames), old(db.pendingSync), Requests(listed, token), outcomes, now)
    ensures db.gameCache == old(db.gameCache) && db.statistics == old(db.statistics)
    ensures db.syncSequence == old(db.syncSequence)
  {
    if !online {
      return [Complete], [];
    }
    var pending := db.GetPendingSyncs();
    listed := pending;
    if pending == [] {
      return [Complete], listed;
    }
    var reqs;
    events, reqs := Dispatch(pending, token);
    DeliverAll(db, reqs, outcomes, now);
  }

  // ---------------------------------------------------------------- pulling the library

  /** The answer to `GET api/library?limit=1000`: an error, or a body with or without `data.games`. */
  datatype LibraryResponse = Unanswered | Answered(games: Option<seq<GameJson>>)

  /**
   * The upsert loop of `syncLibraryFromServer`: `insertOrUpdateGame` for each entry in order,
   * stopping at the first one that throws; true when every entry went through.
   */
  function UpsertAll(t: GameTable, js: seq<GameJson>): (r: (bool, GameTable))
    ensures GamesKeyed(t) ==> GamesKeyed(r.1)
  {
    if js == [] then (true, t)
    else
      var prev := UpsertAll(t, js[..|js| - 1]);
      if !prev.0 then prev
      else
        var step := Upsert(prev.1, js[|js| - 1]);
        if step.0.Err? then (false, prev.1) else (true, step.1)
  }

  /** The loop stops with false exactly when some entry lacks `igdb_game_id` or `status`. */
  lemma {:induction false} UpsertAllFailsIffMalformed(t: GameTable, js: seq<GameJson>)
    ensures !UpsertAll(t, js).0 <==> exists i :: 0 <= i < |js| && RowFromJson(js[i]).Err?
  {
    if js != [] {
      var n := |js| - 1;
      UpsertAllFailsIffMalformed(t, js[..n]);
      if exists i :: 0 <= i < n && RowFromJson(js[..n][i]).Err? {
        var i :| 0 <= i < n && RowFromJson(js[..n][i]).Err?;
        assert js[i] == js[..n][i];
      }
      if exists i :: 0 <= i < |js| && RowFromJson(js[i]).Err? {
        var i :| 0 <= i < |js| && RowFromJson(js[i]).Err?;
        if i < n {
          assert js[..n][i] == js[i];
        }
      }
    }
  }

  /** The pull never deletes a local row. */
  lemma {:induction false} UpsertAllKeepsKeys(t: GameTable, js: seq<GameJson>)
    ensures t.Keys <= UpsertAll(t, js).1.Keys
  {
    if js != [] {
      UpsertAllKeepsKeys(t, js[..|js| - 1]);
    }
  }

  /**
   * When every entry is well formed and carries its own positive id, the local library ends up
   * holding each entry under its id, as the server sent it.
   */
  lemma {:induction false} UpsertAllMirrors(t: GameTable, js: seq<GameJson>)
    requires forall i :: 0 <= i < |js| ==> RowFromJson(js[i]).Ok? && js[i].id.Some? && js[i].id.value > 0
    requires forall i, k :: 0 <= i < k < |js| ==> js[i].id != js[k].id
    ensures UpsertAll(t, js).0
    ensures forall i :: 0 <= i < |js| ==>
              js[i].id.value in UpsertAll(t, js).1 && UpsertAll(t, js).1[js[i].id.value] == RowFromJson(js[i]).value
  {
    if js != [] {
      var n := |js| - 1;
      var init := js[..n];
      UpsertAllMirrors(t, init);
      var prev := UpsertAll(t, init);
      var last := js[n];
      var t' := UpsertAll(t, js).1;
      assert t' == prev.1[last.id.value := RowFromJson(last).value];
      forall i | 0 <= i < |js|
        ensures js[i].id.value in t' && t'[js[i].id.value] == RowFromJson(js[i]).value
      {
        if i < n {
          assert init[i] == js[i];
        }
      }
    }
  }

  /** `syncLibraryFromServer`: the flag it reports to `onComplete`. */
  method SyncLibraryFromServer(db: LocalStore, online: bool, token: Option<string>, response: LibraryResponse)
    returns (success: bool)
    requires db.Valid()
    modifies db
    ensures db.Valid()
    ensures !online || token.None? || response.Unanswered? || response.games.None? ==> !success && unchanged(db)
    ensures online && token.Some? && response.Answered? && response.games.Some? ==>
              (success, db.userGames) == UpsertAll(old(db.userGames), response.games.value)
    ensures db.gameCache == old(db.gameCache) && db.statistics == old(db.statistics)
    ensures db.pendingSync == old(db.pendingSync) && db.syncSequence == old(db.syncSequence)
  {
    if !online || token.None? || response.Unanswered? || response.games.None? {
      return false;
    }
    var games := response.games.value;
    ghost var t0 := db.userGames;
    var i := 0;
    while i < |games|
      invariant 0 <= i <= |games|
      invariant db.Valid()
      invariant UpsertAll(t0, games[..i]) == (true, db.userGames)
      invariant db.gameCache == old(db.gameCache) && db.statistics == old(db.statistics)
      invariant db.pendingSync == old(db.pendingSync) && db.syncSequence == old(db.syncSequence)
    {
      assert games[..i + 1][..i] == games[..i];
      var written := db.InsertOrUpdateGame(games[i]);
      if written.Err? {
        // the JSONException escapes the loop and is caught: onComplete(false)
        UpsertAllStopsAtError(t0, games, i + 1);
        return false;
      }
      i := i + 1;
    }
    assert games[..i] == games;
    success := true;
  }

  /** Once an entry has failed, the entries after it are not applied. */
  lemma {:induction false} UpsertAllStopsAtError(t: GameTable, js: seq<GameJson>, m: nat)
    requires m <= |js| && !UpsertAll(t, js[..m]).0
    ensures UpsertAll(t, js) == UpsertAll(t, js[..m])
    decreases |js| - m
  {
    if m < |js| {
      assert js[..m + 1][..m] == js[..m];
      UpsertAllStopsAtError(t, js, m + 1);
    } else {
      assert js[..m] == js;
    }
  }
}
