/** The native RDP session service, one call at a time. */
module NativeRDP {
  import opened Options
  import opened RDPReason
  import opened SessionStore

  /** What Resolve made of the front credentials: the row to insert, or a denial reason. */
  datatype Resolved = Granted(userId: int, assetId: int, accountId: int) | Denied(reason: string)

  function NativeRow(r: Resolved, remoteAddr: string): Session
    requires r.Granted?
  {
    Session(r.userId, r.assetId, r.accountId, "rdp", "rdp", "rdp_client", remoteAddr, false)
  }

  datatype FinishResult = Finished(changed: bool, reason: string) | InvalidArgument | NotFound | Forbidden

  /** What a FinishSession call returns and leaves, run alone. */
  function AfterFinish(db: DB, id: int, reason: string): (DB, FinishResult) {
    var clean := Sanitize(reason);
    if id <= 0 then (db, InvalidArgument)
    else if id !in db.sessions then (db, NotFound)
    else if !IsNative(db.sessions[id]) then (db, Forbidden)
    else if db.sessions[id].isFinished then (db, Finished(false, clean))
    else (AddAudit(FinishOnce(db, id).0, AuditRow(FinishAction(clean), id, clean)), Finished(true, clean))
  }

  /** What a StartSession call returns and leaves, run alone. */
  function AfterStart(db: DB, resolved: Resolved, remoteAddr: string, limit: int): (DB, Option<int>) {
    if resolved.Denied? then (AddAudit(db, AuditRow(DENIED_ACTION, 0, resolved.reason)), None)
    else
      var (after, made) := CreateUnderLimit(db, NativeRow(resolved, remoteAddr), limit);
      if made.Some? then (AddAudit(after, AuditRow(START_ACTION, made.value, "started")), made)
      else (AddAudit(after, AuditRow(DENIED_ACTION, 0, "max_connections")), None)
  }

  /** A start, table by table: a denial leaves its reason in the audit alone; with as many
      unfinished rdp sessions of the client as the limit, and at least one, allows, so does the
      limit; otherwise there is one more row, of the user, asset and account granted, and its
      start in the audit. */
  lemma StartIs(db: DB, r: Resolved, remoteAddr: string, limit: int)
    ensures var (after, id) := AfterStart(db, r, remoteAddr, limit);
            var open := |set x | x in db.sessions && !db.sessions[x].isFinished
                                 && db.sessions[x].protocol == "rdp" && db.sessions[x].loginFrom == "rdp_client"|;
            match r
            case Denied(reason) =>
              && id.None?
              && after == DB(db.sessions, db.nextId, db.audits + [AuditRow("rdp.native.denied", 0, reason)])
            case Granted(user, asset, account) =>
              if open >= (if limit <= 0 then 1 else limit) then
                && id.None?
                && after == DB(db.sessions, db.nextId,
                               db.audits + [AuditRow("rdp.native.denied", 0, "max_connections")])
              else
                && id == Some(db.nextId)
                && after == DB(db.sessions[db.nextId := Session(user, asset, account, "rdp", "rdp", "rdp_client",
                                                                remoteAddr, false)],
                               db.nextId + 1,
                               db.audits + [AuditRow("rdp.native.start", db.nextId, "started")])
  {
    assert Active(db, "rdp", "rdp_client")
           == set x | x in db.sessions && !db.sessions[x].isFinished
                      && db.sessions[x].protocol == "rdp" && db.sessions[x].loginFrom == "rdp_client";
  }

  /** A finish: refused for an id that is not positive, unknown, or not of the native client; of
      a finished session it changes nothing; otherwise the row is finished and audited with the
      action of the sanitized reason, which is reported in any case. */
  lemma FinishIs(db: DB, id: int, raw: string)
    ensures var (after, result) := AfterFinish(db, id, raw);
            if id <= 0 then result == InvalidArgument && after == db
            else if id !in db.sessions then result == NotFound && after == db
            else if db.sessions[id].protocol != "rdp" || db.sessions[id].typ != "rdp"
                    || db.sessions[id].loginFrom != "rdp_client" then result == Forbidden && after == db
            else
              && result == Finished(!db.sessions[id].isFinished, Sanitize(raw))
              && after == if db.sessions[id].isFinished then db
                          else DB(db.sessions[id := db.sessions[id].(isFinished := true)], db.nextId,
                                  db.audits + [AuditRow(FinishAction(Sanitize(raw)), id, Sanitize(raw))])
  {
    hide Sanitize, FinishAction;
  }

  class Service {
    const store: Store

    constructor (store: Store)
      ensures this.store == store
    {
      this.store := store;
    }

    method StartSession(resolved: Resolved, remoteAddr: string, limit: int) returns (id: Option<int>)
      modifies store
      ensures (store.db, id) == AfterStart(old(store.db), resolved, remoteAddr, limit)
    {
      if resolved.Denied? {
        store.Audit(DENIED_ACTION, 0, resolved.reason);
        return None;
      }
      id := store.CreateSessionUnderActiveLimit(NativeRow(resolved, remoteAddr), limit);
      if id.None? {
        store.Audit(DENIED_ACTION, 0, "max_connections");
        return None;
      }
      store.Audit(START_ACTION, id.value, "started");
    }

    method FinishSession(id: int, rawReason: string) returns (result: FinishResult)
      modifies store
      ensures (store.db, result) == AfterFinish(old(store.db), id, rawReason)
    {
      hide Sanitize, FinishAction;
      if id <= 0 {
        return InvalidArgument;
      }
      var reason := SanitizeNativeRDPReason(rawReason);
      var existing := store.GetSession(id);
      if existing.None? {
        return NotFound;
      }
      if !IsNative(existing.value) {
        return Forbidden;
      }
      var session, changed := store.FinishSessionOnce(id);
      if changed {
        store.Audit(FinishAction(reason), id, reason);
      }
      return Finished(changed, reason);
    }

    /** Run alone, a cleanup finishes every active native session and skips none. */
    method FinishActiveSessions(rawReason: string)
      returns (reason: string, finished: seq<int>, skipped: seq<int>, failed: bool)
      requires Fresh(store.db)
      modifies store
      ensures !failed && skipped == []
      ensures reason == Sanitize(rawReason) && Lists(finished, ActiveNative(old(store.db)))
      ensures forall id :: id in finished <==> id in old(store.db).sessions && ActiveClient(old(store.db).sessions[id])
      ensures store.db.sessions.Keys == old(store.db).sessions.Keys
      ensures forall id :: id in store.db.sessions ==>
                store.db.sessions[id] ==
                if id in finished then old(store.db).sessions[id].(isFinished := true) else old(store.db).sessions[id]
      ensures |store.db.audits| == |old(store.db).audits| + |finished| && old(store.db).audits <= store.db.audits
      ensures forall i :: 0 <= i < |finished| ==>
                store.db.audits[|old(store.db).audits| + i] == AuditRow(FinishAction(reason), finished[i], reason)
    {
      hide Sanitize, FinishAction;
      reason := SanitizeNativeRDPReason(rawReason);
      SanitizeIdempotent(rawReason);
      var ids := store.ListActiveNativeRDPSessionIDs();
      finished, skipped, failed := [], [], false;
      ghost var db0 := store.db;
      for i := 0 to |ids|
        invariant !failed && skipped == [] && finished == ids[..i]
        invariant store.db.sessions.Keys == db0.sessions.Keys
        invariant forall id :: id in db0.sessions ==>
                    store.db.sessions[id] ==
                    if id in ids[..i] then db0.sessions[id].(isFinished := true) else db0.sessions[id]
        invariant |store.db.audits| == |db0.audits| + i && db0.audits <= store.db.audits
        invariant forall k :: 0 <= k < i ==>
                    store.db.audits[|db0.audits| + k] == AuditRow(FinishAction(reason), ids[k], reason)
      {
        var id := ids[i];
        assert id in ids && id in ActiveNative(db0) && id !in ids[..i];
        assert ids[..i + 1] == ids[..i] + [id];
        var result := FinishSession(id, reason);
        if !result.Finished? {
          return "", [], [], true;
        }
        if result.changed {
          finished := finished + [id];
        } else {
          skipped := skipped + [id];
        }
      }
      assert ids[..|ids|] == ids;
    }
  }
}
