/** The session and audit tables: each statement as one atomic change of the database. */
module SessionStore {
  import opened Options
  import opened Sets

  datatype Session = Session(userId: int, assetId: int, accountId: int, protocol: string, typ: string,
                             loginFrom: string, remoteAddr: string, isFinished: bool)

  datatype AuditRow = AuditRow(action: string, sessionId: int, reason: string)

  datatype DB = DB(sessions: map<int, Session>, nextId: int, audits: seq<AuditRow>)

  const EMPTY := DB(map[], 1, [])

  predicate IsNative(s: Session) {
    s.protocol == "rdp" && s.typ == "rdp" && s.loginFrom == "rdp_client"
  }

  predicate Fresh(db: DB) {
    db.nextId > 0 && forall id :: id in db.sessions ==> 0 < id < db.nextId
  }

  /** The unfinished sessions of a protocol and login source. */
  function Active(db: DB, protocol: string, loginFrom: string): set<int> {
    set id | id in db.sessions && !db.sessions[id].isFinished
             && db.sessions[id].protocol == protocol && db.sessions[id].loginFrom == loginFrom
  }

  function EffectiveLimit(limit: int): (n: int)
    ensures n >= 1
  {
    if limit <= 0 then 1 else limit
  }

  /** INSERT ... SELECT ... WHERE (SELECT COUNT(1) ...) < limit RETURNING. */
  function CreateUnderLimit(db: DB, sess: Session, limit: int): (DB, Option<int>) {
    if |Active(db, sess.protocol, sess.loginFrom)| < EffectiveLimit(limit) then
      (db.(sessions := db.sessions[db.nextId := sess], nextId := db.nextId + 1), Some(db.nextId))
    else (db, None)
  }

  /** UPDATE ... WHERE id = ? AND is_finished = false RETURNING. */
  function FinishOnce(db: DB, id: int): (DB, bool) {
    if id in db.sessions && !db.sessions[id].isFinished then
      (db.(sessions := db.sessions[id := db.sessions[id].(isFinished := true)]), true)
    else (db, false)
  }

  function AddAudit(db: DB, row: AuditRow): DB { db.(audits := db.audits + [row]) }

  /** The rows ListActiveNativeRDPSessionIDs selects. */
  function ActiveNative(db: DB): set<int> {
    set id | id in db.sessions && !db.sessions[id].isFinished && IsNative(db.sessions[id])
  }

  /** An unfinished session of the native client, field by field. */
  predicate ActiveClient(s: Session) {
    !s.isFinished && s.protocol == "rdp" && s.typ == "rdp" && s.loginFrom == "rdp_client"
  }

  predicate Ascending(ids: seq<int>) { forall i, j :: 0 <= i < j < |ids| ==> ids[i] < ids[j] }

  /** The selected ids in order. */
  ghost predicate Lists(ids: seq<int>, rows: set<int>) {
    Ascending(ids) && forall id :: id in ids <==> id in rows
  }

  ghost predicate IsLeast(m: int, rows: set<int>) { m in rows && forall x :: x in rows ==> m <= x }

  lemma {:induction false} LeastExists(rows: set<int>)
    requires |rows| > 0
    ensures exists m :: IsLeast(m, rows)
    decreases |rows|
  {
    var y :| y in rows;
    var below := set x | x in rows && x < y;
    if |below| == 0 {
      assert forall x :: x in rows && x < y ==> x in below;
      assert IsLeast(y, rows);
    } else {
      assert below <= rows - {y};
      SubsetSize(below, rows - {y});
      LeastExists(below);
      var m :| IsLeast(m, below);
      assert forall x :: x in rows && x < y ==> x in below;
      assert m < y && IsLeast(m, rows);
    }
  }

  class Store {
    var db: DB

    constructor ()
      ensures db == EMPTY
    {
      db := EMPTY;
    }

    method CreateSessionUnderActiveLimit(sess: Session, limit: int) returns (id: Option<int>)
      modifies this
      ensures (db, id) == CreateUnderLimit(old(db), sess, limit)
      ensures id.Some? <==> |set x | x in old(db).sessions && !old(db).sessions[x].isFinished
                                     && old(db).sessions[x].protocol == sess.protocol
                                     && old(db).sessions[x].loginFrom == sess.loginFrom|
                            < (if limit <= 0 then 1 else limit)
      ensures id.None? ==> db == old(db)
      ensures id.Some? ==>
                && id.value == old(db).nextId
                && db == DB(old(db).sessions[id.value := sess], id.value + 1, old(db).audits)
    {
      var cap := limit;
      if cap <= 0 {
        cap := 1;
      }
      if |Active(db, sess.protocol, sess.loginFrom)| < cap {
        id := Some(db.nextId);
        db := db.(sessions := db.sessions[db.nextId := sess], nextId := db.nextId + 1);
      } else {
        id := None;
      }
    }

    method FinishSessionOnce(id: int) returns (session: Option<Session>, changed: bool)
      modifies this
      ensures (db, changed) == FinishOnce(old(db), id)
      ensures changed <==> id in old(db).sessions && !old(db).sessions[id].isFinished
      ensures !changed ==> db == old(db)
      ensures changed ==>
                db == old(db).(sessions := old(db).sessions[id := old(db).sessions[id].(isFinished := true)])
      ensures session == if id in db.sessions then Some(db.sessions[id]) else None
    {
      var session1 := GetSession(id);
      changed := session1.Some? && !session1.value.isFinished;
      if changed {
        db := db.(sessions := db.sessions[id := session1.value.(isFinished := true)]);
      }
      session := GetSession(id);
    }

    method GetSession(id: int) returns (session: Option<Session>)
      ensures session == if id in db.sessions then Some(db.sessions[id]) else None
    {
      session := if id in db.sessions then Some(db.sessions[id]) else None;
    }

    method ListActiveNativeRDPSessionIDs() returns (ids: seq<int>)
      ensures Lists(ids, ActiveNative(db)) && forall i, j :: 0 <= i < j < |ids| ==> ids[i] < ids[j]
      ensures forall id :: id in ids <==> id in db.sessions && ActiveClient(db.sessions[id])
    {
      ids := [];
      var rest := ActiveNative(db);
      while rest != {}
        invariant Ascending(ids) && rest <= ActiveNative(db)
        invariant forall id :: id in ids <==> id in ActiveNative(db) - rest
        invariant forall k, y :: 0 <= k < |ids| && y in rest ==> ids[k] < y
        decreases |rest|
      {
        LeastExists(rest);
        ghost var least :| IsLeast(least, rest);
        var m :| m in rest && forall x :: x in rest ==> m <= x;
        ids := ids + [m];
        rest := rest - {m};
      }
    }

    method Audit(action: string, sessionId: int, reason: string)
      modifies this
      ensures db == AddAudit(old(db), AuditRow(action, sessionId, reason))
      ensures db == DB(old(db).sessions, old(db).nextId, old(db).audits + [AuditRow(action, sessionId, reason)])
    {
      db := db.(audits := db.audits + [AuditRow(action, sessionId, reason)]);
    }
  }
}
