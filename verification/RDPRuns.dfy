/** Every interleaving of starts, finishes and cleanups, statement by statement. */
module RDPRuns {
  import opened Options
  import opened Sets
  import opened RDPReason
  import opened SessionStore
  import opened NativeRDP

  // ---------------------------------------------------------------- the calls in progress

  /** A FinishSession call: its session was found and is native; then its update hit. */
  datatype Call = Checked(id: int, reason: string) | Updated(id: int, reason: string)

  datatype Task =
    | Start(id: int)             // row inserted, start audit to be written
    | Finish(call: Call)
    | Cleanup(reason: string, ids: seq<int>, pos: nat, finished: seq<int>, skipped: seq<int>, next: Option<Call>)
    | Ended

  datatype World = World(db: DB, tasks: seq<Task>, limit: int)

  datatype Action =
    | BeginStart(resolved: Resolved, remoteAddr: string)
    | AuditStart(t: nat)
    | BeginFinish(id: int, raw: string)
    | BeginCleanup(raw: string, ids: seq<int>)
    | CheckNext(t: nat)                        // a cleanup looks its next session up
    | Update(t: nat)                           // UPDATE ... is_finished = true
    | AuditFinish(t: nat)
    | Other(id: int, row: Session)             // another service writes a row of its own

  function CallOf(task: Task): Option<Call> {
    match task
    case Finish(call) => Some(call)
    case Cleanup(_, _, _, _, _, next) => next
    case _ => None
  }

  /** A task once its FinishSession call returned. */
  function Returned(task: Task, id: int, changed: bool): Task {
    match task
    case Cleanup(reason, ids, pos, finished, skipped, _) =>
      Cleanup(reason, ids, pos + 1, if changed then finished + [id] else finished,
              if changed then skipped else skipped + [id], None)
    case _ => Ended
  }

  function Updating(task: Task): Task {
    match task
    case Finish(Checked(id, reason)) => Finish(Updated(id, reason))
    case Cleanup(reason, ids, pos, finished, skipped, Some(Checked(id, r))) =>
      Cleanup(reason, ids, pos, finished, skipped, Some(Updated(id, r)))
    case _ => task
  }

  predicate NativeAt(db: DB, id: int) { id in db.sessions && IsNative(db.sessions[id]) }

  /** A row that is not rdp_client's, or a new one. */
  predicate MayWrite(db: DB, id: int, row: Session) {
    && row.loginFrom != "rdp_client"
    && (id == db.nextId || (id in db.sessions && db.sessions[id].loginFrom != "rdp_client"))
  }

  function DoStart(w: World, r: Resolved, remoteAddr: string): World {
    if r.Denied? then w.(db := AddAudit(w.db, AuditRow(DENIED_ACTION, 0, r.reason)))
    else
      var (db, made) := CreateUnderLimit(w.db, NativeRow(r, remoteAddr), w.limit);
      if made.Some? then w.(db := db, tasks := w.tasks + [Start(made.value)])
      else w.(db := AddAudit(w.db, AuditRow(DENIED_ACTION, 0, "max_connections")))
  }

  function DoAuditStart(w: World, t: nat): World
    requires t < |w.tasks| && w.tasks[t].Start?
  {
    w.(db := AddAudit(w.db, AuditRow(START_ACTION, w.tasks[t].id, "started")), tasks := w.tasks[t := Ended])
  }

  function DoUpdate(w: World, t: nat): World
    requires t < |w.tasks| && CallOf(w.tasks[t]).Some? && CallOf(w.tasks[t]).value.Checked?
  {
    var id := CallOf(w.tasks[t]).value.id;
    var (db, changed) := FinishOnce(w.db, id);
    w.(db := db, tasks := w.tasks[t := if changed then Updating(w.tasks[t]) else Returned(w.tasks[t], id, false)])
  }

  function DoAuditFinish(w: World, t: nat): World
    requires t < |w.tasks| && CallOf(w.tasks[t]).Some? && CallOf(w.tasks[t]).value.Updated?
  {
    var call := CallOf(w.tasks[t]).value;
    w.(db := AddAudit(w.db, AuditRow(FinishAction(call.reason), call.id, call.reason)),
       tasks := w.tasks[t := Returned(w.tasks[t], call.id, true)])
  }

  function DoCheckNext(w: World, t: nat): World
    requires t < |w.tasks| && w.tasks[t].Cleanup? && w.tasks[t].next.None? && w.tasks[t].pos < |w.tasks[t].ids|
  {
    var c := w.tasks[t];
    var id := c.ids[c.pos];
    w.(tasks := w.tasks[t := if NativeAt(w.db, id) then c.(next := Some(Checked(id, Sanitize(c.reason)))) else Ended])
  }

  /** One step; an action that is not possible changes nothing. */
  ghost function Step(w: World, a: Action): World {
    match a
    case BeginStart(r, addr) => DoStart(w, r, addr)
    case AuditStart(t) => if t < |w.tasks| && w.tasks[t].Start? then DoAuditStart(w, t) else w
    case BeginFinish(id, raw) =>
      if id > 0 && NativeAt(w.db, id) then w.(tasks := w.tasks + [Finish(Checked(id, Sanitize(raw)))]) else w
    case BeginCleanup(raw, ids) =>
      if Lists(ids, ActiveNative(w.db))
      then w.(tasks := w.tasks + [Cleanup(Sanitize(raw), ids, 0, [], [], None)]) else w
    case CheckNext(t) =>
      if t < |w.tasks| && w.tasks[t].Cleanup? && w.tasks[t].next.None? && w.tasks[t].pos < |w.tasks[t].ids|
      then DoCheckNext(w, t) else w
    case Update(t) =>
      if t < |w.tasks| && CallOf(w.tasks[t]).Some? && CallOf(w.tasks[t]).value.Checked? then DoUpdate(w, t) else w
    case AuditFinish(t) =>
      if t < |w.tasks| && CallOf(w.tasks[t]).Some? && CallOf(w.tasks[t]).value.Updated? then DoAuditFinish(w, t) else w
    case Other(id, row) =>
      if MayWrite(w.db, id, row)
      then w.(db := w.db.(sessions := w.db.sessions[id := row],
                          nextId := if id == w.db.nextId then id + 1 else w.db.nextId))
      else w
  }

  ghost function Reach(w: World, actions: seq<Action>): World
    decreases |actions|
  {
    if actions == [] then w else Reach(Step(w, actions[0]), actions[1..])
  }

  lemma ReachTwo(w: World, a: Action, b: Action)
    ensures Reach(w, [a, b]) == Step(Step(w, a), b)
  {
    hide Step;
    assert [a, b][1..] == [b] && Reach(Step(w, a), [b]) == Step(Step(w, a), b);
  }

  lemma ReachThree(w: World, a: Action, b: Action, c: Action)
    ensures Reach(w, [a, b, c]) == Step(Step(Step(w, a), b), c)
  {
    hide Step;
    ReachTwo(Step(w, a), b, c);
    assert [a, b, c][1..] == [b, c];
  }

  /** StartSession, run alone, is its steps one after another. */
  lemma StartAlone(w: World, r: Resolved, remoteAddr: string)
    ensures Reach(w, [BeginStart(r, remoteAddr), AuditStart(|w.tasks|)]).db
            == AfterStart(w.db, r, remoteAddr, w.limit).0
  {
    hide Active;
    ReachTwo(w, BeginStart(r, remoteAddr), AuditStart(|w.tasks|));
  }

  /** A checked finish goes on to its end. */
  lemma FinishRest(w: World, t: nat, id: int, clean: string)
    requires t < |w.tasks| && w.tasks[t] == Finish(Checked(id, clean)) && NativeAt(w.db, id)
    ensures Step(Step(w, Update(t)), AuditFinish(t)).db
            == if w.db.sessions[id].isFinished then w.db
               else AddAudit(FinishOnce(w.db, id).0, AuditRow(FinishAction(clean), id, clean))
  {
    hide FinishAction, IsNative, AddAudit;
    var v := Step(w, Update(t));
    assert v == DoUpdate(w, t);
    if w.db.sessions[id].isFinished {
      assert v.tasks[t] == Ended;
    } else {
      assert v.tasks[t] == Finish(Updated(id, clean));
      assert Step(v, AuditFinish(t)) == DoAuditFinish(v, t);
    }
  }

  /** So is FinishSession. */
  lemma FinishAlone(w: World, id: int, raw: string)
    ensures Reach(w, [BeginFinish(id, raw), Update(|w.tasks|), AuditFinish(|w.tasks|)]).db
            == AfterFinish(w.db, id, raw).0
  {
    hide Sanitize, FinishAction, Reach;
    var n := |w.tasks|;
    ReachThree(w, BeginFinish(id, raw), Update(n), AuditFinish(n));
    if id > 0 && NativeAt(w.db, id) {
      var w1 := Step(w, BeginFinish(id, raw));
      assert w1 == w.(tasks := w.tasks + [Finish(Checked(id, Sanitize(raw)))]);
      FinishRest(w1, n, id, Sanitize(raw));
    }
  }

  // ---------------------------------------------------------------- counting audits

  datatype Kind = StartKind | FinishKind | DenialKind

  function KindOf(action: string): Kind {
    if action == START_ACTION then StartKind else if action == DENIED_ACTION then DenialKind else FinishKind
  }

  function Rows(audits: seq<AuditRow>, id: int, kind: Kind): nat {
    if audits == [] then 0
    else Rows(audits[..|audits| - 1], id, kind)
         + (var last := audits[|audits| - 1]; if last.sessionId == id && KindOf(last.action) == kind then 1 else 0)
  }

  lemma RowsAdd(audits: seq<AuditRow>, row: AuditRow, id: int, kind: Kind)
    ensures Rows(audits + [row], id, kind)
            == Rows(audits, id, kind) + (if row.sessionId == id && KindOf(row.action) == kind then 1 else 0)
  {
    assert (audits + [row])[..|audits|] == audits;
  }

  /** Audits of the kind a task still has to write for the session. */
  function Due(task: Task, id: int, kind: Kind): nat {
    if kind == StartKind then (if task.Start? && task.id == id then 1 else 0)
    else if kind == FinishKind then
      (if CallOf(task).Some? && CallOf(task).value.Updated? && CallOf(task).value.id == id then 1 else 0)
    else 0
  }

  function AllDue(tasks: seq<Task>, id: int, kind: Kind): nat {
    if tasks == [] then 0 else Due(tasks[0], id, kind) + AllDue(tasks[1..], id, kind)
  }

  lemma {:induction false} DueUpdate(tasks: seq<Task>, t: nat, x: Task, id: int, kind: Kind)
    requires t < |tasks|
    ensures AllDue(tasks[t := x], id, kind) == AllDue(tasks, id, kind) - Due(tasks[t], id, kind) + Due(x, id, kind)
  {
    hide Due;
    if t == 0 {
      assert tasks[0 := x][1..] == tasks[1..];
    } else {
      assert tasks[t := x][1..] == tasks[1..][t - 1 := x];
      DueUpdate(tasks[1..], t - 1, x, id, kind);
    }
  }

  lemma {:induction false} DueAdd(tasks: seq<Task>, x: Task, id: int, kind: Kind)
    ensures AllDue(tasks + [x], id, kind) == AllDue(tasks, id, kind) + Due(x, id, kind)
  {
    hide Due;
    if tasks == [] {
      assert tasks + [x] == [x] && [x][1..] == [];
    } else {
      assert (tasks + [x])[1..] == tasks[1..] + [x];
      DueAdd(tasks[1..], x, id, kind);
    }
  }

  // ---------------------------------------------------------------- the ledger of a session

  predicate FinishedAt(db: DB, id: int) { NativeAt(db, id) && db.sessions[id].isFinished }

  /** Written and due, a native session has one start audit, and one finish audit when it
      is finished; an id that is no native session has none. */
  ghost predicate Ledger(w: World, id: int) {
    && Rows(w.db.audits, id, StartKind) + AllDue(w.tasks, id, StartKind) == (if NativeAt(w.db, id) then 1 else 0)
    && Rows(w.db.audits, id, FinishKind) + AllDue(w.tasks, id, FinishKind) == (if FinishedAt(w.db, id) then 1 else 0)
  }

  /** Splitting a list in order: every element went to one of two lists. */
  ghost predicate Splits(ids: seq<int>, a: seq<int>, b: seq<int>) {
    if ids == [] then a == [] && b == []
    else
      var n := |ids| - 1;
      || (a != [] && a[|a| - 1] == ids[n] && Splits(ids[..n], a[..|a| - 1], b))
      || (b != [] && b[|b| - 1] == ids[n] && Splits(ids[..n], a, b[..|b| - 1]))
  }

  lemma {:induction false} SplitsHolds(ids: seq<int>, a: seq<int>, b: seq<int>)
    requires Splits(ids, a, b)
    ensures |ids| == |a| + |b| && forall id :: id in ids ==> id in a || id in b
    decreases |ids|
  {
    if ids != [] {
      var n := |ids| - 1;
      assert ids == ids[..n] + [ids[n]];
      if a != [] && a[|a| - 1] == ids[n] && Splits(ids[..n], a[..|a| - 1], b) {
        SplitsHolds(ids[..n], a[..|a| - 1], b);
      } else {
        SplitsHolds(ids[..n], a, b[..|b| - 1]);
      }
    }
  }

  lemma SplitsAdd(ids: seq<int>, a: seq<int>, b: seq<int>, id: int)
    requires Splits(ids, a, b)
    ensures Splits(ids + [id], a + [id], b) && Splits(ids + [id], a, b + [id])
  {
    assert (ids + [id])[..|ids|] == ids && (a + [id])[..|a|] == a && (b + [id])[..|b|] == b;
  }

  ghost predicate TaskOk(db: DB, task: Task) {
    && (task.Start? ==> NativeAt(db, task.id))
    && (CallOf(task).Some? ==> NativeAt(db, CallOf(task).value.id))
    && (CallOf(task).Some? && CallOf(task).value.Updated? ==> FinishedAt(db, CallOf(task).value.id))
    && (task.Cleanup? ==>
          && task.pos <= |task.ids| && Splits(task.ids[..task.pos], task.finished, task.skipped)
          && (forall id :: id in task.ids ==> NativeAt(db, id))
          && Sanitize(task.reason) == task.reason
          && (forall id :: id in task.finished ==> AuditRow(FinishAction(task.reason), id, task.reason) in db.audits)
          && (forall id :: id in task.finished || id in task.skipped ==> FinishedAt(db, id))
          && (task.next.Some? ==> task.pos < |task.ids| && task.next.value.id == task.ids[task.pos]
                                  && task.next.value.reason == task.reason))
  }

  ghost predicate Inv(w: World) {
    && Fresh(w.db)
    && |Active(w.db, "rdp", "rdp_client")| <= EffectiveLimit(w.limit)
    && (forall id :: id in w.db.sessions && w.db.sessions[id].loginFrom == "rdp_client" ==> IsNative(w.db.sessions[id]))
    && (forall id :: Ledger(w, id))
    && (forall t :: 0 <= t < |w.tasks| ==> TaskOk(w.db, w.tasks[t]))
  }

  // ---------------------------------------------------------------- what one step keeps

  /** Native rows stay where they are, finished ones as they are, and no audit is lost. */
  ghost predicate Grows(a: DB, b: DB) {
    && (forall id :: NativeAt(a, id) ==> NativeAt(b, id))
    && (forall id :: FinishedAt(a, id) ==> FinishedAt(b, id) && b.sessions[id] == a.sessions[id])
    && a.audits <= b.audits
  }

  lemma TaskStaysOk(a: DB, b: DB, task: Task)
    requires TaskOk(a, task) && Grows(a, b)
    ensures TaskOk(b, task)
  {
    hide Splits, Sanitize, FinishAction, NativeAt, FinishedAt;
    assert forall row :: row in a.audits ==> row in b.audits;
  }

  lemma TasksStayOk(w: World, v: World, t: int, x: Task)
    requires (forall i :: 0 <= i < |w.tasks| ==> TaskOk(w.db, w.tasks[i])) && Grows(w.db, v.db)
    requires v.tasks == w.tasks || (v.tasks == w.tasks + [x] && TaskOk(v.db, x))
             || (0 <= t < |w.tasks| && v.tasks == w.tasks[t := x] && TaskOk(v.db, x))
    ensures forall i :: 0 <= i < |v.tasks| ==> TaskOk(v.db, v.tasks[i])
  {
    hide TaskOk, Grows;
    forall i | 0 <= i < |w.tasks| ensures TaskOk(v.db, w.tasks[i]) {
      TaskStaysOk(w.db, v.db, w.tasks[i]);
    }
  }

  /** The ledger under one more audit row and one changed or added task. */
  lemma LedgerAudit(w: World, v: World, t: nat, x: Task, row: AuditRow, id: int)
    requires Ledger(w, id) && t < |w.tasks| && v.tasks == w.tasks[t := x] && v.db == AddAudit(w.db, row)
    requires forall kind :: Due(w.tasks[t], id, kind)
               == Due(x, id, kind) + (if row.sessionId == id && KindOf(row.action) == kind then 1 else 0)
    ensures Ledger(v, id)
  {
    hide Rows, AllDue, Due, KindOf;
    RowsAdd(w.db.audits, row, id, StartKind);
    RowsAdd(w.db.audits, row, id, FinishKind);
    DueUpdate(w.tasks, t, x, id, StartKind);
    DueUpdate(w.tasks, t, x, id, FinishKind);
  }

  lemma LedgerDenied(w: World, v: World, reason: string, id: int)
    requires Ledger(w, id) && v == w.(db := AddAudit(w.db, AuditRow(DENIED_ACTION, 0, reason)))
    ensures Ledger(v, id)
  {
    hide Rows, AllDue;
    RowsAdd(w.db.audits, AuditRow(DENIED_ACTION, 0, reason), id, StartKind);
    RowsAdd(w.db.audits, AuditRow(DENIED_ACTION, 0, reason), id, FinishKind);
  }

  lemma DeniedInv(w: World, reason: string)
    requires Inv(w)
    ensures Inv(w.(db := AddAudit(w.db, AuditRow(DENIED_ACTION, 0, reason))))
    ensures Grows(w.db, AddAudit(w.db, AuditRow(DENIED_ACTION, 0, reason)))
  {
    hide Ledger, TaskOk;
    var v := w.(db := AddAudit(w.db, AuditRow(DENIED_ACTION, 0, reason)));
    forall id ensures Ledger(v, id) {
      LedgerDenied(w, v, reason, id);
    }
    assert Active(v.db, "rdp", "rdp_client") == Active(w.db, "rdp", "rdp_client");
    TasksStayOk(w, v, 0, Ended);
  }

  lemma CreateRow(db: DB, row: Session, limit: int)
    requires Fresh(db) && IsNative(row) && !row.isFinished && |Active(db, "rdp", "rdp_client")| < EffectiveLimit(limit)
    ensures var (after, made) := CreateUnderLimit(db, row, limit);
            && made == Some(db.nextId) && Fresh(after) && Grows(db, after) && after.audits == db.audits
            && |Active(after, "rdp", "rdp_client")| <= EffectiveLimit(limit)
            && after.sessions == db.sessions[db.nextId := row] && db.nextId !in db.sessions
  {
    var (after, made) := CreateUnderLimit(db, row, limit);
    assert Active(after, "rdp", "rdp_client") == Active(db, "rdp", "rdp_client") + {db.nextId};
  }

  lemma LedgerCreated(w: World, v: World, row: Session, id: int)
    requires Ledger(w, id) && w.db.nextId !in w.db.sessions && IsNative(row) && !row.isFinished
    requires v.db.sessions == w.db.sessions[w.db.nextId := row] && v.db.audits == w.db.audits
    requires v.tasks == w.tasks + [Start(w.db.nextId)]
    ensures Ledger(v, id)
  {
    hide Rows, AllDue;
    DueAdd(w.tasks, Start(w.db.nextId), id, StartKind);
    DueAdd(w.tasks, Start(w.db.nextId), id, FinishKind);
  }

  lemma StartInv(w: World, r: Resolved, remoteAddr: string)
    requires Inv(w)
    ensures Inv(DoStart(w, r, remoteAddr)) && Grows(w.db, DoStart(w, r, remoteAddr).db)
  {
    hide Ledger, TaskOk, Grows, Active;
    if r.Denied? {
      DeniedInv(w, r.reason);
    } else if |Active(w.db, "rdp", "rdp_client")| < EffectiveLimit(w.limit) {
      var row := NativeRow(r, remoteAddr);
      var v := DoStart(w, r, remoteAddr);
      CreateRow(w.db, row, w.limit);
      forall id ensures Ledger(v, id) {
        LedgerCreated(w, v, row, id);
      }
      StartTaskOk(v.db, w.db.nextId);
      TasksStayOk(w, v, 0, Start(w.db.nextId));
    } else {
      DeniedInv(w, "max_connections");
    }
  }

  lemma StartTaskOk(db: DB, id: int)
    requires NativeAt(db, id)
    ensures TaskOk(db, Start(id)) && TaskOk(db, Ended)
  {
  }

  lemma AuditStartInv(w: World, t: nat)
    requires Inv(w) && t < |w.tasks| && w.tasks[t].Start?
    ensures Inv(DoAuditStart(w, t)) && Grows(w.db, DoAuditStart(w, t).db)
  {
    hide Ledger, TaskOk;
    var v := DoAuditStart(w, t);
    var row := AuditRow(START_ACTION, w.tasks[t].id, "started");
    forall id ensures Ledger(v, id) {
      LedgerAudit(w, v, t, Ended, row, id);
    }
    assert Active(v.db, "rdp", "rdp_client") == Active(w.db, "rdp", "rdp_client");
    EndedOk(v.db);
    TasksStayOk(w, v, t, Ended);
  }

  lemma EndedOk(db: DB)
    ensures TaskOk(db, Ended)
  {
  }

  /** Adding a task that owes no audit, without a change of the database. */
  lemma AddTaskInv(w: World, x: Task)
    requires Inv(w) && TaskOk(w.db, x) && forall id, kind :: Due(x, id, kind) == 0
    ensures Inv(w.(tasks := w.tasks + [x])) && Grows(w.db, w.db)
  {
    hide Rows, AllDue, Due, TaskOk;
    var v := w.(tasks := w.tasks + [x]);
    forall id ensures Ledger(v, id) {
      DueAdd(w.tasks, x, id, StartKind);
      DueAdd(w.tasks, x, id, FinishKind);
      assert Ledger(w, id);
    }
    TasksStayOk(w, v, 0, x);
  }

  /** Changing a task to one that owes the same audits, the database as it is. */
  lemma SetTaskInv(w: World, t: nat, x: Task)
    requires Inv(w) && t < |w.tasks| && TaskOk(w.db, x)
    requires forall id, kind :: Due(x, id, kind) == Due(w.tasks[t], id, kind)
    ensures Inv(w.(tasks := w.tasks[t := x])) && Grows(w.db, w.db)
  {
    hide Rows, AllDue, Due, TaskOk;
    var v := w.(tasks := w.tasks[t := x]);
    forall id ensures Ledger(v, id) {
      DueUpdate(w.tasks, t, x, id, StartKind);
      DueUpdate(w.tasks, t, x, id, FinishKind);
      assert Ledger(w, id);
    }
    TasksStayOk(w, v, t, x);
  }

  lemma BeginFinishInv(w: World, id: int, raw: string)
    requires Inv(w) && NativeAt(w.db, id)
    ensures Inv(w.(tasks := w.tasks + [Finish(Checked(id, Sanitize(raw)))])) && Grows(w.db, w.db)
  {
    hide Inv, Sanitize, Grows;
    AddTaskInv(w, Finish(Checked(id, Sanitize(raw))));
  }

  lemma BeginCleanupInv(w: World, raw: string, ids: seq<int>)
    requires Inv(w) && Lists(ids, ActiveNative(w.db))
    ensures Inv(w.(tasks := w.tasks + [Cleanup(Sanitize(raw), ids, 0, [], [], None)])) && Grows(w.db, w.db)
  {
    hide Inv, Sanitize, Grows;
    SanitizeIdempotent(raw);
    assert ids[..0] == [];
    AddTaskInv(w, Cleanup(Sanitize(raw), ids, 0, [], [], None));
  }

  lemma CheckNextInv(w: World, t: nat)
    requires Inv(w) && t < |w.tasks| && w.tasks[t].Cleanup? && w.tasks[t].next.None?
    requires w.tasks[t].pos < |w.tasks[t].ids|
    ensures Inv(DoCheckNext(w, t)) && Grows(w.db, DoCheckNext(w, t).db)
    ensures DoCheckNext(w, t).tasks[t] != Ended
  {
    hide Sanitize, Grows, Ledger, Splits, FinishAction;
    var c := w.tasks[t];
    var id := c.ids[c.pos];
    assert TaskOk(w.db, c) && id in c.ids;
    SetTaskInv(w, t, c.(next := Some(Checked(id, Sanitize(c.reason)))));
  }

  // ---- the update of a FinishSession call

  lemma FinishRow(db: DB, id: int)
    requires Fresh(db) && NativeAt(db, id) && !db.sessions[id].isFinished
    ensures var after := FinishOnce(db, id).0;
            && FinishOnce(db, id).1 && Fresh(after) && Grows(db, after) && after.audits == db.audits
            && Active(after, "rdp", "rdp_client") <= Active(db, "rdp", "rdp_client")
            && after.sessions == db.sessions[id := db.sessions[id].(isFinished := true)]
  {
  }

  lemma UpdatingTask(db: DB, task: Task)
    requires TaskOk(db, task) && CallOf(task).Some? && CallOf(task).value.Checked?
    requires FinishedAt(db, CallOf(task).value.id)
    ensures TaskOk(db, Updating(task))
  {
    hide Splits, Sanitize, FinishAction, NativeAt, FinishedAt;
  }

  lemma UpdatingOwes(task: Task)
    requires CallOf(task).Some? && CallOf(task).value.Checked?
    ensures forall id, kind :: Due(task, id, kind) == 0
    ensures forall id, kind :: Due(Updating(task), id, kind) ==
              if kind == FinishKind && id == CallOf(task).value.id then 1 else 0
  {
  }

  lemma LedgerFinished(w: World, v: World, t: nat, id: int)
    requires Ledger(w, id) && t < |w.tasks| && CallOf(w.tasks[t]).Some? && CallOf(w.tasks[t]).value.Checked?
    requires var i := CallOf(w.tasks[t]).value.id;
             && NativeAt(w.db, i) && !w.db.sessions[i].isFinished
             && v.db.sessions == w.db.sessions[i := w.db.sessions[i].(isFinished := true)]
    requires v.db.audits == w.db.audits && v.tasks == w.tasks[t := Updating(w.tasks[t])]
    requires forall kind :: Due(w.tasks[t], id, kind) == 0
    requires forall kind :: Due(Updating(w.tasks[t]), id, kind) ==
               if kind == FinishKind && id == CallOf(w.tasks[t]).value.id then 1 else 0
    ensures Ledger(v, id)
  {
    hide Rows, AllDue, Due, Updating;
    DueUpdate(w.tasks, t, Updating(w.tasks[t]), id, StartKind);
    DueUpdate(w.tasks, t, Updating(w.tasks[t]), id, FinishKind);
  }

  lemma UpdateHitInv(w: World, t: nat)
    requires Inv(w) && t < |w.tasks| && CallOf(w.tasks[t]).Some? && CallOf(w.tasks[t]).value.Checked?
    requires CallOf(w.tasks[t]).value.id in w.db.sessions && !w.db.sessions[CallOf(w.tasks[t]).value.id].isFinished
    ensures Inv(DoUpdate(w, t)) && Grows(w.db, DoUpdate(w, t).db)
  {
    hide Ledger, TaskOk, Grows, Active, Due, Updating, CallOf;
    var v := DoUpdate(w, t);
    var i := CallOf(w.tasks[t]).value.id;
    CallIsNative(w.db, w.tasks[t]);
    FinishRow(w.db, i);
    SubsetSize(Active(v.db, "rdp", "rdp_client"), Active(w.db, "rdp", "rdp_client"));
    UpdatingOwes(w.tasks[t]);
    forall id ensures Ledger(v, id) {
      LedgerFinished(w, v, t, id);
    }
    TaskStaysOk(w.db, v.db, w.tasks[t]);
    UpdatingTask(v.db, w.tasks[t]);
    TasksStayOk(w, v, t, Updating(w.tasks[t]));
  }

  lemma CallIsNative(db: DB, task: Task)
    requires TaskOk(db, task) && CallOf(task).Some?
    ensures NativeAt(db, CallOf(task).value.id)
  {
  }

  lemma UpdatedIsFinished(db: DB, task: Task)
    requires TaskOk(db, task) && CallOf(task).Some? && CallOf(task).value.Updated?
    ensures FinishedAt(db, CallOf(task).value.id)
  {
  }

  /** A FinishSession call that returns leaves its task in order. */
  lemma ReturnedTask(db: DB, task: Task, changed: bool)
    requires TaskOk(db, task) && CallOf(task).Some? && FinishedAt(db, CallOf(task).value.id)
    requires changed ==> AuditRow(FinishAction(CallOf(task).value.reason), CallOf(task).value.id,
                                  CallOf(task).value.reason) in db.audits
    ensures TaskOk(db, Returned(task, CallOf(task).value.id, changed))
    ensures forall id, kind :: Due(Returned(task, CallOf(task).value.id, changed), id, kind) == 0
  {
    hide TaskOk, FinishedAt, FinishAction;
    if task.Cleanup? {
      ReasonIsOwn(db, task);
      ReturnedCleanup(db, task, changed);
    } else {
      EndedOk(db);
    }
  }

  lemma ReturnedCleanup(db: DB, c: Task, changed: bool)
    requires TaskOk(db, c) && c.Cleanup? && c.next.Some? && FinishedAt(db, c.next.value.id)
    requires changed ==> AuditRow(FinishAction(c.reason), c.next.value.id, c.reason) in db.audits
    ensures TaskOk(db, Returned(c, c.next.value.id, changed))
  {
    hide Splits, Sanitize, FinishAction, NativeAt, FinishedAt;
    var id := c.ids[c.pos];
    assert c.ids[..c.pos + 1] == c.ids[..c.pos] + [id];
    SplitsAdd(c.ids[..c.pos], c.finished, c.skipped, id);
    var d := Returned(c, id, changed);
    assert d.finished == (if changed then c.finished + [id] else c.finished);
    assert d.skipped == (if changed then c.skipped else c.skipped + [id]);
  }

  lemma ReasonIsOwn(db: DB, task: Task)
    requires TaskOk(db, task) && task.Cleanup? && task.next.Some?
    ensures task.next.value.reason == task.reason
  {
  }

  lemma CheckedOwesNothing(task: Task)
    requires CallOf(task).Some? && CallOf(task).value.Checked?
    ensures forall id, kind :: Due(task, id, kind) == 0
  {
  }

  lemma UpdateMissInv(w: World, t: nat)
    requires Inv(w) && t < |w.tasks| && CallOf(w.tasks[t]).Some? && CallOf(w.tasks[t]).value.Checked?
    requires CallOf(w.tasks[t]).value.id in w.db.sessions ==> w.db.sessions[CallOf(w.tasks[t]).value.id].isFinished
    ensures Inv(DoUpdate(w, t)) && Grows(w.db, DoUpdate(w, t).db)
  {
    hide Ledger, TaskOk, Grows, Due, Returned, CallOf;
    var id := CallOf(w.tasks[t]).value.id;
    assert TaskOk(w.db, w.tasks[t]);
    CallIsNative(w.db, w.tasks[t]);
    ReturnedTask(w.db, w.tasks[t], false);
    CheckedOwesNothing(w.tasks[t]);
    SetTaskInv(w, t, Returned(w.tasks[t], id, false));
  }

  // ---- the audit of a FinishSession call

  lemma FinishRowKind(reason: string)
    ensures KindOf(FinishAction(reason)) == FinishKind
  {
    hide FinishAction;
    FinishActionIsNeitherStartNorDenial(reason);
  }

  lemma AuditFinishInv(w: World, t: nat)
    requires Inv(w) && t < |w.tasks| && CallOf(w.tasks[t]).Some? && CallOf(w.tasks[t]).value.Updated?
    ensures Inv(DoAuditFinish(w, t)) && Grows(w.db, DoAuditFinish(w, t).db)
  {
    hide Ledger, TaskOk, FinishAction, KindOf, Returned;
    var v := DoAuditFinish(w, t);
    var call := CallOf(w.tasks[t]).value;
    var row := AuditRow(FinishAction(call.reason), call.id, call.reason);
    var x := Returned(w.tasks[t], call.id, true);
    TaskStaysOk(w.db, v.db, w.tasks[t]);
    UpdatedIsFinished(v.db, w.tasks[t]);
    ReturnedTask(v.db, w.tasks[t], true);
    FinishRowKind(call.reason);
    forall id ensures Ledger(v, id) {
      LedgerAudit(w, v, t, x, row, id);
    }
    assert Active(v.db, "rdp", "rdp_client") == Active(w.db, "rdp", "rdp_client");
    TasksStayOk(w, v, t, x);
  }

  // ---- rows of other services

  lemma OtherInv(w: World, id: int, row: Session)
    requires Inv(w) && MayWrite(w.db, id, row)
    ensures Inv(Step(w, Other(id, row))) && Grows(w.db, Step(w, Other(id, row)).db)
  {
    hide Rows, AllDue, TaskOk;
    var v := Step(w, Other(id, row));
    assert Active(v.db, "rdp", "rdp_client") == Active(w.db, "rdp", "rdp_client");
    forall i ensures Ledger(v, i) {
      assert Ledger(w, i);
    }
    TasksStayOk(w, v, 0, Ended);
  }

  // ---------------------------------------------------------------- all runs

  lemma StepInv(w: World, a: Action)
    requires Inv(w)
    ensures Inv(Step(w, a)) && Grows(w.db, Step(w, a).db) && Step(w, a).limit == w.limit
  {
    hide Inv, Grows, DoStart, DoUpdate, DoAuditStart, DoAuditFinish, DoCheckNext, Sanitize, CallOf;
    LimitKept(w, a);
    Same(w.db);
    match a
    case BeginStart(r, addr) => StartInv(w, r, addr);
    case AuditStart(t) => if t < |w.tasks| && w.tasks[t].Start? { AuditStartInv(w, t); }
    case BeginFinish(id, raw) => if id > 0 && NativeAt(w.db, id) { BeginFinishInv(w, id, raw); }
    case BeginCleanup(raw, ids) => if Lists(ids, ActiveNative(w.db)) { BeginCleanupInv(w, raw, ids); }
    case CheckNext(t) =>
      if t < |w.tasks| && w.tasks[t].Cleanup? && w.tasks[t].next.None? && w.tasks[t].pos < |w.tasks[t].ids| {
        CheckNextInv(w, t);
      }
    case Update(t) =>
      if t < |w.tasks| && CallOf(w.tasks[t]).Some? && CallOf(w.tasks[t]).value.Checked? {
        var id := CallOf(w.tasks[t]).value.id;
        if id in w.db.sessions && !w.db.sessions[id].isFinished {
          UpdateHitInv(w, t);
        } else {
          UpdateMissInv(w, t);
        }
      }
    case AuditFinish(t) =>
      if t < |w.tasks| && CallOf(w.tasks[t]).Some? && CallOf(w.tasks[t]).value.Updated? { AuditFinishInv(w, t); }
    case Other(id, row) => if MayWrite(w.db, id, row) { OtherInv(w, id, row); }
  }

  lemma Same(db: DB)
    ensures Grows(db, db)
  {
  }

  lemma LimitKept(w: World, a: Action)
    ensures Step(w, a).limit == w.limit
  {
    hide Sanitize, Updating, Returned, FinishAction;
  }

  lemma {:induction false} ReachInv(w: World, actions: seq<Action>)
    requires Inv(w)
    ensures Inv(Reach(w, actions)) && Grows(w.db, Reach(w, actions).db) && Reach(w, actions).limit == w.limit
    decreases |actions|
  {
    hide Inv, Grows, Step;
    Same(w.db);
    if actions != [] {
      StepInv(w, actions[0]);
      ReachInv(Step(w, actions[0]), actions[1..]);
      GrowsOn(w.db, Step(w, actions[0]).db, Reach(w, actions).db);
    }
  }

  lemma GrowsOn(a: DB, b: DB, c: DB)
    requires Grows(a, b) && Grows(b, c)
    ensures Grows(a, c)
  {
    hide NativeAt, FinishedAt;
  }

  lemma StartInvariant(limit: int)
    ensures Inv(World(EMPTY, [], limit))
  {
  }

  lemma UnfinishedAreActive(db: DB)
    requires forall id :: id in db.sessions && db.sessions[id].loginFrom == "rdp_client" ==> IsNative(db.sessions[id])
    ensures (set id | id in db.sessions && db.sessions[id].loginFrom == "rdp_client" && !db.sessions[id].isFinished)
            == Active(db, "rdp", "rdp_client")
  {
    forall id
      ensures id in db.sessions && db.sessions[id].loginFrom == "rdp_client" && !db.sessions[id].isFinished
              <==> id in Active(db, "rdp", "rdp_client")
    {
      if id in db.sessions && db.sessions[id].loginFrom == "rdp_client" {
        assert IsNative(db.sessions[id]);
      }
    }
  }

  /** In every run active native sessions never exceed the limit; a session has at most one
      start audit and one finish audit, and exactly one of each, for a finished session, when
      no start or finish is in progress, those of cleanups included; an unfinished session has
      no finish audit. */
  lemma SessionsStayWithinLimit(limit: int, actions: seq<Action>)
    ensures var w := Reach(World(EMPTY, [], limit), actions);
            && |set id | id in w.db.sessions && w.db.sessions[id].loginFrom == "rdp_client"
                         && !w.db.sessions[id].isFinished| <= (if limit <= 0 then 1 else limit)
            && (forall id :: Rows(w.db.audits, id, StartKind) <= 1 && Rows(w.db.audits, id, FinishKind) <= 1)
            && (forall id :: !FinishedAt(w.db, id) ==> Rows(w.db.audits, id, FinishKind) == 0)
            && ((forall t :: 0 <= t < |w.tasks| ==> Idle(w.tasks[t])) ==>
                  forall id :: NativeAt(w.db, id) ==>
                    Rows(w.db.audits, id, StartKind) == 1
                    && Rows(w.db.audits, id, FinishKind) == (if FinishedAt(w.db, id) then 1 else 0))
  {
    hide Rows, Step;
    StartInvariant(limit);
    ReachInv(World(EMPTY, [], limit), actions);
    var w := Reach(World(EMPTY, [], limit), actions);
    UnfinishedAreActive(w.db);
    forall id ensures Rows(w.db.audits, id, StartKind) <= 1 && Rows(w.db.audits, id, FinishKind) <= 1
                      && (!FinishedAt(w.db, id) ==> Rows(w.db.audits, id, FinishKind) == 0) {
      assert Ledger(w, id);
    }
    if forall t :: 0 <= t < |w.tasks| ==> Idle(w.tasks[t]) {
      forall id | NativeAt(w.db, id)
        ensures Rows(w.db.audits, id, StartKind) == 1
                && Rows(w.db.audits, id, FinishKind) == (if FinishedAt(w.db, id) then 1 else 0)
      {
        assert Ledger(w, id);
        NothingDue(w.tasks, id);
      }
    }
  }

  /** No audit of a start or a finish is about to be written by the task: its call returned,
      or it is a cleanup that returned or is between two of its sessions. */
  predicate Idle(task: Task) {
    task == Ended || (task.Cleanup? && task.next.None?)
  }

  lemma {:induction false} NothingDue(tasks: seq<Task>, id: int)
    requires forall t :: 0 <= t < |tasks| ==> Idle(tasks[t])
    ensures AllDue(tasks, id, StartKind) == 0 && AllDue(tasks, id, FinishKind) == 0
  {
    if tasks != [] {
      NothingDue(tasks[1..], id);
    }
  }

  /** A finished native session stays as it is in every continuation of every run. */
  lemma FinishedStaysFinished(limit: int, before: seq<Action>, after: seq<Action>, id: int)
    requires FinishedAt(Reach(World(EMPTY, [], limit), before).db, id)
    ensures var w := Reach(World(EMPTY, [], limit), before); var v := Reach(w, after);
            FinishedAt(v.db, id) && v.db.sessions[id] == w.db.sessions[id]
  {
    hide Inv, Step;
    StartInvariant(limit);
    ReachInv(World(EMPTY, [], limit), before);
    ReachInv(Reach(World(EMPTY, [], limit), before), after);
  }

  lemma {:induction false} ReachSnoc(w: World, actions: seq<Action>, a: Action)
    ensures Reach(w, actions + [a]) == Step(Reach(w, actions), a)
    decreases |actions|
  {
    hide Step;
    if actions == [] {
      assert actions + [a] == [a] && [a][1..] == [];
    } else {
      assert (actions + [a])[1..] == actions[1..] + [a];
      ReachSnoc(Step(w, actions[0]), actions[1..], a);
    }
  }

  /** The cleanup was called by action k, and its ids are the native sessions active then. */
  ghost predicate BeganAt(limit: int, actions: seq<Action>, k: int, c: Task) {
    && 0 <= k < |actions| && c.Cleanup? && actions[k].BeginCleanup? && actions[k].ids == c.ids
    && c.reason == Sanitize(actions[k].raw)
    && Lists(c.ids, ActiveNative(Reach(World(EMPTY, [], limit), actions[..k]).db))
  }

  /** A cleanup in progress began with this action, or was in progress with the same snapshot. */
  lemma CleanupCarriedOn(w: World, a: Action, t: nat)
    requires t < |Step(w, a).tasks| && Step(w, a).tasks[t].Cleanup?
    ensures var c := Step(w, a).tasks[t];
            || (t < |w.tasks| && w.tasks[t].Cleanup? && w.tasks[t].ids == c.ids && w.tasks[t].reason == c.reason)
            || (a.BeginCleanup? && a.ids == c.ids && c.reason == Sanitize(a.raw) && Lists(c.ids, ActiveNative(w.db)))
  {
    hide Sanitize, Lists, ActiveNative, CreateUnderLimit, FinishOnce, AddAudit, MayWrite, FinishAction;
  }

  lemma {:induction false} CleanupBegan(limit: int, actions: seq<Action>, t: nat) returns (k: int)
    requires var w := Reach(World(EMPTY, [], limit), actions); t < |w.tasks| && w.tasks[t].Cleanup?
    ensures BeganAt(limit, actions, k, Reach(World(EMPTY, [], limit), actions).tasks[t])
    decreases |actions|
  {
    hide Step, Lists, ActiveNative, Sanitize;
    var n := |actions| - 1;
    var start := World(EMPTY, [], limit);
    assert actions != [] by { assert Reach(start, []).tasks == []; }
    var before, a := actions[..n], actions[n];
    assert before + [a] == actions;
    ReachSnoc(start, before, a);
    hide Reach;
    var w := Reach(start, before);
    CleanupCarriedOn(w, a, t);
    if t < |w.tasks| && w.tasks[t].Cleanup? && w.tasks[t].ids == Step(w, a).tasks[t].ids
       && w.tasks[t].reason == Step(w, a).tasks[t].reason {
      k := CleanupBegan(limit, before, t);
      assert before[..k] == actions[..k];
    } else {
      k := n;
    }
  }

  /** In every run, a cleanup's ids are the native sessions that were active when it was
      called; what it has handled of them is split in order into finished and skipped; all of
      it is finished, and every id it reports finished was audited with the reason it reports. */
  lemma CleanupReportsTruly(limit: int, actions: seq<Action>, t: nat)
    requires var w := Reach(World(EMPTY, [], limit), actions); t < |w.tasks| && w.tasks[t].Cleanup?
    ensures var w := Reach(World(EMPTY, [], limit), actions); var c := w.tasks[t];
            && (exists k :: BeganAt(limit, actions, k, c))
            && c.pos <= |c.ids| && Splits(c.ids[..c.pos], c.finished, c.skipped)
            && (forall id :: id in c.ids[..c.pos] ==> FinishedAt(w.db, id))
            && forall id :: id in c.finished ==> AuditRow(FinishAction(c.reason), id, c.reason) in w.db.audits
  {
    hide Splits, Sanitize, FinishAction, Step, Ledger, FinishedAt, BeganAt, Reach;
    StartInvariant(limit);
    ReachInv(World(EMPTY, [], limit), actions);
    var w := Reach(World(EMPTY, [], limit), actions);
    var c := w.tasks[t];
    var k := CleanupBegan(limit, actions, t);
    assert TaskOk(w.db, c);
    SplitsHolds(c.ids[..c.pos], c.finished, c.skipped);
  }

  /** In every run, whatever a cleanup for a shutdown of the proxy reports finished has been
      audited as that. */
  lemma ShutdownAudited(limit: int, actions: seq<Action>, t: nat, k: int)
    requires var w := Reach(World(EMPTY, [], limit), actions);
             t < |w.tasks| && w.tasks[t].Cleanup? && BeganAt(limit, actions, k, w.tasks[t])
    requires actions[k].raw == " Proxy_Shutdown "
    ensures var w := Reach(World(EMPTY, [], limit), actions);
            forall id :: id in w.tasks[t].finished ==>
              AuditRow("rdp.native.proxy_shutdown", id, "proxy_shutdown") in w.db.audits
  {
    hide Reach, Lists, FinishAction, Sanitize;
    CleanupReportsTruly(limit, actions, t);
    ShutdownReason();
  }

  // ---------------------------------------------------------------- a cleanup with nothing in between

  /** After one session of a cleanup. */
  function OneCleaned(w: World, t: nat): World
    requires t < |w.tasks| && w.tasks[t].Cleanup? && w.tasks[t].pos < |w.tasks[t].ids|
  {
    var c := w.tasks[t];
    var id := c.ids[c.pos];
    w.(db := AddAudit(FinishOnce(w.db, id).0, AuditRow(FinishAction(c.reason), id, c.reason)),
       tasks := w.tasks[t := Cleanup(c.reason, c.ids, c.pos + 1, c.finished + [id], c.skipped, None)])
  }

  /** One session of a cleanup: looked up, updated, audited. */
  lemma CleansOne(w: World, t: nat)
    requires t < |w.tasks| && w.tasks[t].Cleanup? && w.tasks[t].next.None? && w.tasks[t].pos < |w.tasks[t].ids|
    requires var c := w.tasks[t]; var id := c.ids[c.pos];
             Sanitize(c.reason) == c.reason && NativeAt(w.db, id) && !w.db.sessions[id].isFinished
    ensures Reach(w, [CheckNext(t), Update(t), AuditFinish(t)]) == OneCleaned(w, t)
  {
    hide Sanitize, FinishAction, IsNative, AddAudit, Reach;
    var c := w.tasks[t];
    var id := c.ids[c.pos];
    ReachThree(w, CheckNext(t), Update(t), AuditFinish(t));
    var w1 := Step(w, CheckNext(t));
    assert w1 == w.(tasks := w.tasks[t := c.(next := Some(Checked(id, c.reason)))]);
    var w2 := Step(w1, Update(t));
    assert w2 == w.(db := FinishOnce(w.db, id).0, tasks := w.tasks[t := c.(next := Some(Updated(id, c.reason)))]);
    assert Step(w2, AuditFinish(t)) == DoAuditFinish(w2, t);
  }

  /** The steps of a cleanup for n sessions. */
  function CleanupSteps(t: nat, n: nat): seq<Action> {
    if n == 0 then [] else [CheckNext(t), Update(t), AuditFinish(t)] + CleanupSteps(t, n - 1)
  }

  /** The sessions of the list are finished and audited in its order; nothing else changes. */
  ghost predicate AllCleaned(a: DB, b: DB, ids: seq<int>, reason: string) {
    && b.nextId == a.nextId && b.sessions.Keys == a.sessions.Keys
    && (forall id :: id in a.sessions ==>
          b.sessions[id] == if id in ids then a.sessions[id].(isFinished := true) else a.sessions[id])
    && |b.audits| == |a.audits| + |ids| && a.audits <= b.audits
    && forall i :: 0 <= i < |ids| ==> b.audits[|a.audits| + i] == AuditRow(FinishAction(reason), ids[i], reason)
  }

  lemma CleanedCons(a: DB, b: DB, id: int, ids: seq<int>, reason: string)
    requires id in a.sessions && !a.sessions[id].isFinished
    requires AllCleaned(AddAudit(FinishOnce(a, id).0, AuditRow(FinishAction(reason), id, reason)), b, ids, reason)
    ensures AllCleaned(a, b, [id] + ids, reason)
  {
    hide FinishAction;
    var m := AddAudit(FinishOnce(a, id).0, AuditRow(FinishAction(reason), id, reason));
    assert m.audits[|a.audits|] == b.audits[|a.audits|];
    assert forall i :: 0 < i < |[id] + ids| ==> ([id] + ids)[i] == ids[i - 1];
  }

  lemma {:induction false} ReachConcat(w: World, a: seq<Action>, b: seq<Action>)
    ensures Reach(w, a + b) == Reach(Reach(w, a), b)
    decreases |a|
  {
    hide Step;
    if a == [] {
      assert a + b == b;
    } else {
      assert (a + b)[1..] == a[1..] + b;
      ReachConcat(Step(w, a[0]), a[1..], b);
    }
  }

  /** A cleanup between two sessions, with those it has still to do, none of them finished. */
  ghost predicate Cleaning(w: World, t: nat, rest: seq<int>) {
    && t < |w.tasks| && w.tasks[t].Cleanup? && w.tasks[t].next.None? && w.tasks[t].pos <= |w.tasks[t].ids|
    && rest == w.tasks[t].ids[w.tasks[t].pos..] && Ascending(rest)
    && Sanitize(w.tasks[t].reason) == w.tasks[t].reason
    && forall id :: id in rest ==> NativeAt(w.db, id) && !w.db.sessions[id].isFinished
  }

  lemma CleaningOn(w: World, t: nat, rest: seq<int>)
    requires Cleaning(w, t, rest) && rest != []
    ensures Cleaning(OneCleaned(w, t), t, rest[1..])
  {
    hide Sanitize, FinishAction, IsNative;
    var c, v := w.tasks[t], OneCleaned(w, t);
    assert rest[0] == c.ids[c.pos] && c.ids[c.pos + 1..] == rest[1..];
    forall x | x in rest[1..] ensures NativeAt(v.db, x) && !v.db.sessions[x].isFinished {
      assert x in rest && x != rest[0];
    }
  }

  lemma {:induction false} CleansRest(w: World, t: nat, rest: seq<int>)
    requires Cleaning(w, t, rest)
    ensures var c := w.tasks[t]; var v := Reach(w, CleanupSteps(t, |rest|));
            && AllCleaned(w.db, v.db, rest, c.reason)
            && v.tasks == w.tasks[t := Cleanup(c.reason, c.ids, |c.ids|, c.finished + rest, c.skipped, None)]
    decreases |rest|
  {
    hide Sanitize, FinishAction, Step, AllCleaned, IsNative;
    var c := w.tasks[t];
    if rest == [] {
      NothingCleaned(w.db, c.reason);
      assert c.finished + rest == c.finished && c.ids[..|c.ids|] == c.ids;
    } else {
      CleansOne(w, t);
      ReachConcat(w, [CheckNext(t), Update(t), AuditFinish(t)], CleanupSteps(t, |rest| - 1));
      CleaningOn(w, t, rest);
      hide *;
      CleansRest(OneCleaned(w, t), t, rest[1..]);
      CleanedBefore(w, t, rest, Reach(OneCleaned(w, t), CleanupSteps(t, |rest| - 1)));
    }
  }

  lemma CleanedBefore(w: World, t: nat, rest: seq<int>, v: World)
    requires Cleaning(w, t, rest) && rest != [] && AllCleaned(OneCleaned(w, t).db, v.db, rest[1..], w.tasks[t].reason)
    requires var c := OneCleaned(w, t).tasks[t];
             v.tasks == OneCleaned(w, t).tasks[t := Cleanup(c.reason, c.ids, |c.ids|, c.finished + rest[1..],
                                                            c.skipped, None)]
    ensures var c := w.tasks[t];
            && AllCleaned(w.db, v.db, rest, c.reason)
            && v.tasks == w.tasks[t := Cleanup(c.reason, c.ids, |c.ids|, c.finished + rest, c.skipped, None)]
  {
    hide Sanitize, FinishAction, AllCleaned, IsNative, FinishOnce, AddAudit;
    var c, id := w.tasks[t], rest[0];
    assert id == c.ids[c.pos] && id in rest;
    assert [id] + rest[1..] == rest && c.finished + [id] + rest[1..] == c.finished + rest;
    hide Ascending;
    CleanedCons(w.db, v.db, id, rest[1..], c.reason);
  }

  lemma NothingCleaned(db: DB, reason: string)
    ensures AllCleaned(db, db, [], reason)
  {
  }

  /** A cleanup, run alone, is its steps one after another: it finishes and audits every native
      session that is active, in order, with the sanitized reason, and skips none. */
  lemma CleanupAlone(w: World, raw: string, ids: seq<int>)
    requires Lists(ids, ActiveNative(w.db))
    ensures var t := |w.tasks|; var v := Reach(w, [BeginCleanup(raw, ids)] + CleanupSteps(t, |ids|));
            && AllCleaned(w.db, v.db, ids, Sanitize(raw))
            && v.tasks == w.tasks + [Cleanup(Sanitize(raw), ids, |ids|, ids, [], None)]
  {
    hide Sanitize, FinishAction, Reach, AllCleaned, CleanupSteps;
    SanitizeIdempotent(raw);
    var t := |w.tasks|;
    var u := Step(w, BeginCleanup(raw, ids));
    var c := Cleanup(Sanitize(raw), ids, 0, [], [], None);
    assert u == w.(tasks := w.tasks + [c]) && u.tasks[t] == c && ids[0..] == ids;
    ReachConcat(w, [BeginCleanup(raw, ids)], CleanupSteps(t, |ids|));
    ReachOne(w, BeginCleanup(raw, ids));
    hide Step;
    CleansRest(u, t, ids);
    assert [] + ids == ids;
  }

  lemma ReachOne(w: World, a: Action)
    ensures Reach(w, [a]) == Step(w, a)
  {
    hide Step;
    assert [a][1..] == [] && Reach(Step(w, a), []) == Step(w, a);
  }

  /** No step of this service touches a row that is not native. */
  lemma OtherRowsLeftAlone(limit: int, actions: seq<Action>, a: Action, id: int)
    requires !a.Other?
    requires var w := Reach(World(EMPTY, [], limit), actions);
             id in w.db.sessions && w.db.sessions[id].loginFrom != "rdp_client"
    ensures var w := Reach(World(EMPTY, [], limit), actions); var v := Step(w, a);
            id in v.db.sessions && v.db.sessions[id] == w.db.sessions[id]
  {
    hide Splits, Sanitize, FinishAction, Ledger, Active;
    StartInvariant(limit);
    ReachInv(World(EMPTY, [], limit), actions);
    var w := Reach(World(EMPTY, [], limit), actions);
    if a.Update? && a.t < |w.tasks| {
      assert TaskOk(w.db, w.tasks[a.t]);
    }
  }
}
