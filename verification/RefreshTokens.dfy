/** Refresh-token rotation: the statements on the table, one caller, and all interleavings. */
module RefreshTokens {
  import opened Options
  import opened Sets

  type Id = int

  /** A row of refresh_tokens; `login` numbers the login its rotation chain started with. */
  datatype Token = Token(userId: int, isRevoked: bool, login: nat)

  /** The table and the id the next NewRefreshToken draws, which no row has. */
  datatype Table = Table(rows: map<Id, Token>, nextId: Id)

  predicate Fresh(t: Table) { forall id :: id in t.rows ==> id < t.nextId }

  function Insert(t: Table, row: Token): Table { Table(t.rows[t.nextId := row], t.nextId + 1) }

  /** UPDATE ... WHERE id = ? AND revoked_at IS NULL; false when no row was affected. */
  function Revoke(t: Table, id: Id): (Table, bool) {
    if id in t.rows && !t.rows[id].isRevoked then
      (t.(rows := t.rows[id := t.rows[id].(isRevoked := true)]), true)
    else (t, false)
  }

  /** UPDATE ... WHERE user_id = ? AND revoked_at IS NULL. */
  function RevokeUser(t: Table, userId: int): Table {
    t.(rows := map id | id in t.rows ::
         if t.rows[id].userId == userId then t.rows[id].(isRevoked := true) else t.rows[id])
  }

  /** What a refresh of an unrevoked, unexpired row leaves: the row revoked and, for a user
      who may still log in, one more row. */
  function Rotated(t: Table, id: Id, userUsable: bool): Table
    requires id in t.rows
  {
    var revoked := Revoke(t, id).0;
    if userUsable then Insert(revoked, Token(t.rows[id].userId, false, t.rows[id].login)) else revoked
  }

  /** A refresh of row `id`: it is revoked, the other rows stay, and with a next id there is one
      new row, unrevoked, of the same user and login. */
  ghost predicate Rotates(a: Table, b: Table, id: Id, next: Option<Id>) {
    && id in a.rows && id in b.rows && b.rows[id] == Token(a.rows[id].userId, true, a.rows[id].login)
    && (forall k :: k in a.rows && k != id ==> k in b.rows && b.rows[k] == a.rows[k])
    && (forall k :: k in b.rows && k !in a.rows ==> next == Some(k))
    && (next.Some? ==> next.value !in a.rows && next.value in b.rows
                       && b.rows[next.value] == Token(a.rows[id].userId, false, a.rows[id].login))
  }

  /** A logout: no row comes or goes, the user's rows are revoked, the others are as before. */
  ghost predicate LoggedOutRows(a: Table, b: Table, userId: int) {
    && b.nextId == a.nextId && b.rows.Keys == a.rows.Keys
    && forall id :: id in a.rows ==>
         b.rows[id] == Token(a.rows[id].userId, a.rows[id].userId == userId || a.rows[id].isRevoked, a.rows[id].login)
  }

  // ---------------------------------------------------------------- one caller

  class AuthService {
    var table: Table
    var logins: nat

    constructor ()
      ensures table == Table(map[], 1) && logins == 0
    {
      table, logins := Table(map[], 1), 0;
    }

    method IssueTokens(userId: int, login: nat) returns (id: Id)
      modifies this`table
      ensures id == old(table).nextId && table == Insert(old(table), Token(userId, false, login))
      ensures table.rows == old(table).rows[id := Token(userId, false, login)] && table.nextId == id + 1
    {
      id := table.nextId;
      table := Table(table.rows[id := Token(userId, false, login)], id + 1);
    }

    /** A login whose checks passed. */
    method Login(userId: int) returns (id: Id)
      modifies this
      ensures id == old(table).nextId && logins == old(logins) + 1
      ensures table == Insert(old(table), Token(userId, false, old(logins)))
      ensures table.rows == old(table).rows[id := Token(userId, false, old(logins))] && table.nextId == id + 1
    {
      id := IssueTokens(userId, logins);
      logins := logins + 1;
    }

    /** Refresh with the stored row's id, or None when the hash matches no row. */
    method Refresh(stored: Option<Id>, expired: bool, userUsable: bool) returns (id: Option<Id>)
      requires stored.Some? ==> stored.value in table.rows
      requires Fresh(table)
      modifies this`table
      ensures Fresh(table)
      ensures stored.None? || expired || old(table).rows[stored.value].isRevoked ==> id.None? && table == old(table)
      ensures stored.Some? && !expired && !old(table).rows[stored.value].isRevoked ==>
                && table == Rotated(old(table), stored.value, userUsable)
                && id == (if userUsable then Some(old(table).nextId) else None)
                && Rotates(old(table), table, stored.value, id)
    {
      if stored.None? || table.rows[stored.value].isRevoked || expired {
        return None;
      }
      var row := table.rows[stored.value];
      var ok := RevokeRefreshToken(stored.value);
      if !ok || !userUsable {
        return None;
      }
      var next := IssueTokens(row.userId, row.login);
      return Some(next);
    }

    method RevokeRefreshToken(id: Id) returns (ok: bool)
      modifies this`table
      ensures (table, ok) == Revoke(old(table), id)
      ensures ok <==> id in old(table).rows && !old(table).rows[id].isRevoked
      ensures !ok ==> table == old(table)
      ensures ok ==> table.nextId == old(table).nextId
                     && table.rows == old(table).rows[id := old(table).rows[id].(isRevoked := true)]
    {
      ok := id in table.rows && !table.rows[id].isRevoked;
      if ok {
        table := table.(rows := table.rows[id := table.rows[id].(isRevoked := true)]);
      }
    }

    method Logout(userId: int)
      modifies this`table
      ensures table == RevokeUser(old(table), userId)
      ensures LoggedOutRows(old(table), table, userId)
    {
      table := table.(rows := map id | id in table.rows ::
                        if table.rows[id].userId == userId then table.rows[id].(isRevoked := true) else table.rows[id]);
    }
  }

  // ---------------------------------------------------------------- concurrent callers

  datatype Task =
    | Issuing(userId: int)     // a login whose checks passed, before its INSERT
    | Seen(id: Id)             // a refresh that read an unrevoked, unexpired row
    | Rotating(id: Id)         // a refresh past its revoke step, before its INSERT
    | Ended

  /** `parent` records which token a refresh turned into which. */
  datatype World = World(table: Table, logins: nat, tasks: seq<Task>, parent: map<Id, Id>)

  const START := World(Table(map[], 1), 0, [], map[])

  datatype Action =
    | BeginLogin(userId: int)
    | InsertLogin(t: nat)
    | BeginRefresh(id: Id)
    | RevokeStep(t: nat)
    | InsertRefresh(t: nat)
    | Fail(t: nat)             // an error, or an inactive user, ends the call
    | Logout(userId: int)

  function DoInsertLogin(w: World, t: nat): World
    requires t < |w.tasks| && w.tasks[t].Issuing?
  {
    w.(table := Insert(w.table, Token(w.tasks[t].userId, false, w.logins)),
       logins := w.logins + 1, tasks := w.tasks[t := Ended])
  }

  function DoRevoke(w: World, t: nat): World
    requires t < |w.tasks| && w.tasks[t].Seen?
  {
    var (table, ok) := Revoke(w.table, w.tasks[t].id);
    w.(table := table, tasks := w.tasks[t := if ok then Rotating(w.tasks[t].id) else Ended])
  }

  function DoInsertRefresh(w: World, t: nat): World
    requires t < |w.tasks| && w.tasks[t].Rotating? && w.tasks[t].id in w.table.rows
  {
    var row := w.table.rows[w.tasks[t].id];
    w.(table := Insert(w.table, Token(row.userId, false, row.login)),
       parent := w.parent[w.table.nextId := w.tasks[t].id], tasks := w.tasks[t := Ended])
  }

  /** One step; an action that is not possible changes nothing. */
  function Step(w: World, a: Action): World {
    match a
    case BeginLogin(userId) => w.(tasks := w.tasks + [Issuing(userId)])
    case InsertLogin(t) => if t < |w.tasks| && w.tasks[t].Issuing? then DoInsertLogin(w, t) else w
    case BeginRefresh(id) =>
      if id in w.table.rows && !w.table.rows[id].isRevoked then w.(tasks := w.tasks + [Seen(id)]) else w
    case RevokeStep(t) => if t < |w.tasks| && w.tasks[t].Seen? then DoRevoke(w, t) else w
    case InsertRefresh(t) =>
      if t < |w.tasks| && w.tasks[t].Rotating? && w.tasks[t].id in w.table.rows then DoInsertRefresh(w, t) else w
    case Fail(t) => if t < |w.tasks| then w.(tasks := w.tasks[t := Ended]) else w
    case Logout(userId) => w.(table := RevokeUser(w.table, userId))
  }

  function Reach(w: World, actions: seq<Action>): World
    decreases |actions|
  {
    if actions == [] then w else Reach(Step(w, actions[0]), actions[1..])
  }

  // ---------------------------------------------------------------- the invariant

  /** Refresh, run alone, is its steps one after another. */
  lemma RefreshAlone(w: World, id: Id, userUsable: bool)
    requires id in w.table.rows && !w.table.rows[id].isRevoked
    ensures var n := |w.tasks|;
            var v := Reach(w, [BeginRefresh(id), RevokeStep(n), if userUsable then InsertRefresh(n) else Fail(n)]);
            && v.table == Rotated(w.table, id, userUsable) && v.tasks == w.tasks + [Ended]
            && v.parent == if userUsable then w.parent[w.table.nextId := id] else w.parent
  {
    var n := |w.tasks|;
    var last := if userUsable then InsertRefresh(n) else Fail(n);
    ReachThree(w, BeginRefresh(id), RevokeStep(n), last);
    var w1 := Step(w, BeginRefresh(id));
    assert w1.tasks[n] == Seen(id) && w1.table == w.table;
    var w2 := Step(w1, RevokeStep(n));
    assert w2.tasks[n] == Rotating(id);
  }

  lemma ReachCons(w: World, a: Action, rest: seq<Action>)
    ensures Reach(w, [a] + rest) == Reach(Step(w, a), rest)
  {
    hide Step;
    assert ([a] + rest)[1..] == rest;
  }

  lemma ReachThree(w: World, a: Action, b: Action, c: Action)
    ensures Reach(w, [a, b, c]) == Step(Step(Step(w, a), b), c)
  {
    hide Step;
    ReachCons(w, a, [b, c]);
    ReachCons(Step(w, a), b, [c]);
    ReachCons(Step(Step(w, a), b), c, []);
    assert [a] + [b, c] == [a, b, c] && [b] + [c] == [b, c] && [c] + [] == [c];
  }

  /** So is a login that passes its checks. */
  lemma LoginAlone(w: World, userId: int)
    ensures var v := Reach(w, [BeginLogin(userId), InsertLogin(|w.tasks|)]);
            && v.table.rows == w.table.rows[w.table.nextId := Token(userId, false, w.logins)]
            && v.table.nextId == w.table.nextId + 1 && v.logins == w.logins + 1
  {
    ReachCons(w, BeginLogin(userId), [InsertLogin(|w.tasks|)]);
    ReachCons(Step(w, BeginLogin(userId)), InsertLogin(|w.tasks|), []);
    assert [BeginLogin(userId)] + [InsertLogin(|w.tasks|)] == [BeginLogin(userId), InsertLogin(|w.tasks|)];
    assert [InsertLogin(|w.tasks|)] + [] == [InsertLogin(|w.tasks|)];
  }

  predicate Usable(w: World, id: Id) { id in w.table.rows && !w.table.rows[id].isRevoked }

  predicate RotatingAt(w: World, t: int) { 0 <= t < |w.tasks| && w.tasks[t].Rotating? }

  predicate UsableOf(w: World, id: Id, login: nat) { Usable(w, id) && w.table.rows[id].login == login }

  predicate RotatesOf(w: World, t: int, login: nat) {
    RotatingAt(w, t) && w.tasks[t].id in w.table.rows && w.table.rows[w.tasks[t].id].login == login
  }

  ghost predicate HasSuccessor(w: World, id: Id) { exists k :: k in w.parent && w.parent[k] == id }

  /** Tasks name rows; a rotating one's row is revoked and has no successor yet. */
  ghost predicate TasksOk(w: World) {
    && (forall t :: 0 <= t < |w.tasks| && w.tasks[t].Seen? ==> w.tasks[t].id in w.table.rows)
    && (forall t :: RotatingAt(w, t) ==>
          && w.tasks[t].id in w.table.rows && w.table.rows[w.tasks[t].id].isRevoked
          && !HasSuccessor(w, w.tasks[t].id))
  }

  /** At most one usable token or rotating refresh for each login. */
  ghost predicate OneLive(w: World) {
    && (forall a, b, l :: UsableOf(w, a, l) && UsableOf(w, b, l) ==> a == b)
    && (forall s, t, l :: RotatesOf(w, s, l) && RotatesOf(w, t, l) ==> s == t)
    && (forall a, t, l :: UsableOf(w, a, l) ==> !RotatesOf(w, t, l))
  }

  /** Successors exist, continue their parent's chain, and no two share a parent. */
  ghost predicate Chained(w: World) {
    && (forall id :: id in w.parent ==>
          && id in w.table.rows && w.parent[id] in w.table.rows
          && w.table.rows[w.parent[id]].isRevoked
          && w.table.rows[id].login == w.table.rows[w.parent[id]].login
          && w.table.rows[id].userId == w.table.rows[w.parent[id]].userId)
    && (forall a, b :: a in w.parent && b in w.parent && w.parent[a] == w.parent[b] ==> a == b)
  }

  ghost predicate Inv(w: World) {
    && Fresh(w.table)
    && (forall id :: id in w.table.rows ==> w.table.rows[id].login < w.logins)
    && TasksOk(w) && OneLive(w) && Chained(w)
  }

  /** Rows stay, and a revoked one stays revoked. */
  ghost predicate Keeps(a: Table, b: Table) {
    forall id :: id in a.rows ==>
      && id in b.rows && b.rows[id].login == a.rows[id].login && b.rows[id].userId == a.rows[id].userId
      && (a.rows[id].isRevoked ==> b.rows[id].isRevoked)
  }

  // ---------------------------------------------------------------- every step keeps it

  lemma RowsOnlyInsertLogin(w: World, t: nat)
    requires Inv(w) && t < |w.tasks| && w.tasks[t].Issuing?
    ensures var v := DoInsertLogin(w, t);
            TasksOk(v) && Chained(v) && Keeps(w.table, v.table) && Fresh(v.table)
  {
    hide OneLive, RotatesOf, UsableOf;
    assert forall id :: HasSuccessor(DoInsertLogin(w, t), id) <==> HasSuccessor(w, id);
  }

  lemma OneLiveInsertLogin(w: World, t: nat)
    requires Inv(w) && t < |w.tasks| && w.tasks[t].Issuing?
    ensures OneLive(DoInsertLogin(w, t))
  {
    hide Chained, HasSuccessor;
    var v := DoInsertLogin(w, t);
    var n := w.table.nextId;
    assert forall a, l :: UsableOf(v, a, l) <==> (a == n && l == w.logins) || UsableOf(w, a, l);
    assert forall s, l :: RotatesOf(v, s, l) <==> RotatesOf(w, s, l);
    assert forall a :: !UsableOf(w, a, w.logins);
    assert forall s :: !RotatesOf(w, s, w.logins);
  }

  lemma InsertLoginInv(w: World, t: nat)
    requires Inv(w) && t < |w.tasks| && w.tasks[t].Issuing?
    ensures Inv(DoInsertLogin(w, t)) && Keeps(w.table, DoInsertLogin(w, t).table)
  {
    hide TasksOk, OneLive, Chained, Keeps;
    RowsOnlyInsertLogin(w, t);
    OneLiveInsertLogin(w, t);
  }

  lemma RowsOnlyRevoke(w: World, t: nat)
    requires Inv(w) && t < |w.tasks| && w.tasks[t].Seen?
    ensures var v := DoRevoke(w, t);
            TasksOk(v) && Chained(v) && Keeps(w.table, v.table) && Fresh(v.table)
  {
    hide OneLive, RotatesOf, UsableOf;
    assert forall id :: HasSuccessor(DoRevoke(w, t), id) <==> HasSuccessor(w, id);
    assert Usable(w, w.tasks[t].id) ==> !HasSuccessor(w, w.tasks[t].id);
  }

  lemma OneLiveRevoke(w: World, t: nat)
    requires Inv(w) && t < |w.tasks| && w.tasks[t].Seen?
    ensures OneLive(DoRevoke(w, t))
  {
    hide Chained, HasSuccessor;
    var v := DoRevoke(w, t);
    var id := w.tasks[t].id;
    assert forall a, l :: UsableOf(v, a, l) <==> a != id && UsableOf(w, a, l);
    if Usable(w, id) {
      var login := w.table.rows[id].login;
      assert forall s, l :: RotatesOf(v, s, l) <==> (s == t && l == login) || RotatesOf(w, s, l);
      assert UsableOf(w, id, login);
    } else {
      assert forall s, l :: RotatesOf(v, s, l) <==> RotatesOf(w, s, l);
    }
  }

  lemma RevokeInv(w: World, t: nat)
    requires Inv(w) && t < |w.tasks| && w.tasks[t].Seen?
    ensures Inv(DoRevoke(w, t)) && Keeps(w.table, DoRevoke(w, t).table)
  {
    hide TasksOk, OneLive, Chained, Keeps;
    RowsOnlyRevoke(w, t);
    OneLiveRevoke(w, t);
  }

  lemma RowsOnlyInsertRefresh(w: World, t: nat)
    requires Inv(w) && t < |w.tasks| && w.tasks[t].Rotating? && w.tasks[t].id in w.table.rows
    ensures var v := DoInsertRefresh(w, t);
            TasksOk(v) && Chained(v) && Keeps(w.table, v.table) && Fresh(v.table)
  {
    hide UsableOf;
    var v := DoInsertRefresh(w, t);
    var login := w.table.rows[w.tasks[t].id].login;
    assert RotatingAt(w, t) && RotatesOf(w, t, login);
    assert w.table.nextId !in w.parent;
    assert forall id :: HasSuccessor(v, id) ==> id == w.tasks[t].id || HasSuccessor(w, id);
    forall s | RotatingAt(v, s) ensures !HasSuccessor(v, v.tasks[s].id) {
      assert RotatingAt(w, s) && RotatesOf(w, s, w.table.rows[w.tasks[s].id].login);
    }
    forall k | k in w.parent ensures w.parent[k] != w.tasks[t].id {
      assert !HasSuccessor(w, w.tasks[t].id);
    }
  }

  lemma OneLiveInsertRefresh(w: World, t: nat)
    requires Inv(w) && t < |w.tasks| && w.tasks[t].Rotating? && w.tasks[t].id in w.table.rows
    ensures OneLive(DoInsertRefresh(w, t))
  {
    hide Chained, HasSuccessor;
    var v := DoInsertRefresh(w, t);
    var n, login := w.table.nextId, w.table.rows[w.tasks[t].id].login;
    assert forall a, l :: UsableOf(v, a, l) <==> (a == n && l == login) || UsableOf(w, a, l);
    assert forall s, l :: RotatesOf(v, s, l) <==> s != t && RotatesOf(w, s, l);
    assert RotatesOf(w, t, login);
  }

  lemma InsertRefreshInv(w: World, t: nat)
    requires Inv(w) && t < |w.tasks| && w.tasks[t].Rotating? && w.tasks[t].id in w.table.rows
    ensures Inv(DoInsertRefresh(w, t)) && Keeps(w.table, DoInsertRefresh(w, t).table)
  {
    hide TasksOk, OneLive, Chained, Keeps;
    RowsOnlyInsertRefresh(w, t);
    OneLiveInsertRefresh(w, t);
  }

  lemma LogoutInv(w: World, userId: int)
    requires Inv(w)
    ensures Inv(Step(w, Logout(userId))) && Keeps(w.table, Step(w, Logout(userId)).table)
  {
    var v := Step(w, Logout(userId));
    assert forall id :: HasSuccessor(v, id) <==> HasSuccessor(w, id);
    assert forall a, l :: UsableOf(v, a, l) ==> UsableOf(w, a, l);
    assert forall s, l :: RotatesOf(v, s, l) <==> RotatesOf(w, s, l);
  }

  lemma AddTaskInv(w: World, x: Task)
    requires Inv(w) && !x.Rotating? && (x.Seen? ==> x.id in w.table.rows)
    ensures Inv(w.(tasks := w.tasks + [x]))
  {
    var v := w.(tasks := w.tasks + [x]);
    assert forall id :: HasSuccessor(v, id) <==> HasSuccessor(w, id);
    assert forall a, l :: UsableOf(v, a, l) <==> UsableOf(w, a, l);
    assert forall s, l :: RotatesOf(v, s, l) <==> RotatesOf(w, s, l);
  }

  lemma EndTaskInv(w: World, t: nat)
    requires Inv(w) && t < |w.tasks|
    ensures Inv(w.(tasks := w.tasks[t := Ended]))
  {
    var v := w.(tasks := w.tasks[t := Ended]);
    assert forall id :: HasSuccessor(v, id) <==> HasSuccessor(w, id);
    assert forall a, l :: UsableOf(v, a, l) <==> UsableOf(w, a, l);
    assert forall s, l :: RotatesOf(v, s, l) ==> RotatesOf(w, s, l);
  }

  lemma KeepsSame(t: Table)
    ensures Keeps(t, t)
  {
  }

  lemma StepInv(w: World, a: Action)
    requires Inv(w)
    ensures Inv(Step(w, a)) && Keeps(w.table, Step(w, a).table)
  {
    hide Inv, Keeps, DoInsertLogin, DoRevoke, DoInsertRefresh;
    KeepsSame(w.table);
    match a
    case BeginLogin(userId) => AddTaskInv(w, Issuing(userId));
    case InsertLogin(t) => if t < |w.tasks| && w.tasks[t].Issuing? { InsertLoginInv(w, t); }
    case BeginRefresh(id) => if id in w.table.rows && !w.table.rows[id].isRevoked { AddTaskInv(w, Seen(id)); }
    case RevokeStep(t) => if t < |w.tasks| && w.tasks[t].Seen? { RevokeInv(w, t); }
    case InsertRefresh(t) =>
      if t < |w.tasks| && w.tasks[t].Rotating? && w.tasks[t].id in w.table.rows { InsertRefreshInv(w, t); }
    case Fail(t) => if t < |w.tasks| { EndTaskInv(w, t); }
    case Logout(userId) => LogoutInv(w, userId);
  }

  lemma {:induction false} ReachInv(w: World, actions: seq<Action>)
    requires Inv(w)
    ensures Inv(Reach(w, actions)) && Keeps(w.table, Reach(w, actions).table)
    decreases |actions|
  {
    hide Inv, Step;
    KeepsSame(w.table);
    if actions != [] {
      StepInv(w, actions[0]);
      ReachInv(Step(w, actions[0]), actions[1..]);
    }
  }

  lemma StartInv()
    ensures Inv(START)
  {
  }

  // ---------------------------------------------------------------- what holds in every run

  /** A refresh token is turned into at most one other, of the same user and login. */
  lemma AtMostOneSuccessor(actions: seq<Action>)
    ensures var w := Reach(START, actions);
            && (forall a, b :: a in w.parent && b in w.parent && w.parent[a] == w.parent[b] ==> a == b)
            && (forall id :: id in w.parent ==>
                  && id in w.table.rows && w.parent[id] in w.table.rows
                  && w.table.rows[w.parent[id]].isRevoked
                  && w.table.rows[id].userId == w.table.rows[w.parent[id]].userId
                  && w.table.rows[id].login == w.table.rows[w.parent[id]].login)
  {
    hide Step;
    StartInv();
    ReachInv(START, actions);
  }

  lemma CountStep(w: World, a: Action)
    requires Inv(w) && |w.table.rows| == w.logins + |w.parent|
    ensures var v := Step(w, a); |v.table.rows| == v.logins + |v.parent|
  {
    hide TasksOk, OneLive;
    var v := Step(w, a);
    if a.Logout? || a.RevokeStep? {
      assert v.table.rows.Keys == w.table.rows.Keys;
      assert |v.table.rows.Keys| == |v.table.rows| && |w.table.rows.Keys| == |w.table.rows|;
    }
  }

  lemma {:induction false} CountReach(w: World, actions: seq<Action>)
    requires Inv(w) && |w.table.rows| == w.logins + |w.parent|
    ensures var v := Reach(w, actions); |v.table.rows| == v.logins + |v.parent|
    decreases |actions|
  {
    hide Inv, Step;
    if actions != [] {
      CountStep(w, actions[0]);
      StepInv(w, actions[0]);
      CountReach(Step(w, actions[0]), actions[1..]);
    }
  }

  /** Every token ever issued came from a login or from one other token. */
  lemma TokensAccounted(actions: seq<Action>)
    ensures var w := Reach(START, actions); |w.table.rows| == w.logins + |w.parent|
  {
    StartInv();
    CountReach(START, actions);
  }

  // Counting: usable tokens and rotating refreshes have different logins.

  function UsableIds(w: World): set<Id> { set id | id in w.table.rows && !w.table.rows[id].isRevoked }

  function RotatingTasks(w: World): set<int> { set t | 0 <= t < |w.tasks| && w.tasks[t].Rotating? }

  function Below(n: nat): (below: set<nat>)
    ensures |below| == n && forall i: nat :: i in below <==> i < n
  {
    if n == 0 then {} else Below(n - 1) + {n - 1}
  }

  lemma {:induction false} ImageSize(xs: set<int>, f: map<int, nat>, image: set<nat>)
    requires xs <= f.Keys && (forall x, y :: x in xs && y in xs && f[x] == f[y] ==> x == y)
    requires forall n :: n in image <==> exists x :: x in xs && f[x] == n
    ensures |image| == |xs|
    decreases |xs|
  {
    if xs == {} {
      if forall n :: n !in image {
        assert image == {};
      }
    } else {
      SomeElement(xs);
      var x :| x in xs;
      var fewer, less := xs - {x}, image - {f[x]};
      forall n ensures n in less <==> exists y :: y in fewer && f[y] == n {
        if n in less {
          var y :| y in xs && f[y] == n;
          assert y in fewer;
        }
      }
      ImageSize(fewer, f, less);
      assert f[x] in image && image == less + {f[x]};
    }
  }

  lemma SomeElement(xs: set<int>)
    ensures xs == {} || exists x :: x in xs
  {
    if forall x :: x !in xs {
      assert xs == {};
    }
  }

  function UsableLogins(w: World): map<int, nat> {
    map id | id in UsableIds(w) :: w.table.rows[id].login
  }

  function RotatingLogins(w: World): map<int, nat> {
    map t | t in RotatingTasks(w) && w.tasks[t].id in w.table.rows :: w.table.rows[w.tasks[t].id].login
  }

  /** Tokens that still work and refreshes about to issue one are never more than the
      logins that issued tokens. */
  lemma NoMoreThanLogins(actions: seq<Action>)
    ensures var w := Reach(START, actions); |UsableIds(w)| + |RotatingTasks(w)| <= w.logins
  {
    hide Step;
    StartInv();
    ReachInv(START, actions);
    LiveWithinLogins(Reach(START, actions));
  }

  lemma LiveWithinLogins(w: World)
    requires Inv(w)
    ensures |UsableIds(w)| + |RotatingTasks(w)| <= w.logins
  {
    var u, r := UsableLogins(w), RotatingLogins(w);
    LiveLogins(w);
    var us, rs := u.Values, r.Values;
    ImageSize(UsableIds(w), u, us);
    ImageSize(RotatingTasks(w), r, rs);
    SubsetSize(us + rs, Below(w.logins));
    assert |us + rs| == |us| + |rs|;
  }

  lemma LiveLogins(w: World)
    requires Inv(w)
    ensures var u, r := UsableLogins(w), RotatingLogins(w);
            && u.Keys == UsableIds(w) && r.Keys == RotatingTasks(w)
            && (forall a, b :: a in u && b in u && u[a] == u[b] ==> a == b)
            && (forall s, t :: s in r && t in r && r[s] == r[t] ==> s == t)
            && u.Values * r.Values == {} && u.Values + r.Values <= Below(w.logins)
  {
    hide Chained, HasSuccessor, OneLive, Below;
    LoginsAreOf(w);
    hide TasksOk, UsableLogins, RotatingLogins, UsableOf, RotatesOf;
    LoginsDiffer(w);
    LoginsBelow(w);
  }

  lemma ValuesBelow(f: map<int, nat>, n: nat)
    requires forall x :: x in f ==> f[x] < n
    ensures f.Values <= Below(n)
  {
    var below := Below(n);
    assert forall x :: x in f ==> f[x] in below;
    forall l: nat ensures l !in f.Values || l in below {
      if forall x :: x in f ==> f[x] != l {
        assert l !in f.Values;
      }
    }
  }

  lemma LoginsBelow(w: World)
    requires var u, r := UsableLogins(w), RotatingLogins(w);
             (forall id :: id in u ==> u[id] < w.logins) && (forall t :: t in r ==> r[t] < w.logins)
    ensures UsableLogins(w).Values + RotatingLogins(w).Values <= Below(w.logins)
  {
    hide UsableLogins, RotatingLogins, Below;
    ValuesBelow(UsableLogins(w), w.logins);
    ValuesBelow(RotatingLogins(w), w.logins);
  }

  lemma LoginsAreOf(w: World)
    requires TasksOk(w)
    requires forall id :: id in w.table.rows ==> w.table.rows[id].login < w.logins
    ensures var u, r := UsableLogins(w), RotatingLogins(w);
            && u.Keys == UsableIds(w) && r.Keys == RotatingTasks(w)
            && (forall id :: id in u ==> UsableOf(w, id, u[id]) && u[id] < w.logins)
            && (forall t :: t in r ==> RotatesOf(w, t, r[t]) && r[t] < w.logins)
  {
    hide HasSuccessor;
    assert forall t :: t in RotatingTasks(w) ==> RotatingAt(w, t);
  }

  lemma LoginsDiffer(w: World)
    requires OneLive(w)
    requires var u, r := UsableLogins(w), RotatingLogins(w);
             && (forall id :: id in u ==> UsableOf(w, id, u[id]))
             && (forall t :: t in r ==> RotatesOf(w, t, r[t]))
    ensures var u, r := UsableLogins(w), RotatingLogins(w);
            && (forall a, b :: a in u && b in u && u[a] == u[b] ==> a == b)
            && (forall s, t :: s in r && t in r && r[s] == r[t] ==> s == t)
            && u.Values * r.Values == {}
  {
    hide UsableLogins, RotatingLogins, UsableOf, RotatesOf;
    var u, r := UsableLogins(w), RotatingLogins(w);
    forall id, t | id in u && t in r ensures u[id] != r[t] {
      assert UsableOf(w, id, u[id]) && RotatesOf(w, t, r[t]);
    }
  }

  /** After a logout, every token the user had been issued stays revoked in every continuation. */
  lemma IssuedStayRevoked(before: seq<Action>, userId: int, after: seq<Action>, id: Id)
    requires var w := Reach(START, before); id in w.table.rows && w.table.rows[id].userId == userId
    ensures var v := Reach(Step(Reach(START, before), Logout(userId)), after);
            id in v.table.rows && v.table.rows[id].isRevoked
  {
    StartInv();
    ReachInv(START, before);
    var w := Reach(START, before);
    StepInv(w, Logout(userId));
    ReachInv(Step(w, Logout(userId)), after);
  }

  /** The action takes the token away: its user logs out, or a refresh that read it revokes it. */
  predicate Takes(w: World, a: Action, id: Id)
    requires id in w.table.rows
  {
    a == Logout(w.table.rows[id].userId) || (a.RevokeStep? && a.t < |w.tasks| && w.tasks[a.t] == Seen(id))
  }

  /** Some action of the run takes the token away. */
  predicate TakenIn(w: World, actions: seq<Action>, id: Id)
    decreases |actions|
  {
    actions != [] && id in w.table.rows
    && (Takes(w, actions[0], id) || TakenIn(Step(w, actions[0]), actions[1..], id))
  }

  lemma UsableStep(w: World, a: Action, id: Id)
    requires Inv(w) && id in w.table.rows
    ensures Usable(Step(w, a), id) <==> Usable(w, id) && !Takes(w, a, id)
  {
    hide TasksOk, OneLive, Chained;
  }

  /** A usable token stays usable until its own user logs out or a refresh that read it revokes
      it, whatever everybody else does, and no longer. */
  lemma {:induction false} StaysUsableIff(w: World, actions: seq<Action>, id: Id)
    requires Inv(w) && id in w.table.rows
    ensures Usable(Reach(w, actions), id) <==> Usable(w, id) && !TakenIn(w, actions, id)
    decreases |actions|
  {
    hide Inv, Step, Usable, Takes;
    if actions != [] {
      UsableStep(w, actions[0], id);
      StepInv(w, actions[0]);
      StaysUsableIff(Step(w, actions[0]), actions[1..], id);
    }
  }

  /** In every run, from its beginning, of the rows of any table reached. */
  lemma UsableUntilTaken(before: seq<Action>, after: seq<Action>, id: Id)
    requires id in Reach(START, before).table.rows
    ensures var w := Reach(START, before);
            Usable(Reach(w, after), id) <==> Usable(w, id) && !TakenIn(w, after, id)
  {
    hide Inv, Step, Usable, TakenIn;
    StartInv();
    ReachInv(START, before);
    StaysUsableIff(Reach(START, before), after, id);
  }

  predicate HasUsable(w: World, userId: int) { exists id :: id in w.table.rows && UsableBy(w, id, userId) }

  predicate UsableBy(w: World, id: Id, userId: int) { Usable(w, id) && w.table.rows[id].userId == userId }

  /** The task is about to insert a token of the user: a login, or a refresh past its revoke. */
  predicate WillInsert(w: World, t: int, userId: int) {
    && 0 <= t < |w.tasks|
    && (w.tasks[t] == Issuing(userId)
        || (RotatingAt(w, t) && w.tasks[t].id in w.table.rows && w.table.rows[w.tasks[t].id].userId == userId))
  }

  /** The user is out: nothing usable, and no task about to insert anything. */
  ghost predicate LoggedOut(w: World, userId: int) {
    !HasUsable(w, userId) && forall t :: !WillInsert(w, t, userId)
  }

  lemma StaysOut(w: World, a: Action, userId: int)
    requires Inv(w) && LoggedOut(w, userId) && a != BeginLogin(userId)
    ensures LoggedOut(Step(w, a), userId)
  {
    hide OneLive, Chained;
    var v := Step(w, a);
    forall id | id in v.table.rows ensures !UsableBy(v, id, userId) {
      assert id in w.table.rows ==> !UsableBy(w, id, userId);
      if a.InsertLogin? {
        assert !WillInsert(w, a.t, userId);
      } else if a.InsertRefresh? {
        assert !WillInsert(w, a.t, userId);
      }
    }
    forall t ensures !WillInsert(v, t, userId) {
      assert !WillInsert(w, t, userId);
      if a.RevokeStep? && a.t == t && t < |w.tasks| && w.tasks[t].Seen? {
        assert !UsableBy(w, w.tasks[t].id, userId);
      }
    }
  }

  lemma {:induction false} ReachOut(w: World, actions: seq<Action>, userId: int)
    requires Inv(w) && LoggedOut(w, userId) && BeginLogin(userId) !in actions
    ensures LoggedOut(Reach(w, actions), userId)
    decreases |actions|
  {
    hide Inv, Step, LoggedOut;
    if actions != [] {
      StaysOut(w, actions[0], userId);
      StepInv(w, actions[0]);
      ReachOut(Step(w, actions[0]), actions[1..], userId);
    }
  }

  /** A task about to insert does so after the logout. */
  lemma InsertsLate(w: World, t: nat, userId: int)
    requires Inv(w) && WillInsert(w, t, userId)
    ensures exists after :: BeginLogin(userId) !in after && HasUsable(Reach(w, after), userId)
  {
    hide Inv, Revoke;
    var a := if w.tasks[t].Issuing? then InsertLogin(t) else InsertRefresh(t);
    assert Reach(w, [a]) == Reach(Step(w, a), []) == Step(w, a);
    assert UsableBy(Step(w, a), w.table.nextId, userId);
    assert BeginLogin(userId) !in [a];
  }

  /** After a logout the user has no usable token until a next login, in any continuation,
      exactly when no login of the user was past its checks and no refresh past its revoke
      step at the logout. */
  lemma LogoutFinalIff(before: seq<Action>, userId: int)
    ensures var w := Step(Reach(START, before), Logout(userId));
            (forall after :: BeginLogin(userId) !in after ==> !HasUsable(Reach(w, after), userId))
            <==> forall t :: !WillInsert(Reach(START, before), t, userId)
  {
    hide Inv, Reach;
    StartInv();
    ReachInv(START, before);
    var u := Reach(START, before);
    var w := Step(u, Logout(userId));
    StepInv(u, Logout(userId));
    assert forall t :: WillInsert(w, t, userId) <==> WillInsert(u, t, userId);
    if forall t :: !WillInsert(u, t, userId) {
      assert LoggedOut(w, userId);
      forall after | BeginLogin(userId) !in after ensures !HasUsable(Reach(w, after), userId) {
        ReachOut(w, after, userId);
      }
    } else {
      var t :| WillInsert(u, t, userId);
      InsertsLate(w, t, userId);
    }
  }

  /** A logout between the two steps of a refresh leaves the user a usable token. */
  lemma RefreshOutlivesLogout(userId: int) returns (run: seq<Action>, w: World)
    ensures run == [BeginLogin(userId), InsertLogin(0), BeginRefresh(1), RevokeStep(1), Logout(userId),
                    InsertRefresh(1)]
    ensures w == Reach(START, run) && w.logins == 1 && UsableBy(w, 2, userId)
  {
    run := [BeginLogin(userId), InsertLogin(0), BeginRefresh(1), RevokeStep(1), Logout(userId), InsertRefresh(1)];
    w := Reach(START, run);
    ReachThree(START, run[0], run[1], run[2]);
    var w3 := Reach(START, run[..3]);
    assert run[..3] == [run[0], run[1], run[2]];
    assert w3.tasks == [Ended, Seen(1)] && w3.table == Table(map[1 := Token(userId, false, 0)], 2) && w3.logins == 1;
    ReachThree(w3, run[3], run[4], run[5]);
    var w4 := Step(w3, run[3]);
    assert w4.tasks == [Ended, Rotating(1)];
    ReachThenThree(START, run[0], run[1], run[2], run[3..]);
    assert run[3..] == [run[3], run[4], run[5]] && run == [run[0], run[1], run[2]] + run[3..];
  }

  lemma ReachThenThree(w: World, a: Action, b: Action, c: Action, rest: seq<Action>)
    ensures Reach(w, [a, b, c] + rest) == Reach(Reach(w, [a, b, c]), rest)
  {
    hide Step;
    ReachThree(w, a, b, c);
    assert ([a, b, c] + rest)[1..] == [b, c] + rest && ([b, c] + rest)[1..] == [c] + rest && ([c] + rest)[1..] == rest;
    assert Reach(Step(Step(w, a), b), [c] + rest) == Reach(Step(Step(Step(w, a), b), c), rest);
    assert Reach(Step(w, a), [b, c] + rest) == Reach(Step(Step(w, a), b), [c] + rest);
  }
}
