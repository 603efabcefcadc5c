/** The relay between a client that waits and a server that answers in order, and when
    the audit matches every reply with the query that caused it. */
module PostgresRelay {
  import opened Options
  import opened PostgresAudit

  predicate IsWork(m: Frontend) { m.Query? || m.Execute? }

  /** Messages after which a waiting client sends nothing until ReadyForQuery. */
  predicate AwaitsReady(m: Frontend) { m.Sync? || m.Query? }

  /** What the server decided for a query or an execute. */
  datatype Verdict = Done(rows: int) | Error(error: string) | Skipped

  function OutcomeOf(v: Verdict): Outcome {
    match v
    case Done(rows) => Completed(rows)
    case Error(e) => Failed(e)
    case Skipped => Flushed
  }

  function ReplyFor(v: Verdict): Backend
    requires !v.Skipped?
  {
    if v.Done? then CommandComplete(v.rows) else ErrorResponse(v.error)
  }

  // ---------------------------------------------------------------- the server's own tables

  /** The statements and portals that live on the server, with their SQL. */
  datatype Tables = Tables(prepared: map<string, string>, portals: map<string, string>)

  datatype Names = Names(statements: set<string>, portals: set<string>)

  /** What handling a message does to the tables. */
  function Handled(t: Tables, m: Frontend): Tables {
    match m
    case Parse(name, query) => t.(prepared := t.prepared[name := query])
    case Bind(portal, statement) =>
      if statement in t.prepared then t.(portals := t.portals[portal := t.prepared[statement]]) else t
    case Close(kind, name) =>
      if kind == 'S' then t.(prepared := t.prepared - {name})
      else if kind == 'P' then t.(portals := t.portals - {name})
      else t
    case _ => t
  }

  function HandleAll(t: Tables, ms: seq<Frontend>): Tables
    decreases |ms|
  {
    if ms == [] then t else HandleAll(Handled(t, ms[0]), ms[1..])
  }

  /** The SQL a message makes the server run, if it does. */
  function SqlOf(t: Tables, m: Frontend): seq<string> {
    match m
    case Query(sql) => [sql]
    case Execute(portal) => [Lookup(t.portals, portal)]
    case _ => []
  }

  function SqlOfAll(t: Tables, ms: seq<Frontend>): seq<string>
    decreases |ms|
  {
    if ms == [] then [] else SqlOf(t, ms[0]) + SqlOfAll(Handled(t, ms[0]), ms[1..])
  }

  /** Statements and portals may end with a transaction. */
  function Forget(t: Tables, gone: Names): Tables {
    Tables(t.prepared - gone.statements, t.portals - gone.portals)
  }

  // ---------------------------------------------------------------- the system

  /** Queues from the proxy to the server and back, the message already forwarded to the
      client but not yet observed; the tables the client counts on, were nothing skipped
      since it last heard ReadyForQuery, and what it sent; and a ledger of what began and
      what the server decided and ran. `race` is the first query begun while a ReadyForQuery
      was forwarded and not observed; `stray` says that some Execute was begun with another
      text than the client counted on, or not at all. */
  datatype System = System(
    audit: Audit, written: seq<Record>,
    toServer: seq<Frontend>, skipping: bool, tables: Tables, toProxy: seq<Backend>, held: Option<Backend>,
    awaiting: bool, expected: Tables, sent: seq<Frontend>,
    begun: seq<string>, verdicts: seq<Verdict>, ran: seq<Option<string>>,
    race: Option<nat>, stray: bool)

  const NO_TABLES := Tables(map[], map[])
  const NO_AUDIT := Audit(map[], map[], [])
  const BEGINNING := System(NO_AUDIT, [], [], false, NO_TABLES, [], None, false, NO_TABLES, [], [], [], [], None, false)

  datatype Action =
    | Send(m: Frontend)          // the client sends, the proxy observes and passes it on
    | Serve(verdict: Verdict, gone: Names)   // the server handles one message; both are its choice
    | Forward                    // the proxy passes a reply on to the client
    | Observe                    // the proxy shows the reply it passed on to the audit

  /** The message binds a live statement with some text, or executes an open portal, if it
      binds or executes anything. */
  predicate MayAsk(expected: Tables, m: Frontend) {
    && (m.Execute? ==> m.portal in expected.portals)
    && (m.Bind? ==> Lookup(expected.prepared, m.preparedStatement) != "")
  }

  /** The client waits for ReadyForQuery, and keeps to what is live as far as it can know. */
  predicate MaySend(s: System, m: Frontend) {
    !s.awaiting && MayAsk(s.expected, m)
  }

  function DoSend(s: System, m: Frontend): System {
    s.(audit := AfterFrontend(s.audit, m),
       toServer := s.toServer + [m],
       awaiting := AwaitsReady(m),
       expected := Handled(s.expected, m),
       sent := s.sent + [m],
       begun := s.begun + Begin(s.audit, m),
       race := if s.race.None? && IsWork(m) && s.held == Some(ReadyForQuery) then Some(|s.begun|) else s.race,
       stray := s.stray || Begin(s.audit, m) != SqlOf(s.expected, m))
  }

  function DoServe(s: System, v: Verdict, gone: Names): System
    requires s.toServer != [] && !v.Skipped?
  {
    var m := s.toServer[0];
    var t := s.(toServer := s.toServer[1..]);
    var left := Forget(s.tables, gone);
    if s.skipping && !m.Sync? then
      if IsWork(m) then t.(verdicts := s.verdicts + [Skipped], ran := s.ran + [None]) else t
    else if m.Sync? then
      t.(skipping := false, toProxy := s.toProxy + [ReadyForQuery], tables := left, expected := left)
    else if m.Query? then
      t.(verdicts := s.verdicts + [v], ran := s.ran + [Some(m.sql)],
         toProxy := s.toProxy + [ReplyFor(v), ReadyForQuery], tables := left, expected := left)
    else if m.Execute? then
      t.(verdicts := s.verdicts + [v], ran := s.ran + [Some(Lookup(s.tables.portals, m.portal))],
         toProxy := s.toProxy + [ReplyFor(v)], skipping := v.Error?)
    else t.(tables := Handled(s.tables, m), toProxy := s.toProxy + [OtherBackend])
  }

  function DoForward(s: System): System
    requires s.held.None? && s.toProxy != []
  {
    s.(held := Some(s.toProxy[0]), toProxy := s.toProxy[1..],
       awaiting := s.awaiting && s.toProxy[0] != ReadyForQuery)
  }

  function DoObserve(s: System): System
    requires s.held.Some?
  {
    s.(audit := AfterBackend(s.audit, s.held.value),
       written := s.written + Closes(s.audit.pending, s.held.value),
       held := None)
  }

  /** One step; an action that is not possible changes nothing. */
  function Act(s: System, a: Action): System {
    match a
    case Send(m) => if MaySend(s, m) then DoSend(s, m) else s
    case Serve(v, gone) => if s.toServer != [] && !v.Skipped? then DoServe(s, v, gone) else s
    case Forward => if s.held.None? && s.toProxy != [] then DoForward(s) else s
    case Observe => if s.held.Some? then DoObserve(s) else s
  }

  function Reach(s: System, actions: seq<Action>): System
    decreases |actions|
  {
    if actions == [] then s else Reach(Act(s, actions[0]), actions[1..])
  }

  // ---------------------------------------------------------------- what is to be shown

  /** Every record so far is that of the query begun in its place, has the outcome the server
      decided on, and, if the server answered at all, carries the SQL the server ran. */
  ghost predicate Attributed(s: System) {
    && |s.written| <= |s.begun| && |s.written| <= |s.verdicts| == |s.ran|
    && (forall n :: 0 <= n < |s.written| ==> s.written[n].query == s.begun[n])
    && (forall n :: 0 <= n < |s.written| ==> s.written[n].outcome == OutcomeOf(s.verdicts[n]))
    && (forall n :: 0 <= n < |s.written| && !s.verdicts[n].Skipped? ==> s.ran[n] == Some(s.written[n].query))
  }

  /** Moreover, what has no record was skipped. */
  ghost predicate AllRight(s: System) {
    Attributed(s) && forall n :: |s.written| <= n < |s.verdicts| ==> s.verdicts[n].Skipped?
  }

  predicate Quiescent(s: System) {
    s.toServer == [] && s.toProxy == [] && s.held.None?
  }
}
