/** postgresAuditState: which SQL text is audited with which backend reply. */
module PostgresAudit {
  import opened Options

  /** Close carries 'S' for a statement and 'P' for a portal. */
  datatype Frontend =
    | Query(sql: string)
    | Parse(name: string, query: string)
    | Bind(destinationPortal: string, preparedStatement: string)
    | Execute(portal: string)
    | Close(objectType: char, objectName: string)
    | Sync
    | OtherFrontend

  datatype Backend =
    | CommandComplete(rows: int)
    | ErrorResponse(error: string)
    | ReadyForQuery
    | OtherBackend

  /** How an event was closed: by a reply, or neutrally when the server became ready. */
  datatype Outcome = Completed(rows: int) | Failed(error: string) | Flushed

  datatype Record = Record(query: string, outcome: Outcome)

  datatype Audit = Audit(prepared: map<string, string>, portals: map<string, string>, pending: seq<string>)

  /** Go map access: the zero value for a missing key. */
  function Lookup(m: map<string, string>, k: string): string {
    if k in m then m[k] else ""
  }

  /** The query a message begins, if it begins one. */
  function Begins(s: Audit, m: Frontend): Option<string> {
    match m
    case Query(sql) => Some(sql)
    case Execute(portal) =>
      var bound := Lookup(s.portals, portal);
      var query := if bound == "" then Lookup(s.prepared, "") else bound;
      if query != "" then Some(query) else None
    case _ => None
  }

  function Begin(s: Audit, m: Frontend): seq<string> {
    if Begins(s, m).Some? then [Begins(s, m).value] else []
  }

  function AfterFrontend(s: Audit, m: Frontend): Audit {
    match m
    case Parse(name, query) => s.(prepared := s.prepared[name := query])
    case Bind(portal, statement) =>
      var query := Lookup(s.prepared, statement);
      if query != "" then s.(portals := s.portals[portal := query]) else s
    case Close(kind, name) =>
      if kind == 'S' then s.(prepared := s.prepared - {name})
      else if kind == 'P' then s.(portals := s.portals - {name})
      else s
    case _ => s.(pending := s.pending + Begin(s, m))
  }

  function FlushAll(queries: seq<string>): (records: seq<Record>)
    ensures |records| == |queries|
    ensures forall i :: 0 <= i < |queries| ==> records[i] == Record(queries[i], Flushed)
  {
    if queries == [] then [] else [Record(queries[0], Flushed)] + FlushAll(queries[1..])
  }

  /** The records a backend message closes, oldest first. */
  function Closes(pending: seq<string>, m: Backend): seq<Record> {
    match m
    case CommandComplete(rows) => if pending == [] then [] else [Record(pending[0], Completed(rows))]
    case ErrorResponse(error) => if pending == [] then [] else [Record(pending[0], Failed(error))]
    case ReadyForQuery => FlushAll(pending)
    case OtherBackend => []
  }

  function AfterBackend(s: Audit, m: Backend): Audit {
    match m
    case CommandComplete(_) => s.(pending := if s.pending == [] then [] else s.pending[1..])
    case ErrorResponse(_) => s.(pending := if s.pending == [] then [] else s.pending[1..])
    case ReadyForQuery => s.(pending := [])
    case OtherBackend => s
  }

  class PostgresAuditState {
    var prepared: map<string, string>
    var portals: map<string, string>
    var pending: seq<string>
    /** What has been written through the audit API. */
    var written: seq<Record>

    function State(): Audit
      reads this
    {
      Audit(prepared, portals, pending)
    }

    constructor ()
      ensures State() == Audit(map[], map[], []) && written == []
    {
      prepared, portals, pending, written := map[], map[], [], [];
    }

    method ObserveFrontend(m: Frontend)
      modifies this
      ensures State() == AfterFrontend(old(State()), m) && written == old(written)
    {
      match m
      case Query(sql) =>
        BeginLocked(sql);
      case Parse(name, query) =>
        prepared := prepared[name := query];
      case Bind(portal, statement) =>
        var query := Lookup(prepared, statement);
        if query != "" {
          portals := portals[portal := query];
        }
      case Execute(portal) =>
        var query := Lookup(portals, portal);
        if query == "" {
          query := Lookup(prepared, "");
        }
        if query != "" {
          BeginLocked(query);
        }
      case Close(kind, name) =>
        if kind == 'S' {
          prepared := prepared - {name};
        } else if kind == 'P' {
          portals := portals - {name};
        }
      case _ =>
    }

    method ObserveBackend(m: Backend)
      modifies this
      ensures State() == AfterBackend(old(State()), m)
      ensures written == old(written) + Closes(old(pending), m)
    {
      match m
      case CommandComplete(rows) =>
        FinishNext(Completed(rows));
      case ErrorResponse(error) =>
        FinishNext(Failed(error));
      case ReadyForQuery =>
        FlushPending();
      case OtherBackend =>
    }

    method BeginLocked(query: string)
      modifies this`pending
      ensures pending == old(pending) + [query]
    {
      pending := pending + [query];
    }

    method FinishNext(outcome: Outcome)
      modifies this`pending, this`written
      ensures old(pending) == [] ==> pending == [] && written == old(written)
      ensures old(pending) != [] ==> pending == old(pending)[1..]
                                     && written == old(written) + [Record(old(pending)[0], outcome)]
    {
      if |pending| == 0 {
        return;
      }
      var event := pending[0];
      pending := pending[1..];
      written := written + [Record(event, outcome)];
    }

    method FlushPending()
      modifies this`pending, this`written
      ensures pending == [] && written == old(written) + FlushAll(old(pending))
    {
      hide FlushAll;
      var events := pending;
      pending := [];
      for i := 0 to |events|
        invariant pending == [] && written == old(written) + FlushAll(events)[..i]
      {
        written := written + [Record(events[i], Flushed)];
      }
      assert FlushAll(events)[..|events|] == FlushAll(events);
    }
  }

  // ---------------------------------------------------------------- both directions at once

  // The frontend goroutine works under the lock; the backend goroutine takes events under
  // the lock and writes their records afterwards, one call at a time, before its next message.
  datatype Step = Front(f: Frontend) | Take(b: Backend) | Write

  datatype Machine = Machine(audit: Audit, taken: seq<Record>, written: seq<Record>, begun: seq<string>)

  const START := Machine(Audit(map[], map[], []), [], [], [])

  function Next(s: Machine, step: Step): Machine {
    match step
    case Front(m) => s.(audit := AfterFrontend(s.audit, m), begun := s.begun + Begin(s.audit, m))
    case Take(m) =>
      if s.taken != [] then s
      else s.(audit := AfterBackend(s.audit, m), taken := Closes(s.audit.pending, m))
    case Write =>
      if s.taken == [] then s
      else s.(taken := s.taken[1..], written := s.written + [s.taken[0]])
  }

  function Run(s: Machine, steps: seq<Step>): Machine
    decreases |steps|
  {
    if steps == [] then s else Run(Next(s, steps[0]), steps[1..])
  }

  function Texts(rs: seq<Record>): (ts: seq<string>)
    ensures |ts| == |rs| && forall i :: 0 <= i < |rs| ==> ts[i] == rs[i].query
  {
    if rs == [] then [] else [rs[0].query] + Texts(rs[1..])
  }

  /** Everything begun is written, taken or pending, once and in order. */
  ghost predicate Accounted(s: Machine) {
    s.begun == Texts(s.written) + Texts(s.taken) + s.audit.pending
  }

  /** A backend message closes the oldest pending queries and leaves the others. */
  lemma ClosesOldest(s: Audit, m: Backend)
    ensures Texts(Closes(s.pending, m)) + AfterBackend(s, m).pending == s.pending
  {
  }

  lemma MoveOne(a: seq<Record>, b: seq<Record>)
    requires b != []
    ensures Texts(a + [b[0]]) + Texts(b[1..]) == Texts(a) + Texts(b)
  {
  }

  lemma NextAccounted(s: Machine, step: Step)
    requires Accounted(s)
    ensures Accounted(Next(s, step))
    ensures |Next(s, step).written| + |Next(s, step).taken| >= |s.written| + |s.taken|
  {
    hide Texts, Closes, AfterBackend;
    var t := Next(s, step);
    match step
    case Front(m) =>
      assert t.audit.pending == s.audit.pending + Begin(s.audit, m);
    case Take(m) =>
      ClosesOldest(s.audit, m);
      assert s.taken == [] ==> Texts(s.written) + Texts([]) + s.audit.pending == Texts(s.written) + s.audit.pending;
      assert Texts(s.written) + Texts(t.taken) + t.audit.pending
             == Texts(s.written) + (Texts(t.taken) + t.audit.pending);
    case Write =>
      if s.taken != [] {
        MoveOne(s.written, s.taken);
      }
  }

  /** Under every interleaving, and whatever the server sends, every query begun is
      written, about to be written, or pending: once, and in the order of beginning. */
  lemma {:induction false} NothingLostOrReordered(s: Machine, steps: seq<Step>)
    requires Accounted(s)
    ensures Accounted(Run(s, steps))
    ensures |Run(s, steps).written| + |Run(s, steps).taken| >= |s.written| + |s.taken|
    decreases |steps|
  {
    if steps != [] {
      NextAccounted(s, steps[0]);
      NothingLostOrReordered(Next(s, steps[0]), steps[1..]);
    }
  }

  function Writes(n: nat): seq<Step> { if n == 0 then [] else [Write] + Writes(n - 1) }

  /** What was taken gets written, in order, however much it is. */
  lemma {:induction false} WritesDrain(s: Machine)
    ensures Run(s, Writes(|s.taken|)) == s.(written := s.written + s.taken, taken := [])
    decreases |s.taken|
  {
    if s.taken == [] {
      assert s.written + [] == s.written;
    } else {
      var t := Next(s, Write);
      WritesDrain(t);
      assert Writes(|s.taken|)[1..] == Writes(|t.taken|) && Writes(|s.taken|)[0] == Write;
      assert s.written + [s.taken[0]] + s.taken[1..] == s.written + s.taken;
    }
  }

  /** Once ReadyForQuery was taken, only queries begun after it are ever pending. */
  lemma ReadyLeavesNothing(before: seq<Step>, later: seq<Step>)
    requires Run(START, before).taken == []
    ensures var ready := Next(Run(START, before), Take(ReadyForQuery)); var s := Run(ready, later);
            && |ready.begun| + |s.audit.pending| <= |s.begun|
            && s.audit.pending == s.begun[|s.begun| - |s.audit.pending|..]
  {
    NothingLostOrReordered(START, before);
    var ready := Next(Run(START, before), Take(ReadyForQuery));
    NextAccounted(Run(START, before), Take(ReadyForQuery));
    NothingLostOrReordered(ready, later);
  }

  // ---------------------------------------------------------------- the text current at Bind

  function ObserveAll(s: Audit, ms: seq<Frontend>): Audit
    decreases |ms|
  {
    if ms == [] then s else AfterFrontend(ObserveAll(s, ms[..|ms| - 1]), ms[|ms| - 1])
  }

  predicate SameLookups(a: Audit, b: Audit) { a.prepared == b.prepared && a.portals == b.portals }

  predicate SetsStatement(m: Frontend, name: string) {
    (m.Parse? && m.name == name) || (m.Close? && m.objectType == 'S' && m.objectName == name)
  }

  predicate SetsPortal(m: Frontend, name: string) {
    (m.Bind? && m.destinationPortal == name) || (m.Close? && m.objectType == 'P' && m.objectName == name)
  }

  /** What a message that sets a statement leaves under its name. */
  function TextSet(m: Frontend): string { if m.Parse? then m.query else "" }

  /** A statement name stands for what the last message about it set. */
  lemma {:induction false} StatementKept(s: Audit, ms: seq<Frontend>, p: nat, b: nat, name: string)
    requires p < b <= |ms| && SetsStatement(ms[p], name)
    requires forall k :: p < k < b ==> !SetsStatement(ms[k], name)
    ensures Lookup(ObserveAll(s, ms[..b]).prepared, name) == TextSet(ms[p])
    decreases b
  {
    assert ms[..b][..b - 1] == ms[..b - 1];
    if b > p + 1 {
      StatementKept(s, ms, p, b - 1, name);
    }
  }

  /** Message k leaves the portal as it is: it is not about it, or a Bind that finds no text. */
  predicate LeavesPortal(s: Audit, ms: seq<Frontend>, k: nat, name: string)
    requires k < |ms|
  {
    !SetsPortal(ms[k], name)
    || (ms[k].Bind? && Lookup(ObserveAll(s, ms[..k]).prepared, ms[k].preparedStatement) == "")
  }

  /** A portal keeps the text that its name's last Bind with a text found, and none after a Close. */
  lemma {:induction false} PortalKept(s: Audit, ms: seq<Frontend>, b: nat, e: nat, portal: string, q: string)
    requires b < e <= |ms| && SetsPortal(ms[b], portal)
    requires ms[b].Bind? ==> q != "" && Lookup(ObserveAll(s, ms[..b]).prepared, ms[b].preparedStatement) == q
    requires ms[b].Close? ==> q == ""
    requires forall k :: b < k < e ==> LeavesPortal(s, ms, k, portal)
    ensures Lookup(ObserveAll(s, ms[..e]).portals, portal) == q
    decreases e
  {
    assert ms[..e][..e - 1] == ms[..e - 1];
    if e > b + 1 {
      PortalKept(s, ms, b, e - 1, portal, q);
      assert LeavesPortal(s, ms, e - 1, portal);
    }
  }

  /** An Execute is audited with the SQL its statement name stood for at the Bind that made
      the portal, whatever Parse or Close did to that name afterwards. */
  lemma TextIsTextAtBind(s: Audit, ms: seq<Frontend>, p: nat, b: nat, e: nat)
    requires p < b < e < |ms| && ms[p].Parse? && ms[b].Bind? && ms[e].Execute?
    requires ms[b].preparedStatement == ms[p].name && ms[b].destinationPortal == ms[e].portal
    requires forall k :: p < k < b ==> !SetsStatement(ms[k], ms[p].name)
    requires forall k :: b < k < e ==> LeavesPortal(s, ms, k, ms[e].portal)
    requires ms[p].query != ""
    ensures Begins(ObserveAll(s, ms[..e]), ms[e]) == Some(ms[p].query)
  {
    StatementKept(s, ms, p, b, ms[p].name);
    PortalKept(s, ms, b, e, ms[e].portal, ms[p].query);
  }

  /** An Execute of a closed portal is audited with the unnamed statement, if it is set. */
  lemma ClosedPortalFallsBack(s: Audit, ms: seq<Frontend>, c: nat, p: nat, e: nat)
    requires c < e < |ms| && p < e && ms[c].Close? && ms[e].Execute? && SetsPortal(ms[c], ms[e].portal)
    requires forall k :: c < k < e ==> LeavesPortal(s, ms, k, ms[e].portal)
    requires SetsStatement(ms[p], "") && forall k :: p < k < e ==> !SetsStatement(ms[k], "")
    ensures Begins(ObserveAll(s, ms[..e]), ms[e]) == if TextSet(ms[p]) == "" then None else Some(TextSet(ms[p]))
  {
    StatementKept(s, ms, p, e, "");
    PortalKept(s, ms, c, e, ms[e].portal, "");
  }
}
