/** When the SQL text the audit has for a statement or portal is the server's: the server
    skips messages behind an error, the audit does not. */
module PostgresLookups {
  import opened Options
  import opened PostgresAudit
  import opened PostgresRelay
  import opened PostgresRuns

  // ---------------------------------------------------------------- one message at a time

  /** A message, with its reply, before the next one is sent. */
  function Exchange(m: Frontend, v: Verdict): seq<Action> {
    [Send(m), Serve(v, NONE_GONE), Forward, Observe]
  }

  lemma ReachFour(s: System, a: Action, b: Action, c: Action, d: Action)
    ensures Reach(s, [a, b, c, d]) == Act(Act(Act(Act(s, a), b), c), d)
  {
    hide Act;
    ReachSnoc(s, [a, b, c], d);
    ReachSnoc(s, [a, b], c);
    ReachSnoc(s, [a], b);
    ReachSnoc(s, [], a);
    assert [a, b, c, d] == [a, b, c] + [d] && [a, b, c] == [a, b] + [c] && [a, b] == [a] + [b] && [] + [a] == [a];
  }

  lemma ExchangeSteps(s: System, m: Frontend, v: Verdict)
    ensures Reach(s, Exchange(m, v)) == Act(Act(Act(Act(s, Send(m)), Serve(v, NONE_GONE)), Forward), Observe)
  {
    hide Reach, Act;
    ReachFour(s, Send(m), Serve(v, NONE_GONE), Forward, Observe);
  }

  lemma NoWorkBegun(a: Audit, t: Tables, m: Frontend)
    requires !IsWork(m)
    ensures Begin(a, m) == SqlOf(t, m) == [] && AfterFrontend(a, m).pending == a.pending
  {
  }

  /** A Parse, Bind or Close reaches the audit, and the server unless it skips. */
  lemma TableExchange(s: System, m: Frontend)
    requires Quiet(s) && MaySend(s, m) && (m.Parse? || m.Bind? || m.Close?)
    ensures var t := Reach(s, Exchange(m, Done(0)));
            t == s.(audit := AfterFrontend(s.audit, m), expected := Handled(s.expected, m), sent := s.sent + [m],
                    tables := if s.skipping then s.tables else Handled(s.tables, m))
    ensures AfterFrontend(s.audit, m).pending == s.audit.pending
  {
    hide Reach, Handled, AfterFrontend, Forget, Begin, SqlOf, MaySend;
    NoWorkBegun(s.audit, s.expected, m);
    ExchangeSteps(s, m, Done(0));
    hide Act;
    SendQuiet(s, m);
    ServeIs(Act(s, Send(m)), Done(0), NONE_GONE);
    var s2 := Act(Act(s, Send(m)), Serve(Done(0), NONE_GONE));
    assert s2.toServer == [] && s2.toProxy == if s.skipping then [] else [OtherBackend];
    hide DoServe;
    if s.skipping {
      NothingToPass(s2);
    } else {
      PassFirst(s2);
    }
  }

  /** An Execute that the server handles, when nothing was pending. */
  lemma ExecuteExchange(s: System, portal: string, v: Verdict)
    requires Quiet(s) && MaySend(s, Execute(portal)) && !s.skipping && !v.Skipped? && s.audit.pending == []
    ensures var t := Reach(s, Exchange(Execute(portal), v)); var begin := Begin(s.audit, Execute(portal));
            && t == s.(sent := s.sent + [Execute(portal)], begun := s.begun + begin, written := t.written,
                       verdicts := s.verdicts + [v], ran := s.ran + [Some(Lookup(s.tables.portals, portal))],
                       skipping := v.Error?, stray := s.stray || begin != SqlOf(s.expected, Execute(portal)))
            && t.written == s.written + if begin == [] then [] else [Record(begin[0], OutcomeOf(v))]
  {
    hide Reach, Begins, SqlOf, MaySend;
    var m := Execute(portal);
    ExchangeSteps(s, m, v);
    hide Act;
    SendQuiet(s, m);
    ServeIs(Act(s, Send(m)), v, NONE_GONE);
    var s2 := Act(Act(s, Send(m)), Serve(v, NONE_GONE));
    assert s2.toServer == [] && s2.toProxy == [ReplyFor(v)] && s2.audit.pending == Begin(s.audit, m);
    PassFirst(s2);
  }

  /** A Sync ends skipping, and the client counts on what the server kept. */
  lemma SyncExchange(s: System)
    requires Quiet(s) && s.audit.pending == []
    ensures Reach(s, Exchange(Sync, Done(0))) == s.(sent := s.sent + [Sync], skipping := false, expected := s.tables)
  {
    hide Reach, Handled, AfterFrontend, AfterBackend, Begin, SqlOf, Closes;
    SyncIsQuiet(s.audit);
    NoWorkBegun(s.audit, s.expected, Sync);
    ExchangeSteps(s, Sync, Done(0));
    hide Act;
    SendQuiet(s, Sync);
    ServeIs(Act(s, Send(Sync)), Done(0), NONE_GONE);
    var s2 := Act(Act(s, Send(Sync)), Serve(Done(0), NONE_GONE));
    assert s2.tables == s.tables && s2.toProxy == [ReadyForQuery] && s2.audit == s.audit;
    hide DoServe;
    PassFirst(s2);
  }

  lemma SyncIsQuiet(a: Audit)
    requires a.pending == []
    ensures AfterFrontend(a, Sync) == a == AfterBackend(a, ReadyForQuery) && Closes(a.pending, ReadyForQuery) == []
  {
  }

  // ---------------------------------------------------------------- one more statement

  /** Between two groups of messages. */
  predicate Idle(s: System) {
    Quiet(s) && !s.skipping && s.audit.pending == []
  }

  /** Executing an open portal, or binding a live statement to a portal and executing it. */
  datatype Continuation = Portal(portal: string) | Statement(statement: string, portal: string)

  predicate Possible(t: Tables, c: Continuation) {
    if c.Portal? then c.portal in t.portals else Lookup(t.prepared, c.statement) != ""
  }

  function RunOne(c: Continuation, v: Verdict): seq<Action> {
    (if c.Portal? then [] else Exchange(Bind(c.portal, c.statement), Done(0)))
    + (Exchange(Execute(c.portal), v) + Exchange(Sync, Done(0)))
  }

  /** The text the audit would begin the continuation's Execute with. */
  function AuditText(a: Audit, c: Continuation): Option<string> {
    Begins(if c.Portal? then a else AfterFrontend(a, Bind(c.portal, c.statement)), Execute(c.portal))
  }

  function ServerText(t: Tables, c: Continuation): string {
    if c.Portal? then Lookup(t.portals, c.portal) else Lookup(t.prepared, c.statement)
  }

  /** For every open portal and every live statement, the audit has the server's text. */
  ghost predicate LookupsAgree(a: Audit, t: Tables) {
    forall c :: Possible(t, c) ==> AuditText(a, c) == Some(ServerText(t, c))
  }

  /** In a state between groups without a race or a stray Execute so far, all is recorded. */
  lemma IdleComplete(actions: seq<Action>)
    requires var s := Reach(BEGINNING, actions); Idle(s) && !s.stray && s.race.None?
    ensures var s := Reach(BEGINNING, actions);
            Attributed(s) && |s.written| == |s.verdicts| == |s.begun| && s.expected == s.tables
  {
    hide SqlOfAll, Attributed;
    RepliesFindTheirQueries(actions);
    BeginningOrderly();
    ReachInvariant(BEGINNING, actions);
  }

  /** One Execute behind a complete record is recorded right exactly when its texts agree. */
  lemma OneMore(s: System, t: System, begin: seq<string>, v: Verdict, text: string)
    requires Attributed(s) && |s.written| == |s.verdicts| == |s.begun| && !v.Skipped? && |begin| <= 1
    requires t.begun == s.begun + begin && t.verdicts == s.verdicts + [v] && t.ran == s.ran + [Some(text)]
    requires t.written == s.written + if begin == [] then [] else [Record(begin[0], OutcomeOf(v))]
    ensures AllRight(t) <==> begin == [text]
  {
    var n := |s.verdicts|;
    assert t.verdicts[n] == v && t.ran[n] == Some(text);
    if begin != [] {
      assert t.written[n] == Record(begin[0], OutcomeOf(v)) && t.begun[n] == begin[0];
    }
  }

  /** Executing an open portal from an idle state. */
  lemma OnePortal(s: System, portal: string, v: Verdict)
    requires Idle(s) && Attributed(s) && |s.written| == |s.verdicts| == |s.begun|
    requires !v.Skipped? && portal in s.expected.portals
    ensures AllRight(Reach(s, Exchange(Execute(portal), v) + Exchange(Sync, Done(0))))
            <==> Begins(s.audit, Execute(portal)) == Some(Lookup(s.tables.portals, portal))
  {
    hide Reach, Attributed, AllRight, Begins;
    ReachConcat(s, Exchange(Execute(portal), v), Exchange(Sync, Done(0)));
    ExecuteExchange(s, portal, v);
    var t := Reach(s, Exchange(Execute(portal), v));
    SyncExchange(t);
    var u := Reach(t, Exchange(Sync, Done(0)));
    OneMore(s, u, Begin(s.audit, Execute(portal)), v, Lookup(s.tables.portals, portal));
  }

  /** One more statement, whatever its outcome, is recorded with the SQL the server runs for
      it exactly when the audit has the server's text for it. */
  lemma OneStatementIff(actions: seq<Action>, c: Continuation, v: Verdict)
    requires var s := Reach(BEGINNING, actions);
             Idle(s) && !s.stray && s.race.None? && Possible(s.tables, c) && !v.Skipped?
    ensures var s := Reach(BEGINNING, actions);
            AllRight(Reach(s, RunOne(c, v))) <==> AuditText(s.audit, c) == Some(ServerText(s.tables, c))
  {
    hide Reach, Attributed, AllRight, Begins;
    var s := Reach(BEGINNING, actions);
    IdleComplete(actions);
    var last := Exchange(Execute(c.portal), v) + Exchange(Sync, Done(0));
    if c.Portal? {
      assert RunOne(c, v) == last;
      OnePortal(s, c.portal, v);
    } else {
      var m := Bind(c.portal, c.statement);
      TableExchange(s, m);
      ReachConcat(s, Exchange(m, Done(0)), last);
      var t := Reach(s, Exchange(m, Done(0)));
      SameLedger(s, t);
      OnePortal(t, c.portal, v);
    }
  }

  lemma SameLedger(s: System, t: System)
    requires t.written == s.written && t.begun == s.begun && t.verdicts == s.verdicts && t.ran == s.ran
    ensures Attributed(t) == Attributed(s)
  {
  }

  /** From between two groups, every one-statement continuation is recorded right if and only
      if the audit's lookups agree with the server's. */
  lemma ContinuationsRightIff(actions: seq<Action>)
    requires var s := Reach(BEGINNING, actions); Idle(s) && !s.stray && s.race.None?
    ensures var s := Reach(BEGINNING, actions);
            (forall c, v: Verdict :: Possible(s.tables, c) && !v.Skipped? ==> AllRight(Reach(s, RunOne(c, v))))
            <==> LookupsAgree(s.audit, s.tables)
  {
    hide Reach, AllRight, Idle, AuditText, ServerText, Possible, RunOne;
    var s := Reach(BEGINNING, actions);
    forall c, v: Verdict | Possible(s.tables, c) && !v.Skipped?
      ensures AllRight(Reach(s, RunOne(c, v))) <==> AuditText(s.audit, c) == Some(ServerText(s.tables, c))
    {
      OneStatementIff(actions, c, v);
    }
    forall c | Possible(s.tables, c)
      ensures AllRight(Reach(s, RunOne(c, Done(0)))) <==> AuditText(s.audit, c) == Some(ServerText(s.tables, c))
    {
    }
  }

  // ---------------------------------------------------------------- a skipped Parse

  const BIND := Bind("", "")
  const EXECUTE := Execute("")

  lemma Joined(run: seq<Action>, m: Frontend, v: Verdict, s: System) returns (longer: seq<Action>)
    requires s == Reach(BEGINNING, run)
    ensures Reach(BEGINNING, longer) == Reach(s, Exchange(m, v))
  {
    longer := run + Exchange(m, v);
    ReachConcat(BEGINNING, run, Exchange(m, v));
  }

  /** A statement is parsed, its first execution fails, and a new Parse of its name is skipped. */
  lemma ParseSkipped(a: string, b: string) returns (run: seq<Action>, s: System)
    requires a != ""
    ensures s == Reach(BEGINNING, run) && Idle(s) && s.race.None? && !s.stray
    ensures s.audit == Audit(map["" := b], map["" := a], [])
    ensures s.tables == s.expected == Tables(map["" := a], map["" := a])
    ensures s.begun == [a] && s.written == [Record(a, Failed("failed"))]
    ensures s.verdicts == [Error("failed")] && s.ran == [Some(a)]
  {
    hide Reach;
    run := [];
    BeginningReached();
    TableExchange(BEGINNING, Parse("", a));
    run := Joined(run, Parse("", a), Done(0), BEGINNING);
    s := Reach(BEGINNING, run);
    SyncExchange(s);
    run := Joined(run, Sync, Done(0), s);
    s := Reach(BEGINNING, run);
    TableExchange(s, BIND);
    run := Joined(run, BIND, Done(0), s);
    s := Reach(BEGINNING, run);
    assert s.expected == s.tables == Tables(map["" := a], map["" := a]) && s.audit.portals == map["" := a];
    ExecuteExchange(s, "", Error("failed"));
    run := Joined(run, EXECUTE, Error("failed"), s);
    s := Reach(BEGINNING, run);
    TableExchange(s, Parse("", b));
    run := Joined(run, Parse("", b), Done(0), s);
    s := Reach(BEGINNING, run);
    assert s.audit.prepared == map["" := b];
    SyncExchange(s);
    run := Joined(run, Sync, Done(0), s);
    s := Reach(BEGINNING, run);
  }

  lemma BeginningReached()
    ensures Reach(BEGINNING, []) == BEGINNING
  {
  }

  /** A waiting client, only live statements and open portals, no race: and still the record
      of the second, successful Execute names a text the server never ran. */
  lemma SkippedParseMisleads(a: string, b: string) returns (run: seq<Action>)
    requires a != "" && b != "" && a != b
    ensures var s := Reach(BEGINNING, run);
            && Idle(s) && s.race.None? && s.stray && !Attributed(s)
            && s.written == [Record(a, Failed("failed")), Record(b, Completed(1))]
            && s.verdicts == [Error("failed"), Done(1)] && s.ran == [Some(a), Some(a)]
  {
    hide Reach;
    var s: System;
    run, s := ParseSkipped(a, b);
    TableExchange(s, BIND);
    run := Joined(run, BIND, Done(0), s);
    s := Reach(BEGINNING, run);
    assert s.tables.portals == s.expected.portals == map["" := a] && s.audit.portals == map["" := b];
    ExecuteExchange(s, "", Done(1));
    run := Joined(run, EXECUTE, Done(1), s);
    s := Reach(BEGINNING, run);
    assert s.written[1] == Record(b, Completed(1)) && s.ran[1] == Some(a);
    SyncExchange(s);
    run := Joined(run, Sync, Done(0), s);
  }
}
