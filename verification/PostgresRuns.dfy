/** What the audit has recorded in every run of client, relay and server. */
module PostgresRuns {
  import opened Options
  import opened PostgresAudit
  import opened PostgresRelay
  import opened PostgresOrder

  // ---------------------------------------------------------------- turns and texts

  lemma TurnStep(s: System, a: Action)
    requires Turn(s)
    ensures Turn(Act(s, a))
  {
    hide AfterFrontend, AfterBackend, Begin, SqlOf, Handled, Forget, Closes;
  }

  lemma {:induction false} HandleSnoc(t: Tables, ms: seq<Frontend>, m: Frontend)
    ensures HandleAll(t, ms + [m]) == Handled(HandleAll(t, ms), m)
    ensures SqlOfAll(t, ms + [m]) == SqlOfAll(t, ms) + SqlOf(HandleAll(t, ms), m)
    decreases |ms|
  {
    hide Handled, SqlOf;
    if ms == [] {
      assert ms + [m] == [m] && [m][1..] == [];
      assert SqlOfAll(t, [m]) == SqlOf(t, m) + SqlOfAll(Handled(t, m), []);
      assert HandleAll(t, [m]) == HandleAll(Handled(t, m), []);
    } else {
      assert (ms + [m])[1..] == ms[1..] + [m];
      HandleSnoc(Handled(t, ms[0]), ms[1..], m);
    }
  }

  lemma SqlOfWork(t: Tables, m: Frontend)
    ensures |SqlOf(t, m)| == if IsWork(m) then 1 else 0
  {
  }

  lemma AheadStep(s: System, a: Action)
    requires Turn(s) && Ahead(s)
    ensures Ahead(Act(s, a))
  {
    hide Handled, AfterFrontend, AfterBackend, Begin, SqlOf, Forget, Closes;
    match a
    case Send(m) =>
      HandleSnoc(s.tables, s.toServer, m);
    case Serve(v, gone) =>
      if s.toServer != [] && !v.Skipped? {
        HandledWork(s.tables, s.toServer[0]);
      }
    case _ =>
  }

  lemma HandledWork(t: Tables, m: Frontend)
    ensures IsWork(m) || m.Sync? ==> Handled(t, m) == t
  {
  }

  lemma FaithfulSend(s: System, m: Frontend)
    requires Ahead(s) && Faithful(s) && MaySend(s, m) && !DoSend(s, m).stray
    ensures Faithful(DoSend(s, m))
    ensures |Begin(s.audit, m)| == if IsWork(m) then 1 else 0
  {
    hide Handled, AfterFrontend, Begin, SqlOf;
    HandleSnoc(s.tables, s.toServer, m);
    SqlOfWork(s.expected, m);
  }

  /** Behind a message that ends the client's turn nothing is queued. */
  lemma LastServed(s: System, v: Verdict, gone: Names)
    requires Turn(s) && Books(s) && s.toServer != [] && !v.Skipped?
    requires s.toServer[0].Sync? || (s.toServer[0].Query? && !s.skipping)
    ensures var t := DoServe(s, v, gone);
            t.toServer == [] && |t.begun| == |t.verdicts| && SqlOfAll(t.tables, t.toServer) == []
  {
    hide Forget, Texts;
    assert AwaitsReady(s.toServer[0]) && s.toServer[1..] == [] && Works([]) == 0;
  }

  lemma FaithfulSkips(s: System, v: Verdict, gone: Names)
    requires Books(s) && Faithful(s) && s.toServer != [] && !v.Skipped?
    requires s.skipping && !s.toServer[0].Sync?
    ensures Faithful(DoServe(s, v, gone))
  {
    hide Works, Texts, SqlOfAll, HandleAll;
    NoWorkHere(s.toServer);
  }

  lemma FaithfulLast(s: System, v: Verdict, gone: Names)
    requires Turn(s) && Books(s) && Faithful(s) && s.toServer != [] && !v.Skipped?
    requires s.toServer[0].Sync? || (s.toServer[0].Query? && !s.skipping)
    ensures Faithful(DoServe(s, v, gone))
  {
    hide Handled, Works, Forget, Texts, HandleAll, Turn;
    LastServed(s, v, gone);
    HeadRuns(s.tables, s.toServer);
    hide SqlOfAll;
  }

  lemma HeadRuns(t: Tables, ms: seq<Frontend>)
    requires ms != []
    ensures SqlOfAll(t, ms) == SqlOf(t, ms[0]) + SqlOfAll(Handled(t, ms[0]), ms[1..])
    ensures IsWork(ms[0]) || ms[0].Sync? ==> Handled(t, ms[0]) == t
  {
  }

  lemma FaithfulHandled(s: System, v: Verdict, gone: Names)
    requires Books(s) && Faithful(s) && s.toServer != [] && !v.Skipped?
    requires !s.skipping && !AwaitsReady(s.toServer[0])
    ensures Faithful(DoServe(s, v, gone))
  {
    hide Handled, Works, Forget, Texts, HandleAll, SqlOfAll;
    HeadRuns(s.tables, s.toServer);
  }

  lemma FaithfulServe(s: System, v: Verdict, gone: Names)
    requires Turn(s) && Books(s) && Faithful(s) && s.toServer != [] && !v.Skipped?
    ensures Faithful(DoServe(s, v, gone))
  {
    hide Turn, Books, Faithful, DoServe;
    var m := s.toServer[0];
    if m.Sync? || (m.Query? && !s.skipping) {
      FaithfulLast(s, v, gone);
    } else if s.skipping {
      FaithfulSkips(s, v, gone);
    } else {
      FaithfulHandled(s, v, gone);
    }
  }

  // ---------------------------------------------------------------- after the first race

  /** Query number n began while ReadyForQuery was forwarded but not observed: it is going
      to be written, or has been written, as flushed, and the server answers it. */
  ghost predicate Raced(s: System, n: nat) {
    && Books(s) && n <= |s.verdicts| && n < |s.begun|
    && (n == |s.verdicts| ==> !s.skipping)
    && (n < |s.verdicts| ==> !s.verdicts[n].Skipped?)
    && (n < |s.written| ==> s.written[n].outcome == Flushed)
    && (|s.written| <= n ==> s.held == Some(ReadyForQuery))
  }

  lemma SendRaced(s: System, m: Frontend, n: nat)
    requires MaySend(s, m) && Raced(s, n)
    requires |Begin(s.audit, m)| == if IsWork(m) then 1 else 0
    ensures Raced(DoSend(s, m), n)
  {
    hide Works, Texts;
    WorksConcat(s.toServer, m);
    assert DoSend(s, m).audit.pending == s.audit.pending + Begin(s.audit, m);
  }

  lemma SendStartsRace(s: System, m: Frontend)
    requires Orderly(s) && MaySend(s, m) && IsWork(m) && s.held == Some(ReadyForQuery)
    requires |Begin(s.audit, m)| == if IsWork(m) then 1 else 0
    ensures Raced(DoSend(s, m), |s.begun|)
  {
    hide Works, Texts, Replies;
    WorksConcat(s.toServer, m);
    assert DoSend(s, m).audit.pending == s.audit.pending + Begin(s.audit, m);
  }

  lemma ServeRaced(s: System, v: Verdict, gone: Names, n: nat)
    requires s.toServer != [] && !v.Skipped? && Raced(s, n)
    ensures Raced(DoServe(s, v, gone), n)
  {
    hide Works, Texts;
    NoWorkHere(s.toServer);
  }

  lemma ObserveRaced(s: System, n: nat)
    requires s.held.Some? && Raced(s, n)
    ensures Raced(DoObserve(s), n)
  {
    hide Works, Texts, Books;
    ObserveBooks(s);
    var t := DoObserve(s);
    if |s.written| <= n {
      FlushesRest(s, n);
    } else {
      hide Closes, AfterBackend;
      assert t.written[n] == s.written[n] && |t.written| >= |s.written|;
    }
  }

  lemma FlushesRest(s: System, n: nat)
    requires s.held == Some(ReadyForQuery) && Books(s) && |s.written| <= n < |s.begun|
    ensures n < |DoObserve(s).written| && DoObserve(s).written[n].outcome == Flushed
  {
    hide Works;
    var t := DoObserve(s);
    assert t.written == s.written + FlushAll(s.audit.pending) && |s.begun| == |s.written| + |s.audit.pending|;
    assert t.written[n] == FlushAll(s.audit.pending)[n - |s.written|];
  }

  // ---------------------------------------------------------------- all runs

  ghost predicate InOrder(s: System) {
    Books(s) && Faithful(s) && (if s.race.None? then Orderly(s) else Raced(s, s.race.value))
  }

  ghost predicate Invariant(s: System) {
    Turn(s) && Ahead(s) && (!s.stray ==> InOrder(s))
  }

  lemma SendInvariant(s: System, m: Frontend)
    requires Invariant(s) && MaySend(s, m) && !DoSend(s, m).stray
    ensures InOrder(DoSend(s, m))
  {
    hide Orderly, Raced, DoSend, Turn, Ahead, MaySend;
    RaceAfterSend(s, m);
    FaithfulSend(s, m);
    if s.race.Some? {
      SendRaced(s, m, s.race.value);
    } else if IsWork(m) && s.held == Some(ReadyForQuery) {
      SendStartsRace(s, m);
    } else {
      SendOrderly(s, m);
    }
    OrderlyBooks(DoSend(s, m));
  }

  lemma OrderlyBooks(s: System)
    requires if s.race.None? then Orderly(s) else Raced(s, s.race.value)
    ensures Books(s)
  {
  }

  lemma ServeInvariant(s: System, v: Verdict, gone: Names)
    requires Invariant(s) && !s.stray && s.toServer != [] && !v.Skipped?
    ensures InOrder(DoServe(s, v, gone))
  {
    hide Orderly, Raced, DoServe, Turn, Ahead, Books, Faithful;
    RaceKept(s, v, gone);
    FaithfulServe(s, v, gone);
    if s.race.Some? {
      ServeRaced(s, v, gone, s.race.value);
    } else {
      ServeOrderly(s, v, gone);
    }
    OrderlyBooks(DoServe(s, v, gone));
  }

  lemma ForwardInvariant(s: System)
    requires Invariant(s) && !s.stray && s.held.None? && s.toProxy != []
    ensures InOrder(DoForward(s))
  {
    hide Orderly, Raced, Turn, Ahead, SqlOfAll, Works, Texts;
    if s.race.Some? {
      ForwardRaced(s, s.race.value);
    } else {
      ForwardOrderly(s);
    }
  }

  lemma ObserveInvariant(s: System)
    requires Invariant(s) && !s.stray && s.held.Some?
    ensures InOrder(DoObserve(s))
  {
    hide Orderly, Raced, Turn, Ahead, SqlOfAll, Works, Texts;
    ObserveBooks(s);
    if s.race.Some? {
      ObserveRaced(s, s.race.value);
    } else {
      ObserveOrderly(s);
    }
  }

  lemma StepInvariant(s: System, a: Action)
    requires Invariant(s)
    ensures Invariant(Act(s, a))
  {
    hide Orderly, Raced, Turn, Ahead, Books, Faithful, DoSend, DoServe, DoForward, DoObserve, MaySend;
    TurnStep(s, a);
    AheadStep(s, a);
    StrayKept(s, a);
    if !Act(s, a).stray {
      match a
      case Send(m) => if MaySend(s, m) { SendInvariant(s, m); }
      case Serve(v, gone) => if s.toServer != [] && !v.Skipped? { ServeInvariant(s, v, gone); }
      case Forward => if s.held.None? && s.toProxy != [] { ForwardInvariant(s); }
      case Observe => if s.held.Some? { ObserveInvariant(s); }
    }
  }

  lemma StrayKept(s: System, a: Action)
    ensures s.stray ==> Act(s, a).stray
  {
  }

  lemma ForwardRaced(s: System, n: nat)
    requires s.held.None? && s.toProxy != [] && Raced(s, n)
    ensures Raced(DoForward(s), n)
  {
  }

  lemma RaceAfterSend(s: System, m: Frontend)
    ensures DoSend(s, m).race == if s.race.None? && IsWork(m) && s.held == Some(ReadyForQuery)
                                 then Some(|s.begun|) else s.race
    ensures s.stray ==> DoSend(s, m).stray
  {
  }

  lemma RaceKept(s: System, v: Verdict, gone: Names)
    requires s.toServer != [] && !v.Skipped?
    ensures DoServe(s, v, gone).race == s.race && DoServe(s, v, gone).stray == s.stray
  {
  }

  lemma {:induction false} ReachInvariant(s: System, actions: seq<Action>)
    requires Invariant(s)
    ensures Invariant(Reach(s, actions))
    decreases |actions|
  {
    hide Invariant, Act;
    if actions != [] {
      StepInvariant(s, actions[0]);
      ReachInvariant(Act(s, actions[0]), actions[1..]);
    }
  }

  lemma BeginningOrderly()
    ensures Invariant(BEGINNING)
  {
  }

  /** As long as no Execute strays and no query begins between forwarding and observing a
      ReadyForQuery, every record of an answered query carries the SQL the server ran and
      the outcome it had, and what was skipped is flushed. */
  lemma RepliesFindTheirQueries(actions: seq<Action>)
    requires !Reach(BEGINNING, actions).stray && Reach(BEGINNING, actions).race.None?
    ensures var s := Reach(BEGINNING, actions);
            Attributed(s) && (Quiescent(s) ==> AllRight(s) && |s.verdicts| == |s.begun|)
  {
    hide SqlOfAll, Turn, Ahead;
    BeginningOrderly();
    ReachInvariant(BEGINNING, actions);
    var s := Reach(BEGINNING, actions);
    if Quiescent(s) {
      assert Unobserved(s) == [];
    }
  }

  lemma RacedIsWrong(s: System, n: nat)
    requires Raced(s, n) && Quiescent(s)
    ensures !AllRight(s)
  {
    hide Texts;
    assert Works(s.toServer) == 0;
  }

  /** If no Execute strays, the audit is right once all messages are handled exactly when
      there was no race. */
  lemma AttributedIffNoRace(actions: seq<Action>)
    requires Quiescent(Reach(BEGINNING, actions)) && !Reach(BEGINNING, actions).stray
    ensures AllRight(Reach(BEGINNING, actions)) <==> Reach(BEGINNING, actions).race.None?
  {
    hide Reach, AllRight, Turn, Ahead, Faithful, Orderly, Raced;
    var s := Reach(BEGINNING, actions);
    if s.race.None? {
      RepliesFindTheirQueries(actions);
    } else {
      BeginningOrderly();
      ReachInvariant(BEGINNING, actions);
      RacedIsWrong(s, s.race.value);
    }
  }

  // ---------------------------------------------------------------- running on

  lemma {:induction false} ReachSnoc(s: System, actions: seq<Action>, a: Action)
    ensures Reach(s, actions + [a]) == Act(Reach(s, actions), a)
    decreases |actions|
  {
    hide Act;
    if actions == [] {
      assert actions + [a] == [a] && [a][1..] == [];
    } else {
      assert (actions + [a])[1..] == actions[1..] + [a];
      ReachSnoc(Act(s, actions[0]), actions[1..], a);
    }
  }

  lemma {:induction false} ReachConcat(s: System, a: seq<Action>, b: seq<Action>)
    ensures Reach(s, a + b) == Reach(Reach(s, a), b)
    decreases |a|
  {
    hide Act;
    if a == [] {
      assert a + b == b;
    } else {
      assert (a + b)[1..] == a[1..] + b;
      ReachConcat(Act(s, a[0]), a[1..], b);
    }
  }

  /** Nothing is under way, and the client may send. */
  predicate Quiet(s: System) {
    Quiescent(s) && !s.awaiting
  }

  lemma SendQuiet(s: System, m: Frontend)
    requires Quiet(s) && MaySend(s, m)
    ensures Act(s, Send(m)) == s.(audit := AfterFrontend(s.audit, m), toServer := [m], awaiting := AwaitsReady(m),
                                  expected := Handled(s.expected, m), sent := s.sent + [m],
                                  begun := s.begun + Begin(s.audit, m),
                                  stray := s.stray || Begin(s.audit, m) != SqlOf(s.expected, m))
  {
    hide AfterFrontend, Handled, Begin, SqlOf;
  }

  lemma ServeIs(s: System, v: Verdict, gone: Names)
    requires s.toServer != [] && !v.Skipped?
    ensures Act(s, Serve(v, gone)) == DoServe(s, v, gone)
  {
    hide DoServe;
  }

  /** A reply is passed on and observed. */
  lemma PassFirst(s: System)
    requires s.held.None? && s.toProxy != []
    ensures Act(Act(s, Forward), Observe)
            == s.(toProxy := s.toProxy[1..], awaiting := s.awaiting && s.toProxy[0] != ReadyForQuery,
                  audit := AfterBackend(s.audit, s.toProxy[0]),
                  written := s.written + Closes(s.audit.pending, s.toProxy[0]))
  {
    hide AfterBackend, Closes, DoSend, DoServe;
  }

  lemma NothingToPass(s: System)
    requires s.held.None? && s.toProxy == []
    ensures Act(Act(s, Forward), Observe) == s
  {
    hide DoSend, DoServe, DoObserve, DoForward;
  }

  // ---------------------------------------------------------------- the race does happen

  /** A run one action longer. */
  lemma Then(run: seq<Action>, s: System, a: Action) returns (longer: seq<Action>, t: System)
    requires s == Reach(BEGINNING, run)
    ensures longer == run + [a] && t == Act(s, a) == Reach(BEGINNING, longer)
  {
    longer, t := run + [a], Act(s, a);
    ReachSnoc(BEGINNING, run, a);
  }

  const NONE_GONE := Names({}, {})

  /** A run of the proxy around one simple query, up to the forwarded ReadyForQuery. */
  lemma FirstQuery(q: string) returns (run: seq<Action>, s: System)
    ensures s == Reach(BEGINNING, run)
    ensures s == BEGINNING.(written := [Record(q, Completed(1))], begun := [q], verdicts := [Done(1)],
                            ran := [Some(q)], sent := [Query(q)], held := Some(ReadyForQuery))
  {
    assert Reach(BEGINNING, []) == BEGINNING;
    hide Reach, Act;
    SendQuiet(BEGINNING, Query(q));
    run, s := Then([], BEGINNING, Send(Query(q)));
    assert s == BEGINNING.(audit := Audit(map[], map[], [q]), toServer := [Query(q)], sent := [Query(q)],
                           awaiting := true, begun := [q]);
    ServeIs(s, Done(1), NONE_GONE);
    run, s := Then(run, s, Serve(Done(1), NONE_GONE));
    assert s.tables == NO_TABLES && s.toServer == [] && s.toProxy == [CommandComplete(1), ReadyForQuery];
    hide DoServe;
    PassFirst(s);
    run, s := Then(run, s, Forward);
    run, s := Then(run, s, Observe);
    assert s.written == [Record(q, Completed(1))] && s.toProxy == [ReadyForQuery];
    ForwardIs(s);
    run, s := Then(run, s, Forward);
  }

  lemma ForwardIs(s: System)
    requires s.held.None? && s.toProxy != []
    ensures Act(s, Forward) == DoForward(s)
  {
    hide DoForward;
  }

  /** A client that does wait can run into the race: its second query is begun before the
      ReadyForQuery it has already received is observed, and is written as flushed. */
  lemma WaitingClientCanRace(q1: string, q2: string) returns (run: seq<Action>)
    ensures var s := Reach(BEGINNING, run);
            && Quiescent(s) && s.race == Some(1) && !s.stray && s.verdicts == [Done(1), Done(2)]
            && s.written == [Record(q1, Completed(1)), Record(q2, Flushed)]
  {
    var s: System;
    run, s := FirstQuery(q1);
    run, s := Then(run, s, Send(Query(q2)));
    assert s.audit.pending == [q2] && s.toServer == [Query(q2)] && s.toProxy == [];
    run, s := Then(run, s, Observe);
    assert s.written == [Record(q1, Completed(1)), Record(q2, Flushed)] && s.audit.pending == [];
    run, s := LateReply(run, s, Query(q2));
  }

  /** The reply to a query no longer pending is observed without a record. */
  lemma LateReply(run: seq<Action>, s: System, m: Frontend) returns (longer: seq<Action>, t: System)
    requires s == Reach(BEGINNING, run) && m.Query? && s.toServer == [m] && !s.skipping
    requires s.toProxy == [] && s.held.None? && s.audit.pending == []
    ensures t == Reach(BEGINNING, longer) && Quiescent(t)
    ensures t.written == s.written && t.race == s.race && t.stray == s.stray && t.verdicts == s.verdicts + [Done(2)]
  {
    hide Reach, DoSend, Forget, Handled, AfterFrontend;
    longer, t := Then(run, s, Serve(Done(2), NONE_GONE));
    assert t.toProxy == [CommandComplete(2), ReadyForQuery] && t.toServer == [] && t.held.None?;
    longer, t := UnrecordedReply(longer, t);
    assert t.toProxy == [ReadyForQuery];
    longer, t := UnrecordedReply(longer, t);
  }

  /** With nothing pending, a message passed on and observed leaves no record. */
  lemma UnrecordedReply(run: seq<Action>, s: System) returns (longer: seq<Action>, t: System)
    requires s == Reach(BEGINNING, run) && s.held.None? && s.toProxy != [] && s.audit.pending == []
    ensures t == Reach(BEGINNING, longer)
    ensures t == s.(toProxy := s.toProxy[1..], awaiting := s.awaiting && s.toProxy[0] != ReadyForQuery)
  {
    hide Reach, Act;
    PassFirst(s);
    longer, t := Then(run, s, Forward);
    longer, t := Then(longer, t, Observe);
  }
}
