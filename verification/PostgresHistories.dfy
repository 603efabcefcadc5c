/** Which scripts of client messages can stray at all: a server that answers each message at
    once, and only chooses what fails and what it forgets, shows all there is. */
module PostgresHistories {
  import opened PostgresAudit
  import opened PostgresRelay
  import opened PostgresOrder
  import opened PostgresRuns

  /** Whether the server fails a message, if it is an Execute it handles, and what it forgets,
      if the message ends a group. */
  datatype Choice = Choice(fails: bool, gone: Names)

  /** The server's tables, whether it skips, the tables the client counts on, and whether some
      Execute was to be begun with another text than the client counted on. */
  datatype Count = Count(tables: Tables, skipping: bool, expected: Tables, strays: bool)

  const FIRST := Count(NO_TABLES, false, NO_TABLES, false)

  function NextCount(c: Count, a: Audit, m: Frontend, x: Choice): Count {
    var strays := c.strays || Begin(a, m) != SqlOf(c.expected, m);
    var left := Forget(c.tables, x.gone);
    if m.Sync? || (m.Query? && !c.skipping) then Count(left, false, left, strays)
    else if c.skipping then Count(c.tables, true, Handled(c.expected, m), strays)
    else Count(Handled(c.tables, m), m.Execute? && x.fails, Handled(c.expected, m), strays)
  }

  /** The count after a script under a history of choices, one for each message. */
  function CountOf(ms: seq<Frontend>, h: seq<Choice>): Count
    requires |h| == |ms|
  {
    if ms == [] then FIRST
    else
      var n := |ms| - 1;
      NextCount(CountOf(ms[..n], h[..n]), ObserveAll(NO_AUDIT, ms[..n]), ms[n], h[n])
  }

  /** A Query among skipped messages is never answered. */
  predicate Stuck(ms: seq<Frontend>, c: Count) {
    ms != [] && ms[|ms| - 1].Query? && c.skipping
  }

  /** A waiting client that keeps to what is live can send the script under the history. */
  predicate Allowed(ms: seq<Frontend>, h: seq<Choice>)
    requires |h| == |ms|
  {
    ms == [] || (var n := |ms| - 1; var c := CountOf(ms[..n], h[..n]);
                 Allowed(ms[..n], h[..n]) && !Stuck(ms[..n], c) && MayAsk(c.expected, ms[n]))
  }

  lemma CountSnoc(ms: seq<Frontend>, h: seq<Choice>, m: Frontend, x: Choice)
    requires |h| == |ms|
    ensures CountOf(ms + [m], h + [x]) == NextCount(CountOf(ms, h), ObserveAll(NO_AUDIT, ms), m, x)
    ensures Allowed(ms + [m], h + [x])
            <==> Allowed(ms, h) && !Stuck(ms, CountOf(ms, h)) && MayAsk(CountOf(ms, h).expected, m)
    ensures ObserveAll(NO_AUDIT, ms + [m]) == AfterFrontend(ObserveAll(NO_AUDIT, ms), m)
  {
    hide NextCount, AfterFrontend, MayAsk;
    assert (ms + [m])[..|ms|] == ms && (h + [x])[..|ms|] == h;
  }

  lemma LookupsDecide(a: Audit, b: Audit, m: Frontend, c: Count, x: Choice)
    requires SameLookups(a, b)
    ensures SameLookups(AfterFrontend(a, m), AfterFrontend(b, m)) && Begin(a, m) == Begin(b, m)
    ensures NextCount(c, a, m, x) == NextCount(c, b, m, x)
  {
  }

  // ---------------------------------------------------------------- from runs to histories

  /** What the client itself counted on before its turn ended, if it has. */
  function OwnCount(ms: seq<Frontend>, g: seq<Choice>): Tables
    requires |g| == |ms|
  {
    if ms == [] then NO_TABLES
    else var n := |ms| - 1; Handled(CountOf(ms[..n], g[..n]).expected, ms[n])
  }

  /** A history of all messages sent, those still queued included. */
  ghost predicate Fits(s: System, g: seq<Choice>) {
    && |g| == |s.sent| && Allowed(s.sent, g)
    && CountOf(s.sent, g).strays == s.stray
    && s.expected == (if s.awaiting && s.toServer != [] then OwnCount(s.sent, g) else CountOf(s.sent, g).expected)
    && (Stuck(s.sent, CountOf(s.sent, g)) ==> s.awaiting)
  }

  ghost predicate Served(s: System, h: seq<Choice>) {
    && |h| <= |s.sent| && s.toServer == s.sent[|h|..]
    && CountOf(s.sent[..|h|], h).tables == s.tables && CountOf(s.sent[..|h|], h).skipping == s.skipping
  }

  /** The choices made so far are a history of what was served, and however it goes on, the
      history fits. */
  ghost predicate Traced(s: System, h: seq<Choice>) {
    && Served(s, h) && Turn(s)
    && SameLookups(s.audit, ObserveAll(NO_AUDIT, s.sent))
    && (s.awaiting ==> s.sent != [] && AwaitsReady(s.sent[|s.sent| - 1]))
    && (forall g :: |g| == |s.sent| && h <= g ==> Fits(s, g))
  }

  lemma FitsSend(s: System, m: Frontend, g: seq<Choice>, x: Choice)
    requires Fits(s, g) && MaySend(s, m) && SameLookups(s.audit, ObserveAll(NO_AUDIT, s.sent))
    ensures Fits(DoSend(s, m), g + [x])
  {
    hide AfterFrontend, Handled, Begin, SqlOf, Forget, MayAsk, ObserveAll, CountOf, Allowed;
    CountSnoc(s.sent, g, m, x);
    LookupsDecide(s.audit, ObserveAll(NO_AUDIT, s.sent), m, CountOf(s.sent, g), x);
    NextFacts(CountOf(s.sent, g), s.audit, m, x);
    hide NextCount;
    assert (s.sent + [m])[..|s.sent|] == s.sent && (g + [x])[..|s.sent|] == g;
  }

  lemma NextFacts(c: Count, a: Audit, m: Frontend, x: Choice)
    ensures var d := NextCount(c, a, m, x);
            && d.strays == (c.strays || Begin(a, m) != SqlOf(c.expected, m))
            && (!AwaitsReady(m) ==> d.expected == Handled(c.expected, m))
  {
    hide Begin, SqlOf, Handled, Forget;
  }

  lemma TracedSend(s: System, m: Frontend, h: seq<Choice>)
    requires Traced(s, h) && MaySend(s, m)
    ensures Traced(DoSend(s, m), h)
  {
    hide Fits, Turn, MaySend, AfterFrontend, ObserveAll, CountOf, Begin, SqlOf, Handled;
    var t := DoSend(s, m);
    TurnStep(s, Send(m));
    assert Act(s, Send(m)) == t;
    var n := |s.sent|;
    ObserveSnoc(s, m);
    forall g | |g| == |t.sent| && h <= g ensures Fits(t, g) {
      assert h <= g[..n] && g == g[..n] + [g[n]];
      FitsSend(s, m, g[..n], g[n]);
    }
    assert t.sent[..|h|] == s.sent[..|h|] && t.toServer == t.sent[|h|..];
  }

  lemma ObserveSnoc(s: System, m: Frontend)
    requires SameLookups(s.audit, ObserveAll(NO_AUDIT, s.sent))
    ensures SameLookups(AfterFrontend(s.audit, m), ObserveAll(NO_AUDIT, s.sent + [m]))
  {
    assert (s.sent + [m])[..|s.sent|] == s.sent;
  }

  lemma ServedServe(s: System, v: Verdict, gone: Names, h: seq<Choice>)
    requires Served(s, h) && s.toServer != [] && !v.Skipped?
    ensures Served(DoServe(s, v, gone), h + [Choice(v.Error?, gone)])
  {
    hide Handled, Forget, CountOf, ObserveAll, Begin, SqlOf;
    var k, x := |h|, Choice(v.Error?, gone);
    assert s.sent[..k + 1] == s.sent[..k] + [s.toServer[0]] && s.sent[k..][1..] == s.sent[k + 1..];
    CountSnoc(s.sent[..k], h, s.toServer[0], x);
    ServeCounts(s, v, gone, CountOf(s.sent[..k], h), ObserveAll(NO_AUDIT, s.sent[..k]));
    hide NextCount;
    assert DoServe(s, v, gone).toServer == s.toServer[1..] && DoServe(s, v, gone).sent == s.sent;
  }

  lemma ServeCounts(s: System, v: Verdict, gone: Names, c: Count, a: Audit)
    requires s.toServer != [] && !v.Skipped? && c.tables == s.tables && c.skipping == s.skipping
    ensures var d := NextCount(c, a, s.toServer[0], Choice(v.Error?, gone)); var t := DoServe(s, v, gone);
            d.tables == t.tables && d.skipping == t.skipping
  {
    hide Handled, Forget, Begin, SqlOf;
    HandledWork(s.tables, s.toServer[0]);
  }

  lemma FitsServe(s: System, v: Verdict, gone: Names, h: seq<Choice>, g: seq<Choice>)
    requires Traced(s, h) && s.toServer != [] && !v.Skipped? && |g| == |s.sent| && h + [Choice(v.Error?, gone)] <= g
    ensures Fits(DoServe(s, v, gone), g)
  {
    assert h <= g by { assert h + [Choice(v.Error?, gone)] == g[..|h| + 1]; }
    assert Fits(s, g);
    hide DoServe, Turn, Allowed, CountOf, ObserveAll, OwnCount;
    if s.awaiting && |s.toServer| == 1 {
      assert g == h + [Choice(v.Error?, gone)];
      LastServedFits(s, v, gone, h, g);
    } else {
      StillServing(s, v, gone);
    }
  }

  /** Before the last message of the client's turn is served, what it counts on stays. */
  lemma StillServing(s: System, v: Verdict, gone: Names)
    requires Turn(s) && s.toServer != [] && !v.Skipped? && !(s.awaiting && |s.toServer| == 1)
    ensures var t := DoServe(s, v, gone);
            && t.toServer == s.toServer[1..] && t.sent == s.sent && t.stray == s.stray
            && t.expected == s.expected && t.awaiting == s.awaiting
  {
    hide Handled, Forget;
  }

  lemma LastServedFits(s: System, v: Verdict, gone: Names, h: seq<Choice>, g: seq<Choice>)
    requires Traced(s, h) && Fits(s, g) && |s.toServer| == 1 && s.awaiting && !v.Skipped?
    requires g == h + [Choice(v.Error?, gone)]
    ensures Fits(DoServe(s, v, gone), g)
  {
    hide Handled, Forget, CountOf, ObserveAll, Begin, SqlOf, Allowed, Turn;
    var n := |s.sent| - 1;
    assert |h| == n && s.sent == s.sent[..n] + [s.sent[n]] && s.toServer[0] == s.sent[n];
    CountSnoc(s.sent[..n], h, s.sent[n], Choice(v.Error?, gone));
  }

  lemma TracedServe(s: System, v: Verdict, gone: Names, h: seq<Choice>)
    requires Traced(s, h) && s.toServer != [] && !v.Skipped?
    ensures Traced(DoServe(s, v, gone), h + [Choice(v.Error?, gone)])
  {
    hide Fits, Turn, ObserveAll, CountOf, Served, Handled, Forget;
    var t := DoServe(s, v, gone);
    TurnStep(s, Serve(v, gone));
    assert Act(s, Serve(v, gone)) == t;
    ServedServe(s, v, gone, h);
    forall g | |g| == |t.sent| && h + [Choice(v.Error?, gone)] <= g ensures Fits(t, g) {
      FitsServe(s, v, gone, h, g);
    }
  }

  lemma TracedForward(s: System, h: seq<Choice>)
    requires Traced(s, h) && s.held.None? && s.toProxy != []
    ensures Traced(DoForward(s), h)
  {
    hide ObserveAll, CountOf, Allowed, OwnCount;
    var t := DoForward(s);
    TurnStep(s, Forward);
    if s.toProxy[0] == ReadyForQuery {
      assert s.toServer == [] && !s.skipping;
      assert |h| == |s.sent| && s.sent[..|h|] == s.sent;
    }
    forall g | |g| == |t.sent| && h <= g ensures Fits(t, g) {
      assert Fits(s, g);
      assert |h| == |g| ==> h == g;
    }
  }

  lemma TracedObserve(s: System, h: seq<Choice>)
    requires Traced(s, h) && s.held.Some?
    ensures Traced(DoObserve(s), h)
  {
    hide ObserveAll, CountOf, Allowed, OwnCount, Closes;
    var t := DoObserve(s);
    TurnStep(s, Observe);
    forall g | |g| == |t.sent| && h <= g ensures Fits(t, g) {
      assert Fits(s, g);
    }
  }

  lemma BeginningTraced()
    ensures Traced(BEGINNING, [])
  {
    forall g: seq<Choice> | |g| == |BEGINNING.sent| && [] <= g ensures Fits(BEGINNING, g) {
      assert g == [];
    }
  }

  /** Every run has a history. */
  lemma {:induction false} RunTraced(actions: seq<Action>) returns (h: seq<Choice>)
    ensures Traced(Reach(BEGINNING, actions), h)
    decreases |actions|
  {
    hide Traced, DoSend, DoServe, DoForward, DoObserve, MaySend;
    h := [];
    if actions == [] {
      BeginningTraced();
    } else {
      var n := |actions| - 1;
      var before, a := actions[..n], actions[n];
      h := RunTraced(before);
      ReachSnoc(BEGINNING, before, a);
      assert before + [a] == actions;
      hide Reach;
      var s := Reach(BEGINNING, before);
      match a
      case Send(m) => if MaySend(s, m) { TracedSend(s, m, h); }
      case Serve(v, gone) =>
        if s.toServer != [] && !v.Skipped? {
          TracedServe(s, v, gone, h);
          h := h + [Choice(v.Error?, gone)];
        }
      case Forward => if s.held.None? && s.toProxy != [] { TracedForward(s, h); }
      case Observe => if s.held.Some? { TracedObserve(s, h); }
    }
  }

  // ---------------------------------------------------------------- from histories to runs

  /** One message, served under the choice, and up to two replies passed on. */
  function Answered(m: Frontend, x: Choice): seq<Action> {
    [Send(m), Serve(if x.fails then Error("failed") else Done(0), x.gone), Forward, Observe, Forward, Observe]
  }

  /** The state of a run in which every message was answered before the next was sent. */
  ghost predicate Follows(s: System, ms: seq<Frontend>, h: seq<Choice>)
    requires |h| == |ms|
  {
    && Quiescent(s) && s.sent == ms && SameLookups(s.audit, ObserveAll(NO_AUDIT, ms))
    && CountOf(ms, h) == Count(s.tables, s.skipping, s.expected, s.stray)
    && (s.awaiting <==> Stuck(ms, CountOf(ms, h)))
  }

  /** A message sent and served when nothing else is under way. */
  lemma SentAndServed(s: System, m: Frontend, x: Choice)
    requires Quiescent(s) && MaySend(s, m)
    ensures var v := if x.fails then Error("failed") else Done(0);
            var t := Act(Act(s, Send(m)), Serve(v, x.gone));
            && t.toServer == [] && |t.toProxy| <= 2 && t.held.None? && t.sent == s.sent + [m]
            && t.audit == AfterFrontend(s.audit, m)
            && NextCount(Count(s.tables, s.skipping, s.expected, s.stray), s.audit, m, x)
               == Count(t.tables, t.skipping, t.expected, t.stray)
            && t.awaiting == AwaitsReady(m)
            && (ReadyForQuery in t.toProxy <==> AwaitsReady(m) && !(m.Query? && s.skipping))
  {
    assert Quiet(s);
    hide DoSend, MaySend, AfterFrontend, Begin, SqlOf, Forget, Handled;
    SendQuiet(s, m);
    var u := Act(s, Send(m));
    HandledWork(s.tables, m);
    HandledWork(s.expected, m);
    var v := if x.fails then Error("failed") else Done(0);
    ServeIs(u, v, x.gone);
    hide Act;
    ServedAlone(s, u, m, v, x);
  }

  lemma ServedAlone(s: System, u: System, m: Frontend, v: Verdict, x: Choice)
    requires u.toServer == [m] && u.toProxy == [] && u.tables == s.tables && u.skipping == s.skipping
    requires u.expected == Handled(s.expected, m) && u.stray == (s.stray || Begin(s.audit, m) != SqlOf(s.expected, m))
    requires v.Error? == x.fails && !v.Skipped? && (IsWork(m) || m.Sync? ==> Handled(s.tables, m) == s.tables)
    ensures var t := DoServe(u, v, x.gone);
            && t.toServer == [] && |t.toProxy| <= 2 && t.held == u.held && t.sent == u.sent && t.audit == u.audit
            && NextCount(Count(s.tables, s.skipping, s.expected, s.stray), s.audit, m, x)
               == Count(t.tables, t.skipping, t.expected, t.stray)
            && t.awaiting == u.awaiting
            && (ReadyForQuery in t.toProxy <==> AwaitsReady(m) && !(m.Query? && s.skipping))
  {
    hide Begin, SqlOf, Forget, Handled, ReplyFor;
    ReplyIs(v);
  }

  /** Passing replies on changes nothing that counts. */
  lemma PassedOn(s: System)
    requires s.held.None?
    ensures var t := Act(Act(s, Forward), Observe);
            && t.held.None? && t.toProxy == (if s.toProxy == [] then [] else s.toProxy[1..]) && t.toServer == s.toServer
            && t.sent == s.sent && SameLookups(t.audit, s.audit)
            && Count(t.tables, t.skipping, t.expected, t.stray) == Count(s.tables, s.skipping, s.expected, s.stray)
            && t.awaiting == (s.awaiting && (s.toProxy == [] || s.toProxy[0] != ReadyForQuery))
  {
    hide Act, Closes;
    if s.toProxy == [] {
      NothingToPass(s);
    } else {
      PassFirst(s);
    }
  }

  lemma ReachAnswered(s: System, m: Frontend, x: Choice)
    ensures var v := if x.fails then Error("failed") else Done(0);
            Reach(s, Answered(m, x))
            == Act(Act(Act(Act(Act(Act(s, Send(m)), Serve(v, x.gone)), Forward), Observe), Forward), Observe)
  {
    hide Act;
    var v := if x.fails then Error("failed") else Done(0);
    var all := Answered(m, x);
    ReachSnoc(s, [], all[0]);
    ReachSnoc(s, all[..1], all[1]);
    ReachSnoc(s, all[..2], all[2]);
    ReachSnoc(s, all[..3], all[3]);
    ReachSnoc(s, all[..4], all[4]);
    ReachSnoc(s, all[..5], all[5]);
    assert [] + [all[0]] == all[..1] && all[..1] + [all[1]] == all[..2] && all[..2] + [all[2]] == all[..3];
    assert all[..3] + [all[3]] == all[..4] && all[..4] + [all[4]] == all[..5] && all[..5] + [all[5]] == all;
  }

  lemma OneAnswered(s: System, ms: seq<Frontend>, h: seq<Choice>, m: Frontend, x: Choice)
    requires |h| == |ms| && Follows(s, ms, h) && MaySend(s, m)
    ensures Follows(Reach(s, Answered(m, x)), ms + [m], h + [x])
  {
    hide Act, AfterFrontend, ObserveAll, CountOf, NextCount, MaySend;
    CountSnoc(ms, h, m, x);
    LookupsDecide(s.audit, ObserveAll(NO_AUDIT, ms), m, CountOf(ms, h), x);
    ReachAnswered(s, m, x);
    SentAndServed(s, m, x);
    var t := Act(Act(s, Send(m)), Serve(if x.fails then Error("failed") else Done(0), x.gone));
    PassedOn(t);
    var u := Act(Act(t, Forward), Observe);
    PassedOn(u);
    SkippingStays(Count(s.tables, s.skipping, s.expected, s.stray), s.audit, m, x);
    assert t.toProxy != [] ==> t.toProxy == [t.toProxy[0]] + u.toProxy;
    assert u.toProxy != [] ==> u.toProxy == [u.toProxy[0]];
  }

  lemma SkippingStays(c: Count, a: Audit, m: Frontend, x: Choice)
    ensures m.Query? ==> NextCount(c, a, m, x).skipping == c.skipping
    ensures m.Sync? ==> !NextCount(c, a, m, x).skipping
  {
  }

  /** Every history that a script can have is that of a run. */
  lemma {:induction false} HistoryRuns(ms: seq<Frontend>, h: seq<Choice>) returns (actions: seq<Action>)
    requires |h| == |ms| && Allowed(ms, h)
    ensures Follows(Reach(BEGINNING, actions), ms, h)
  {
    hide Follows, Act, CountOf;
    actions := [];
    if ms == [] {
      FollowsFirst();
    } else {
      var n := |ms| - 1;
      actions := HistoryRuns(ms[..n], h[..n]);
      var s := Reach(BEGINNING, actions);
      hide Reach;
      FollowsMay(s, ms[..n], h[..n], ms[n]);
      OneAnswered(s, ms[..n], h[..n], ms[n], h[n]);
      ReachConcat(BEGINNING, actions, Answered(ms[n], h[n]));
      actions := actions + Answered(ms[n], h[n]);
      assert ms[..n] + [ms[n]] == ms && h[..n] + [h[n]] == h;
    }
  }

  lemma FollowsFirst()
    ensures Follows(Reach(BEGINNING, []), [], [])
  {
  }

  lemma FollowsMay(s: System, ms: seq<Frontend>, h: seq<Choice>, m: Frontend)
    requires |h| == |ms| && Follows(s, ms, h)
    requires !Stuck(ms, CountOf(ms, h)) && MayAsk(CountOf(ms, h).expected, m)
    ensures MaySend(s, m)
  {
    hide CountOf, MayAsk;
  }

  // ---------------------------------------------------------------- exactly which scripts

  ghost predicate StraysIn(ms: seq<Frontend>, actions: seq<Action>) {
    Reach(BEGINNING, actions).sent == ms && Reach(BEGINNING, actions).stray
  }

  /** Under the history, some Execute's text, counting every message sent, is not its text,
      counting only those that were not skipped. */
  ghost predicate StraysUnder(ms: seq<Frontend>, h: seq<Choice>) {
    && |h| == |ms| && Allowed(ms, h)
    && exists j :: DiffersAt(ms, h, j)
  }

  predicate DiffersAt(ms: seq<Frontend>, h: seq<Choice>, j: int)
    requires |h| == |ms|
  {
    && 0 <= j < |ms|
    && Begin(ObserveAll(NO_AUDIT, ms[..j]), ms[j]) != SqlOf(CountOf(ms[..j], h[..j]).expected, ms[j])
  }

  lemma StraysLast(ms: seq<Frontend>, h: seq<Choice>)
    requires |h| == |ms| && ms != []
    ensures var n := |ms| - 1;
            CountOf(ms, h).strays <==> CountOf(ms[..n], h[..n]).strays || DiffersAt(ms, h, n)
  {
    hide Begin, SqlOf, ObserveAll, Handled, Forget;
  }

  lemma DiffersBefore(ms: seq<Frontend>, h: seq<Choice>, n: nat, j: int)
    requires |h| == |ms| && n <= |ms|
    ensures DiffersAt(ms[..n], h[..n], j) <==> j < n && DiffersAt(ms, h, j)
  {
    hide Begin, SqlOf, ObserveAll, CountOf;
    if 0 <= j < n {
      assert ms[..n][..j] == ms[..j] && h[..n][..j] == h[..j];
    }
  }

  lemma {:induction false} StraysWhen(ms: seq<Frontend>, h: seq<Choice>)
    requires |h| == |ms|
    ensures CountOf(ms, h).strays <==> exists j :: DiffersAt(ms, h, j)
  {
    if ms != [] {
      hide CountOf, DiffersAt;
      var n := |ms| - 1;
      StraysWhen(ms[..n], h[..n]);
      StraysLast(ms, h);
      forall j ensures DiffersAt(ms[..n], h[..n], j) <==> j < n && DiffersAt(ms, h, j) {
        DiffersBefore(ms, h, n, j);
      }
      DiffersWithin(ms, h);
    }
  }

  lemma DiffersWithin(ms: seq<Frontend>, h: seq<Choice>)
    requires |h| == |ms|
    ensures forall j :: DiffersAt(ms, h, j) ==> j < |ms|
  {
  }

  /** Some run in which the client sends the script begins an Execute with another text than
      the client counts on if and only if the two texts differ under some history, message by
      message, of what fails and what is forgotten: interleaving adds nothing. */
  lemma CanStrayIff(ms: seq<Frontend>)
    ensures (exists actions :: StraysIn(ms, actions)) <==> (exists h :: StraysUnder(ms, h))
  {
    hide Reach, Allowed, CountOf, DiffersAt;
    forall actions | StraysIn(ms, actions) ensures exists h :: StraysUnder(ms, h) {
      var h := RunTraced(actions);
      var s := Reach(BEGINNING, actions);
      var g := h + seq(|s.sent| - |h|, i => Choice(false, Names({}, {})));
      assert Fits(s, g);
      StraysWhen(ms, g);
      assert StraysUnder(ms, g);
    }
    forall h | StraysUnder(ms, h) ensures exists actions :: StraysIn(ms, actions) {
      var actions := HistoryRuns(ms, h);
      StraysWhen(ms, h);
      assert StraysIn(ms, actions);
    }
  }
}
