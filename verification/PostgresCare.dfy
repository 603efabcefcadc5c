/** What a client can do so that skipped messages never mislead the audit. */
module PostgresCare {
  import opened PostgresAudit
  import opened PostgresRelay
  import opened PostgresOrder
  import opened PostgresRuns

  // ---------------------------------------------------------------- the client's rule

  const NO_NAMES := Names({}, {})

  function Both(a: Names, b: Names): Names {
    Names(a.statements + b.statements, a.portals + b.portals)
  }

  /** The statement or portal a message sets, if it is a Parse, Bind or Close. */
  function Sets(m: Frontend): Names {
    match m
    case Parse(name, _) => Names({name}, {})
    case Bind(portal, _) => Names({}, {portal})
    case Close(kind, name) =>
      if kind == 'S' then Names({name}, {}) else if kind == 'P' then Names({}, {name}) else NO_NAMES
    case _ => NO_NAMES
  }

  function Without(a: Names, b: Names): Names {
    Names(a.statements - b.statements, a.portals - b.portals)
  }

  /** The message changes what the audit has for a name, had nothing been skipped before. */
  predicate Changes(a: Audit, m: Frontend) {
    AfterFrontend(a, m).prepared != a.prepared || AfterFrontend(a, m).portals != a.portals
  }

  /** What a client keeps track of: whether its group has an Execute yet; the names it set
      behind that Execute; the names that hang on a message behind an Execute of an earlier
      group; and whether it has executed none of these. */
  datatype Care = Care(executed: bool, loose: Names, risky: Names, kept: bool)

  const CAREFREE := Care(false, NO_NAMES, NO_NAMES, true)

  function NextCare(c: Care, a: Audit, m: Frontend): Care {
    if AwaitsReady(m) then Care(false, NO_NAMES, Both(c.risky, c.loose), c.kept)
    else if m.Execute? then c.(executed := true, kept := c.kept && m.portal !in c.risky.portals)
    else
      var wasRisky := Sets(m).statements * c.risky.statements != {} || Sets(m).portals * c.risky.portals != {};
      var inherits := if m.Bind? && m.preparedStatement in c.risky.statements then Sets(m) else NO_NAMES;
      c.(loose := if c.executed && (wasRisky || Changes(a, m)) then Both(c.loose, Sets(m)) else c.loose,
         risky := Both(Without(c.risky, Sets(m)), inherits))
  }

  function CareOf(sent: seq<Frontend>): Care {
    if sent == [] then CAREFREE
    else
      var before := sent[..|sent| - 1];
      NextCare(CareOf(before), ObserveAll(NO_AUDIT, before), sent[|sent| - 1])
  }

  /** No Execute of a portal whose text hangs on a Parse, Bind or Close that was sent behind
      an Execute of an earlier group, unless the name was set anew. */
  predicate Careful(sent: seq<Frontend>) { CareOf(sent).kept }

  /** No Parse, Bind or Close that changes a lookup is sent behind an Execute of its group. */
  ghost predicate Tidy(sent: seq<Frontend>) {
    forall i, j :: 0 <= i < j < |sent| && sent[i].Execute? && Changes(ObserveAll(NO_AUDIT, sent[..j]), sent[j]) ==>
      exists k :: i < k < j && AwaitsReady(sent[k])
  }

  // ---------------------------------------------------------------- agreement, name by name

  /** The audit's lookups are those of the tables, for every name in them but some. */
  ghost predicate AgreeBut(a: Audit, t: Tables, off: Names) {
    && (forall n :: n in t.prepared && n !in off.statements ==> Lookup(a.prepared, n) == t.prepared[n])
    && (forall p :: p in t.portals && p !in off.portals ==> Lookup(a.portals, p) == t.portals[p])
  }

  predicate TextsIn(t: Tables) {
    forall p :: p in t.portals ==> t.portals[p] != ""
  }

  /** A message handled by both keeps them in step, but for what hangs on a doubtful name. */
  lemma BothHandle(a: Audit, t: Tables, m: Frontend, c: Care)
    requires AgreeBut(a, t, c.risky)
    requires m.Bind? ==> Lookup(t.prepared, m.preparedStatement) != ""
    ensures AgreeBut(AfterFrontend(a, m), Handled(t, m), NextCare(c, a, m).risky)
  {
  }

  lemma StillTexts(t: Tables, m: Frontend)
    requires TextsIn(t) && (m.Bind? ==> Lookup(t.prepared, m.preparedStatement) != "")
    ensures TextsIn(Handled(t, m))
  {
  }

  function Doubtful(c: Care): Names { Both(c.risky, c.loose) }

  /** A message behind an Execute leaves the other names as they are in the audit. */
  lemma OneHandles(a: Audit, t: Tables, m: Frontend, c: Care)
    requires AgreeBut(a, t, Doubtful(c)) && (c.executed || AwaitsReady(m) || m.Execute?)
    ensures AgreeBut(AfterFrontend(a, m), t, Doubtful(NextCare(c, a, m)))
  {
  }

  // ---------------------------------------------------------------- what every step keeps

  /** The tables as they will be before message i of the queue, should it be handled. */
  function TablesAt(s: System, i: nat): Tables
    requires i <= |s.toServer|
  {
    HandleAll(s.tables, s.toServer[..i])
  }

  /** At every queued Execute, where skipping may begin, the tables agree with the audit. */
  ghost predicate InStep(s: System, off: Names) {
    && (forall i :: 0 <= i <= |s.toServer| ==> TextsIn(TablesAt(s, i)))
    && (forall i :: 0 <= i < |s.toServer| && s.toServer[i].Execute? ==> AgreeBut(s.audit, TablesAt(s, i), off))
  }

  ghost predicate Queued(s: System, c: Care) {
    && (if s.skipping then TextsIn(s.tables) && AgreeBut(s.audit, s.tables, Doubtful(c)) else InStep(s, Doubtful(c)))
    && (!s.awaiting && (s.skipping || exists m :: m in s.toServer && m.Execute?) ==> c.executed)
  }

  ghost predicate Counted(s: System, c: Care) {
    && TextsIn(s.expected) && AgreeBut(s.audit, s.expected, c.risky)
    && (s.awaiting ==> c.loose == NO_NAMES)
    && (c.kept ==> !s.stray)
  }

  ghost predicate Sound(s: System) {
    && Turn(s) && Ahead(s)
    && SameLookups(s.audit, ObserveAll(NO_AUDIT, s.sent))
    && Queued(s, CareOf(s.sent)) && Counted(s, CareOf(s.sent))
  }

  lemma CareSnoc(sent: seq<Frontend>, m: Frontend)
    ensures CareOf(sent + [m]) == NextCare(CareOf(sent), ObserveAll(NO_AUDIT, sent), m)
    ensures ObserveAll(NO_AUDIT, sent + [m]) == AfterFrontend(ObserveAll(NO_AUDIT, sent), m)
  {
    hide NextCare, AfterFrontend;
    assert (sent + [m])[..|sent|] == sent;
  }

  lemma LookupsOnly(a: Audit, b: Audit, m: Frontend, c: Care)
    requires SameLookups(a, b)
    ensures SameLookups(AfterFrontend(a, m), AfterFrontend(b, m)) && NextCare(c, a, m) == NextCare(c, b, m)
  {
  }

  lemma SendQueued(s: System, m: Frontend, c: Care)
    requires Ahead(s) && MaySend(s, m) && Queued(s, c) && Counted(s, c)
    ensures Queued(DoSend(s, m), NextCare(c, s.audit, m))
  {
    hide AgreeBut, TextsIn, AfterFrontend, NextCare, Handled, Doubtful, Begin, SqlOf;
    var t, d := DoSend(s, m), NextCare(c, s.audit, m);
    CareGrows(c, s.audit, m);
    if s.skipping {
      OneHandles(s.audit, s.tables, m, c);
    } else {
      forall i | 0 <= i <= |t.toServer| ensures TextsIn(TablesAt(t, i)) {
        if i <= |s.toServer| {
          assert t.toServer[..i] == s.toServer[..i] && TablesAt(t, i) == TablesAt(s, i);
        } else {
          assert t.toServer[..i] == s.toServer + [m] && TablesAt(t, i) == HandleAll(s.tables, s.toServer + [m]);
          HandleSnoc(s.tables, s.toServer, m);
          StillTexts(s.expected, m);
        }
      }
      forall i | 0 <= i < |t.toServer| && t.toServer[i].Execute?
        ensures AgreeBut(t.audit, TablesAt(t, i), Doubtful(d))
      {
        assert t.toServer[..i] == s.toServer[..i];
        if i < |s.toServer| {
          assert s.toServer[i] in s.toServer;
        } else {
          assert s.toServer[..i] == s.toServer;
          DoubtfulMore(s.audit, s.expected, c);
        }
        OneHandles(s.audit, TablesAt(s, i), m, c);
      }
    }
  }

  lemma DoubtfulMore(a: Audit, t: Tables, c: Care)
    requires AgreeBut(a, t, c.risky)
    ensures AgreeBut(a, t, Doubtful(c))
  {
  }

  lemma CareGrows(c: Care, a: Audit, m: Frontend)
    ensures !AwaitsReady(m) && (c.executed || m.Execute?) ==> NextCare(c, a, m).executed
    ensures AwaitsReady(m) ==> NextCare(c, a, m).loose == NO_NAMES
    ensures NextCare(c, a, m).kept ==> c.kept && (m.Execute? ==> m.portal !in c.risky.portals)
  {
  }

  lemma SendCounted(s: System, m: Frontend, c: Care)
    requires MaySend(s, m) && Counted(s, c)
    ensures Counted(DoSend(s, m), NextCare(c, s.audit, m))
  {
    hide AfterFrontend, NextCare, Handled, Doubtful;
    CareGrows(c, s.audit, m);
    BothHandle(s.audit, s.expected, m, c);
    StillTexts(s.expected, m);
    NothingRun(s, m);
  }

  lemma NothingRun(s: System, m: Frontend)
    ensures !m.Execute? ==> Begin(s.audit, m) == SqlOf(s.expected, m)
    ensures m.Execute? && Lookup(s.audit.portals, m.portal) == Lookup(s.expected.portals, m.portal) != "" ==>
              Begin(s.audit, m) == SqlOf(s.expected, m)
  {
  }

  lemma SendSound(s: System, m: Frontend)
    requires Sound(s) && MaySend(s, m)
    ensures Sound(DoSend(s, m))
  {
    hide Turn, Ahead, Queued, Counted, NextCare, CareOf, AfterFrontend;
    TurnStep(s, Send(m));
    AheadStep(s, Send(m));
    CareSnoc(s.sent, m);
    LookupsOnly(s.audit, ObserveAll(NO_AUDIT, s.sent), m, CareOf(s.sent));
    SendQueued(s, m, CareOf(s.sent));
    SendCounted(s, m, CareOf(s.sent));
  }

  /** The queue moves up by a message that is handled. */
  lemma MovesUp(s: System, t: System, off: Names)
    requires s.toServer != [] && t.toServer == s.toServer[1..] && InStep(s, off)
    requires t.tables == Handled(s.tables, s.toServer[0]) && t.audit == s.audit
    ensures InStep(t, off)
  {
    hide AgreeBut, TextsIn, Handled;
    forall i | 0 <= i <= |t.toServer| ensures TablesAt(t, i) == TablesAt(s, i + 1) {
      assert s.toServer[..i + 1][1..] == t.toServer[..i];
    }
  }

  lemma Forgotten(a: Audit, t: Tables, gone: Names, off: Names)
    requires AgreeBut(a, t, off) && TextsIn(t)
    ensures AgreeBut(a, Forget(t, gone), off) && TextsIn(Forget(t, gone))
  {
  }

  /** When the client's turn ends, so do all doubts but the ones it counts as risky. */
  lemma LastSound(s: System, v: Verdict, gone: Names, c: Care)
    requires Turn(s) && Ahead(s) && Queued(s, c) && Counted(s, c) && s.toServer != [] && !v.Skipped?
    requires s.toServer[0].Sync? || (s.toServer[0].Query? && !s.skipping)
    ensures Queued(DoServe(s, v, gone), c) && Counted(DoServe(s, v, gone), c)
  {
    hide AgreeBut, TextsIn, Forget, Doubtful;
    var t := DoServe(s, v, gone);
    assert AwaitsReady(s.toServer[0]) && s.toServer[1..] == [] && s.awaiting;
    NoLoose(c);
    if !s.skipping {
      HandledWork(s.tables, s.toServer[0]);
      assert HandleAll(s.tables, s.toServer) == HandleAll(s.tables, s.toServer[1..]) == s.tables;
    }
    Forgotten(s.audit, s.tables, gone, c.risky);
    assert t.toServer[..0] == [];
  }

  lemma NoLoose(c: Care)
    ensures c.loose == NO_NAMES ==> Doubtful(c) == c.risky
  {
    assert c.risky == Names(c.risky.statements + {}, c.risky.portals + {});
  }

  lemma HandledSound(s: System, v: Verdict, gone: Names, c: Care)
    requires Queued(s, c) && Counted(s, c) && s.toServer != [] && !v.Skipped?
    requires !s.toServer[0].Sync? && (s.toServer[0].Query? ==> s.skipping)
    ensures Queued(DoServe(s, v, gone), c) && Counted(DoServe(s, v, gone), c)
  {
    hide AgreeBut, TextsIn, Forget, Doubtful, Handled, InStep;
    var t := DoServe(s, v, gone);
    HandledWork(s.tables, s.toServer[0]);
    if !s.skipping {
      assert s.toServer[0] in s.toServer;
      if t.skipping {
        SkipsHere(s, Doubtful(c));
      } else {
        MovesUp(s, t, Doubtful(c));
      }
    }
  }

  lemma SkipsHere(s: System, off: Names)
    requires s.toServer != [] && s.toServer[0].Execute? && InStep(s, off)
    ensures TextsIn(s.tables) && AgreeBut(s.audit, s.tables, off)
  {
    assert TablesAt(s, 0) == s.tables;
  }

  lemma ServeSound(s: System, v: Verdict, gone: Names)
    requires Sound(s) && s.toServer != [] && !v.Skipped?
    ensures Sound(DoServe(s, v, gone))
  {
    hide Turn, Ahead, Queued, Counted, CareOf;
    TurnStep(s, Serve(v, gone));
    AheadStep(s, Serve(v, gone));
    if s.toServer[0].Sync? || (s.toServer[0].Query? && !s.skipping) {
      LastSound(s, v, gone, CareOf(s.sent));
    } else {
      HandledSound(s, v, gone, CareOf(s.sent));
    }
  }

  lemma ForwardSound(s: System)
    requires Sound(s) && s.held.None? && s.toProxy != []
    ensures Sound(DoForward(s))
  {
    hide CareOf, AgreeBut, TextsIn, HandleAll;
    TurnStep(s, Forward);
    var t := DoForward(s);
    assert forall i :: 0 <= i <= |s.toServer| ==> TablesAt(t, i) == TablesAt(s, i);
    if s.toProxy[0] == ReadyForQuery {
      assert s.toServer == [] && !s.skipping;
    }
  }

  lemma ObserveSound(s: System)
    requires Sound(s) && s.held.Some?
    ensures Sound(DoObserve(s))
  {
    hide CareOf, TextsIn, HandleAll, Closes;
    TurnStep(s, Observe);
    var t := DoObserve(s);
    assert SameLookups(s.audit, t.audit);
    assert forall i :: 0 <= i <= |s.toServer| ==> TablesAt(t, i) == TablesAt(s, i);
    assert forall u, off :: AgreeBut(s.audit, u, off) ==> AgreeBut(t.audit, u, off);
  }

  lemma {:induction false} ReachSound(s: System, actions: seq<Action>)
    requires Sound(s)
    ensures Sound(Reach(s, actions))
    decreases |actions|
  {
    hide Sound, DoSend, DoServe, DoForward, DoObserve, MaySend;
    if actions != [] {
      var a := actions[0];
      match a {
        case Send(m) => if MaySend(s, m) { SendSound(s, m); }
        case Serve(v, gone) => if s.toServer != [] && !v.Skipped? { ServeSound(s, v, gone); }
        case Forward => if s.held.None? && s.toProxy != [] { ForwardSound(s); }
        case Observe => if s.held.Some? { ObserveSound(s); }
      }
      ReachSound(Act(s, a), actions[1..]);
    }
  }

  lemma BeginningSound()
    ensures Sound(BEGINNING)
  {
  }

  // ---------------------------------------------------------------- what the rule gives

  /** The Executes of a careful client never stray, whatever the server skips and forgets. */
  lemma CarefulNeverStrays(actions: seq<Action>)
    requires Careful(Reach(BEGINNING, actions).sent)
    ensures !Reach(BEGINNING, actions).stray
  {
    hide Reach, Queued, CareOf;
    BeginningSound();
    ReachSound(BEGINNING, actions);
  }

  /** So for a careful client, the audit is right exactly when there was no race. */
  lemma CarefulRightIffNoRace(actions: seq<Action>)
    requires Careful(Reach(BEGINNING, actions).sent)
    ensures var s := Reach(BEGINNING, actions);
            && (s.race.None? ==> Attributed(s))
            && (Quiescent(s) ==> (AllRight(s) <==> s.race.None?))
  {
    hide Reach, CareOf, Attributed, AllRight;
    CarefulNeverStrays(actions);
    var s := Reach(BEGINNING, actions);
    if s.race.None? {
      RepliesFindTheirQueries(actions);
    }
    if Quiescent(s) {
      AttributedIffNoRace(actions);
    }
  }

  lemma PlainCare(c: Care, a: Audit, m: Frontend)
    requires c.loose == c.risky == NO_NAMES && c.kept && !(c.executed && Changes(a, m))
    ensures var d := NextCare(c, a, m); d.loose == d.risky == NO_NAMES && d.kept
    ensures NextCare(c, a, m).executed ==> !AwaitsReady(m) && (c.executed || m.Execute?)
  {
    hide Changes;
  }

  lemma AwaitsChangesNothing(a: Audit, m: Frontend)
    ensures AwaitsReady(m) ==> !Changes(a, m)
  {
  }

  lemma TidyBefore(sent: seq<Frontend>)
    requires sent != [] && Tidy(sent)
    ensures Tidy(sent[..|sent| - 1])
  {
    hide Changes, ObserveAll;
    var before := sent[..|sent| - 1];
    forall i, j | 0 <= i < j < |before| && before[i].Execute? && Changes(ObserveAll(NO_AUDIT, before[..j]), before[j])
      ensures exists k :: i < k < j && AwaitsReady(before[k])
    {
      assert before[..j] == sent[..j] && before[i] == sent[i];
      var k :| i < k < j && AwaitsReady(sent[k]);
      assert before[k] == sent[k];
    }
  }

  /** The group open at the end of `sent` has an Execute at i. */
  predicate OpenFrom(sent: seq<Frontend>, i: int) {
    0 <= i < |sent| && sent[i].Execute? && forall k :: i < k < |sent| ==> !AwaitsReady(sent[k])
  }

  /** A tidy client has nothing to keep track of. */
  lemma {:induction false} TidyIsPlain(sent: seq<Frontend>)
    requires Tidy(sent)
    ensures var c := CareOf(sent); c.kept && c.loose == c.risky == NO_NAMES
    ensures CareOf(sent).executed ==> exists i :: OpenFrom(sent, i)
  {
    hide Changes, ObserveAll, NextCare;
    if sent != [] {
      var n := |sent| - 1;
      var before, m := sent[..n], sent[n];
      var c, a := CareOf(before), ObserveAll(NO_AUDIT, before);
      TidyBefore(sent);
      TidyIsPlain(before);
      AwaitsChangesNothing(a, m);
      if c.executed && Changes(a, m) {
        assert false;
      }
      PlainCare(c, a, m);
      if CareOf(sent).executed {
        StaysOpen(before, m, c.executed);
        assert before + [m] == sent;
      }
    }
  }

  lemma StaysOpen(before: seq<Frontend>, m: Frontend, executed: bool)
    requires !AwaitsReady(m) && (executed || m.Execute?) && (executed ==> exists i :: OpenFrom(before, i))
    ensures exists i :: OpenFrom(before + [m], i)
  {
    if m.Execute? {
      assert OpenFrom(before + [m], |before|);
    } else {
      var i :| OpenFrom(before, i);
      assert OpenFrom(before + [m], i);
    }
  }

  /** A tidy client is careful, so its records are right exactly when there was no race. */
  lemma TidyRightIffNoRace(actions: seq<Action>)
    requires Tidy(Reach(BEGINNING, actions).sent)
    ensures var s := Reach(BEGINNING, actions);
            && (s.race.None? ==> Attributed(s))
            && (Quiescent(s) ==> (AllRight(s) <==> s.race.None?))
  {
    hide Reach, CareOf, Tidy, Attributed, AllRight;
    TidyIsPlain(Reach(BEGINNING, actions).sent);
    CarefulRightIffNoRace(actions);
  }
}
