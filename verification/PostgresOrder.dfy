/** Replies reach the audit in the order of the queries they belong to. */
module PostgresOrder {
  import opened Options
  import opened PostgresAudit
  import opened PostgresRelay

  // ---------------------------------------------------------------- the invariant

  function Works(ms: seq<Frontend>): nat {
    if ms == [] then 0 else (if IsWork(ms[0]) then 1 else 0) + Works(ms[1..])
  }

  /** The verdicts the unobserved replies carry, in order. */
  function Replies(rs: seq<Backend>): seq<Verdict> {
    if rs == [] then []
    else (match rs[0]
          case CommandComplete(rows) => [Done(rows)]
          case ErrorResponse(e) => [Error(e)]
          case _ => []) + Replies(rs[1..])
  }

  function Unobserved(s: System): seq<Backend> {
    (if s.held.Some? then [s.held.value] else []) + s.toProxy
  }

  /** Records and pending events are the queries begun; the others are on their way. */
  ghost predicate Books(s: System) {
    && s.begun == Texts(s.written) + s.audit.pending
    && |s.begun| == |s.verdicts| + Works(s.toServer)
  }

  /** Unless it skips, the server will see the tables the client counts on. */
  ghost predicate Ahead(s: System) {
    !s.skipping ==> s.expected == HandleAll(s.tables, s.toServer)
  }

  /** Every answered query ran as it was begun, and every queued one will, unless skipped. */
  ghost predicate Faithful(s: System) {
    && |s.ran| == |s.verdicts| <= |s.begun|
    && (forall n :: 0 <= n < |s.verdicts| && !s.verdicts[n].Skipped? ==> s.ran[n] == Some(s.begun[n]))
    && (!s.skipping ==> s.begun[|s.verdicts|..] == SqlOfAll(s.tables, s.toServer))
  }

  ghost predicate Correct(s: System) {
    && |s.written| <= |s.verdicts|
    && forall n :: 0 <= n < |s.written| ==> s.written[n].outcome == OutcomeOf(s.verdicts[n])
  }

  /** Decided but unwritten: first those whose replies are on their way, then skipped ones,
      which exist only while the server skips or a ReadyForQuery is on its way. */
  ghost predicate Owed(s: System) {
    var rs := Replies(Unobserved(s));
    var a := |s.written|;
    && a + |rs| <= |s.verdicts|
    && s.verdicts[a..a + |rs|] == rs
    && (forall n :: a + |rs| <= n < |s.verdicts| ==> s.verdicts[n].Skipped?)
    && (a + |rs| < |s.verdicts| ==> s.skipping || ReadyForQuery in Unobserved(s))
  }

  /** At most one message the client waits for is under way, and it comes last. */
  ghost predicate Turn(s: System) {
    && (forall i :: 0 <= i < |s.toServer| && AwaitsReady(s.toServer[i]) ==>
          s.awaiting && i == |s.toServer| - 1)
    && (forall i :: 0 <= i < |s.toProxy| && s.toProxy[i] == ReadyForQuery ==>
          s.awaiting && i == |s.toProxy| - 1 && s.toServer == [] && !s.skipping)
  }

  /** Between forwarding and observing ReadyForQuery nothing was begun. */
  ghost predicate Window(s: System) {
    s.held == Some(ReadyForQuery) ==> Works(s.toServer) == 0 && Replies(s.toProxy) == [] && !s.skipping
  }

  ghost predicate Orderly(s: System) {
    Books(s) && Correct(s) && Owed(s) && Window(s)
  }

  // ---------------------------------------------------------------- small facts

  lemma {:induction false} WorksConcat(a: seq<Frontend>, m: Frontend)
    ensures Works(a + [m]) == Works(a) + (if IsWork(m) then 1 else 0)
  {
    if a == [] {
      assert a + [m] == [m] && [m][1..] == [];
    } else {
      assert (a + [m])[1..] == a[1..] + [m];
      WorksConcat(a[1..], m);
    }
  }

  lemma {:induction false} RepliesConcat(a: seq<Backend>, b: seq<Backend>)
    ensures Replies(a + b) == Replies(a) + Replies(b)
  {
    if a == [] {
      assert a + b == b;
    } else {
      assert (a + b)[1..] == a[1..] + b;
      RepliesConcat(a[1..], b);
    }
  }

  lemma ReplyIs(v: Verdict)
    requires !v.Skipped?
    ensures Replies([ReplyFor(v)]) == [v] && ReplyFor(v) != ReadyForQuery
    ensures Replies([ReadyForQuery]) == [] && Replies([OtherBackend]) == []
  {
  }

  lemma NoWorkHere(ms: seq<Frontend>)
    requires ms != []
    ensures IsWork(ms[0]) ==> Works(ms) > 0
    ensures Works(ms[1..]) == Works(ms) - (if IsWork(ms[0]) then 1 else 0)
  {
  }

  // ---------------------------------------------------------------- every action keeps it

  lemma SendOrderly(s: System, m: Frontend)
    requires Orderly(s) && MaySend(s, m)
    requires IsWork(m) ==> s.held != Some(ReadyForQuery)
    requires |Begin(s.audit, m)| == if IsWork(m) then 1 else 0
    ensures Orderly(DoSend(s, m))
  {
    hide Works, Replies, Texts;
    WorksConcat(s.toServer, m);
    var t := DoSend(s, m);
    assert t.audit.pending == s.audit.pending + Begin(s.audit, m);
    assert Unobserved(t) == Unobserved(s);
  }

  /** A server that is about to decide something owes only replies under way. */
  lemma NothingSkippedBefore(s: System)
    requires Orderly(s) && Turn(s) && s.toServer != [] && IsWork(s.toServer[0]) && !s.skipping
    ensures |s.written| + |Replies(Unobserved(s))| == |s.verdicts|
  {
    hide Replies;
    NoWorkHere(s.toServer);
    assert forall i :: 0 <= i < |s.toProxy| ==> s.toProxy[i] != ReadyForQuery;
  }

  lemma AppendsReplies(s: System, t: System, more: seq<Backend>)
    requires t.held == s.held && t.toProxy == s.toProxy + more
    ensures Unobserved(t) == Unobserved(s) + more
    ensures Replies(Unobserved(t)) == Replies(Unobserved(s)) + Replies(more)
    ensures Replies(t.toProxy) == Replies(s.toProxy) + Replies(more)
  {
    hide Replies;
    assert Unobserved(t) == Unobserved(s) + more;
    RepliesConcat(Unobserved(s), more);
    RepliesConcat(s.toProxy, more);
  }

  lemma ServeSkips(s: System, v: Verdict, gone: Names)
    requires Orderly(s) && Turn(s) && s.toServer != [] && !v.Skipped?
    requires s.skipping && !s.toServer[0].Sync?
    ensures Orderly(DoServe(s, v, gone))
  {
    hide Works, Replies, Texts;
    NoWorkHere(s.toServer);
    assert Unobserved(DoServe(s, v, gone)) == Unobserved(s);
  }

  lemma ServeSync(s: System, v: Verdict, gone: Names)
    requires Orderly(s) && Turn(s) && s.toServer != [] && !v.Skipped? && s.toServer[0].Sync?
    ensures Orderly(DoServe(s, v, gone))
  {
    hide Works, Replies, Texts;
    NoWorkHere(s.toServer);
    var t := DoServe(s, v, gone);
    AppendsReplies(s, t, [ReadyForQuery]);
    ReplyIs(Done(0));
    assert AwaitsReady(s.toServer[0]) && t.toServer == [];
    assert ReadyForQuery in Unobserved(t);
  }

  lemma ServeOther(s: System, v: Verdict, gone: Names)
    requires Orderly(s) && Turn(s) && s.toServer != [] && !v.Skipped? && !s.skipping
    requires !IsWork(s.toServer[0]) && !s.toServer[0].Sync?
    ensures Orderly(DoServe(s, v, gone))
  {
    hide Works, Replies, Texts;
    NoWorkHere(s.toServer);
    var t := DoServe(s, v, gone);
    AppendsReplies(s, t, [OtherBackend]);
    ReplyIs(Done(0));
  }

  lemma DecideOwed(s: System, t: System, v: Verdict, more: seq<Backend>)
    requires Orderly(s) && Turn(s) && s.toServer != [] && IsWork(s.toServer[0]) && !s.skipping && !v.Skipped?
    requires t.held == s.held && t.toProxy == s.toProxy + more && Replies(more) == [v]
    requires t.verdicts == s.verdicts + [v] && t.written == s.written
    ensures Owed(t)
  {
    hide Works, Replies, Texts;
    NothingSkippedBefore(s);
    AppendsReplies(s, t, more);
    var a, rs := |s.written|, Replies(Unobserved(s));
    assert t.verdicts[a..a + |rs| + 1] == s.verdicts[a..a + |rs|] + [v];
  }

  lemma ServeExecute(s: System, v: Verdict, gone: Names)
    requires Orderly(s) && Turn(s) && s.toServer != [] && !v.Skipped? && !s.skipping && s.toServer[0].Execute?
    ensures Orderly(DoServe(s, v, gone))
  {
    hide Works, Replies, Texts, ReplyFor;
    NoWorkHere(s.toServer);
    var t := DoServe(s, v, gone);
    ReplyIs(v);
    DecideOwed(s, t, v, [ReplyFor(v)]);
  }

  lemma ServeQuery(s: System, v: Verdict, gone: Names)
    requires Orderly(s) && Turn(s) && s.toServer != [] && !v.Skipped? && !s.skipping && s.toServer[0].Query?
    ensures Orderly(DoServe(s, v, gone))
  {
    hide Works, Replies, Texts, ReplyFor;
    NoWorkHere(s.toServer);
    var t := DoServe(s, v, gone);
    ReplyIs(v);
    RepliesConcat([ReplyFor(v)], [ReadyForQuery]);
    assert [ReplyFor(v)] + [ReadyForQuery] == [ReplyFor(v), ReadyForQuery];
    DecideOwed(s, t, v, [ReplyFor(v), ReadyForQuery]);
    assert AwaitsReady(s.toServer[0]) && t.toServer == [];
  }

  lemma ServeOrderly(s: System, v: Verdict, gone: Names)
    requires Orderly(s) && Turn(s) && s.toServer != [] && !v.Skipped?
    ensures Orderly(DoServe(s, v, gone))
  {
    hide *;
    var m := s.toServer[0];
    if m.Sync? {
      ServeSync(s, v, gone);
    } else if s.skipping {
      ServeSkips(s, v, gone);
    } else {
      match m
      case Query(_) => ServeQuery(s, v, gone);
      case Execute(_) => ServeExecute(s, v, gone);
      case _ => NotWork(m); ServeOther(s, v, gone);
    }
  }

  lemma NotWork(m: Frontend)
    ensures !m.Query? && !m.Execute? ==> !IsWork(m)
  {
  }

  lemma ForwardOrderly(s: System)
    requires Orderly(s) && Turn(s) && s.held.None? && s.toProxy != []
    ensures Orderly(DoForward(s))
  {
    hide Texts;
    var t := DoForward(s);
    assert Unobserved(t) == Unobserved(s);
    if s.toProxy[0] == ReadyForQuery {
      assert |s.toProxy| == 1 && s.toServer == [];
    }
  }

  lemma HeldFirst(s: System)
    requires s.held.Some?
    ensures Replies(Unobserved(s)) == Replies([s.held.value]) + Replies(s.toProxy)
    ensures Unobserved(s) == [s.held.value] + s.toProxy && Unobserved(DoObserve(s)) == s.toProxy
  {
    hide Replies;
    RepliesConcat([s.held.value], s.toProxy);
  }

  lemma ObserveBooks(s: System)
    requires s.held.Some? && Books(s)
    ensures Books(DoObserve(s))
    ensures s.held == Some(ReadyForQuery) ==> |DoObserve(s).written| == |s.begun|
  {
    hide Works, Texts, Closes, AfterBackend;
    var t, closed := DoObserve(s), Closes(s.audit.pending, s.held.value);
    ClosesOldest(s.audit, s.held.value);
    assert Texts(s.written) + (Texts(closed) + t.audit.pending) == (Texts(s.written) + Texts(closed)) + t.audit.pending;
    if s.held == Some(ReadyForQuery) {
      ReadyClosesAll(s.audit);
    }
  }

  lemma ReadyClosesAll(s: Audit)
    ensures |Closes(s.pending, ReadyForQuery)| == |s.pending|
  {
  }

  /** Taking a reply from the head of what is owed. */
  lemma OwedHead(s: System, t: System, v: Verdict, r: Record)
    requires Owed(s) && Correct(s) && s.held.Some? && !v.Skipped? && r.outcome == OutcomeOf(v)
    requires Replies(Unobserved(s)) == [v] + Replies(s.toProxy) && Unobserved(t) == s.toProxy
    requires Unobserved(s) == [s.held.value] + s.toProxy && s.held.value != ReadyForQuery
    requires t.verdicts == s.verdicts && t.skipping == s.skipping && t.written == s.written + [r]
    ensures Owed(t) && Correct(t)
  {
    hide Replies, Unobserved, OutcomeOf;
    var a, rs := |s.written|, Replies(Unobserved(s));
    assert s.verdicts[a..a + |rs|][0] == v;
    assert s.verdicts[a + 1..a + |rs|] == s.verdicts[a..a + |rs|][1..] == Replies(s.toProxy);
  }

  lemma ObserveReply(s: System, v: Verdict)
    requires Orderly(s) && s.held.Some? && !v.Skipped? && s.held.value == ReplyFor(v)
    ensures Orderly(DoObserve(s))
  {
    hide Works, Texts, Replies, Unobserved;
    HeldFirst(s);
    ReplyIs(v);
    ObserveBooks(s);
    OwedHead(s, DoObserve(s), v, Record(s.audit.pending[0], OutcomeOf(v)));
  }

  lemma ObserveReady(s: System)
    requires Orderly(s) && s.held == Some(ReadyForQuery)
    ensures Orderly(DoObserve(s))
  {
    hide Works, Texts, Replies, Unobserved;
    var t := DoObserve(s);
    HeldFirst(s);
    ReplyIs(Done(0));
    ObserveBooks(s);
    assert Replies(Unobserved(s)) == [] && Replies(Unobserved(t)) == [];
    assert t.verdicts[|t.written|..|t.written|] == [];
    assert forall n :: |s.written| <= n < |t.written| ==> t.written[n].outcome == Flushed;
  }

  lemma SameOwed(s: System, t: System)
    requires Owed(s) && t.verdicts == s.verdicts && t.written == s.written && t.skipping == s.skipping
    requires Replies(Unobserved(t)) == Replies(Unobserved(s))
    requires ReadyForQuery in Unobserved(s) ==> ReadyForQuery in Unobserved(t)
    ensures Owed(t)
  {
    hide Replies, Unobserved;
  }

  lemma ObserveOther(s: System)
    requires Orderly(s) && s.held == Some(OtherBackend)
    ensures Orderly(DoObserve(s))
  {
    hide Works, Texts, Replies, Owed, Books, Unobserved;
    var t := DoObserve(s);
    HeldFirst(s);
    ReplyIs(Done(0));
    ObserveBooks(s);
    assert Closes(s.audit.pending, OtherBackend) == [] && t.written == s.written;
    hide Closes, AfterBackend;
    assert [] + Replies(s.toProxy) == Replies(s.toProxy);
    SameOwed(s, t);
  }

  lemma ObserveOrderly(s: System)
    requires Orderly(s) && s.held.Some?
    ensures Orderly(DoObserve(s))
  {
    match s.held.value
    case CommandComplete(rows) => ObserveReply(s, Done(rows));
    case ErrorResponse(e) => ObserveReply(s, Error(e));
    case ReadyForQuery => ObserveReady(s);
    case OtherBackend => ObserveOther(s);
  }
}
