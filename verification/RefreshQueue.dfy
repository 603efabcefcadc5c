/** The web client's single-flight token refresh and the queue of requests behind it. */
module RefreshQueue {

  /** A request, and what its URL says of it. */
  datatype Request = Request(id: int, isLogin: bool, isRefresh: bool)

  /** Where the caller's promise stands: sent, waiting in the queue, waiting for the refresh
      it started, or settled. */
  datatype Status = InFlight | Queued | Leading | Resolved | Rejected

  /** Module variables, the per-request _retry flags, and a record of what happened. */
  datatype State = State(
    isRefreshing: bool, failedQueue: seq<Request>, retry: set<Request>, hasRefreshToken: bool,
    status: map<Request, Status>, sends: map<Request, nat>,
    refreshes: int,                      // refresh calls in flight
    woken: map<Request, nat>)            // how often the queue resumed or rejected a request

  const START := State(false, [], {}, true, map[], map[], 0, map[])

  datatype Event =
    | Send(r: Request)
    | Succeed(r: Request)
    | Fail(r: Request)                   // any error but 401
    | Unauthorized(r: Request)           // a 401 response
    | RefreshSettled(leader: Request, ok: bool)
    | TokenStored(present: bool)         // the stored refresh token changes elsewhere

  function Count(m: map<Request, nat>, r: Request): nat { if r in m then m[r] else 0 }

  predicate Is(s: State, r: Request, status: Status) { r in s.status && s.status[r] == status }

  function Settle(s: State, r: Request, status: Status): State { s.(status := s.status[r := status]) }

  function Resend(s: State, r: Request): State {
    s.(status := s.status[r := InFlight], sends := s.sends[r := Count(s.sends, r) + 1])
  }

  function AfterUnauthorized(s: State, r: Request): State {
    if r.isLogin then Settle(s, r, Rejected)
    else if r.isRefresh || r in s.retry || !s.hasRefreshToken then
      Settle(s, r, Rejected).(hasRefreshToken := false)
    else
      var t := s.(retry := s.retry + {r});
      if t.isRefreshing then Settle(t, r, Queued).(failedQueue := t.failedQueue + [r])
      else Settle(t, r, Leading).(isRefreshing := true, refreshes := t.refreshes + 1)
  }

  /** processQueue for one entry. */
  function Wake(s: State, r: Request, ok: bool): State {
    var t := s.(woken := s.woken[r := Count(s.woken, r) + 1]);
    if ok then Resend(t, r) else Settle(t, r, Rejected)
  }

  function WakeAll(s: State, queue: seq<Request>, ok: bool): State {
    if queue == [] then s else Wake(WakeAll(s, queue[..|queue| - 1], ok), queue[|queue| - 1], ok)
  }

  function ProcessedQueue(s: State, ok: bool): State { WakeAll(s, s.failedQueue, ok).(failedQueue := []) }

  function AfterRefresh(s: State, leader: Request, ok: bool): State {
    var a := s.(refreshes := s.refreshes - 1, hasRefreshToken := s.hasRefreshToken || ok);
    var t := ProcessedQueue(a, ok);
    var u := if ok then Resend(t, leader) else Settle(t, leader, Rejected);
    u.(isRefreshing := false, hasRefreshToken := ok)
  }

  /** One event; one that cannot happen changes nothing. */
  function Step(s: State, e: Event): State {
    match e
    case Send(r) => if r in s.status then s else Resend(s, r)
    case Succeed(r) => if Is(s, r, InFlight) then Settle(s, r, Resolved) else s
    case Fail(r) => if Is(s, r, InFlight) then Settle(s, r, Rejected) else s
    case Unauthorized(r) => if Is(s, r, InFlight) then AfterUnauthorized(s, r) else s
    case RefreshSettled(r, ok) => if Is(s, r, Leading) then AfterRefresh(s, r, ok) else s
    case TokenStored(b) => s.(hasRefreshToken := b)
  }

  function Reach(s: State, events: seq<Event>): State
    decreases |events|
  {
    if events == [] then s else Reach(Step(s, events[0]), events[1..])
  }

  /** Waking the queue touches statuses, send counts and wake counts alone. */
  lemma {:induction false} WakeFrame(s: State, queue: seq<Request>, ok: bool)
    ensures var t := WakeAll(s, queue, ok);
            t == s.(status := t.status, sends := t.sends, woken := t.woken)
    decreases |queue|
  {
    if queue != [] {
      WakeFrame(s, queue[..|queue| - 1], ok);
    }
  }

  lemma WakeNext(s: State, queue: seq<Request>, i: nat, ok: bool)
    requires i < |queue|
    ensures WakeAll(s, queue[..i + 1], ok) == Wake(WakeAll(s, queue[..i], ok), queue[i], ok)
  {
    hide Wake;
    assert queue[..i + 1][..i] == queue[..i];
  }

  lemma SameButQueue(s: State, ok: bool)
    ensures var t := ProcessedQueue(s, ok);
            t == s.(failedQueue := [], status := t.status, sends := t.sends, woken := t.woken)
  {
    WakeFrame(s, s.failedQueue, ok);
  }

  /** How a 401 ends for its request: login, refresh and repeated requests and those without a
      refresh token are rejected, all but the first of them at the price of the token; a request
      waits while a refresh is in flight, and starts one otherwise. Nothing else changes. */
  ghost predicate Handled(s: State, t: State, r: Request) {
    && t.sends == s.sends && t.woken == s.woken && r in t.status
    && (forall q :: q != r ==> (q in t.status <==> q in s.status) && (q in s.status ==> t.status[q] == s.status[q]))
    && if r.isLogin || r.isRefresh || r in s.retry || !s.hasRefreshToken then
         && t.status[r] == Rejected && t.hasRefreshToken == (r.isLogin && s.hasRefreshToken)
         && t.retry == s.retry && t.failedQueue == s.failedQueue
         && t.isRefreshing == s.isRefreshing && t.refreshes == s.refreshes
       else
         && t.hasRefreshToken && t.retry == s.retry + {r} && t.isRefreshing
         && t.status[r] == (if s.isRefreshing then Queued else Leading)
         && t.failedQueue == s.failedQueue + (if s.isRefreshing then [r] else [])
         && t.refreshes == s.refreshes + (if s.isRefreshing then 0 else 1)
  }

  // ---------------------------------------------------------------- the client

  class Client {
    var isRefreshing: bool
    var failedQueue: seq<Request>
    var retry: set<Request>
    var hasRefreshToken: bool
    var status: map<Request, Status>
    var sends: map<Request, nat>
    var refreshes: int
    var woken: map<Request, nat>

    function Current(): State
      reads this
    {
      State(isRefreshing, failedQueue, retry, hasRefreshToken, status, sends, refreshes, woken)
    }

    constructor ()
      ensures Current() == START
    {
      isRefreshing, failedQueue, retry, hasRefreshToken := false, [], {}, true;
      status, sends, refreshes, woken := map[], map[], 0, map[];
    }

    /** client(config): sends a request, for the first time or again. */
    method SendRequest(r: Request)
      modifies this
      ensures Current() == Resend(old(Current()), r)
    {
      status := status[r := InFlight];
      sends := sends[r := Count(sends, r) + 1];
    }

    /** Resolves or rejects the promise of a queued request. */
    method WakeRequest(r: Request, ok: bool)
      modifies this
      ensures Current() == Wake(old(Current()), r, ok)
    {
      woken := woken[r := Count(woken, r) + 1];
      if ok {
        SendRequest(r);
      } else {
        status := status[r := Rejected];
      }
    }

    method ProcessQueue(ok: bool)
      modifies this
      ensures Current() == ProcessedQueue(old(Current()), ok)
    {
      hide Wake;
      var queue := failedQueue;
      for i := 0 to |queue|
        invariant Current() == WakeAll(old(Current()), queue[..i], ok)
      {
        WakeNext(old(Current()), queue, i, ok);
        WakeRequest(queue[i], ok);
      }
      assert queue[..|queue|] == queue;
      failedQueue := [];
    }

    method ClearAuthAndRedirect()
      modifies this`hasRefreshToken
      ensures !hasRefreshToken
    {
      hasRefreshToken := false;
    }

    /** The error interceptor on a 401 response, up to its await. */
    method OnUnauthorized(r: Request)
      modifies this
      ensures Current() == AfterUnauthorized(old(Current()), r)
      ensures Handled(old(Current()), Current(), r)
    {
      if r.isLogin {
        status := status[r := Rejected];
        return;
      }
      if r.isRefresh || r in retry {
        ClearAuthAndRedirect();
        status := status[r := Rejected];
        return;
      }
      if !hasRefreshToken {
        ClearAuthAndRedirect();
        status := status[r := Rejected];
        return;
      }
      retry := retry + {r};
      if isRefreshing {
        failedQueue := failedQueue + [r];
        status := status[r := Queued];
        return;
      }
      isRefreshing := true;
      refreshes := refreshes + 1;
      status := status[r := Leading];
    }

    /** The error interceptor after the refresh call it awaited. */
    method OnRefreshSettled(leader: Request, ok: bool)
      modifies this
      ensures Current() == AfterRefresh(old(Current()), leader, ok)
      ensures failedQueue == [] && !isRefreshing && hasRefreshToken == ok && refreshes == old(refreshes) - 1
      ensures retry == old(retry) && Is(Current(), leader, if ok then InFlight else Rejected)
    {
      hide ProcessedQueue;
      SameButQueue(Current().(refreshes := refreshes - 1, hasRefreshToken := hasRefreshToken || ok), ok);
      refreshes := refreshes - 1;
      if ok {
        hasRefreshToken := true;
        ProcessQueue(true);
        SendRequest(leader);
      } else {
        ProcessQueue(false);
        ClearAuthAndRedirect();
        status := status[leader := Rejected];
      }
      isRefreshing := false;
    }
  }

  // ---------------------------------------------------------------- what holds in every run

  predicate Distinct(queue: seq<Request>) { forall i, j :: 0 <= i < j < |queue| ==> queue[i] != queue[j] }

  /** A request's own numbers: sent once before its retry flag is set and at most twice
      after; woken once if it was queued and the refresh it waited for settled. */
  ghost predicate RequestOk(s: State, r: Request) {
    && (r !in s.status ==> r !in s.retry && Count(s.sends, r) == 0 && Count(s.woken, r) == 0)
    && (r in s.status && r !in s.retry ==> Count(s.sends, r) == 1 && Count(s.woken, r) == 0)
    && (r in s.retry ==> 1 <= Count(s.sends, r) <= 2 && Count(s.woken, r) <= 1)
    && (Is(s, r, Queued) || Is(s, r, Leading) ==>
          r in s.retry && Count(s.sends, r) == 1 && Count(s.woken, r) == 0)
    && (Is(s, r, Queued) <==> r in s.failedQueue)
    && (r.isLogin || r.isRefresh ==> r !in s.retry)
  }

  ghost predicate Inv(s: State) {
    && Distinct(s.failedQueue)
    && (s.failedQueue != [] ==> s.isRefreshing)
    && s.refreshes == (if s.isRefreshing then 1 else 0)
    && (s.isRefreshing <==> exists r :: Is(s, r, Leading))
    && (forall a, b :: Is(s, a, Leading) && Is(s, b, Leading) ==> a == b)
    && (forall r :: RequestOk(s, r))
  }

  /** What waking does to a request that was woken, and to any other. */
  ghost predicate Woken(s: State, t: State, woken: bool, ok: bool, r: Request) {
    if woken then
      && Is(t, r, if ok then InFlight else Rejected)
      && Count(t.woken, r) == Count(s.woken, r) + 1
      && Count(t.sends, r) == Count(s.sends, r) + (if ok then 1 else 0)
    else
      && (r in t.status <==> r in s.status) && (r in s.status ==> t.status[r] == s.status[r])
      && Count(t.woken, r) == Count(s.woken, r) && Count(t.sends, r) == Count(s.sends, r)
  }

  lemma WakeOne(s: State, q: Request, ok: bool, r: Request)
    ensures Woken(s, Wake(s, q, ok), r == q, ok, r)
  {
  }

  lemma {:induction false} WakeEffect(s: State, queue: seq<Request>, ok: bool, r: Request)
    requires Distinct(queue)
    ensures Woken(s, WakeAll(s, queue, ok), r in queue, ok, r)
    decreases |queue|
  {
    if queue != [] {
      hide Wake;
      var n := |queue| - 1;
      WakeEffect(s, queue[..n], ok, r);
      WakeOne(WakeAll(s, queue[..n], ok), queue[n], ok, r);
      assert queue == queue[..n] + [queue[n]];
    }
  }

  /** What settling the refresh does to each request: the queue and the leader wake, once. */
  lemma SettleEffect(s: State, leader: Request, ok: bool, r: Request)
    requires Inv(s) && Is(s, leader, Leading)
    ensures var t := AfterRefresh(s, leader, ok);
            if r in s.failedQueue then
              && Is(t, r, if ok then InFlight else Rejected) && Count(t.woken, r) == 1
              && Count(t.sends, r) == (if ok then 2 else 1)
            else if r == leader then
              && Is(t, r, if ok then InFlight else Rejected) && Count(t.woken, r) == 0
              && Count(t.sends, r) == (if ok then 2 else 1)
            else
              && (r in t.status <==> r in s.status) && (r in s.status ==> t.status[r] == s.status[r])
              && Count(t.woken, r) == Count(s.woken, r) && Count(t.sends, r) == Count(s.sends, r)
    ensures var t := AfterRefresh(s, leader, ok);
            t.failedQueue == [] && !t.isRefreshing && t.refreshes == 0 && t.retry == s.retry && t.hasRefreshToken == ok
  {
    hide WakeAll;
    var a := s.(refreshes := s.refreshes - 1, hasRefreshToken := s.hasRefreshToken || ok);
    WakeFrame(a, a.failedQueue, ok);
    WakeEffect(a, a.failedQueue, ok, r);
    WakeEffect(a, a.failedQueue, ok, leader);
    assert RequestOk(s, leader) && RequestOk(s, r);
  }

  lemma RefreshInv(s: State, leader: Request, ok: bool)
    requires Inv(s) && Is(s, leader, Leading)
    ensures Inv(AfterRefresh(s, leader, ok))
  {
    hide AfterRefresh, RequestOk, Count;
    var t := AfterRefresh(s, leader, ok);
    forall r ensures RequestOk(t, r) && !Is(t, r, Leading) {
      SettleEffect(s, leader, ok, r);
      OneSettled(s, t, leader, ok, r);
    }
    SettleEffect(s, leader, ok, leader);
  }

  lemma OneSettled(s: State, t: State, leader: Request, ok: bool, r: Request)
    requires Inv(s) && Is(s, leader, Leading) && t == AfterRefresh(s, leader, ok)
    ensures RequestOk(t, r) && !Is(t, r, Leading)
  {
    hide AfterRefresh;
    SettleEffect(s, leader, ok, r);
    assert RequestOk(s, r) && RequestOk(s, leader);
    assert Is(s, r, Leading) ==> r == leader;
  }

  lemma RejectedInv(s: State, r: Request, present: bool)
    requires Inv(s) && Is(s, r, InFlight)
    ensures Inv(Settle(s, r, Rejected).(hasRefreshToken := present))
  {
    hide Inv;
    SettledInv(s, r, Rejected);
    TokenInv(Settle(s, r, Rejected), present);
  }

  lemma QueuedInv(s: State, r: Request)
    requires Inv(s) && Is(s, r, InFlight) && r !in s.retry && s.isRefreshing && !r.isLogin && !r.isRefresh
    ensures Inv(Settle(s.(retry := s.retry + {r}), r, Queued).(failedQueue := s.failedQueue + [r]))
  {
    hide Count;
    var t := Settle(s.(retry := s.retry + {r}), r, Queued).(failedQueue := s.failedQueue + [r]);
    assert RequestOk(s, r) && r !in s.failedQueue;
    forall q ensures RequestOk(t, q) && (Is(t, q, Leading) <==> Is(s, q, Leading)) {
      assert RequestOk(s, q);
    }
  }

  lemma LeadingInv(s: State, r: Request)
    requires Inv(s) && Is(s, r, InFlight) && r !in s.retry && !s.isRefreshing && !r.isLogin && !r.isRefresh
    ensures Inv(Settle(s.(retry := s.retry + {r}), r, Leading).(isRefreshing := true, refreshes := s.refreshes + 1))
  {
    hide Count;
    var t := Settle(s.(retry := s.retry + {r}), r, Leading).(isRefreshing := true, refreshes := s.refreshes + 1);
    assert RequestOk(s, r);
    forall q ensures RequestOk(t, q) && (Is(t, q, Leading) <==> q == r) {
      assert RequestOk(s, q) && !Is(s, q, Leading);
    }
    assert Is(t, r, Leading);
  }

  lemma UnauthorizedInv(s: State, r: Request)
    requires Inv(s) && Is(s, r, InFlight)
    ensures Inv(AfterUnauthorized(s, r))
  {
    hide Inv, Settle;
    if r.isLogin {
      SettledInv(s, r, Rejected);
    } else if r.isRefresh || r in s.retry || !s.hasRefreshToken {
      RejectedInv(s, r, false);
    } else if s.isRefreshing {
      QueuedInv(s, r);
    } else {
      LeadingInv(s, r);
    }
  }

  lemma SettledInv(s: State, r: Request, status: Status)
    requires Inv(s) && Is(s, r, InFlight) && (status == Resolved || status == Rejected)
    ensures Inv(Settle(s, r, status))
  {
    hide Count;
    var t := Settle(s, r, status);
    assert RequestOk(s, r);
    forall q ensures RequestOk(t, q) && (Is(t, q, Leading) <==> Is(s, q, Leading)) {
      assert RequestOk(s, q);
    }
  }

  lemma SendInv(s: State, r: Request)
    requires Inv(s) && r !in s.status
    ensures Inv(Resend(s, r))
  {
    var t := Resend(s, r);
    assert RequestOk(s, r);
    forall q ensures RequestOk(t, q) {
      assert RequestOk(s, q);
    }
    forall q ensures Is(t, q, Leading) <==> Is(s, q, Leading) {
    }
  }

  lemma TokenInv(s: State, present: bool)
    requires Inv(s)
    ensures Inv(s.(hasRefreshToken := present))
  {
    var t := s.(hasRefreshToken := present);
    forall q ensures RequestOk(t, q) && (Is(t, q, Leading) <==> Is(s, q, Leading)) {
      assert RequestOk(s, q);
    }
  }

  lemma StepInv(s: State, e: Event)
    requires Inv(s)
    ensures Inv(Step(s, e))
  {
    hide Inv, Resend, AfterUnauthorized, AfterRefresh;
    match e
    case Send(r) => if r !in s.status { SendInv(s, r); }
    case Succeed(r) => if Is(s, r, InFlight) { SettledInv(s, r, Resolved); }
    case Fail(r) => if Is(s, r, InFlight) { SettledInv(s, r, Rejected); }
    case Unauthorized(r) => if Is(s, r, InFlight) { UnauthorizedInv(s, r); }
    case RefreshSettled(r, ok) => if Is(s, r, Leading) { RefreshInv(s, r, ok); }
    case TokenStored(b) => TokenInv(s, b);
  }

  lemma {:induction false} ReachInv(s: State, events: seq<Event>)
    requires Inv(s)
    ensures Inv(Reach(s, events))
    decreases |events|
  {
    hide Inv, Step;
    if events != [] {
      StepInv(s, events[0]);
      ReachInv(Step(s, events[0]), events[1..]);
    }
  }

  lemma StartInv()
    ensures Inv(START)
  {
  }

  /** In every run at most one refresh is in flight; requests wait only while one is; a
      request is sent at most twice, a login or refresh request once, and the queue wakes a
      request at most once. */
  lemma SingleFlight(events: seq<Event>)
    ensures var s := Reach(START, events);
            && s.refreshes == (if s.isRefreshing then 1 else 0)
            && (s.failedQueue != [] ==> s.isRefreshing)
            && Distinct(s.failedQueue)
            && (forall r: Request :: Count(s.sends, r) <= 2 && Count(s.woken, r) <= 1)
            && (forall r: Request :: r.isLogin || r.isRefresh ==> Count(s.sends, r) <= 1)
            && (forall r: Request :: r in s.failedQueue ==> Count(s.woken, r) == 0 && Count(s.sends, r) == 1)
  {
    hide Step, Count;
    StartInv();
    ReachInv(START, events);
    var s := Reach(START, events);
    forall r: Request ensures Count(s.sends, r) <= 2 && Count(s.woken, r) <= 1
                     && (r.isLogin || r.isRefresh ==> Count(s.sends, r) <= 1)
                     && (r in s.failedQueue ==> Count(s.woken, r) == 0 && Count(s.sends, r) == 1) {
      assert RequestOk(s, r);
    }
  }

  /** When the refresh settles, every queued request, and the one that led, is resumed or
      rejected, none keeps waiting, and every other request is as it was. */
  lemma RefreshWakesAll(events: seq<Event>, leader: Request, ok: bool, r: Request)
    requires Is(Reach(START, events), leader, Leading)
    ensures var s := Reach(START, events); var t := Step(s, RefreshSettled(leader, ok));
            && t.failedQueue == [] && !t.isRefreshing && t.refreshes == 0 && t.hasRefreshToken == ok
            && (r in s.failedQueue ==> Count(t.woken, r) == 1)
            && (r in s.failedQueue || r == leader ==>
                  Is(t, r, if ok then InFlight else Rejected) && Count(t.sends, r) == (if ok then 2 else 1))
            && (r !in s.failedQueue && r != leader && r in s.status ==> r in t.status && t.status[r] == s.status[r])
  {
    hide AfterRefresh, Count;
    StartInv();
    ReachInv(START, events);
    SettleEffect(Reach(START, events), leader, ok, r);
  }

  lemma ReachCons(s: State, e: Event, rest: seq<Event>)
    ensures Reach(s, [e] + rest) == Reach(Step(s, e), rest)
  {
    hide Step;
    assert ([e] + rest)[1..] == rest;
  }

  /** A 401 for a request that was sent a second time is final, and drops the refresh token. */
  lemma SecondUnauthorizedEnds(events: seq<Event>, r: Request)
    requires var s := Reach(START, events); Is(s, r, InFlight) && Count(s.sends, r) == 2
    ensures var t := Reach(START, events + [Unauthorized(r)]); Is(t, r, Rejected) && !t.hasRefreshToken
  {
    hide Step, Count;
    StartInv();
    ReachInv(START, events);
    var s := Reach(START, events);
    assert RequestOk(s, r);
    ReachSnoc(START, events, Unauthorized(r));
    UnauthorizedHandled(s, r);
  }

  lemma UnauthorizedHandled(s: State, r: Request)
    requires Is(s, r, InFlight)
    ensures Handled(s, Step(s, Unauthorized(r)), r)
  {
  }

  lemma {:induction false} ReachSnoc(s: State, events: seq<Event>, e: Event)
    ensures Reach(s, events + [e]) == Step(Reach(s, events), e)
    decreases |events|
  {
    hide Step;
    if events == [] {
      assert events + [e] == [e] + [];
      ReachCons(s, e, []);
    } else {
      assert events + [e] == [events[0]] + (events[1..] + [e]);
      ReachCons(s, events[0], events[1..] + [e]);
      ReachSnoc(Step(s, events[0]), events[1..], e);
    }
  }

  lemma ReachThree(s: State, a: Event, b: Event, c: Event)
    ensures Reach(s, [a, b, c]) == Step(Step(Step(s, a), b), c)
  {
    hide Step;
    ReachCons(s, a, [b, c]);
    ReachCons(Step(s, a), b, [c]);
    ReachCons(Step(Step(s, a), b), c, []);
    ReachNone(Step(Step(Step(s, a), b), c));
    assert [a] + [b, c] == [a, b, c] && [b] + [c] == [b, c] && [c] + [] == [c];
  }

  lemma NewWaits(s: State, r: Request)
    requires RequestOk(s, r) && r !in s.status && !r.isLogin && !r.isRefresh
    ensures var t := Step(Step(Step(s, Send(r)), TokenStored(true)), Unauthorized(r));
            && Is(t, r, if s.isRefreshing then Queued else Leading) && Count(t.sends, r) == 1
            && t.failedQueue == (if s.isRefreshing then s.failedQueue + [r] else s.failedQueue)
  {
    var b := Step(Step(s, Send(r)), TokenStored(true));
    assert b == Resend(s, r).(hasRefreshToken := true) && Is(b, r, InFlight) && Count(b.sends, r) == 1;
    hide Step, RequestOk, Resend;
    UnauthorizedHandled(b, r);
  }

  /** The first 401 for a new request, with a refresh token at hand, is not the end of it: it
      waits for the refresh in flight, or leads one. */
  lemma FirstUnauthorizedWaits(events: seq<Event>, r: Request)
    requires r !in Reach(START, events).status && !r.isLogin && !r.isRefresh
    ensures var s := Reach(START, events);
            var t := Reach(s, [Send(r), TokenStored(true), Unauthorized(r)]);
            && Is(t, r, if s.isRefreshing then Queued else Leading) && Count(t.sends, r) == 1
            && t.failedQueue == (if s.isRefreshing then s.failedQueue + [r] else s.failedQueue)
  {
    StartInv();
    ReachInv(START, events);
    var s := Reach(START, events);
    assert RequestOk(s, r);
    hide *;
    NewWaits(s, r);
    ReachThree(s, Send(r), TokenStored(true), Unauthorized(r));
  }

  lemma ReachNone(s: State)
    ensures Reach(s, []) == s
  {
  }

  /** No request is left behind: whatever happened, one that is not settled yet can still be
      answered, after the refresh it may be waiting for, which some request is waiting on. */
  lemma NoneStuck(events: seq<Event>, r: Request, ok: bool)
    requires r in Reach(START, events).status
    requires var status := Reach(START, events).status[r]; status != Resolved && status != Rejected
    ensures exists more :: |more| <= 2
              && Is(Reach(Reach(START, events), more), r, if ok then Resolved else Rejected)
  {
    StartInv();
    ReachInv(START, events);
    var s := Reach(START, events);
    assert RequestOk(s, r);
    var last := if ok then Succeed(r) else Fail(r);
    if s.status[r] == InFlight {
      Answered(s, r, ok);
      ReachCons(s, last, []);
      ReachNone(Step(s, last));
      assert [last] + [] == [last];
    } else {
      var leader := LeaderOf(s, r);
      SettleEffect(s, leader, true, r);
      hide AfterRefresh, Inv, RequestOk, Count;
      var t := Step(s, RefreshSettled(leader, true));
      assert Is(t, r, InFlight);
      hide Step, Is;
      Answered(t, r, ok);
      ReachTwo(s, RefreshSettled(leader, true), last);
    }
  }

  lemma ReachTwo(s: State, a: Event, b: Event)
    ensures Reach(s, [a, b]) == Step(Step(s, a), b)
  {
    hide Step;
    ReachCons(s, a, [b]);
    ReachCons(Step(s, a), b, []);
    ReachNone(Step(Step(s, a), b));
    assert [a] + [b] == [a, b] && [b] + [] == [b];
  }

  /** Whoever waits, waits for the refresh of some request. */
  lemma LeaderOf(s: State, r: Request) returns (leader: Request)
    requires Inv(s) && (Is(s, r, Queued) || Is(s, r, Leading))
    ensures Is(s, leader, Leading) && (r in s.failedQueue || r == leader)
  {
    hide Count;
    assert RequestOk(s, r);
    leader :| Is(s, leader, Leading);
  }

  lemma Answered(s: State, r: Request, ok: bool)
    requires Is(s, r, InFlight)
    ensures Is(Step(s, if ok then Succeed(r) else Fail(r)), r, if ok then Resolved else Rejected)
  {
  }
}
