/**
 Connectors, queues and calls of the API engine: connectors are pooled per API, queues are
 cached when an API has no containers left and reused for another one
 (engine/src/juliabox/api/api_connector.py, api_queue.py).
 A connector serves at most one call at a time, so calls are named by their connectors.
 */
module ApiCalls {
  import opened Basics
  import opened ApiQueue

  const MAX_CONNS: nat := 100

  type Api = string
  datatype Conn = Conn(api: Api, queue: nat)

  // QUEUES, QUEUE_CACHE, the numbers kept by each queue, CONNS, all connectors ever made, and
  // those with a call in progress.
  datatype State = State(
    queues: map<Api, nat>, cache: seq<nat>, stats: seq<Stat>,
    pools: map<Api, seq<nat>>, conns: seq<Conn>, busy: set<nat>)

  const EMPTY := State(map[], [], [], map[], [], {})

  // get_queue: the API's queue, else a cached one, else a new one.
  function WithQueue(s: State, api: Api): (s': State)
    ensures api in s'.queues && s'.conns == s.conns && s'.pools == s.pools && s'.busy == s.busy
  {
    if api in s.queues then s
    else if s.cache != [] then
      var q := s.cache[|s.cache| - 1];
      s.(queues := s.queues[api := q], cache := s.cache[..|s.cache| - 1],
         stats := if q < |s.stats| then s.stats[q := FRESH] else s.stats)
    else
      s.(queues := s.queues[api := |s.stats|], stats := s.stats + [FRESH])
  }

  function Pool(s: State, api: Api): seq<nat> {
    if api in s.pools then s.pools[api] else []
  }

  // _get_conn: the last pooled connector of the API, else a new one to the API's queue.
  function WithConn(s: State, api: Api): (r: (State, nat)) {
    var pool := Pool(s, api);
    if pool != [] then (s.(pools := s.pools[api := pool[..|pool| - 1]]), pool[|pool| - 1])
    else
      var s1 := WithQueue(s, api);
      (s1.(conns := s1.conns + [Conn(api, s1.queues[api])], pools := s1.pools[api := []]), |s.conns|)
  }

  function StatOf(s: State, q: nat): Stat {
    if q < |s.stats| then s.stats[q] else FRESH
  }

  function WithIncr(s: State, q: nat, n: int): State {
    if q < |s.stats| then s.(stats := s.stats[q := Incr(s.stats[q], n)]) else s
  }

  function QueueOf(s: State, c: nat): nat {
    if c < |s.conns| then s.conns[c].queue else 0
  }

  // send_recv up to the point where the request is sent; on overload the connector is dropped.
  function Send(s: State, api: Api): State {
    var (s1, c) := WithConn(s, api);
    if !Admits(StatOf(s1, QueueOf(s1, c))) then s1
    else WithIncr(s1.(busy := s1.busy + {c}), QueueOf(s1, c), 1)
  }

  // _release, after an answer or a time-out.
  function Finish(s: State, c: nat, errors: bool): State {
    var s1 := WithIncr(s.(busy := s.busy - {c}), QueueOf(s, c), -1);
    if c < |s.conns| && s.conns[c].api in s1.pools
       && !errors && |s1.pools[s.conns[c].api]| < MAX_CONNS then
      s1.(pools := s1.pools[s.conns[c].api := s1.pools[s.conns[c].api] + [c]])
    else s1
  }

  // release_queues, for one API without containers.
  function Retire(s: State, api: Api): State {
    if api !in s.queues then s
    else s.(pools := s.pools - {api}, queues := s.queues - {api}, cache := s.cache + [s.queues[api]])
  }

  // The end of a pass of calc_desired_container_counts over one API.
  function Idle(s: State, api: Api): State {
    if api in s.queues && s.queues[api] < |s.stats| then
      s.(stats := s.stats[s.queues[api] := AfterPass(s.stats[s.queues[api]])])
    else s
  }

  // ---------- What every step keeps ----------

  // Pooled connectors are idle, belong to their pool's API, and are in it once.
  ghost predicate PoolInv(s: State) {
    && (forall c <- s.busy :: c < |s.conns|)
    && (forall api <- s.pools ::
          |s.pools[api]| <= MAX_CONNS && NoDup(s.pools[api])
          && forall c <- s.pools[api] :: c < |s.conns| && s.conns[c].api == api && c !in s.busy)
  }

  // Every queue is in use by one API or cached, never both.
  ghost predicate QueueInv(s: State) {
    && (forall api <- s.queues :: s.queues[api] < |s.stats| && s.queues[api] !in s.cache)
    && (forall a, b :: a in s.queues && b in s.queues && a != b ==> s.queues[a] != s.queues[b])
    && (forall q <- s.cache :: q < |s.stats|) && NoDup(s.cache)
    && (forall c <- s.conns :: c.queue < |s.stats|)
    && (forall q <- s.stats :: IsNear(q) && q.num <= BUFFER_SZ + 1)
  }

  // Requests go where they belong: every connector that may still be used for an API, and
  // every call in progress, is on the API's own queue.
  ghost predicate RouteInv(s: State) {
    && (forall api <- s.pools :: forall c <- s.pools[api] ::
          c < |s.conns| && api in s.queues && s.conns[c].queue == s.queues[api])
    && (forall c <- s.busy ::
          c < |s.conns| && s.conns[c].api in s.queues && s.conns[c].queue == s.queues[s.conns[c].api])
  }

  function BusyOn(s: State, q: nat): set<nat> {
    set c | c in s.busy && c < |s.conns| && s.conns[c].queue == q
  }

  // The number kept by a queue in use is the number of its calls in progress.
  ghost predicate CountInv(s: State) {
    forall api <- s.queues :: s.queues[api] < |s.stats| ==> s.stats[s.queues[api]].num == |BusyOn(s, s.queues[api])|
  }

  datatype Step = Sends(api: Api) | Answered(c: nat) | TimedOut(c: nat) | Retires(api: Api) | Idles(api: Api)

  predicate Enabled(s: State, st: Step) {
    (st.Answered? || st.TimedOut?) ==> st.c in s.busy
  }

  function Next(s: State, st: Step): State {
    match st
    case Sends(api) => Send(s, api)
    case Answered(c) => Finish(s, c, false)
    case TimedOut(c) => Finish(s, c, true)
    case Retires(api) => Retire(s, api)
    case Idles(api) => Idle(s, api)
  }

  // No call of the API is in progress when its queue is given up.
  predicate RetiresQuietly(s: State, st: Step) {
    st.Retires? ==> forall c <- s.busy :: c < |s.conns| ==> s.conns[c].api != st.api
  }

  // ---------- Pools ----------

  ghost predicate IsUnpooled(s: State, c: nat) {
    forall api <- s.pools :: c !in s.pools[api]
  }

  lemma PickedConnIsFree(s: State, api: Api)
    requires PoolInv(s)
    ensures var (s1, c) := WithConn(s, api);
            PoolInv(s1) && c < |s1.conns| && s1.conns[c].api == api && c !in s1.busy && IsUnpooled(s1, c)
  {
    var pool := Pool(s, api);
    var (s1, c) := WithConn(s, api);
    if pool != [] {
      assert NoDup(pool) && pool == s.pools[api];
      assert pool[|pool| - 1] in pool;
      assert forall d <- pool[..|pool| - 1] :: d in pool;
    }
    forall a | a in s1.pools ensures NoDup(s1.pools[a]) && c !in s1.pools[a] {
      if a in s.pools {
        assert NoDup(s.pools[a]);
      }
    }
  }

  lemma SendKeepsPools(s: State, api: Api)
    requires PoolInv(s)
    ensures PoolInv(Send(s, api))
  {
    PickedConnIsFree(s, api);
  }

  lemma BusyIsUnpooled(s: State, c: nat)
    requires PoolInv(s) && c in s.busy
    ensures IsUnpooled(s, c)
  {
  }

  lemma AppendKeepsNoDup(xs: seq<nat>, c: nat)
    requires NoDup(xs) && c !in xs
    ensures NoDup(xs + [c])
  {
  }

  lemma FinishKeepsPools(s: State, c: nat, errors: bool)
    requires PoolInv(s) && c in s.busy
    ensures PoolInv(Finish(s, c, errors))
  {
    BusyIsUnpooled(s, c);
    var s' := Finish(s, c, errors);
    var api := s.conns[c].api;
    if api in s.pools {
      AppendKeepsNoDup(s.pools[api], c);
    }
    forall a | a in s'.pools
      ensures |s'.pools[a]| <= MAX_CONNS && NoDup(s'.pools[a])
      ensures forall d <- s'.pools[a] :: d < |s'.conns| && s'.conns[d].api == a && d !in s'.busy
    {
      assert a in s.pools;
    }
  }

  lemma StepKeepsPools(s: State, st: Step)
    requires PoolInv(s) && Enabled(s, st)
    ensures PoolInv(Next(s, st))
  {
    match st
    case Sends(api) => SendKeepsPools(s, api);
    case Answered(c) => FinishKeepsPools(s, c, false);
    case TimedOut(c) => FinishKeepsPools(s, c, true);
    case _ =>
  }

  // ---------- Queues ----------

  lemma WithQueueKeepsQueues(s: State, api: Api)
    requires QueueInv(s)
    ensures QueueInv(WithQueue(s, api)) && api in WithQueue(s, api).queues
    ensures forall a <- s.queues :: WithQueue(s, api).queues[a] == s.queues[a]
  {
    var s1 := WithQueue(s, api);
    if api !in s.queues && s.cache != [] {
      var q := s.cache[|s.cache| - 1];
      assert q in s.cache;
      assert q !in s.cache[..|s.cache| - 1] by { assert NoDup(s.cache); }
      assert forall a <- s.queues :: s.queues[a] != q;
      assert forall x <- s1.cache :: x in s.cache;
    }
    forall q | q in s1.stats ensures IsNear(q) && q.num <= BUFFER_SZ + 1 {
      assert q in s.stats || q == FRESH;
    }
  }

  lemma WithConnKeepsQueues(s: State, api: Api)
    requires QueueInv(s)
    ensures QueueInv(WithConn(s, api).0)
  {
    WithQueueKeepsQueues(s, api);
    var s1 := WithQueue(s, api);
    var conns := s1.conns + [Conn(api, s1.queues[api])];
    assert forall c <- conns :: c in s1.conns || c == Conn(api, s1.queues[api]);
  }

  lemma WithIncrKeepsQueues(s: State, q: nat, n: int)
    requires QueueInv(s) && -1 <= n <= 1 && (n == 1 ==> Admits(StatOf(s, q)))
    ensures QueueInv(WithIncr(s, q, n))
  {
    if q < |s.stats| {
      var was := s.stats[q];
      assert was in s.stats;
      StaysNear(was, n);
      if n == 1 {
        AdmissionCaps(was);
      }
      forall x | x in WithIncr(s, q, n).stats ensures IsNear(x) && x.num <= BUFFER_SZ + 1 {
        assert x in s.stats || x == Incr(was, n);
      }
    }
  }

  lemma StepKeepsQueues(s: State, st: Step)
    requires QueueInv(s) && Enabled(s, st)
    ensures QueueInv(Next(s, st))
  {
    match st
    case Sends(api) =>
      WithConnKeepsQueues(s, api);
      var (s1, c) := WithConn(s, api);
      if Admits(StatOf(s1, QueueOf(s1, c))) {
        var s2 := s1.(busy := s1.busy + {c});
        assert QueueInv(s2);
        WithIncrKeepsQueues(s2, QueueOf(s1, c), 1);
      }
    case Answered(c) => WithIncrKeepsQueues(s.(busy := s.busy - {c}), QueueOf(s, c), -1);
    case TimedOut(c) => WithIncrKeepsQueues(s.(busy := s.busy - {c}), QueueOf(s, c), -1);
    case Retires(api) => RetireKeepsQueues(s, api);
    case Idles(api) =>
      if api in s.queues {
        assert s.stats[s.queues[api]] in s.stats;
        WithIncrKeepsQueues(s, s.queues[api], 0);
      }
  }

  lemma RetireKeepsQueues(s: State, api: Api)
    requires QueueInv(s)
    ensures QueueInv(Retire(s, api))
  {
    if api in s.queues {
      AppendKeepsNoDup(s.cache, s.queues[api]);
    }
  }

  // ---------- Routing ----------

  lemma PickedConnIsRouted(s: State, api: Api)
    requires QueueInv(s) && PoolInv(s) && RouteInv(s)
    ensures var (s1, c) := WithConn(s, api);
            RouteInv(s1) && c < |s1.conns| && s1.conns[c].api == api
            && api in s1.queues && s1.conns[c].queue == s1.queues[api]
  {
    WithQueueKeepsQueues(s, api);
    var pool := Pool(s, api);
    if pool != [] {
      assert pool[|pool| - 1] in pool;
      assert forall d <- pool[..|pool| - 1] :: d in pool;
    }
  }

  lemma FinishKeepsRoutes(s: State, c: nat, errors: bool)
    requires PoolInv(s) && RouteInv(s) && c in s.busy
    ensures RouteInv(Finish(s, c, errors))
  {
    var s' := Finish(s, c, errors);
    forall a | a in s'.pools
      ensures forall d <- s'.pools[a] :: d < |s'.conns| && a in s'.queues && s'.conns[d].queue == s'.queues[a]
    {
      assert a in s.pools;
      assert forall d <- s'.pools[a] :: d in s.pools[a] || (d == c && a == s.conns[c].api);
    }
  }

  // A step keeps all calls on their APIs' queues exactly when it does not give up the queue of
  // an API with a call in progress.
  lemma StepKeepsRoutesIff(s: State, st: Step)
    requires QueueInv(s) && PoolInv(s) && RouteInv(s) && Enabled(s, st)
    ensures RouteInv(Next(s, st)) <==> RetiresQuietly(s, st)
  {
    match st
    case Sends(api) => PickedConnIsRouted(s, api);
    case Answered(c) => FinishKeepsRoutes(s, c, false);
    case TimedOut(c) => FinishKeepsRoutes(s, c, true);
    case _ =>
  }

  // ---------- Counting ----------

  lemma UnusedQueueHasNoCalls(s: State, q: nat)
    requires RouteInv(s) && forall api <- s.queues :: s.queues[api] != q
    ensures BusyOn(s, q) == {}
  {
  }

  // Taking a connector leaves every queue's calls as they were; a queue newly put to use has none.
  lemma PickedConnKeepsCounts(s: State, api: Api)
    requires QueueInv(s) && PoolInv(s) && RouteInv(s) && CountInv(s)
    ensures CountInv(WithConn(s, api).0)
  {
    var s1 := WithConn(s, api).0;
    WithQueueKeepsQueues(s, api);
    forall a | a in s1.queues && s1.queues[a] < |s1.stats|
      ensures s1.stats[s1.queues[a]].num == |BusyOn(s1, s1.queues[a])|
    {
      var q := s1.queues[a];
      assert BusyOn(s1, q) == BusyOn(s, q);
      if a !in s.queues {
        if s.cache != [] {
          assert q in s.cache;
        }
        UnusedQueueHasNoCalls(s, q);
      }
    }
  }

  // One call more on one queue.
  lemma OneMoreCall(s: State, api: Api, c: nat)
    requires QueueInv(s) && CountInv(s)
    requires c < |s.conns| && c !in s.busy && api in s.queues && s.conns[c].queue == s.queues[api]
    ensures CountInv(WithIncr(s.(busy := s.busy + {c}), s.queues[api], 1))
  {
    var s2 := WithIncr(s.(busy := s.busy + {c}), s.queues[api], 1);
    forall a | a in s2.queues ensures s2.stats[s2.queues[a]].num == |BusyOn(s2, s2.queues[a])| {
      var q := s.queues[a];
      if a == api {
        assert BusyOn(s2, q) == BusyOn(s, q) + {c};
        assert c !in BusyOn(s, q);
      } else {
        assert BusyOn(s2, q) == BusyOn(s, q);
      }
    }
  }

  lemma SendKeepsCounts(s: State, api: Api)
    requires QueueInv(s) && PoolInv(s) && RouteInv(s) && CountInv(s)
    ensures CountInv(Send(s, api))
  {
    hide QueueInv, PoolInv, RouteInv, CountInv, IsUnpooled, WithConn;
    PickedConnKeepsCounts(s, api);
    PickedConnIsRouted(s, api);
    PickedConnIsFree(s, api);
    WithConnKeepsQueues(s, api);
    var (s1, c) := WithConn(s, api);
    if Admits(StatOf(s1, QueueOf(s1, c))) {
      OneMoreCall(s1, api, c);
    }
  }

  lemma FinishKeepsCounts(s: State, c: nat, errors: bool)
    requires QueueInv(s) && PoolInv(s) && RouteInv(s) && CountInv(s) && c in s.busy
    ensures CountInv(Finish(s, c, errors))
  {
    var s2 := Finish(s, c, errors);
    var api := s.conns[c].api;
    forall a | a in s2.queues ensures s2.stats[s2.queues[a]].num == |BusyOn(s2, s2.queues[a])| {
      if a == api {
        assert c in BusyOn(s, s.queues[a]);
        assert BusyOn(s2, s2.queues[a]) == BusyOn(s, s.queues[a]) - {c};
      } else {
        assert BusyOn(s2, s2.queues[a]) == BusyOn(s, s.queues[a]);
      }
    }
  }

  lemma StepKeepsCounts(s: State, st: Step)
    requires QueueInv(s) && PoolInv(s) && RouteInv(s) && CountInv(s) && Enabled(s, st)
    ensures CountInv(Next(s, st))
  {
    match st
    case Sends(api) => SendKeepsCounts(s, api);
    case Answered(c) => FinishKeepsCounts(s, c, false);
    case TimedOut(c) => FinishKeepsCounts(s, c, true);
    case _ =>
      var s' := Next(s, st);
      forall a | a in s'.queues && s'.queues[a] < |s'.stats|
        ensures s'.stats[s'.queues[a]].num == |BusyOn(s', s'.queues[a])|
      {
        assert a in s.queues && BusyOn(s', s'.queues[a]) == BusyOn(s, s.queues[a]);
      }
  }

  // ---------- Runs ----------

  ghost predicate RunUnder(s: State, steps: seq<Step>, quiet: bool)
    decreases |steps|
  {
    steps == []
    || (Enabled(s, steps[0]) && (quiet ==> RetiresQuietly(s, steps[0])) && RunUnder(Next(s, steps[0]), steps[1..], quiet))
  }

  function After(s: State, steps: seq<Step>): State
    decreases |steps|
  {
    if steps == [] then s else After(Next(s, steps[0]), steps[1..])
  }

  // In every run whatever no connector serves two calls or is pooled while serving one, no
  // queue serves two APIs, no queue's number exceeds BUFFER_SZ + 1, and every mean is near its
  // number.
  lemma {:induction false} PoolsAndQueuesStaySound(s: State, steps: seq<Step>)
    requires PoolInv(s) && QueueInv(s) && RunUnder(s, steps, false)
    ensures PoolInv(After(s, steps)) && QueueInv(After(s, steps))
    decreases |steps|
  {
    if steps != [] {
      StepKeepsPools(s, steps[0]);
      StepKeepsQueues(s, steps[0]);
      PoolsAndQueuesStaySound(Next(s, steps[0]), steps[1..]);
    }
  }

  // In every run that gives up queues only while their API has no calls, calls go to the queue
  // of their API, and the number kept by a queue is exactly the number of calls in progress.
  lemma {:induction false} CallsReachTheirApi(s: State, steps: seq<Step>)
    requires PoolInv(s) && QueueInv(s) && RouteInv(s) && CountInv(s) && RunUnder(s, steps, true)
    ensures var e := After(s, steps); PoolInv(e) && QueueInv(e) && RouteInv(e) && CountInv(e)
    decreases |steps|
  {
    if steps != [] {
      StepKeepsPools(s, steps[0]);
      StepKeepsQueues(s, steps[0]);
      StepKeepsRoutesIff(s, steps[0]);
      StepKeepsCounts(s, steps[0]);
      CallsReachTheirApi(Next(s, steps[0]), steps[1..]);
    }
  }

  // Every call is on its API's queue all through the run.
  ghost predicate AlwaysRouted(s: State, steps: seq<Step>)
    decreases |steps|
  {
    RouteInv(s) && (steps != [] ==> AlwaysRouted(Next(s, steps[0]), steps[1..]))
  }

  // That is so exactly in the runs that give up queues only while their API has no calls.
  lemma {:induction false} RoutedIffQuiet(s: State, steps: seq<Step>)
    requires PoolInv(s) && QueueInv(s) && RouteInv(s) && RunUnder(s, steps, false)
    ensures AlwaysRouted(s, steps) <==> RunUnder(s, steps, true)
    decreases |steps|
  {
    hide PoolInv, QueueInv, RouteInv, Enabled, RetiresQuietly, Next;
    if steps != [] {
      StepKeepsPools(s, steps[0]);
      StepKeepsQueues(s, steps[0]);
      StepKeepsRoutesIff(s, steps[0]);
      if RetiresQuietly(s, steps[0]) {
        RoutedIffQuiet(Next(s, steps[0]), steps[1..]);
      }
    }
  }

  // In such a run no API ever has more than BUFFER_SZ + 1 calls in progress.
  lemma CallsAreCapped(steps: seq<Step>, api: Api)
    requires RunUnder(EMPTY, steps, true)
    ensures var e := After(EMPTY, steps);
            |set c | c in e.busy && c < |e.conns| && e.conns[c].api == api| <= BUFFER_SZ + 1
  {
    EmptyIsSound();
    CallsReachTheirApi(EMPTY, steps);
    var e := After(EMPTY, steps);
    var calls := set c | c in e.busy && c < |e.conns| && e.conns[c].api == api;
    if api in e.queues {
      assert calls == BusyOn(e, e.queues[api]);
      assert e.stats[e.queues[api]] in e.stats;
    } else {
      assert calls == {};
    }
  }

  lemma EmptyIsSound()
    ensures PoolInv(EMPTY) && QueueInv(EMPTY) && RouteInv(EMPTY) && CountInv(EMPTY)
  {
  }

  lemma {:induction false} Extend(s: State, steps: seq<Step>, st: Step)
    requires RunUnder(s, steps, false) && Enabled(After(s, steps), st)
    ensures RunUnder(s, steps + [st], false)
    ensures After(s, steps + [st]) == Next(After(s, steps), st)
    decreases |steps|
  {
    if steps == [] {
      assert (steps + [st])[1..] == [];
    } else {
      Extend(Next(s, steps[0]), steps[1..], st);
      assert (steps + [st])[1..] == steps[1..] + [st];
    }
  }

  // Sending on an API without a pooled connector or a queue.
  lemma SendAfresh(s: State, api: Api)
    requires api !in s.queues && Pool(s, api) == [] && forall q <- s.cache :: q < |s.stats|
    ensures var s' := Send(s, api); var c := |s.conns|;
            && s'.conns == s.conns + [Conn(api, s'.queues[api])] && s'.busy == s.busy + {c}
            && s'.pools == s.pools[api := []]
            && (s.cache != [] ==>
                  && s'.queues == s.queues[api := s.cache[|s.cache| - 1]]
                  && s'.cache == s.cache[..|s.cache| - 1])
            && (s.cache == [] ==> s'.queues == s.queues[api := |s.stats|] && s'.cache == [])
            && |s'.stats| >= |s.stats|
            && s'.queues[api] < |s'.stats| && s'.stats[s'.queues[api]] == Incr(FRESH, 1)
            && forall q :: 0 <= q < |s.stats| && q != s'.queues[api] ==> s'.stats[q] == s.stats[q]
  {
    if s.cache != [] {
      assert s.cache[|s.cache| - 1] in s.cache;
    }
  }

  lemma FirstCall() returns (s: State)
    ensures s == Send(EMPTY, "a")
    ensures s == State(map["a" := 0], [], [Incr(FRESH, 1)], map["a" := []], [Conn("a", 0)], {0})
  {
    s := Send(EMPTY, "a");
    SendAfresh(EMPTY, "a");
    assert s.stats == [Incr(FRESH, 1)];
  }

  lemma SecondApi(s: State) returns (s': State)
    requires s == State(map[], [0], [Incr(FRESH, 1)], map[], [Conn("a", 0)], {0})
    ensures s' == Send(s, "b")
    ensures s' == State(map["b" := 0], [], [Incr(FRESH, 1)], map["b" := []], [Conn("a", 0), Conn("b", 0)], {0, 1})
  {
    s' := Send(s, "b");
    SendAfresh(s, "b");
    assert s'.stats == [Incr(FRESH, 1)];
  }

  // A call of API "a" is in progress on what has become the queue of API "b".
  lemma RetiredUnderACall() returns (steps: seq<Step>)
    ensures RunUnder(EMPTY, steps, false)
    ensures After(EMPTY, steps)
            == State(map["b" := 0], [], [Incr(FRESH, 1)], map["b" := []], [Conn("a", 0), Conn("b", 0)], {0, 1})
  {
    hide Send;
    steps := [];
    var s1 := FirstCall();
    Extend(EMPTY, steps, Sends("a"));
    steps := steps + [Sends("a")];
    Extend(EMPTY, steps, Retires("a"));
    steps := steps + [Retires("a")];
    assert Retire(s1, "a") == State(map[], [0], [Incr(FRESH, 1)], map[], [Conn("a", 0)], {0});
    var s3 := SecondApi(Retire(s1, "a"));
    Extend(EMPTY, steps, Sends("b"));
    steps := steps + [Sends("b")];
  }

  // If the queue of an API is given up under a call, the call's connector outlives it: the
  // queue is reused for another API, the connector returns to the first API's new pool, and
  // that API's next request, the last step of the run, is sent to the other one.
  lemma RetiringUnderACallMisroutes() returns (steps: seq<Step>)
    ensures |steps| > 0 && steps[|steps| - 1] == Sends("a") && RunUnder(EMPTY, steps, false)
    ensures var before, after := After(EMPTY, steps[..|steps| - 1]), After(EMPTY, steps);
            exists c <- after.busy :: c !in before.busy && c < |after.conns| && after.conns[c].api == "a"
                                      && "b" in after.queues && after.conns[c].queue == after.queues["b"]
  {
    hide Send;
    steps := RetiredUnderACall();
    SendAfresh(After(EMPTY, steps), "a");
    Extend(EMPTY, steps, Sends("a"));
    steps := steps + [Sends("a")];
    var s4 := After(EMPTY, steps);
    assert s4.queues["b"] == 0 && s4.stats[0] == Incr(FRESH, 1) && s4.conns[0] == Conn("a", 0);
    Extend(EMPTY, steps, Answered(0));
    steps := steps + [Answered(0)];
    var s5 := After(EMPTY, steps);
    assert s5.pools["a"] == [0] && s5.queues["b"] == 0 && 0 !in s5.busy;
    assert s5.stats[0] == Incr(Incr(FRESH, 1), -1);
    SendOnPooled(s5, "a", 0);
    Extend(EMPTY, steps, Sends("a"));
    assert (steps + [Sends("a")])[..|steps|] == steps;
    steps := steps + [Sends("a")];
    assert 0 in After(EMPTY, steps).busy;
  }

  lemma SendOnPooled(s: State, api: Api, c: nat)
    requires Pool(s, api) == [c] && c < |s.conns| && s.conns[c].queue < |s.stats| && Admits(s.stats[s.conns[c].queue])
    ensures var s' := Send(s, api); s'.busy == s.busy + {c} && s'.conns == s.conns && s'.queues == s.queues
  {
  }

  // Popping the API's list, after a connector was added to it if it was empty.
  lemma PoppedConn(s0: State, s1: State, api: Api)
    requires if Pool(s0, api) != [] then s1 == s0
             else var q := WithQueue(s0, api);
                  s1 == q.(conns := q.conns + [Conn(api, q.queues[api])],
                           pools := q.pools[api := Pool(q, api) + [|s0.conns|]])
    ensures var pool := Pool(s1, api);
            pool != [] && (s1.(pools := s1.pools[api := pool[..|pool| - 1]]), pool[|pool| - 1]) == WithConn(s0, api)
  {
    var pool := Pool(s1, api);
    if Pool(s0, api) == [] {
      assert pool == [|s0.conns|] && pool[..0] == [];
      assert WithQueue(s0, api).pools[api := pool][api := []] == WithQueue(s0, api).pools[api := []];
    }
  }

  // ---------- The connector class ----------

  // APIQueue's and APIConnector's class-level tables, and the objects they refer to.
  class APIConnectors {
    var queues: map<Api, nat>
    var cache: seq<nat>
    var stats: seq<Stat>
    var pools: map<Api, seq<nat>>
    var conns: seq<Conn>
    var busy: set<nat>

    ghost function Now(): State
      reads this
    {
      State(queues, cache, stats, pools, conns, busy)
    }

    ghost predicate Valid()
      reads this
    {
      PoolInv(Now()) && QueueInv(Now())
    }

    constructor ()
      ensures Valid() && Now() == EMPTY
    {
      queues, cache, stats, pools, conns, busy := map[], [], [], map[], [], {};
    }

    method GetQueue(api: Api) returns (queue: nat)
      requires QueueInv(Now())
      modifies this
      ensures Now() == WithQueue(old(Now()), api)
      ensures api in queues && queue == queues[api]
    {
      if api in queues {
        return queues[api];
      }
      if |cache| > 0 {
        queue := cache[|cache| - 1];
        assert queue in cache;
        cache := cache[..|cache| - 1];
        stats := stats[queue := FRESH];
      } else {
        queue := |stats|;
        stats := stats + [FRESH];
      }
      queues := queues[api := queue];
    }

    // The constructor of APIConnector: a connector to the API's queue, added to the API's list.
    method NewConn(api: Api) returns (c: nat)
      requires QueueInv(Now())
      modifies this
      ensures var s1 := WithQueue(old(Now()), api);
              Now() == s1.(conns := s1.conns + [Conn(api, s1.queues[api])], pools := s1.pools[api := Pool(s1, api) + [c]])
      ensures c == |old(conns)|
    {
      var queue := GetQueue(api);
      c := |conns|;
      conns := conns + [Conn(api, queue)];
      pools := pools[api := (if api in pools then pools[api] else []) + [c]];
    }

    method GetConn(api: Api) returns (c: nat)
      requires Valid()
      modifies this
      ensures Valid() && (Now(), c) == WithConn(old(Now()), api)
      ensures c < |conns| && conns[c].api == api && c !in busy && IsUnpooled(Now(), c)
    {
      hide PoolInv, QueueInv, IsUnpooled, WithConn, WithQueue;
      ghost var s0 := Now();
      PickedConnIsFree(s0, api);
      WithConnKeepsQueues(s0, api);
      if !(api in pools && |pools[api]| > 0) {
        c := NewConn(api);
      }
      ghost var s1 := Now();
      c := pools[api][|pools[api]| - 1];
      pools := pools[api := pools[api][..|pools[api]| - 1]];
      PoppedConn(s0, s1, api);
    }

    method SendRecv(api: Api) returns (sent: bool, c: nat)
      requires Valid()
      modifies this
      ensures Valid() && Now() == Send(old(Now()), api)
      ensures sent ==> c < |conns| && conns[c].api == api && busy == old(busy) + {c} && c !in old(busy)
      ensures !sent ==> busy == old(busy)
      ensures c < |conns| && conns[c].queue < |stats|
      ensures sent <==> StatOf(WithConn(old(Now()), api).0, conns[c].queue).mean < 20.0
    {
      SendKeepsPools(Now(), api);
      StepKeepsQueues(Now(), Sends(api));
      c := GetConn(api);
      assert conns[c] in conns;
      var queue := conns[c].queue;
      if stats[queue].mean >= BUFFER_SZ as real {
        return false, c;
      }
      busy := busy + {c};
      stats := stats[queue := Incr(stats[queue], 1)];
      sent := true;
    }

    method Release(c: nat, errors: bool)
      requires Valid() && c in busy
      modifies this
      ensures Valid() && Now() == Finish(old(Now()), c, errors)
      ensures c !in busy && conns == old(conns)
      ensures IsUnpooled(Now(), c)
              <==> errors || conns[c].api !in old(pools) || |old(pools)[conns[c].api]| >= MAX_CONNS
    {
      BusyIsUnpooled(Now(), c);
      FinishKeepsPools(Now(), c, errors);
      StepKeepsQueues(Now(), if errors then TimedOut(c) else Answered(c));
      assert conns[c] in conns;
      var queue, api := conns[c].queue, conns[c].api;
      busy := busy - {c};
      stats := stats[queue := Incr(stats[queue], -1)];
      if api in pools && !errors && |pools[api]| < MAX_CONNS {
        pools := pools[api := pools[api] + [c]];
        assert pools[api][|pools[api]| - 1] == c;
      }
    }

    method ReleaseQueue(api: Api)
      requires Valid()
      modifies this
      ensures Valid() && Now() == Retire(old(Now()), api)
    {
      StepKeepsPools(Now(), Retires(api));
      RetireKeepsQueues(Now(), api);
      if api in queues {
        pools := pools - {api};
        cache := cache + [queues[api]];
        queues := queues - {api};
      }
    }
  }
}
