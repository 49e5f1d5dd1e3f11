/**
 What becomes of single connectors, calls and queues over whole runs of the API engine
 (engine/src/juliabox/api/api_connector.py, api_queue.py).
 */
module ApiCallRuns {
  import opened Basics
  import opened ApiQueue
  import opened ApiCalls

  // ---------- Connectors ----------

  // In no pool, and serving no call
  ghost predicate IsGone(s: State, c: nat) {
    c < |s.conns| && c !in s.busy && IsUnpooled(s, c)
  }

  lemma TimedOutIsGone(s: State, c: nat)
    requires PoolInv(s) && Enabled(s, TimedOut(c))
    ensures IsGone(Next(s, TimedOut(c)), c)
  {
    BusyIsUnpooled(s, c);
  }

  lemma StepLeavesGone(s: State, st: Step, c: nat)
    requires PoolInv(s) && Enabled(s, st) && IsGone(s, c)
    ensures IsGone(Next(s, st), c)
  {
    var s' := Next(s, st);
    forall api | api in s'.pools ensures c !in s'.pools[api] {
      if api in s.pools {
        assert c !in s.pools[api];
      }
    }
    if st.Sends? && Pool(s, st.api) != [] {
      assert c !in Pool(s, st.api);
    }
  }

  // In every run, a connector that has once timed out is never used or pooled again.
  lemma {:induction false} TimedOutStaysGone(s: State, steps: seq<Step>, c: nat)
    requires PoolInv(s) && RunUnder(s, steps, false) && (TimedOut(c) in steps || IsGone(s, c))
    ensures IsGone(After(s, steps), c)
    decreases |steps|
  {
    if steps != [] {
      StepKeepsPools(s, steps[0]);
      if steps[0] == TimedOut(c) {
        TimedOutIsGone(s, c);
      } else if IsGone(s, c) {
        StepLeavesGone(s, steps[0], c);
      } else {
        assert TimedOut(c) in steps[1..];
      }
      TimedOutStaysGone(Next(s, steps[0]), steps[1..], c);
    }
  }

  // One whose call was answered is pooled if and only if its API has a pool with room, and is
  // then the one that serves the API's next call.
  lemma AnsweredIsReused(s: State, c: nat)
    requires PoolInv(s) && QueueInv(s) && Enabled(s, Answered(c))
    ensures var api := s.conns[c].api;
            var s' := Next(s, Answered(c));
            && !IsGone(s', c) == (api in s.pools && |s.pools[api]| < MAX_CONNS)
            && (!IsGone(s', c) && Admits(s'.stats[s.conns[c].queue]) ==>
                  var s'' := Next(s', Sends(api));
                  s''.busy == s.busy && s''.conns == s.conns)
  {
    BusyIsUnpooled(s, c);
    var api := s.conns[c].api;
    assert s.conns[c] in s.conns;
    var s' := Next(s, Answered(c));
    if api in s.pools && |s.pools[api]| < MAX_CONNS {
      assert s'.pools[api] == s.pools[api] + [c];
      assert s.busy - {c} + {c} == s.busy;
    } else {
      assert IsUnpooled(s', c);
    }
  }

  // ---------- Calls ----------

  function CallsOf(s: State, api: Api): set<nat> {
    set c | c in s.busy && c < |s.conns| && s.conns[c].api == api
  }

  // In runs that give up queues only while their APIs have no calls, a request for an API with
  // fewer than BUFFER_SZ calls in progress starts one more, with more than BUFFER_SZ it is
  // refused, and other APIs' calls are left alone.
  lemma CallsAreServed(steps: seq<Step>, api: Api)
    requires RunUnder(EMPTY, steps, true)
    ensures var before := After(EMPTY, steps);
            var after := Next(before, Sends(api));
            && (|CallsOf(before, api)| < BUFFER_SZ ==> |CallsOf(after, api)| == |CallsOf(before, api)| + 1)
            && (|CallsOf(before, api)| > BUFFER_SZ ==> CallsOf(after, api) == CallsOf(before, api))
            && forall other :: other != api ==> CallsOf(after, other) == CallsOf(before, other)
  {
    EmptyIsSound();
    CallsReachTheirApi(EMPTY, steps);
    CallIsServed(After(EMPTY, steps), api);
  }

  lemma CallIsServed(s: State, api: Api)
    requires PoolInv(s) && QueueInv(s) && RouteInv(s) && CountInv(s)
    ensures var s' := Next(s, Sends(api));
            && (|CallsOf(s, api)| < BUFFER_SZ ==> |CallsOf(s', api)| == |CallsOf(s, api)| + 1)
            && (|CallsOf(s, api)| > BUFFER_SZ ==> CallsOf(s', api) == CallsOf(s, api))
            && forall other :: other != api ==> CallsOf(s', other) == CallsOf(s, other)
  {
    hide WithConn, QueueInv, PoolInv, CountInv, RouteInv, Send, Next, Admits, IsUnpooled;
    PickedConnIsRouted(s, api);
    PickedConnIsFree(s, api);
    PickedConnKeepsCounts(s, api);
    WithConnKeepsQueues(s, api);
    var (s1, c) := WithConn(s, api);
    SameCalls(s, api);
    CallsAreCounted(s1, api);
    SendIs(s, api);
    var s2 := Next(s, Sends(api));
    if Admits(StatOf(s1, QueueOf(s1, c))) {
      assert CallsOf(s2, api) == CallsOf(s1, api) + {c};
    } else {
      assert CallsOf(s2, api) == CallsOf(s1, api);
    }
    forall other | other != api ensures CallsOf(s2, other) == CallsOf(s1, other) {
    }
  }

  lemma SendIs(s: State, api: Api)
    ensures var (s1, c) := WithConn(s, api);
            && Next(s, Sends(api)).conns == s1.conns
            && Next(s, Sends(api)).busy == if Admits(StatOf(s1, QueueOf(s1, c))) then s1.busy + {c} else s1.busy
  {
  }

  lemma SameCalls(s: State, api: Api)
    requires PoolInv(s)
    ensures forall a :: CallsOf(WithConn(s, api).0, a) == CallsOf(s, a)
  {
  }

  lemma CallsAreCounted(s: State, api: Api)
    requires QueueInv(s) && RouteInv(s) && CountInv(s) && api in s.queues
    ensures s.queues[api] < |s.stats| && s.stats[s.queues[api]].num == |CallsOf(s, api)|
    ensures |CallsOf(s, api)| < BUFFER_SZ ==> Admits(s.stats[s.queues[api]])
    ensures |CallsOf(s, api)| > BUFFER_SZ ==> !Admits(s.stats[s.queues[api]])
  {
    assert CallsOf(s, api) == BusyOn(s, s.queues[api]);
    assert s.stats[s.queues[api]] in s.stats;
  }

  // ---------- Queues ----------

  // A pass over an API with calls in progress leaves everything alone.
  lemma BusyQueuesAreLeft(s: State, api: Api)
    requires api in s.queues && s.queues[api] < |s.stats| && s.stats[s.queues[api]].num != 0
    ensures Next(s, Idles(api)) == s
  {
  }

  // Two idle passes bring the mean of an idle API's queue so low that its desired count becomes
  // 0, and leave other queues alone.
  lemma IdlePassesDrain(s: State, api: Api, desired: int, maxPerApi: int)
    requires QueueInv(s) && api in s.queues && s.stats[s.queues[api]].num == 0
    ensures var q, s' := s.queues[api], Next(Next(s, Idles(api)), Idles(api));
            && |s'.stats| == |s.stats| && s'.queues == s.queues
            && s'.stats[q].num == 0 && Desired(desired, s'.stats[q].mean, maxPerApi) == 0
            && forall other :: 0 <= other < |s.stats| && other != q ==> s'.stats[other] == s.stats[other]
  {
    var q := s.stats[s.queues[api]];
    assert q in s.stats;
    IncrMean(q, 0);
    IncrMean(AfterPass(q), 0);
  }

  ghost predicate IsKept(s: State, q: nat) {
    q in s.cache || exists api <- s.queues :: s.queues[api] == q
  }

  // No queue is lost: each one ever made is an API's or waits to be used again.
  lemma {:induction false} EveryQueueIsKept(s: State, steps: seq<Step>)
    requires RunUnder(s, steps, false) && forall q: nat :: q < |s.stats| ==> IsKept(s, q)
    ensures var e := After(s, steps); forall q: nat :: q < |e.stats| ==> IsKept(e, q)
    decreases |steps|
  {
    hide Next, IsKept;
    if steps != [] {
      var s' := Next(s, steps[0]);
      assert After(s, steps) == After(s', steps[1..]);
      forall q: nat | q < |s'.stats| ensures IsKept(s', q) {
        StepKeepsQueue(s, steps[0], q);
      }
      EveryQueueIsKept(s', steps[1..]);
    }
  }

  lemma StepKeepsQueue(s: State, st: Step, q: nat)
    requires q < |Next(s, st).stats| && (q < |s.stats| ==> IsKept(s, q))
    ensures IsKept(Next(s, st), q)
  {
    var s' := Next(s, st);
    if q < |s.stats| && q !in s.cache {
      var api :| api in s.queues && s.queues[api] == q;
      if api in s'.queues {
        assert s'.queues[api] == q;
      } else {
        assert s'.cache == s.cache + [q];
      }
    } else if st.Sends? {
      if q in s.cache && q !in s'.cache {
        assert q == s.cache[|s.cache| - 1];
        assert s'.queues[st.api] == q;
      } else if q !in s'.cache {
        assert s'.queues[st.api] == q;
      }
    }
  }
}
