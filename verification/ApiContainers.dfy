/**
 The index of API containers and its upkeep
 (engine/src/juliabox/api/api_container.py). Docker is a list of containers with distinct
 names; an API's queue is represented by the numbers it keeps.
 */
module ApiContainers {
  import opened Basics
  import opened ApiQueue
  import opened ContainerNames

  type Api = string
  datatype Cont = Cont(name: string, active: bool)

  ghost predicate DistinctNames(docker: seq<Cont>) {
    forall i, j :: 0 <= i < j < |docker| ==> docker[i].name != docker[j].name
  }

  function Listed(index: map<Api, seq<string>>, api: Api): seq<string> {
    if api in index then index[api] else []
  }

  // Every name is listed once, and under the API it parses to.
  ghost predicate IsIndex(index: map<Api, seq<string>>) {
    forall api <- index :: NoDup(index[api]) && forall n <- index[api] :: ParseApiName(n) == Some(api)
  }

  // A registered container that has not responded for too long. A container seen for the
  // first time counts as having just responded.
  predicate IsStale(name: string, index: map<Api, seq<string>>, pings: map<string, int>, now: int, expire: int) {
    && expire > 0
    && ParseApiName(name).Some? && name in Listed(index, ParseApiName(name).value)
    && name in pings && pings[name] < now - expire
  }

  function Remove(xs: seq<string>, x: string): (r: seq<string>)
    ensures forall y :: y in r ==> y in xs
  {
    if xs == [] then [] else if xs[0] == x then xs[1..] else [xs[0]] + Remove(xs[1..], x)
  }

  lemma {:induction false} RemoveFromNoDup(xs: seq<string>, x: string)
    requires NoDup(xs)
    ensures NoDup(Remove(xs, x))
    ensures forall y :: y in Remove(xs, x) <==> y in xs && y != x
  {
    if xs != [] {
      RemoveFromNoDup(xs[1..], x);
      assert forall y :: y in xs <==> y == xs[0] || y in xs[1..];
      assert xs[0] !in xs[1..];
    }
  }

  function Keep(xs: seq<string>, names: set<string>): (r: seq<string>) {
    if xs == [] then []
    else (if xs[0] in names then [xs[0]] else []) + Keep(xs[1..], names)
  }

  lemma {:induction false} KeepFromNoDup(xs: seq<string>, names: set<string>)
    requires NoDup(xs)
    ensures NoDup(Keep(xs, names))
    ensures forall y :: y in Keep(xs, names) <==> y in xs && y in names
  {
    if xs != [] {
      KeepFromNoDup(xs[1..], names);
      assert forall y :: y in xs <==> y == xs[0] || y in xs[1..];
      assert xs[0] !in xs[1..];
    }
  }

  function Without(docker: seq<Cont>, name: string): (r: seq<Cont>)
    ensures forall c :: c in r <==> c in docker && c.name != name
  {
    if docker == [] then []
    else
      var r := (if docker[0].name == name then [] else [docker[0]]) + Without(docker[1..], name);
      assert forall c :: c in docker <==> c == docker[0] || c in docker[1..];
      r
  }

  // What a refresh starts from.
  datatype Before = Before(index: map<Api, seq<string>>, pings: map<string, int>, now: int, expire: int)

  // The ping entry that a refresh leaves for an active container: one seen for the first time
  // counts as having just responded.
  function PingAfter(b: Before, name: string): Option<int> {
    if ParseApiName(name).Some? && name in Listed(b.index, ParseApiName(name).value) then
      if name in b.pings then Some(b.pings[name]) else None
    else Some(b.now)
  }

  // The ping entries are those of the active API containers.
  ghost predicate ArePingsAfter(pings: map<string, int>, docker: seq<Cont>, b: Before) {
    && (forall n :: n in pings <==> Cont(n, true) in docker && ParseApiName(n).Some? && PingAfter(b, n).Some?)
    && (forall n <- pings :: PingAfter(b, n) == Some(pings[n]))
  }

  ghost predicate PingsSoFar(pings: map<string, int>, seen: seq<Cont>, b: Before) {
    forall c <- seen :: ParseApiName(c.name).Some? && c.active ==>
      (c.name in pings <==> PingAfter(b, c.name).Some?)
      && (c.name in pings ==> PingAfter(b, c.name) == Some(pings[c.name]))
  }

  // A container that a refresh deletes.
  predicate IsPurged(c: Cont, b: Before) {
    ParseApiName(c.name).Some? && (!c.active || IsStale(c.name, b.index, b.pings, b.now, b.expire))
  }

  // A container that a refresh keeps in the index, under its API.
  predicate Belongs(docker: seq<Cont>, b: Before, api: Api, name: string) {
    ParseApiName(name) == Some(api) && Cont(name, true) in docker && !IsStale(name, b.index, b.pings, b.now, b.expire)
  }

  // The index while the containers `seen` have been examined.
  ghost predicate IndexSoFar(index: map<Api, seq<string>>, seen: seq<Cont>, b: Before) {
    forall api, n ::
      n in Listed(index, api) <==>
        ParseApiName(n) == Some(api)
        && if exists c <- seen :: c.name == n then Belongs(seen, b, api, n) else n in Listed(b.index, api)
  }

  // i2 lists what i1 lists, restricted to the known names; only `apis` are left to do.
  ghost predicate IsRestricted(i1: map<Api, seq<string>>, i2: map<Api, seq<string>>, known: set<string>, apis: set<Api>) {
    forall api :: if api in apis then Listed(i2, api) == Listed(i1, api)
                  else forall n :: n in Listed(i2, api) <==> n in Listed(i1, api) && n in known
  }

  class APIContainers {
    // API_CONTAINERS, DESIRED_CONTAINER_COUNTS, PINGS
    var index: map<Api, seq<string>>
    var desired: map<Api, int>
    var pings: map<string, int>
    // Docker's list, the queues that exist, and the APIs that have a pool of connectors
    var docker: seq<Cont>
    var queues: map<Api, Stat>
    var pools: set<Api>
    // requests made by maintain: one entry per container launched or message sent
    var launched: seq<Api>
    var terminated: seq<Api>

    constructor (docker: seq<Cont>, queues: map<Api, Stat>)
      ensures index == map[] && desired == map[] && pings == map[] && launched == [] && terminated == []
      ensures this.docker == docker && this.queues == queues && pools == {}
    {
      index, desired, pings, launched, terminated, pools := map[], map[], map[], [], [], {};
      this.docker, this.queues := docker, queues;
    }

    method Register(api: Api, name: string, now: int)
      requires IsIndex(index) && ParseApiName(name) == Some(api)
      modifies `index, `desired, `pings
      ensures IsIndex(index)
      ensures index.Keys == old(index).Keys + {api}
      ensures forall a <- index :: forall n :: n in index[a] <==> n in Listed(old(index), a) || (a == api && n == name)
      ensures var listed := Listed(old(index), api);
              index == old(index)[api := if name in listed then listed else listed + [name]]
      ensures pings == if name in Listed(old(index), api) then old(pings) else old(pings)[name := now]
      ensures desired == if api in old(desired) then old(desired) else old(desired)[api := 1]
    {
      var clist := if api in index then index[api] else [];
      if name !in clist {
        clist := clist + [name];
        pings := pings[name := now];
      }
      index := index[api := clist];
      if api !in desired {
        desired := desired[api := 1];
      }
    }

    method Deregister(api: Api, name: string)
      requires IsIndex(index)
      modifies `index
      ensures IsIndex(index)
      ensures index.Keys == old(index).Keys + {api}
      ensures forall a <- index :: forall n :: n in index[a] <==> n in Listed(old(index), a) && !(a == api && n == name)
    {
      var clist := if api in index then index[api] else [];
      RemoveFromNoDup(clist, name);
      if name in clist {
        clist := Remove(clist, name);
      }
      index := index[api := clist];
    }

    // before_delete and the removal from Docker
    method Delete(api: Api, name: string)
      requires IsIndex(index)
      modifies `index, `docker
      ensures IsIndex(index)
      ensures index.Keys == old(index).Keys + {api}
      ensures forall a <- index :: forall n :: n in index[a] <==> n in Listed(old(index), a) && !(a == api && n == name)
      ensures forall c :: c in docker <==> c in old(docker) && c.name != name
    {
      Deregister(api, name);
      docker := Without(docker, name);
    }

    // One container's turn in refresh_container_list.
    method Examine(c: Cont, ghost seen: seq<Cont>, ghost b: Before, now: int, expire: int) returns (known: bool)
      requires IsIndex(index) && IndexSoFar(index, seen, b) && b.now == now && b.expire == expire
      requires forall d <- seen :: d.name != c.name
      requires c.name in pings <==> c.name in b.pings
      requires c.name in pings ==> pings[c.name] == b.pings[c.name]
      modifies `index, `desired, `pings, `docker
      ensures IsIndex(index) && IndexSoFar(index, seen + [c], b)
      ensures known <==> ParseApiName(c.name).Some? && c.active
      ensures forall n :: n != c.name ==> (n in pings <==> n in old(pings)) && (n in pings ==> pings[n] == old(pings)[n])
      ensures PingsSoFar(pings, [c], b)
      ensures forall d :: d in docker <==> d in old(docker) && !(d.name == c.name && IsPurged(c, b))
      ensures old(desired).Keys <= desired.Keys && forall a <- old(desired) :: desired[a] == old(desired)[a]
      ensures forall a <- desired :: a in old(desired) || desired[a] == 1
      ensures forall a :: Belongs([c], b, a, c.name) ==> a in desired
    {
      hide ParseApiName, IsIndex;
      var name := c.name;
      var parsed := ParseApiName(name);
      ghost var i0 := index;
      if parsed.None? {
        StepIndex(i0, index, seen, c, b);
        return false;
      }
      var api := parsed.value;
      assert name in Listed(index, api) <==> name in Listed(b.index, api);
      hide IndexSoFar;
      if !c.active {
        Delete(api, name);
        StepIndex(i0, index, seen, c, b);
        return false;
      }
      Register(api, name, now);
      if expire > 0 && name in pings && pings[name] < now - expire {
        Delete(api, name);
      }
      StepIndex(i0, index, seen, c, b);
      known := true;
    }

    // The pruning loops: unknown names leave the lists, empty lists leave the index.
    method Prune(known: set<string>)
      requires IsIndex(index)
      modifies `index, `pings
      ensures IsIndex(index)
      ensures IsRestricted(old(index), index, known, {})
      ensures forall api <- index :: index[api] != []
      ensures pings == map n | n in old(pings) && n in known :: old(pings)[n]
    {
      hide ParseApiName, Keep;
      pings := map n | n in pings && n in known :: pings[n];
      ghost var i0, p1 := index, pings;
      var apis := index.Keys;
      while apis != {}
        invariant apis <= index.Keys <= i0.Keys && IsIndex(index) && IsRestricted(i0, index, known, apis)
        invariant forall api <- index :: api !in apis ==> index[api] != []
        invariant pings == p1
        decreases apis
      {
        var api :| api in apis;
        KeepFromNoDup(index[api], known);
        var clist := Keep(index[api], known);
        assert Listed(index, api) == Listed(i0, api);
        index := if |clist| == 0 then index - {api} else index[api := clist];
        apis := apis - {api};
      }
    }

    // The loop of refresh_container_list over Docker's list
    method ExamineAll(snap: seq<Cont>, now: int, expire: int, ghost b: Before) returns (known: set<string>)
      requires IsIndex(index) && DistinctNames(snap) && snap == docker && b == Before(index, pings, now, expire)
      modifies `index, `desired, `pings, `docker
      ensures IsIndex(index) && IndexSoFar(index, snap, b) && PingsSoFar(pings, snap, b)
      ensures known == set c <- snap | ParseApiName(c.name).Some? && c.active :: c.name
      ensures forall c :: c in docker <==> c in snap && !IsPurged(c, b)
      ensures old(desired).Keys <= desired.Keys
      ensures forall api <- desired :: desired[api] == if api in old(desired) then old(desired)[api] else 1
      ensures forall api, n :: Belongs(snap, b, api, n) ==> api in desired
    {
      hide ParseApiName, IsStale, Belongs, IndexSoFar, IsPurged, IsIndex, PingAfter, PingsSoFar;
      NothingSeen(index, pings, now, expire);
      known := {};
      for i := 0 to |snap|
        invariant IsIndex(index) && IndexSoFar(index, snap[..i], b)
        invariant known == set c <- snap[..i] | ParseApiName(c.name).Some? && c.active :: c.name
        invariant forall c <- snap[i..] :: c.name in pings <==> c.name in b.pings
        invariant forall c <- snap[i..] :: c.name in pings ==> pings[c.name] == b.pings[c.name]
        invariant PingsSoFar(pings, snap[..i], b)
        invariant forall c :: c in docker <==> c in snap && !(c in snap[..i] && IsPurged(c, b))
        invariant old(desired).Keys <= desired.Keys
        invariant forall api <- desired :: desired[api] == if api in old(desired) then old(desired)[api] else 1
        invariant forall api, n :: Belongs(snap[..i], b, api, n) ==> api in desired
      {
        var c := snap[i];
        ghost var p0 := pings;
        assert forall d <- snap[..i] :: d.name != c.name;
        assert snap[i..] == [c] + snap[i + 1..];
        assert c in snap[i..];
        var isKnown := Examine(c, snap[..i], b, now, expire);
        if isKnown {
          known := known + {c.name};
        }
        SnapStep(snap, i, b);
        PingStep(p0, pings, snap, i, b);
        ghost var seen := snap[..i + 1];
        forall api, n | Belongs(seen, b, api, n) ensures api in desired {
          if !Belongs(snap[..i], b, api, n) {
            assert Belongs([c], b, api, c.name);
          }
        }
      }
      assert snap[..|snap|] == snap;
    }

    // refresh_container_list: afterwards the index is exactly the grouping, by the API their
    // names parse to, of the active containers that are not stale.
    method RefreshContainerList(now: int, expire: int)
      requires IsIndex(index) && DistinctNames(docker)
      modifies `index, `desired, `pings, `docker
      ensures IsIndex(index)
      ensures var b := Before(old(index), old(pings), now, expire);
              && (forall api, n :: n in Listed(index, api) <==> Belongs(old(docker), b, api, n))
              && (forall c :: c in docker <==> c in old(docker) && !IsPurged(c, b))
              && ArePingsAfter(pings, old(docker), b)
      ensures forall api <- index :: index[api] != []
      ensures index.Keys <= desired.Keys && old(desired).Keys <= desired.Keys
      ensures forall api <- desired :: desired[api] == if api in old(desired) then old(desired)[api] else 1
    {
      hide ParseApiName, IsStale, Belongs, IndexSoFar, IsPurged, IsIndex, IsRestricted, PingsSoFar, ArePingsAfter;
      ghost var b := Before(index, pings, now, expire);
      var snap := docker;
      var known := ExamineAll(snap, now, expire, b);
      ghost var i1, p1 := index, pings;
      Prune(known);
      PrunedIsGrouping(i1, index, snap, known, b);
      PingsArePruned(p1, pings, snap, known, b);
      forall api | api in index ensures api in desired {
        assert index[api][0] in Listed(index, api);
      }
    }

    // One count's recalculation
    static method NewCount(desired: int, mean: real, maxPerApi: int) returns (want: int)
      ensures want == Desired(desired, mean, maxPerApi)
    {
      want := desired;
      if mean > 1.0 {
        var incr := mean.Floor;
        want := if want + incr < maxPerApi then want + incr else maxPerApi;
      } else if mean < 0.01 {
        want := 0;
      } else if mean < 0.5 && want > 1 {
        want := want - 1;
      } else {
        want := if want > 1 then want else 1;
      }
    }

    // calc_desired_container_counts. For an API without a queue an attribute of a missing
    // object is read, which raises.
    method CalcDesiredContainerCounts(maxPerApi: int) returns (ok: bool)
      requires index.Keys <= desired.Keys
      modifies `desired, `queues
      ensures ok <==> index.Keys <= queues.Keys
      ensures desired.Keys == old(desired).Keys && queues.Keys == old(queues).Keys
      ensures ok ==> forall api <- desired ::
                desired[api] == if api in index then Desired(old(desired)[api], old(queues)[api].mean, maxPerApi)
                                else old(desired)[api]
      ensures ok ==> forall api <- queues ::
                queues[api] == if api in index then AfterPass(old(queues)[api]) else old(queues)[api]
    {
      hide Desired, Incr;
      var apis := index.Keys;
      while apis != {}
        invariant apis <= index.Keys && index.Keys - apis <= queues.Keys
        invariant desired.Keys == old(desired).Keys && queues.Keys == old(queues).Keys
        invariant forall api <- desired ::
                    desired[api] == if api in index.Keys - apis
                                    then Desired(old(desired)[api], old(queues)[api].mean, maxPerApi)
                                    else old(desired)[api]
        invariant forall api <- queues ::
                    queues[api] == if api in index.Keys - apis then AfterPass(old(queues)[api]) else old(queues)[api]
        decreases apis
      {
        var api :| api in apis;
        if api !in queues {
          desired := desired[api := 0];
          return false;
        }
        var queue := queues[api];
        var want := NewCount(desired[api], queue.mean, maxPerApi);
        desired := desired[api := want];
        if queue.num == 0 {
          queues := queues[api := Incr(queue, 0)];
        }
        apis := apis - {api};
      }
      ok := true;
    }

    // release_queues: queues of APIs without containers are given up, and their connectors
    // with them.
    method ReleaseQueues()
      modifies `queues, `pools
      ensures queues == map api | api in old(queues) && api in index :: old(queues)[api]
      ensures pools == old(pools) - (old(queues).Keys - index.Keys)
    {
      pools := pools - (queues.Keys - index.Keys);
      queues := map api | api in queues && api in index :: queues[api];
    }

    // create_new: the container is created and started, and registers itself at once.
    method CreateNew(api: Api, sign: string, now: int)
      requires IsIndex(index) && api in index && api in desired && IsDigest(sign)
      requires NewName(api, sign) !in index[api] && forall c <- docker :: c.name != NewName(api, sign)
      modifies `index, `desired, `pings, `docker, `launched
      ensures IsIndex(index) && index == old(index)[api := old(index)[api] + [NewName(api, sign)]]
      ensures docker == old(docker) + [Cont(NewName(api, sign), true)]
      ensures pings == old(pings)[NewName(api, sign) := now] && desired == old(desired)
      ensures launched == old(launched) + [api]
    {
      hide ParseApiName, ApiContainerName;
      ParseInvertsPrint(sign, api, true);
      var name := NewName(api, sign);
      docker := docker + [Cont(name, true)];
      Register(api, name, now);
      launched := launched + [api];
    }

    // The part of maintain that acts on one API: launches make up the shortage, terminate
    // messages go out for the excess. Sending to an overloaded queue raises, since no overload
    // handler is given. `signs` are the digests that the launches draw.
    method Balance(api: Api, signs: seq<string>, now: int) returns (ok: bool)
      requires IsIndex(index) && index.Keys <= desired.Keys && api in index && api in queues
      requires |signs| >= Shortage(index, desired)[api] && AreFresh(api, signs, docker, index[api])
      modifies `queues, `pools, `launched, `terminated, `index, `desired, `pings, `docker
      ensures desired == old(desired) && IsIndex(index)
      ensures ok <==> HasRoom(old(queues)[api], Excess(old(index), desired)[api])
      ensures var shortage := Shortage(old(index), desired)[api];
              && index == old(index)[api := old(index)[api] + NewNames(api, signs[..shortage])]
              && docker == old(docker) + NewConts(api, signs[..shortage])
              && (ok ==> launched == old(launched) + Repeated(shortage, api))
      ensures ok ==> terminated == old(terminated) + Repeated(Excess(old(index), desired)[api], api)
      ensures queues.Keys == old(queues).Keys && forall a <- queues :: a != api ==> queues[a] == old(queues)[a]
      ensures pools == old(pools) + if Excess(old(index), desired)[api] > 0 then {api} else {}
    {
      var excess, shortage := Pos(|index[api]| - desired[api]), Pos(desired[api] - |index[api]|);
      ok := SendTerminates(api, excess);
      if !ok {
        NothingNew(api, signs, index, docker);
        return;
      }
      LaunchMissing(api, signs[..shortage], now);
      if shortage == 0 {
        assert signs[..shortage] == [];
      }
    }

    // Terminate messages to one API's containers
    method SendTerminates(api: Api, excess: nat) returns (ok: bool)
      requires api in queues
      modifies `queues, `pools, `terminated
      ensures ok <==> HasRoom(old(queues)[api], excess)
      ensures ok ==> terminated == old(terminated) + Repeated(excess, api)
      ensures queues.Keys == old(queues).Keys && forall a <- queues :: a != api ==> queues[a] == old(queues)[a]
      ensures pools == old(pools) + if excess > 0 then {api} else {}
    {
      ghost var q0 := queues[api];
      assert terminated + Repeated(0, api) == terminated;
      for sent := 0 to excess
        invariant queues.Keys == old(queues).Keys && forall a <- queues :: a != api ==> queues[a] == old(queues)[a]
        invariant queues[api] == AfterCalls(q0, sent)
        invariant terminated == old(terminated) + Repeated(sent, api)
        invariant forall k: nat :: k < sent ==> Admits(AfterCalls(q0, k))
        invariant pools == old(pools) + if sent > 0 then {api} else {}
      {
        // a connector is taken from the API's pool, which is made if there is none
        pools := pools + {api};
        if queues[api].mean >= BUFFER_SZ as real {
          assert !Admits(AfterCalls(q0, sent));
          return false;
        }
        queues := queues[api := Incr(queues[api], 1)];
        terminated := terminated + [api];
      }
      ok := true;
    }

    // As many containers as there are digests are launched for an API.
    method LaunchMissing(api: Api, signs: seq<string>, now: int)
      requires IsIndex(index) && api in index && api in desired && AreFresh(api, signs, docker, index[api])
      modifies `index, `desired, `pings, `docker, `launched
      ensures IsIndex(index) && desired == old(desired)
      ensures index == old(index)[api := old(index)[api] + NewNames(api, signs)]
      ensures docker == old(docker) + NewConts(api, signs)
      ensures launched == old(launched) + Repeated(|signs|, api)
    {
      ghost var listed, d0, l0 := index[api], docker, launched;
      NothingNew(api, signs, index, docker);
      assert l0 + Repeated(0, api) == l0;
      for k := 0 to |signs|
        invariant IsIndex(index) && desired == old(desired)
        invariant index == old(index)[api := listed + NewNames(api, signs[..k])]
        invariant docker == d0 + NewConts(api, signs[..k])
        invariant launched == l0 + Repeated(k, api)
      {
        hide IsIndex, NewNames, NewConts, NewName, Repeated, AreFresh;
        NextIsFresh(api, signs, k, d0, listed);
        CreateNew(api, signs[k], now);
        OneMoreNew(api, signs, k, d0, listed, l0);
      }
      assert signs[..|signs|] == signs;
    }

    // The loop of maintain over the listed APIs
    method BalanceAll(signs: map<Api, seq<string>>, now: int) returns (ok: bool)
      requires IsIndex(index) && index.Keys <= desired.Keys && index.Keys <= queues.Keys
      requires HasSigns(signs, index, desired, docker)
      modifies `queues, `pools, `launched, `terminated, `index, `desired, `pings, `docker
      ensures desired == old(desired) && IsIndex(index) && index.Keys == old(index).Keys
      ensures ok <==> forall api <- index :: HasRoom(old(queues)[api], Excess(old(index), desired)[api])
      ensures ok ==> Sent(old(launched), launched, Shortage(old(index), desired), index.Keys)
      ensures ok ==> Sent(old(terminated), terminated, Excess(old(index), desired), index.Keys)
      ensures ok ==> AreLaunched(old(index), index, desired, signs, index.Keys)
    {
      hide *;
      ghost var q0, i0 := queues, index;
      ghost var shortage, excess := Shortage(index, desired), Excess(index, desired);
      SentNothing(launched, shortage);
      SentNothing(terminated, excess);
      NothingLaunched(index, desired, signs);
      var apis := index.Keys;
      ghost var done := {};
      while apis != {}
        invariant apis !! done && apis + done == index.Keys == i0.Keys && queues.Keys == q0.Keys
        invariant desired == old(desired)
        invariant forall api :: api in apis ==> queues[api] == q0[api]
        invariant IsIndex(index) && AreLaunched(i0, index, desired, signs, done)
        invariant forall api :: api in apis ==> HasSignsFor(signs, api, i0, desired, docker)
        invariant forall api :: api in done ==> HasRoom(q0[api], excess[api])
        invariant Sent(old(launched), launched, shortage, done)
        invariant Sent(old(terminated), terminated, excess, done)
        decreases apis
      {
        var api :| api in apis;
        ghost var l1, t1, i1, d1 := launched, terminated, index, docker;
        SignsForNext(signs, api, i0, i1, desired, docker, done);
        ok := Balance(api, signs[api], now);
        LaunchedStep(i0, i1, index, desired, signs, done, api);
        if !ok {
          return;
        }
        SentStep(old(launched), l1, launched, shortage, done, api);
        SentStep(old(terminated), t1, terminated, excess, done, api);
        forall a | a in apis - {api} ensures HasSignsFor(signs, a, i0, desired, docker) {
          SignsStay(signs, a, api, i0, desired, d1, docker);
        }
        done := done + {api};
        apis := apis - {api};
      }
      ok := true;
    }

    // One pass of maintain. `grouped` is the index after the refresh. The pass succeeds exactly
    // when every API listed there has a queue with room for its terminate messages, and then
    // launches exactly the shortage of each, terminates exactly the excess, and leaves the index
    // with the launched containers added.
    method Maintain(now: int, expire: int, maxPerApi: nat, signs: map<Api, seq<string>>)
      returns (ok: bool, ghost grouped: map<Api, seq<string>>)
      requires IsIndex(index) && DistinctNames(docker)
      requires forall api :: (exists c <- docker :: ParseApiName(c.name) == Some(api)) ==>
                 api in signs && AreFresh(api, signs[api], docker, []) && maxPerApi <= |signs[api]| && 1 <= |signs[api]|
                 && (api in desired ==> desired[api] <= |signs[api]|)
      modifies this
      ensures forall api, n :: n in Listed(grouped, api)
                <==> Belongs(old(docker), Before(old(index), old(pings), now, expire), api, n)
      ensures IsIndex(index)
      ensures ok <==> CanBalance(grouped, old(desired), old(queues), maxPerApi)
      ensures ok ==> grouped.Keys <= desired.Keys && index.Keys == grouped.Keys
                     && (forall api <- grouped ::
                           desired[api] == Wanted(old(desired), api, old(queues)[api], maxPerApi))
                     && AreLaunched(grouped, index, desired, signs, grouped.Keys)
                     && Sent(old(launched), launched, Shortage(grouped, desired), grouped.Keys)
                     && Sent(old(terminated), terminated, Excess(grouped, desired), grouped.Keys)
    {
      hide *;
      ghost var docker0, d0, q0 := docker, desired, queues;
      RefreshContainerList(now, expire);
      grouped := index;
      ghost var d1 := desired;
      ReleaseQueues();
      QueuesAreNeeded(grouped, d0, q0, maxPerApi);
      ok := CalcDesiredContainerCounts(maxPerApi);
      if !ok {
        return;
      }
      PassMeans(grouped, d0, d1, desired, q0, queues, maxPerApi);
      SignsSuffice(signs, grouped, d0, d1, desired, docker0, docker, q0, maxPerApi,
                   Before(old(index), old(pings), now, expire));
      ok := BalanceAll(signs, now);
    }
  }

  // The desired count of an API after a pass; an API seen for the first time starts with one.
  function Wanted(desired: map<Api, int>, api: Api, q: Stat, maxPerApi: int): int {
    Desired(if api in desired then desired[api] else 1, q.mean, maxPerApi)
  }

  // Every listed API has a queue with room for the terminate messages that a pass decides on.
  ghost predicate CanBalance(grouped: map<Api, seq<string>>, desired: map<Api, int>, queues: map<Api, Stat>,
                             maxPerApi: int) {
    forall api <- grouped ::
      api in queues
      && HasRoom(AfterPass(queues[api]), Pos(|grouped[api]| - Wanted(desired, api, queues[api], maxPerApi)))
  }

  // What the new counts and queues come to, in terms of those before the pass.
  lemma PassMeans(grouped: map<Api, seq<string>>, d0: map<Api, int>, d1: map<Api, int>, desired: map<Api, int>,
                  q0: map<Api, Stat>, q1: map<Api, Stat>, maxPerApi: int)
    requires grouped.Keys <= d1.Keys && d1.Keys == desired.Keys && grouped.Keys <= q0.Keys && grouped.Keys <= q1.Keys
    requires forall api <- d1 :: d1[api] == if api in d0 then d0[api] else 1
    requires forall api <- grouped :: desired[api] == Desired(d1[api], q0[api].mean, maxPerApi)
    requires forall api <- grouped :: q1[api] == AfterPass(q0[api])
    ensures forall api <- grouped :: desired[api] == Wanted(d0, api, q0[api], maxPerApi)
    ensures (forall api <- grouped :: HasRoom(q1[api], Excess(grouped, desired)[api]))
              <==> CanBalance(grouped, d0, q0, maxPerApi)
  {
    hide Desired, AfterPass, HasRoom;
    assert forall api <- grouped ::
        Excess(grouped, desired)[api] == Pos(|grouped[api]| - Wanted(d0, api, q0[api], maxPerApi));
  }

  lemma QueuesAreNeeded(grouped: map<Api, seq<string>>, desired: map<Api, int>, queues: map<Api, Stat>, maxPerApi: int)
    ensures CanBalance(grouped, desired, queues, maxPerApi) ==> grouped.Keys <= queues.Keys
  {
  }

  // ---------- Launched containers ----------

  // The name under which Docker lists a container launched with a digest
  function NewName(api: Api, sign: string): string {
    Slashed(ApiContainerName(sign, api), true)
  }

  function NewNames(api: Api, signs: seq<string>): (names: seq<string>)
    ensures |names| == |signs|
  {
    if signs == [] then [] else NewNames(api, signs[..|signs| - 1]) + [NewName(api, signs[|signs| - 1])]
  }

  function NewConts(api: Api, signs: seq<string>): seq<Cont> {
    if signs == [] then [] else NewConts(api, signs[..|signs| - 1]) + [Cont(NewName(api, signs[|signs| - 1]), true)]
  }

  // Digests that give names not in use
  ghost predicate AreFresh(api: Api, signs: seq<string>, docker: seq<Cont>, listed: seq<string>) {
    && NoDup(signs)
    && forall sign <- signs ::
         IsDigest(sign) && NewName(api, sign) !in listed && forall c <- docker :: c.name != NewName(api, sign)
  }

  lemma NewNamesDiffer(api: Api, sign: string, other: Api, sign': string)
    requires IsDigest(sign) && IsDigest(sign') && (api != other || sign != sign')
    ensures NewName(api, sign) != NewName(other, sign')
  {
    hide ParseApiName, NewName, IsDigest;
    NewNameMeans(api, sign);
    NewNameMeans(other, sign');
  }

  lemma NewNameMeans(api: Api, sign: string)
    requires IsDigest(sign)
    ensures ParseApiName(NewName(api, sign)) == Some(api)
    ensures |NewName(api, sign)| >= 41 && NewName(api, sign)[1..41] == sign
  {
    hide ParseApiName;
    ParseInvertsPrint(sign, api, true);
  }

  lemma NothingNew(api: Api, signs: seq<string>, index: map<Api, seq<string>>, docker: seq<Cont>)
    requires api in index
    ensures signs[..0] == []
    ensures index[api := index[api] + NewNames(api, [])] == index && docker + NewConts(api, []) == docker
  {
    assert index[api] + NewNames(api, []) == index[api];
  }

  lemma {:induction false} NewNamesMean(api: Api, signs: seq<string>)
    ensures forall n :: n in NewNames(api, signs) <==> exists sign <- signs :: n == NewName(api, sign)
    ensures forall c :: c in NewConts(api, signs) <==> exists sign <- signs :: c == Cont(NewName(api, sign), true)
  {
    hide NewName;
    if signs != [] {
      var front, last := signs[..|signs| - 1], signs[|signs| - 1];
      NewNamesMean(api, front);
      assert forall sign :: sign in signs <==> sign in front || sign == last;
    }
  }

  // After k launches the next digest is still fresh.
  lemma NextIsFresh(api: Api, signs: seq<string>, k: nat, docker: seq<Cont>, listed: seq<string>)
    requires k < |signs| && AreFresh(api, signs, docker, listed)
    ensures IsDigest(signs[k]) && NewName(api, signs[k]) !in listed + NewNames(api, signs[..k])
    ensures forall c <- docker + NewConts(api, signs[..k]) :: c.name != NewName(api, signs[k])
  {
    hide NewName;
    NewNamesMean(api, signs[..k]);
    forall sign | sign in signs[..k] ensures NewName(api, sign) != NewName(api, signs[k]) {
      var i :| 0 <= i < k && signs[i] == sign;
      assert sign in signs && signs[k] in signs;
      NewNamesDiffer(api, sign, api, signs[k]);
    }
  }

  lemma OneMoreNew(api: Api, signs: seq<string>, k: nat, docker: seq<Cont>, listed: seq<string>, launched: seq<Api>)
    requires k < |signs|
    ensures listed + NewNames(api, signs[..k]) + [NewName(api, signs[k])] == listed + NewNames(api, signs[..k + 1])
    ensures docker + NewConts(api, signs[..k]) + [Cont(NewName(api, signs[k]), true)]
            == docker + NewConts(api, signs[..k + 1])
    ensures launched + Repeated(k, api) + [api] == launched + Repeated(k + 1, api)
  {
    hide NewName;
    assert signs[..k + 1][..k] == signs[..k];
  }

  // The APIs in `done` have their launched containers added to their lists, the others not.
  ghost predicate AreLaunched(before: map<Api, seq<string>>, after: map<Api, seq<string>>, desired: map<Api, int>,
                              signs: map<Api, seq<string>>, done: set<Api>)
    requires before.Keys <= desired.Keys
  {
    && after.Keys == before.Keys
    && (forall api <- before :: api in done ==>
          api in signs && Shortage(before, desired)[api] <= |signs[api]|
          && after[api] == before[api] + NewNames(api, signs[api][..Shortage(before, desired)[api]]))
    && (forall api <- before :: api !in done ==> after[api] == before[api])
  }

  ghost predicate HasSignsFor(signs: map<Api, seq<string>>, api: Api, index: map<Api, seq<string>>,
                              desired: map<Api, int>, docker: seq<Cont>)
    requires index.Keys <= desired.Keys && api in index
  {
    api in signs && Shortage(index, desired)[api] <= |signs[api]| && AreFresh(api, signs[api], docker, index[api])
  }

  ghost predicate HasSigns(signs: map<Api, seq<string>>, index: map<Api, seq<string>>, desired: map<Api, int>,
                           docker: seq<Cont>)
    requires index.Keys <= desired.Keys
  {
    forall api <- index :: HasSignsFor(signs, api, index, desired, docker)
  }

  lemma NothingLaunched(index: map<Api, seq<string>>, desired: map<Api, int>, signs: map<Api, seq<string>>)
    requires index.Keys <= desired.Keys
    ensures AreLaunched(index, index, desired, signs, {})
    ensures forall docker :: HasSigns(signs, index, desired, docker) ==>
              forall api <- index :: HasSignsFor(signs, api, index, desired, docker)
  {
  }

  lemma SignsForNext(signs: map<Api, seq<string>>, api: Api, i0: map<Api, seq<string>>, index: map<Api, seq<string>>,
                     desired: map<Api, int>, docker: seq<Cont>, done: set<Api>)
    requires i0.Keys <= desired.Keys && AreLaunched(i0, index, desired, signs, done)
    requires api in i0 && api !in done && HasSignsFor(signs, api, i0, desired, docker)
    ensures index.Keys == i0.Keys && index[api] == i0[api] && api in signs
    ensures Shortage(index, desired)[api] == Shortage(i0, desired)[api] <= |signs[api]|
    ensures Excess(index, desired)[api] == Excess(i0, desired)[api]
    ensures AreFresh(api, signs[api], docker, index[api])
  {
  }

  lemma LaunchedStep(i0: map<Api, seq<string>>, i1: map<Api, seq<string>>, i2: map<Api, seq<string>>,
                     desired: map<Api, int>, signs: map<Api, seq<string>>, done: set<Api>, api: Api)
    requires i0.Keys <= desired.Keys && AreLaunched(i0, i1, desired, signs, done) && api in i0 && api !in done
    requires api in signs && Shortage(i0, desired)[api] <= |signs[api]|
    requires i2 == i1[api := i1[api] + NewNames(api, signs[api][..Shortage(i0, desired)[api]])]
    ensures AreLaunched(i0, i2, desired, signs, done + {api})
    ensures i2.Keys == i0.Keys
  {
    hide NewNames, Shortage;
  }

  // Launching for one API uses up no other's names.
  lemma SignsStay(signs: map<Api, seq<string>>, a: Api, api: Api, index: map<Api, seq<string>>, desired: map<Api, int>,
                  docker: seq<Cont>, docker': seq<Cont>)
    requires index.Keys <= desired.Keys && a in index && api in index && a != api
    requires HasSignsFor(signs, a, index, desired, docker) && HasSignsFor(signs, api, index, desired, docker)
    requires docker' == docker + NewConts(api, signs[api][..Shortage(index, desired)[api]])
    ensures HasSignsFor(signs, a, index, desired, docker')
  {
    hide NewName, Shortage;
    var used := signs[api][..Shortage(index, desired)[api]];
    NewNamesMean(api, used);
    forall sign, c | sign in signs[a] && c in docker' ensures c.name != NewName(a, sign) {
      if c !in docker {
        var other :| other in used && c == Cont(NewName(api, other), true);
        assert other in signs[api];
        NewNamesDiffer(api, other, a, sign);
      }
    }
  }

  // Digests for as many containers as any API may want are enough for a pass.
  lemma SignsSuffice(signs: map<Api, seq<string>>, grouped: map<Api, seq<string>>, d0: map<Api, int>, d1: map<Api, int>,
                     desired: map<Api, int>, docker0: seq<Cont>, docker: seq<Cont>, queues: map<Api, Stat>,
                     maxPerApi: nat, b: Before)
    requires forall api :: (exists c <- docker0 :: ParseApiName(c.name) == Some(api)) ==>
               api in signs && AreFresh(api, signs[api], docker0, []) && maxPerApi <= |signs[api]| && 1 <= |signs[api]|
               && (api in d0 ==> d0[api] <= |signs[api]|)
    requires forall api, n :: n in Listed(grouped, api) <==> Belongs(docker0, b, api, n)
    requires forall api <- grouped :: grouped[api] != []
    requires forall c :: c in docker ==> c in docker0
    requires grouped.Keys <= d1.Keys && d1.Keys == desired.Keys && grouped.Keys <= queues.Keys
    requires forall api <- d1 :: d1[api] == if api in d0 then d0[api] else 1
    requires forall api <- grouped :: desired[api] == Desired(d1[api], queues[api].mean, maxPerApi)
    ensures HasSigns(signs, grouped, desired, docker)
  {
    hide ParseApiName, IsStale, NewName, IsDigest;
    forall api | api in grouped ensures HasSignsFor(signs, api, grouped, desired, docker) {
      var n := grouped[api][0];
      assert n in Listed(grouped, api);
      assert Cont(n, true) in docker0 && ParseApiName(Cont(n, true).name) == Some(api);
      WantedIsCovered(d1[api], queues[api], maxPerApi, |signs[api]|);
      forall sign | sign in signs[api] ensures NewName(api, sign) !in grouped[api] {
        forall m | m in grouped[api] ensures m != NewName(api, sign) {
          assert m in Listed(grouped, api) && Cont(m, true) in docker0;
        }
      }
    }
  }

  lemma WantedIsCovered(desired: int, q: Stat, maxPerApi: nat, limit: nat)
    requires desired <= limit && maxPerApi <= limit && 1 <= limit
    ensures Desired(desired, q.mean, maxPerApi) <= limit
  {
  }

  // ---------- Shortage and excess ----------

  // By how many containers an API falls short of, or exceeds, its desired count
  function Shortage(index: map<Api, seq<string>>, desired: map<Api, int>): (r: map<Api, nat>)
    requires index.Keys <= desired.Keys
    ensures r.Keys == index.Keys
  {
    map api <- index :: Pos(desired[api] - |index[api]|)
  }

  function Excess(index: map<Api, seq<string>>, desired: map<Api, int>): (r: map<Api, nat>)
    requires index.Keys <= desired.Keys
    ensures r.Keys == index.Keys
  {
    map api <- index :: Pos(|index[api]| - desired[api])
  }

  // Requests were added for the APIs in `done`, as many as `counts` says, and for no other API.
  ghost predicate Sent(before: seq<Api>, after: seq<Api>, counts: map<Api, nat>, done: set<Api>)
    requires done <= counts.Keys
  {
    forall api :: multiset(after)[api] == multiset(before)[api] + if api in done then counts[api] else 0
  }

  lemma SentNothing(xs: seq<Api>, counts: map<Api, nat>)
    ensures Sent(xs, xs, counts, {})
  {
  }

  lemma SentStep(before: seq<Api>, mid: seq<Api>, after: seq<Api>, counts: map<Api, nat>, done: set<Api>, api: Api)
    requires done <= counts.Keys && api in counts && api !in done
    requires Sent(before, mid, counts, done) && after == mid + Repeated(counts[api], api)
    ensures Sent(before, after, counts, done + {api})
  {
    hide Repeated;
    forall a ensures multiset(after)[a] == multiset(before)[a] + if a in done + {api} then counts[a] else 0 {
      CountRepeated(mid, counts[api], api, a);
    }
  }

  // A queue takes n more calls without being overloaded.
  ghost predicate HasRoom(q: Stat, n: nat) {
    forall k: nat :: k < n ==> Admits(AfterCalls(q, k))
  }

  lemma AfterPassIsNear(q: Stat)
    requires IsNear(q)
    ensures IsNear(AfterPass(q)) && AfterPass(q).num == q.num
  {
    StaysNear(q, 0);
  }

  function Pos(n: int): nat {
    if n < 0 then 0 else n
  }

  // n entries of an API
  function Repeated(n: nat, api: Api): seq<Api> {
    if n == 0 then [] else Repeated(n - 1, api) + [api]
  }

  lemma {:induction false} CountRepeated(xs: seq<Api>, n: nat, api: Api, a: Api)
    ensures multiset(xs + Repeated(n, api))[a] == multiset(xs)[a] + if a == api then n else 0
  {
    if n == 0 {
      assert xs + Repeated(n, api) == xs;
    } else {
      var shorter := xs + Repeated(n - 1, api);
      CountRepeated(xs, n - 1, api, a);
      assert xs + Repeated(n, api) == shorter + [api];
    }
  }

  // The queue after k more calls
  function AfterCalls(q: Stat, k: nat): Stat {
    if k == 0 then q else Incr(AfterCalls(q, k - 1), 1)
  }

  lemma {:induction false} AfterCallsIsNear(q: Stat, k: nat)
    requires IsNear(q)
    ensures IsNear(AfterCalls(q, k)) && AfterCalls(q, k).num == q.num + k
  {
    if k > 0 {
      AfterCallsIsNear(q, k - 1);
      StaysNear(AfterCalls(q, k - 1), 1);
    }
  }

  // Up to BUFFER_SZ messages in all never overload a queue.
  lemma ExcessIsSent(q: Stat, excess: nat)
    requires IsNear(q) && q.num + excess <= BUFFER_SZ
    ensures HasRoom(q, excess)
  {
    forall k: nat | k < excess ensures Admits(AfterCalls(q, k)) {
      AfterCallsIsNear(q, k);
    }
  }

  // A queue with few calls leaves room for the messages that a pass over it decides on.
  lemma FewCallsLeaveRoom(q: Stat, desired: map<Api, int>, api: Api, listed: nat, maxPerApi: nat)
    requires IsNear(q) && (api in desired ==> desired[api] >= 0) && q.num + listed <= BUFFER_SZ
    ensures HasRoom(AfterPass(q), Pos(listed - Wanted(desired, api, q, maxPerApi)))
  {
    AfterPassIsNear(q);
    ExcessIsSent(AfterPass(q), Pos(listed - Wanted(desired, api, q, maxPerApi)));
  }

  lemma PingStep(p0: map<string, int>, p1: map<string, int>, snap: seq<Cont>, i: nat, b: Before)
    requires i < |snap| && PingsSoFar(p0, snap[..i], b) && forall d <- snap[..i] :: d.name != snap[i].name
    requires forall n :: n != snap[i].name ==> (n in p1 <==> n in p0) && (n in p1 ==> p1[n] == p0[n])
    requires PingsSoFar(p1, [snap[i]], b)
    ensures PingsSoFar(p1, snap[..i + 1], b)
  {
    hide ParseApiName, PingAfter;
    forall d | d in snap[..i + 1]
      ensures ParseApiName(d.name).Some? && d.active ==>
                (d.name in p1 <==> PingAfter(b, d.name).Some?)
                && (d.name in p1 ==> PingAfter(b, d.name) == Some(p1[d.name]))
    {
      assert d in snap[..i] || d in [snap[i]];
    }
  }

  lemma PingsArePruned(p1: map<string, int>, p2: map<string, int>, snap: seq<Cont>, known: set<string>, b: Before)
    requires PingsSoFar(p1, snap, b) && p2 == map n | n in p1 && n in known :: p1[n]
    requires known == set c <- snap | ParseApiName(c.name).Some? && c.active :: c.name
    ensures ArePingsAfter(p2, snap, b)
  {
    hide ParseApiName, PingAfter;
    forall n ensures n in known <==> Cont(n, true) in snap && ParseApiName(n).Some? {
      if Cont(n, true) in snap && ParseApiName(n).Some? {
        assert Cont(n, true).name in known;
      }
    }
  }

  // A container goes when it is not active, or has last responded longer ago than allowed.
  lemma WhoIsPurged(c: Cont, b: Before, api: Api)
    requires ParseApiName(c.name) == Some(api)
    ensures IsPurged(c, b) <==>
              !c.active
              || (b.expire > 0 && c.name in Listed(b.index, api) && c.name in b.pings
                  && b.now - b.pings[c.name] > b.expire)
  {
    hide ParseApiName;
  }

  // A container that is active when it is first seen is kept by every refresh until the time
  // allowed has passed, even if it never responds.
  lemma NewContainersStay(c: Cont, first: Before, later: Before, api: Api)
    requires ParseApiName(c.name) == Some(api) && c.active && c.name !in Listed(first.index, api)
    requires c.name in later.pings && PingAfter(first, c.name) == Some(later.pings[c.name])
    ensures !IsPurged(c, first)
    ensures IsPurged(c, later) ==> later.expire > 0 && later.now - first.now > later.expire
  {
    hide ParseApiName;
  }

  // With the launched containers started and the messages answered, every API has as many
  // containers as are desired.
  lemma CountsAreMet(before: map<Api, seq<string>>, after: map<Api, seq<string>>, desired: map<Api, int>,
                     signs: map<Api, seq<string>>)
    requires before.Keys <= desired.Keys && AreLaunched(before, after, desired, signs, before.Keys)
    ensures forall api <- before :: |after[api]| - Excess(before, desired)[api] == desired[api]
  {
    forall api | api in before ensures |after[api]| - Excess(before, desired)[api] == desired[api] {
      assert |NewNames(api, signs[api][..Shortage(before, desired)[api]])| == Shortage(before, desired)[api];
    }
  }

  lemma NothingSeen(index: map<Api, seq<string>>, pings: map<string, int>, now: int, expire: int)
    requires IsIndex(index)
    ensures IndexSoFar(index, [], Before(index, pings, now, expire))
    ensures forall b, api, n :: !Belongs([], b, api, n)
    ensures PingsSoFar(pings, [], Before(index, pings, now, expire))
  {
    hide ParseApiName;
    assert forall api, n :: n in Listed(index, api) ==> ParseApiName(n) == Some(api);
  }

  lemma SnapStep(snap: seq<Cont>, i: nat, b: Before)
    requires i < |snap| && DistinctNames(snap)
    ensures snap[..i + 1] == snap[..i] + [snap[i]]
    ensures forall d :: d in snap[..i + 1] <==> d in snap[..i] || d == snap[i]
    ensures forall d <- snap[i + 1..] :: d.name != snap[i].name
    ensures forall d <- snap :: d.name == snap[i].name ==> d == snap[i]
    ensures forall api, n :: Belongs(snap[..i + 1], b, api, n) ==>
              Belongs(snap[..i], b, api, n) || (n == snap[i].name && Belongs([snap[i]], b, api, n))
  {
  }

  lemma PrunedIsGrouping(i1: map<Api, seq<string>>, i2: map<Api, seq<string>>, snap: seq<Cont>, known: set<string>,
                         b: Before)
    requires IndexSoFar(i1, snap, b)
    requires known == set c <- snap | ParseApiName(c.name).Some? && c.active :: c.name
    requires IsRestricted(i1, i2, known, {})
    ensures forall api, n :: n in Listed(i2, api) <==> Belongs(snap, b, api, n)
  {
    hide ParseApiName, IsStale;
    forall api, n ensures n in Listed(i2, api) <==> Belongs(snap, b, api, n) {
      if Belongs(snap, b, api, n) {
        assert Cont(n, true) in snap;
        assert n in known;
      }
      if n in known {
        var c :| c in snap && ParseApiName(c.name).Some? && c.active && c.name == n;
        assert exists c <- snap :: c.name == n;
      }
    }
  }

  // What examining one container does to the index.
  lemma StepIndex(i0: map<Api, seq<string>>, i1: map<Api, seq<string>>, seen: seq<Cont>, c: Cont, b: Before)
    requires IndexSoFar(i0, seen, b) && forall d <- seen :: d.name != c.name
    requires forall api, n :: n != c.name ==> (n in Listed(i1, api) <==> n in Listed(i0, api))
    requires forall api :: c.name in Listed(i1, api) <==> Belongs([c], b, api, c.name)
    ensures IndexSoFar(i1, seen + [c], b)
  {
    hide ParseApiName, IsStale;
    forall api, n
      ensures n in Listed(i1, api) <==>
                ParseApiName(n) == Some(api)
                && if exists d <- seen + [c] :: d.name == n then Belongs(seen + [c], b, api, n) else n in Listed(b.index, api)
    {
      if n == c.name {
        assert c in seen + [c];
        assert Cont(n, true) in seen + [c] <==> Cont(n, true) == c;
        assert Belongs(seen + [c], b, api, n) <==> Belongs([c], b, api, n);
      } else {
        assert (exists d <- seen + [c] :: d.name == n) <==> (exists d <- seen :: d.name == n);
        assert Belongs(seen + [c], b, api, n) <==> Belongs(seen, b, api, n);
        assert n in Listed(i1, api) <==> n in Listed(i0, api);
      }
    }
  }
}
