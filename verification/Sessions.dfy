/**
 Which instance starts a user's session: the decision of an instance to accept it, the
 instance a visitor is sent to otherwise, and the chain of hops this makes
 (engine/src/juliabox/plugins/compute_ec2/impl_ec2.py, handlers/main.py,
 handlers/handler_base.py). Loads are percentages taken from one shared snapshot.
 */
module Sessions {
  import opened Basics
  import opened Cluster

  type Loads = map<Id, real>

  const HIGH_LOAD: real := 50.0
  const FULL_LOAD: real := 100.0

  // ---------- Order of instance ids ----------

  // Lexicographic order, as Python sorts strings.
  predicate IdLe(a: Id, b: Id) {
    a == "" || (b != "" && (a[0] < b[0] || (a[0] == b[0] && IdLe(a[1..], b[1..]))))
  }

  lemma {:induction false} IdLeTotal(a: Id, b: Id)
    ensures IdLe(a, b) || IdLe(b, a)
  {
    if a != "" && b != "" && a[0] == b[0] {
      IdLeTotal(a[1..], b[1..]);
    }
  }

  lemma {:induction false} IdLeAntisymmetric(a: Id, b: Id)
    requires IdLe(a, b) && IdLe(b, a)
    ensures a == b
  {
    if a != "" && b != "" {
      IdLeAntisymmetric(a[1..], b[1..]);
      assert a == [a[0]] + a[1..] && b == [b[0]] + b[1..];
    }
  }

  lemma {:induction false} IdLeTransitive(a: Id, b: Id, c: Id)
    requires IdLe(a, b) && IdLe(b, c)
    ensures IdLe(a, c)
  {
    if a != "" && a[0] == b[0] && b[0] == c[0] {
      IdLeTransitive(a[1..], b[1..], c[1..]);
    }
  }

  predicate IsFirst(ids: set<Id>, id: Id) {
    id in ids && forall j <- ids :: IdLe(id, j)
  }

  lemma {:induction false} FirstExists(ids: set<Id>)
    requires ids != {}
    ensures exists id :: IsFirst(ids, id)
  {
    var x :| x in ids;
    IdLeTotal(x, x);
    if ids == {x} {
      assert IsFirst(ids, x);
    } else {
      FirstExists(ids - {x});
      var y :| IsFirst(ids - {x}, y);
      IdLeTotal(x, y);
      if IdLe(x, y) {
        forall j | j in ids ensures IdLe(x, j) {
          if j != x {
            IdLeTransitive(x, y, j);
          }
        }
        assert IsFirst(ids, x);
      } else {
        assert IsFirst(ids, y);
      }
    }
  }

  // ids.sort(); ids[0]
  ghost function First(ids: set<Id>): (id: Id)
    requires ids != {}
    ensures IsFirst(ids, id)
  {
    FirstExists(ids);
    var id :| IsFirst(ids, id);
    id
  }

  // ---------- Average load ----------

  ghost function Pick(loads: Loads): (id: Id)
    requires loads != map[]
    ensures id in loads
  {
    assert loads.Keys != {};
    var id :| id in loads;
    id
  }

  ghost function Sum(loads: Loads): real {
    if loads == map[] then 0.0 else loads[Pick(loads)] + Sum(loads - {Pick(loads)})
  }

  ghost function Average(loads: Loads): Option<real> {
    if |loads| == 0 then None else Some(Sum(loads) / (|loads| as real))
  }

  // n equal loads
  function Times(n: nat, a: real): real {
    if n == 0 then 0.0 else a + Times(n - 1, a)
  }

  lemma {:induction false} TimesIsProduct(n: nat, a: real)
    ensures Times(n, a) == (n as real) * a
  {
    if n > 0 {
      TimesIsProduct(n - 1, a);
      assert (n as real) * a == ((n - 1) as real) * a + a;
    }
  }

  // Every load counts at least a, so the sum is at least a for each of them; more if one is more.
  lemma {:induction false} SumAtLeast(loads: Loads, a: real)
    requires forall k <- loads :: loads[k] >= a
    ensures Sum(loads) >= Times(|loads|, a)
    decreases |loads|
  {
    if loads != map[] {
      var rest := loads - {Pick(loads)};
      assert |rest| == |loads| - 1;
      SumAtLeast(rest, a);
    }
  }

  lemma {:induction false} SumAbove(loads: Loads, a: real, j: Id)
    requires j in loads && loads[j] > a && forall k <- loads :: loads[k] >= a
    ensures Sum(loads) > Times(|loads|, a)
    decreases |loads|
  {
    var k := Pick(loads);
    var rest := loads - {k};
    assert |rest| == |loads| - 1;
    if j == k {
      SumAtLeast(rest, a);
    } else {
      SumAbove(rest, a, j);
    }
  }

  // Either some load is below the average, or all loads are equal to it.
  lemma AverageIsBetween(loads: Loads)
    requires loads != map[]
    ensures Average(loads).Some?
    ensures var avg := Average(loads).value;
            (exists k <- loads :: loads[k] < avg) || (forall k <- loads :: loads[k] == avg)
  {
    assert loads.Keys != {};
    var n := |loads| as real;
    var avg := Sum(loads) / n;
    TimesIsProduct(|loads|, avg);
    assert n * avg == Sum(loads);
    if j :| j in loads && loads[j] > avg {
      if forall k <- loads :: loads[k] >= avg {
        SumAbove(loads, avg, j);
      }
    }
  }

  // ---------- The two decisions ----------

  // The instances that are not outdated.
  function Current(loads: Loads, vers: Versions, members: set<Id>): Loads {
    map k | k in loads && Recentness(vers, members, k) >= 0 :: loads[k]
  }

  // No instance is named (an exception is raised) when no current instance reports a load.
  ghost function RedirectInstance(loads: Loads, vers: Versions, members: set<Id>): Option<Id> {
    var cluster := Current(loads, vers, members);
    match Average(cluster)
    case None => None
    case Some(avg) =>
      var filtered := if avg >= HIGH_LOAD then set k | k in cluster && cluster[k] < avg
                      else set k | k in cluster && cluster[k] > avg;
      Some(First(if filtered == {} then cluster.Keys else filtered))
  }

  datatype Decision = Accept | Reject | Raise

  // `load` is the instance's own load, if known; comparisons with an unknown load or average
  // follow Python 2, where None is less than every number.
  ghost function ShouldAccept(self: Id, load: Option<real>, loads: Loads, vers: Versions, members: set<Id>,
                              isLeader: bool): Decision
  {
    var cluster := Current(loads, vers, members);
    var avg := Average(cluster);
    var recentness := Recentness(vers, members, self);
    if load.Some? && load.value >= FULL_LOAD then Reject
    else if recentness > 0 then Accept
    else if recentness < 0 then Reject
    else if isLeader then Accept
    else if |cluster| < 1 then Accept
    else if avg.Some? && avg.value >= HIGH_LOAD && load.Some? && load.value >= avg.value then Accept
    else
      var filtered := if avg.Some? && avg.value >= HIGH_LOAD then set k | k in cluster && cluster[k] < avg.value
                      else cluster.Keys;
      if filtered == {} then Raise
      else if First(filtered) == self then Accept
      else Reject
  }

  function LoadOf(loads: Loads, id: Id): Option<real> {
    if id in loads then Some(loads[id]) else None
  }

  // The instance named by the redirect accepts exactly when it is not full and one of these
  // holds: the current instances are highly loaded on average, it runs a newer image, it is
  // the leader, or its id sorts first among the current instances.
  lemma RedirectAgreesIff(loads: Loads, vers: Versions, members: set<Id>, isLeader: bool)
    requires Current(loads, vers, members) != map[]
    ensures RedirectInstance(loads, vers, members).Some?
    ensures var cluster := Current(loads, vers, members);
            var target := RedirectInstance(loads, vers, members).value;
            && target in cluster
            && (ShouldAccept(target, LoadOf(loads, target), loads, vers, members, isLeader) == Accept
                <==> loads[target] < FULL_LOAD
                     && (Average(cluster).value >= HIGH_LOAD || Recentness(vers, members, target) > 0 || isLeader
                         || target == First(cluster.Keys)))
  {
    var cluster := Current(loads, vers, members);
    AverageIsBetween(cluster);
    assert cluster.Keys != {};
    var avg := Average(cluster).value;
    var target := RedirectInstance(loads, vers, members).value;
    assert target in cluster;
    if avg >= HIGH_LOAD {
      var below := set k | k in cluster && cluster[k] < avg;
      if below == {} {
        assert forall k <- cluster :: k !in below;
        assert cluster[target] == avg;
      } else {
        assert target in below;
      }
    }
  }

  lemma QuotientAtMost(sum: real, n: real, a: real)
    requires n > 0.0 && sum <= n * a
    ensures sum / n <= a
  {
    var q := sum / n;
    assert q * n == sum;
    if q > a {
      MulGrows(q, a, n);
    }
  }

  lemma MulGrows(q: real, a: real, n: real)
    requires q > a && n > 0.0
    ensures q * n > n * a
  {
    assert (q - a) * n > 0.0;
  }

  // On a busy cluster whose loads are percentages, not all of them full, the redirect always
  // names an instance that accepts.
  lemma BusyRedirectIsAccepted(loads: Loads, vers: Versions, members: set<Id>, isLeader: bool)
    requires var cluster := Current(loads, vers, members);
             && cluster != map[]
             && (forall k <- cluster :: cluster[k] <= FULL_LOAD)
             && (exists k <- cluster :: cluster[k] < FULL_LOAD)
             && Average(cluster).value >= HIGH_LOAD
    ensures var target := RedirectInstance(loads, vers, members);
            target.Some? && ShouldAccept(target.value, LoadOf(loads, target.value), loads, vers, members, isLeader) == Accept
  {
    RedirectAgreesIff(loads, vers, members, isLeader);
    var cluster := Current(loads, vers, members);
    AverageIsBetween(cluster);
    var avg := Average(cluster).value;
    var below := set k | k in cluster && cluster[k] < avg;
    var target := RedirectInstance(loads, vers, members).value;
    if exists k <- cluster :: cluster[k] < avg {
      var k :| k in cluster && cluster[k] < avg;
      assert k in below;
      assert target in below;
      AverageAtMost(cluster, FULL_LOAD);
    }
  }

  lemma {:induction false} SumAtMost(loads: Loads, a: real)
    requires forall k <- loads :: loads[k] <= a
    ensures Sum(loads) <= Times(|loads|, a)
  {
    if loads != map[] {
      var rest := loads - {Pick(loads)};
      assert |rest| == |loads| - 1;
      SumAtMost(rest, a);
    }
  }

  lemma AverageAtMost(loads: Loads, a: real)
    requires loads != map[] && forall k <- loads :: loads[k] <= a
    ensures Average(loads).Some? && Average(loads).value <= a
  {
    SumAtMost(loads, a);
    assert loads.Keys != {};
    TimesIsProduct(|loads|, a);
    QuotientAtMost(Sum(loads), |loads| as real, a);
  }

  // Below that load the two decisions disagree: the redirect names the most loaded instance,
  // which leaves new sessions to the one that sorts first.
  lemma IdleRedirectIsRejected(vers: Versions)
    requires vers == map["a" := 1, "b" := 1]
    ensures var loads: Loads := map["a" := 10.0, "b" := 40.0];
            && RedirectInstance(loads, vers, {"a", "b"}) == Some("b")
            && ShouldAccept("b", Some(40.0), loads, vers, {"a", "b"}, false) == Reject
  {
    var loads: Loads := map["a" := 10.0, "b" := 40.0];
    var members := {"a", "b"};
    BothCurrent(loads, vers, members);
    TwoLoads(loads);
    FirstOfTwo();
    hide Current, Recentness, Average, First, IdLe;
    var above := set k | k in loads && loads[k] > 25.0;
    assert above == {"b"};
    assert loads.Keys == {"a", "b"};
  }

  lemma FirstOfTwo()
    ensures First({"b"}) == "b" && First({"a", "b"}) == "a"
  {
    hide First;
    assert First({"b"}) in {"b"};
    assert !IdLe("b", "a");
  }

  lemma BothCurrent(loads: Loads, vers: Versions, members: set<Id>)
    requires loads == map["a" := 10.0, "b" := 40.0] && vers == map["a" := 1, "b" := 1] && members == {"a", "b"}
    ensures Current(loads, vers, members) == loads
    ensures Recentness(vers, members, "b") == 0
  {
    assert forall i <- members :: VersionOf(vers, i) == 1;
  }

  lemma TwoLoads(loads: Loads)
    requires loads == map["a" := 10.0, "b" := 40.0]
    ensures Average(loads) == Some(25.0)
  {
    var k := Pick(loads);
    var rest := loads - {k};
    var j := if k == "a" then "b" else "a";
    assert rest == map[j := loads[j]];
    assert j in rest;
    assert Pick(rest) == j;
    assert rest - {j} == map[];
    assert loads.Keys == {"a", "b"} && |loads| == |loads.Keys| == 2;
    assert Sum(rest) == loads[j];
    assert Sum(loads) == 50.0;
  }

  // On a shared snapshot that includes the deciding instance the decision never raises.
  lemma SharedSnapshotNeverRaises(self: Id, loads: Loads, vers: Versions, members: set<Id>, isLeader: bool)
    requires self in loads
    ensures ShouldAccept(self, LoadOf(loads, self), loads, vers, members, isLeader) != Raise
  {
    var cluster := Current(loads, vers, members);
    if Recentness(vers, members, self) >= 0 {
      assert self in cluster;
      if Average(cluster).Some? && cluster[self] < Average(cluster).value {
        assert self in set k | k in cluster && cluster[k] < Average(cluster).value;
      }
    }
  }

  // ---------- Who is named, and who accepts ----------

  // The redirect names the first, by id, of the current instances below the average load if
  // that is at least 50, and above it otherwise; of all of them if they are equally loaded.
  lemma WhoIsNamed(loads: Loads, vers: Versions, members: set<Id>)
    requires Current(loads, vers, members) != map[]
    ensures RedirectInstance(loads, vers, members).Some?
    ensures var cluster := Current(loads, vers, members);
            var target, avg := RedirectInstance(loads, vers, members).value, Average(cluster).value;
            && target in cluster
            && (cluster[target] == avg ==> forall k <- cluster :: cluster[k] == avg && IdLe(target, k))
            && (avg >= 50.0 ==> cluster[target] <= avg && forall k <- cluster :: cluster[k] < avg ==> IdLe(target, k))
            && (avg < 50.0 ==> cluster[target] >= avg && forall k <- cluster :: cluster[k] > avg ==> IdLe(target, k))
  {
    hide IdLe, Sum, Current;
    var cluster := Current(loads, vers, members);
    AverageIsBetween(cluster);
    AverageIsBelow(cluster);
    assert cluster.Keys != {};
    var target, avg := RedirectInstance(loads, vers, members).value, Average(cluster).value;
    var below, above := set k | k in cluster && cluster[k] < avg, set k | k in cluster && cluster[k] > avg;
    if avg >= HIGH_LOAD {
      assert target in if below == {} then cluster.Keys else below;
      assert below == {} ==> forall k <- cluster :: k !in below;
    } else {
      assert target in if above == {} then cluster.Keys else above;
      assert above == {} ==> forall k <- cluster :: k !in above;
    }
  }

  // Likewise, either some load is above the average or all are equal to it.
  lemma AverageIsBelow(loads: Loads)
    requires loads != map[]
    ensures Average(loads).Some?
    ensures var avg := Average(loads).value;
            (exists k <- loads :: loads[k] > avg) || (forall k <- loads :: loads[k] == avg)
  {
    assert loads.Keys != {};
    var n := |loads| as real;
    var avg := Sum(loads) / n;
    TimesIsProduct(|loads|, avg);
    assert n * avg == Sum(loads);
    if j :| j in loads && loads[j] < avg {
      if forall k <- loads :: loads[k] <= avg {
        SumBelow(loads, avg, j);
      }
    }
  }

  lemma {:induction false} SumBelow(loads: Loads, a: real, j: Id)
    requires j in loads && loads[j] < a && forall k <- loads :: loads[k] <= a
    ensures Sum(loads) < Times(|loads|, a)
    decreases |loads|
  {
    var k := Pick(loads);
    var rest := loads - {k};
    assert |rest| == |loads| - 1;
    if j == k {
      SumAtMost(rest, a);
    } else {
      SumBelow(rest, a, j);
    }
  }

  // With its own load in the snapshot, an instance accepts if and only if it is not full and
  // either runs a newer image than others, or is not outdated and leads, or, at an average of
  // 50 and more, is not below the average or the first of those that are, or, below that, is
  // the first of all.
  lemma WhoAccepts(self: Id, loads: Loads, vers: Versions, members: set<Id>, isLeader: bool)
    requires self in loads && self in members
    ensures var cluster := Current(loads, vers, members);
            var avg := if Average(cluster).Some? then Average(cluster).value else 0.0;
            ShouldAccept(self, LoadOf(loads, self), loads, vers, members, isLeader) == Accept <==>
              && loads[self] < 100.0 && !IsOutdated(vers, members, self)
              && (|| (VersionOf(vers, self) != 0 && exists i <- members :: VersionOf(vers, i) < VersionOf(vers, self))
                  || isLeader
                  || (avg >= 50.0 && (loads[self] >= avg || forall k <- cluster :: cluster[k] < avg ==> IdLe(self, k)))
                  || (avg < 50.0 && forall k <- cluster :: IdLe(self, k)))
  {
    hide IdLe, Sum;
    var cluster := Current(loads, vers, members);
    assert Recentness(vers, members, self) >= 0 <==> !IsOutdated(vers, members, self);
    if !IsOutdated(vers, members, self) {
      assert self in cluster && cluster.Keys != {};
      var avg := Average(cluster).value;
      var below := set k | k in cluster && cluster[k] < avg;
      if forall k <- cluster :: IdLe(self, k) {
        FirstIs(cluster.Keys, self);
      }
      if cluster[self] < avg {
        assert self in below;
        if forall k <- below :: IdLe(self, k) {
          FirstIs(below, self);
        }
      }
    }
  }

  // Where no current instance reports a load, the instance accepts unless it is full or outdated.
  lemma NobodyReports(self: Id, load: Option<real>, loads: Loads, vers: Versions, members: set<Id>, isLeader: bool)
    requires Current(loads, vers, members) == map[]
    ensures ShouldAccept(self, load, loads, vers, members, isLeader)
            == if (load.Some? && load.value >= 100.0) || IsOutdated(vers, members, self) then Reject else Accept
  {
  }

  lemma FirstIs(ids: set<Id>, id: Id)
    requires IsFirst(ids, id)
    ensures First(ids) == id
  {
    hide IdLe;
    IdLeAntisymmetric(First(ids), id);
  }

  // ---------- Hops ----------

  // Everything a visit looks at. `running` tells which instances have a container of the
  // user, and whether it is running.
  datatype Snapshot = Snapshot(loads: Loads, vers: Versions, members: set<Id>, record: Option<Id>, running: map<Id, bool>)

  // try_launch_container
  ghost function TryLaunch(s: Snapshot, inst: Id, maxHop: bool): Decision {
    var load := LoadOf(s.loads, inst);
    if maxHop && (load.None? || load.value < FULL_LOAD) then Accept
    else if inst in s.running && s.running[inst] then Accept
    else ShouldAccept(inst, load, s.loads, s.vers, s.members, s.record == Some(inst))
  }

  datatype Outcome = Launched(at: Id) | MaxedOut(at: Id) | Failed

  // chk_and_launch_docker with hop count h on instance inst, and what follows from it. The
  // second result is the number of instances visited.
  ghost function Visit(s: Snapshot, inst: Id, h: nat, numHopMax: nat): (r: (Outcome, nat))
    ensures r.1 <= (if h <= numHopMax then numHopMax + 2 - h else 1)
    decreases if h <= numHopMax then numHopMax + 1 - h else 0
  {
    var maxHop := h > numHopMax;
    match TryLaunch(s, inst, maxHop)
    case Raise => (Failed, 1)
    case Accept => (Launched(inst), 1)
    case Reject =>
      if maxHop then (MaxedOut(inst), 1)
      else
        match RedirectInstance(s.loads, s.vers, s.members)
        case None => (Failed, 1)
        case Some(next) =>
          var r := Visit(s, next, h + 1, numHopMax);
          (r.0, r.1 + 1)
  }

  // A visitor sees at most numhopmax + 2 instances, and is turned away only by one that is full.
  lemma {:induction false} HopsEnd(s: Snapshot, inst: Id, h: nat, numHopMax: nat)
    ensures Visit(s, inst, 0, numHopMax).1 <= numHopMax + 2
    ensures var o := Visit(s, inst, h, numHopMax).0;
            && (o.MaxedOut? ==> LoadOf(s.loads, o.at).Some? && s.loads[o.at] >= FULL_LOAD)
            && (o.Launched? ==> (exists last :: TryLaunch(s, o.at, last) == Accept))
    decreases if h <= numHopMax then numHopMax + 1 - h else 0
  {
    hide RedirectInstance, ShouldAccept;
    var maxHop := h > numHopMax;
    if TryLaunch(s, inst, maxHop) == Reject && !maxHop {
      var next := RedirectInstance(s.loads, s.vers, s.members);
      if next.Some? {
        HopsEnd(s, next.value, h + 1, numHopMax);
      }
    }
  }

  // The user's container is running there, or the instance takes the session.
  ghost predicate TakesSession(s: Snapshot, i: Id) {
    (i in s.running && s.running[i])
    || ShouldAccept(i, LoadOf(s.loads, i), s.loads, s.vers, s.members, s.record == Some(i)) == Accept
  }

  ghost predicate TurnsAway(s: Snapshot, i: Id) {
    !(i in s.running && s.running[i])
    && ShouldAccept(i, LoadOf(s.loads, i), s.loads, s.vers, s.members, s.record == Some(i)) == Reject
  }

  // All redirects name the same instance. So a visitor is launched upon arrival, or at the
  // instance named, or is sent there over and over until all hops are used up; and is then
  // launched unless it is full.
  lemma VisitsAre(s: Snapshot, inst: Id, numHopMax: nat)
    ensures var v, next := Visit(s, inst, 0, numHopMax), RedirectInstance(s.loads, s.vers, s.members);
            && (TakesSession(s, inst) ==> v == (Launched(inst), 1))
            && (!TakesSession(s, inst) && !TurnsAway(s, inst) ==> v == (Failed, 1))
            && (TurnsAway(s, inst) && next.None? ==> v == (Failed, 1))
            && (TurnsAway(s, inst) && next.Some? && TakesSession(s, next.value) ==> v == (Launched(next.value), 2))
            && (TurnsAway(s, inst) && next.Some? && TurnsAway(s, next.value) ==>
                  v == (if next.value in s.loads && s.loads[next.value] >= 100.0 then MaxedOut(next.value)
                        else Launched(next.value), numHopMax + 2))
  {
    hide ShouldAccept, RedirectInstance;
    var next := RedirectInstance(s.loads, s.vers, s.members);
    if TurnsAway(s, inst) && next.Some? && TurnsAway(s, next.value) {
      SentOverAndOver(s, next.value, 1, numHopMax);
    }
  }

  lemma {:induction false} SentOverAndOver(s: Snapshot, next: Id, h: nat, numHopMax: nat)
    requires RedirectInstance(s.loads, s.vers, s.members) == Some(next) && TurnsAway(s, next) && h >= 1
    ensures Visit(s, next, h, numHopMax)
            == (if next in s.loads && s.loads[next] >= 100.0 then MaxedOut(next) else Launched(next),
                if h <= numHopMax then numHopMax + 2 - h else 1)
    decreases if h <= numHopMax then numHopMax + 1 - h else 0
  {
    hide ShouldAccept, RedirectInstance;
    if h <= numHopMax {
      SentOverAndOver(s, next, h + 1, numHopMax);
    }
  }

  // On a busy cluster one redirect is enough, wherever the visitor arrives.
  lemma BusyClusterLaunchesAfterOneHop(s: Snapshot, inst: Id, numHopMax: nat)
    requires inst in s.loads
    requires var cluster := Current(s.loads, s.vers, s.members);
             && cluster != map[]
             && (forall k <- cluster :: cluster[k] <= FULL_LOAD)
             && (exists k <- cluster :: cluster[k] < FULL_LOAD)
             && Average(cluster).value >= HIGH_LOAD
    ensures var r := Visit(s, inst, 0, numHopMax); r.0.Launched? && r.1 <= 2
  {
    SharedSnapshotNeverRaises(inst, s.loads, s.vers, s.members, s.record == Some(inst));
    if TryLaunch(s, inst, false) == Reject {
      var next := RedirectInstance(s.loads, s.vers, s.members).value;
      BusyRedirectIsAccepted(s.loads, s.vers, s.members, s.record == Some(next));
      assert TryLaunch(s, next, 1 > numHopMax) == Accept;
    }
  }

  // As long as no instance is full, every visitor gets a session somewhere.
  lemma {:induction false} UnlessFullEveryoneLaunches(s: Snapshot, inst: Id, h: nat, numHopMax: nat)
    requires inst in s.loads && forall k <- s.loads :: s.loads[k] < FULL_LOAD
    requires Current(s.loads, s.vers, s.members) != map[]
    ensures Visit(s, inst, h, numHopMax).0.Launched?
    decreases if h <= numHopMax then numHopMax + 1 - h else 0
  {
    SharedSnapshotNeverRaises(inst, s.loads, s.vers, s.members, s.record == Some(inst));
    var maxHop := h > numHopMax;
    if TryLaunch(s, inst, maxHop) == Reject {
      RedirectAgreesIff(s.loads, s.vers, s.members, false);
      var next := RedirectInstance(s.loads, s.vers, s.members).value;
      UnlessFullEveryoneLaunches(s, next, h + 1, numHopMax);
    }
  }
}
