/**
 Membership, image versions, leader election and scale-down of a JuliaBox cluster
 (engine/src/juliabox/plugins/compute_ec2/impl_ec2.py, db/__init__.py, db/dynconfig.py).
 Evaluations of the leader record are taken to be atomic and all instances see the same
 membership.
 */
module Cluster {
  import opened Basics

  type Id = string

  const MAXINT: int := 0x7fff_ffff_ffff_ffff

  // Numbers of machine images; 0 stands for an image that could not be determined.
  type Version = v: int | 0 <= v <= MAXINT
  type Versions = map<Id, Version>

  function VersionOf(vers: Versions, id: Id): Version {
    if id in vers then vers[id] else 0
  }

  // ---------- Image recentness ----------

  predicate HasNewer(vers: Versions, members: set<Id>, self: Id) {
    exists i <- members :: VersionOf(vers, i) > VersionOf(vers, self)
  }

  predicate HasOlder(vers: Versions, members: set<Id>, self: Id) {
    exists i <- members :: VersionOf(vers, i) < VersionOf(vers, self)
  }

  // -1 when some instance runs a newer image, 1 when this one is among the newest and some
  // instance runs an older image, 0 otherwise and when the own image is unknown.
  function Recentness(vers: Versions, members: set<Id>, self: Id): int {
    if VersionOf(vers, self) == 0 then 0
    else if HasNewer(vers, members, self) then -1
    else if HasOlder(vers, members, self) then 1
    else 0
  }

  method GetImageRecentness(vers: Versions, instances: seq<Id>, self: Id) returns (r: int)
    ensures r == Recentness(vers, (set i <- instances), self) && -1 <= r <= 1
  {
    var maxVer: int, minVer: int := 0, MAXINT;
    for k := 0 to |instances|
      invariant 0 <= maxVer && minVer <= MAXINT
      invariant forall i <- instances[..k] :: minVer <= VersionOf(vers, i) <= maxVer
      invariant maxVer == 0 || exists i <- instances[..k] :: VersionOf(vers, i) == maxVer
      invariant minVer == MAXINT || exists i <- instances[..k] :: VersionOf(vers, i) == minVer
    {
      var ver := VersionOf(vers, instances[k]);
      assert instances[..k + 1] == instances[..k] + [instances[k]];
      maxVer := if ver > maxVer then ver else maxVer;
      minVer := if ver < minVer then ver else minVer;
    }
    assert instances[..|instances|] == instances;
    var selfVer := VersionOf(vers, self);
    if selfVer == 0 {
      r := 0;
    } else if maxVer > selfVer {
      r := -1;
    } else if minVer < selfVer {
      r := 1;
    } else {
      r := 0;
    }
  }

  // Some instance always runs an image that is not outdated.
  lemma {:induction false} SomeoneIsNotOld(vers: Versions, members: set<Id>) returns (top: Id)
    requires members != {}
    ensures top in members && forall i <- members :: VersionOf(vers, i) <= VersionOf(vers, top)
    ensures Recentness(vers, members, top) >= 0
  {
    var x :| x in members;
    if members == {x} {
      top := x;
    } else {
      top := SomeoneIsNotOld(vers, members - {x});
      if VersionOf(vers, x) > VersionOf(vers, top) {
        top := x;
      }
    }
  }

  // ---------- Scale-down ----------

  predicate CanTerminate(vers: Versions, members: set<Id>, self: Id, uptime: int, isLeader: bool) {
    if uptime < 90 then false
    else if isLeader then false
    else
      var recentness := Recentness(vers, members, self);
      if recentness < 0 then true
      else if recentness > 0 then false
      else |members| != 1
  }

  predicate IsNewest(vers: Versions, members: set<Id>, v: int) {
    (exists i <- members :: VersionOf(vers, i) == v) && (forall i <- members :: VersionOf(vers, i) <= v)
  }

  // An instance that terminates itself leaves others behind, and the newest image among them
  // is the one that was newest before, whether or not all versions are known.
  lemma ScaleDownKeepsNewest(vers: Versions, members: set<Id>, self: Id, uptime: int, isLeader: bool)
    requires self in members && CanTerminate(vers, members, self, uptime, isLeader)
    ensures members - {self} != {}
    ensures forall v :: IsNewest(vers, members, v) <==> IsNewest(vers, members - {self}, v)
  {
    if Recentness(vers, members, self) < 0 {
      var newer :| newer in members && VersionOf(vers, newer) > VersionOf(vers, self);
      assert newer in members - {self};
    } else {
      MoreThanOne(members, self);
      var other :| other in members - {self};
      assert VersionOf(vers, other) >= VersionOf(vers, self);
    }
  }

  lemma MoreThanOne(members: set<Id>, self: Id)
    requires self in members && |members| != 1
    ensures members - {self} != {}
  {
    assert |members| == |members - {self}| + 1;
  }

  // `seen` is what the deciding instance knows of the true versions.
  ghost predicate IsPartOf(seen: Versions, truth: Versions) {
    forall i :: VersionOf(seen, i) == 0 || VersionOf(seen, i) == VersionOf(truth, i)
  }

  // With versions missing from its view, an instance that knows its own image still never
  // removes the truly newest one.
  lemma ScaleDownKeepsTrueNewest(seen: Versions, truth: Versions, members: set<Id>, self: Id, uptime: int, isLeader: bool)
    requires IsPartOf(seen, truth) && VersionOf(seen, self) == VersionOf(truth, self)
    requires self in members && CanTerminate(seen, members, self, uptime, isLeader)
    ensures forall v :: IsNewest(truth, members, v) <==> IsNewest(truth, members - {self}, v)
  {
    ScaleDownKeepsNewest(seen, members, self, uptime, isLeader);
    var other :| other in members - {self};
    if Recentness(seen, members, self) < 0 {
      var newer :| newer in members && VersionOf(seen, newer) > VersionOf(seen, self);
      assert newer in members - {self};
    } else {
      assert VersionOf(truth, other) >= VersionOf(truth, self);
    }
  }

  // Whatever the missing versions are, the newest image stays.
  ghost predicate KeepsNewestForAll(seen: Versions, members: set<Id>, self: Id) {
    forall truth: Versions :: IsPartOf(seen, truth) ==>
      forall v :: IsNewest(truth, members, v) <==> IsNewest(truth, members - {self}, v)
  }

  // An instance that decides to terminate can be sure of that exactly when it knows its own
  // version, or sees another instance at the greatest version there can be.
  lemma KeepsNewestForAllIff(seen: Versions, members: set<Id>, self: Id, uptime: int, isLeader: bool)
    requires self in members && CanTerminate(seen, members, self, uptime, isLeader)
    ensures KeepsNewestForAll(seen, members, self)
            <==> VersionOf(seen, self) != 0 || exists i <- members - {self} :: VersionOf(seen, i) == MAXINT
  {
    if VersionOf(seen, self) != 0 {
      forall truth: Versions | IsPartOf(seen, truth)
        ensures forall v :: IsNewest(truth, members, v) <==> IsNewest(truth, members - {self}, v)
      {
        ScaleDownKeepsTrueNewest(seen, truth, members, self, uptime, isLeader);
      }
    } else if i :| i in members - {self} && VersionOf(seen, i) == MAXINT {
      forall truth: Versions, v | IsPartOf(seen, truth)
        ensures IsNewest(truth, members, v) <==> IsNewest(truth, members - {self}, v)
      {
        assert VersionOf(truth, i) == MAXINT;
      }
    } else {
      var truth: Versions := seen[self := MAXINT];
      assert IsPartOf(seen, truth);
      assert IsNewest(truth, members, MAXINT) by { assert VersionOf(truth, self) == MAXINT; }
      assert forall j <- members - {self} :: VersionOf(truth, j) == VersionOf(seen, j);
      assert !IsNewest(truth, members - {self}, MAXINT);
    }
  }

  // Not so one whose own image is unknown to it: the only instance with the newest image may
  // decide to terminate.
  lemma UnknownOwnImageLosesNewest(a: Id, b: Id)
    requires a != b
    ensures var seen: Versions := map[b := 5];
            var truth: Versions := map[a := 9, b := 5];
            IsPartOf(seen, truth) && CanTerminate(seen, {a, b}, a, 90, false)
            && IsNewest(truth, {a, b}, 9) && !IsNewest(truth, {a, b} - {a}, 9)
  {
    var seen: Versions := map[b := 5];
    var truth: Versions := map[a := 9, b := 5];
    assert VersionOf(truth, a) == 9 && VersionOf(truth, b) == 5;
    assert |{a, b}| == 2;
    assert {a, b} - {a} == {b};
  }

  // ---------- The leader record ----------

  class DynConfig {
    // the table of configuration values, by record name
    var records: map<string, string>

    ghost function Leader(cluster: string): Option<Id>
      reads this
    {
      if Key(cluster) in records then Some(records[Key(cluster)]) else None
    }

    constructor ()
      ensures records == map[]
    {
      records := map[];
    }

    static function Key(cluster: string): string {
      cluster + ".leader"
    }

    // Each cluster has a record of its own.
    lemma KeysDiffer(cluster: string, other: string)
      requires cluster != other
      ensures Key(cluster) != Key(other)
    {
      assert Key(cluster)[..|Key(cluster)| - 7] == cluster && Key(other)[..|Key(other)| - 7] == other;
    }

    method SetClusterLeader(cluster: string, instance: Id)
      modifies this
      ensures Leader(cluster) == Some(instance)
      ensures forall other :: other != cluster ==> Leader(other) == old(Leader(other))
      ensures records - {Key(cluster)} == old(records) - {Key(cluster)}
    {
      forall other | other != cluster ensures Key(other) != Key(cluster) {
        KeysDiffer(cluster, other);
      }
      records := records[Key(cluster) := instance];
    }

    method UnsetClusterLeader(cluster: string)
      modifies this
      ensures Leader(cluster) == None
      ensures forall other :: other != cluster ==> Leader(other) == old(Leader(other))
      ensures records - {Key(cluster)} == old(records) - {Key(cluster)}
    {
      forall other | other != cluster ensures Key(other) != Key(cluster) {
        KeysDiffer(cluster, other);
      }
      if Key(cluster) in records {
        records := records - {Key(cluster)};
      }
    }

    method GetClusterLeader(cluster: string) returns (leader: Option<Id>)
      ensures leader == Leader(cluster)
    {
      leader := if Key(cluster) in records then Some(records[Key(cluster)]) else None;
    }

    // is_cluster_leader, as instance `self` evaluates it
    method IsClusterLeader(cluster: string, instances: seq<Id>, vers: Versions, self: Id) returns (isLeader: bool)
      modifies this
      ensures var members := set i <- instances;
              (Leader(cluster), isLeader) == Evaluate(old(Leader(cluster)), members, Recentness(vers, members, self), self)
      ensures isLeader <==>
                old(Leader(cluster)) == Some(self) && self in instances
                && !IsOutdated(vers, (set i <- instances), self)
      ensures forall other :: other != cluster ==> Leader(other) == old(Leader(other))
      ensures records - {Key(cluster)} == old(records) - {Key(cluster)}
    {
      var leader := GetClusterLeader(cluster);
      var recentness := GetImageRecentness(vers, instances, self);
      if leader.None? || (leader.value !in instances && recentness >= 0) {
        SetClusterLeader(cluster, self);
        return false;
      }
      isLeader := leader == Some(self);
      if recentness < 0 && isLeader {
        UnsetClusterLeader(cluster);
        return false;
      }
    }

    method IsProposedClusterLeader(cluster: string, self: Id) returns (proposed: bool)
      ensures proposed <==> Leader(cluster) == Some(self)
    {
      var leader := GetClusterLeader(cluster);
      proposed := leader == Some(self);
    }
  }

  // The new record and the answer. A missing record is taken over by anyone, the record of a
  // dead instance only by one that is not outdated.
  function Evaluate(record: Option<Id>, members: set<Id>, recentness: int, self: Id): (Option<Id>, bool) {
    if record.None? || (record.value !in members && recentness >= 0) then (Some(self), false)
    else if recentness < 0 && record.value == self then (None, false)
    else (record, record.value == self)
  }

  // ---------- Runs: at most one leader ----------

  // `latest` holds each live instance's most recent answer.
  datatype State = State(members: set<Id>, vers: Versions, record: Option<Id>, latest: map<Id, bool>)

  datatype Step =
    | Evaluates(self: Id)
    | Terminates(self: Id, uptime: int)
    | Joins(self: Id, version: Version)
    | Dies(self: Id)

  predicate Enabled(s: State, st: Step) {
    match st
    case Evaluates(i) => i in s.members
    case Terminates(i, uptime) => i in s.members && CanTerminate(s.vers, s.members, i, uptime, s.record == Some(i))
    case Joins(i, _) => i !in s.members && i !in s.vers  // instance ids are never reused
    case Dies(i) => i in s.members
  }

  function Next(s: State, st: Step): State
    requires Enabled(s, st)
  {
    match st
    case Evaluates(i) =>
      var (record, answer) := Evaluate(s.record, s.members, Recentness(s.vers, s.members, i), i);
      s.(record := record, latest := s.latest[i := answer])
    case Terminates(i, _) => s.(members := s.members - {i}, latest := s.latest - {i})
    case Joins(i, version) => s.(members := s.members + {i}, vers := s.vers[i := version])
    case Dies(i) => s.(members := s.members - {i}, latest := s.latest - {i})
  }

  ghost predicate LeaderInv(s: State) {
    s.latest.Keys <= s.members && forall i <- s.latest :: s.latest[i] ==> s.record == Some(i)
  }

  ghost predicate ValidRun(s: State, steps: seq<Step>)
    decreases |steps|
  {
    steps == [] || (Enabled(s, steps[0]) && ValidRun(Next(s, steps[0]), steps[1..]))
  }

  ghost function After(s: State, steps: seq<Step>): State
    requires ValidRun(s, steps)
    decreases |steps|
  {
    if steps == [] then s else After(Next(s, steps[0]), steps[1..])
  }

  // At most one live instance's latest answer is "I am the leader", and it is the recorded one.
  lemma {:induction false} AtMostOneLeader(s: State, steps: seq<Step>)
    requires LeaderInv(s) && ValidRun(s, steps)
    ensures var e := After(s, steps);
            && LeaderInv(e)
            && forall i, j :: i in e.latest && j in e.latest && e.latest[i] && e.latest[j] ==> i == j
    decreases |steps|
  {
    if steps != [] {
      AtMostOneLeader(Next(s, steps[0]), steps[1..]);
    }
  }

  // An instance that knows its own version and sees a newer one
  predicate IsOutdated(vers: Versions, members: set<Id>, i: Id) {
    VersionOf(vers, i) != 0 && exists j <- members :: VersionOf(vers, j) > VersionOf(vers, i)
  }

  // At step k, i evaluates while it is on record and not outdated, and it has neither evaluated
  // again nor left since.
  ghost predicate ToldAt(s: State, steps: seq<Step>, i: Id, k: nat) {
    && k < |steps| && steps[k] == Evaluates(i) && (forall m :: k < m < |steps| ==> !Concerns(steps[m], i))
    && ValidRun(s, steps[..k])
    && var e := After(s, steps[..k]); e.record == Some(i) && !IsOutdated(e.vers, e.members, i)
  }

  predicate Concerns(st: Step, i: Id) {
    st == Evaluates(i) || st == Dies(i) || (st.Terminates? && st.self == i)
  }

  lemma {:induction false} Split(s: State, steps: seq<Step>)
    requires ValidRun(s, steps) && steps != []
    ensures var front, last := steps[..|steps| - 1], steps[|steps| - 1];
            ValidRun(s, front) && Enabled(After(s, front), last) && After(s, steps) == Next(After(s, front), last)
    decreases |steps|
  {
    if |steps| > 1 {
      Split(Next(s, steps[0]), steps[1..]);
      assert steps[1..][..|steps| - 2] == steps[..|steps| - 1][1..];
    } else {
      assert steps[..0] == [];
    }
  }

  // In every run an instance's latest answer is that it leads if and only if it was on record
  // and not outdated when it gave it.
  lemma {:induction false} ToldToLeadIff(s: State, steps: seq<Step>, i: Id)
    requires ValidRun(s, steps) && s.latest == map[]
    ensures var e := After(s, steps); (i in e.latest && e.latest[i]) <==> exists k: nat :: ToldAt(s, steps, i, k)
    decreases |steps|
  {
    hide ToldAt;
    if steps == [] {
      assert forall k: nat :: !ToldAt(s, steps, i, k) by { NobodyTold(s, i); }
    } else {
      var n := |steps| - 1;
      Split(s, steps);
      ToldToLeadIff(s, steps[..n], i);
      forall k: nat ensures ToldAt(s, steps, i, k) <==>
                              if k == n then LeadsNow(After(s, steps[..n]), steps[n], i)
                              else !Concerns(steps[n], i) && ToldAt(s, steps[..n], i, k) {
        LastStep(s, steps, i, k);
      }
      StepTells(After(s, steps[..n]), steps[n], i);
      assert ToldAt(s, steps, i, n) <==> LeadsNow(After(s, steps[..n]), steps[n], i);
      if k: nat :| ToldAt(s, steps[..n], i, k) {
        ToldIsInRun(s, steps[..n], i, k);
        assert !Concerns(steps[n], i) ==> ToldAt(s, steps, i, k);
      }
    }
  }

  predicate LeadsNow(e: State, st: Step, i: Id) {
    st == Evaluates(i) && e.record == Some(i) && !IsOutdated(e.vers, e.members, i)
  }

  lemma NobodyTold(s: State, i: Id)
    ensures forall k: nat :: !ToldAt(s, [], i, k)
  {
  }

  lemma ToldIsInRun(s: State, steps: seq<Step>, i: Id, k: nat)
    requires ToldAt(s, steps, i, k)
    ensures k < |steps|
  {
  }

  lemma StepTells(e: State, st: Step, i: Id)
    requires Enabled(e, st)
    ensures var e' := Next(e, st);
            (i in e'.latest && e'.latest[i])
            <==> LeadsNow(e, st, i) || (!Concerns(st, i) && i in e.latest && e.latest[i])
  {
  }

  lemma LastStep(s: State, steps: seq<Step>, i: Id, k: nat)
    requires steps != [] && ValidRun(s, steps[..|steps| - 1])
    ensures ToldAt(s, steps, i, k) <==>
              if k == |steps| - 1 then LeadsNow(After(s, steps[..k]), steps[k], i)
              else !Concerns(steps[|steps| - 1], i) && ToldAt(s, steps[..|steps| - 1], i, k)
  {
    var n := |steps| - 1;
    assert k <= n ==> steps[..n][..k] == steps[..k];
    hide Enabled, IsOutdated, ValidRun, After;
    if k < n {
      assert (forall m :: k < m < |steps| ==> !Concerns(steps[m], i))
             <==> !Concerns(steps[n], i) && forall m :: k < m < n ==> !Concerns(steps[..n][m], i);
    }
  }

  predicate RecordIsLive(s: State) {
    s.record.Some? ==> s.record.value in s.members
  }

  // As long as instances leave only by deciding to, the cluster stays alive, never loses its
  // newest image, and never records a leader that is gone.
  lemma {:induction false} ScaleDownRunsAreSafe(s: State, steps: seq<Step>)
    requires s.members != {} && ValidRun(s, steps)
    requires forall st <- steps :: !st.Dies?
    ensures var e := After(s, steps);
            && e.members != {}
            && (RecordIsLive(s) ==> RecordIsLive(e))
            && (forall v :: IsNewest(s.vers, s.members, v) ==> exists i <- e.members :: VersionOf(e.vers, i) >= v)
    decreases |steps|
  {
    if steps != [] {
      var st, s' := steps[0], Next(s, steps[0]);
      if st.Terminates? {
        ScaleDownKeepsNewest(s.vers, s.members, st.self, st.uptime, s.record == Some(st.self));
      }
      ScaleDownRunsAreSafe(s', steps[1..]);
      var e := After(s, steps);
      forall v | IsNewest(s.vers, s.members, v) ensures exists i <- e.members :: VersionOf(e.vers, i) >= v {
        var top := SomeoneIsNotOld(s'.vers, s'.members);
        var w := VersionOf(s'.vers, top);
        assert IsNewest(s'.vers, s'.members, w);
        if st.Terminates? {
          assert IsNewest(s'.vers, s'.members, v);
        } else {
          var i :| i in s.members && VersionOf(s.vers, i) == v;
          assert i in s'.members && VersionOf(s'.vers, i) == v;
        }
      }
    }
  }

  // ---------- Convergence of the election ----------

  // The instances in the fixed order in which they evaluate, over and over.
  datatype Ring = Ring(order: seq<Id>, vers: Versions) {
    ghost predicate Valid() {
      |order| > 0 && forall i, j :: 0 <= i < j < |order| ==> order[i] != order[j]
    }

    function Members(): set<Id> {
      set i <- order
    }

    function Up(j: nat): nat
      requires j < |order|
    {
      if j + 1 == |order| then 0 else j + 1
    }

    // evaluations until it is k's turn, when it is j's turn now
    function Gap(j: nat, k: nat): nat
      requires j < |order| && k < |order|
    {
      if k >= j then k - j else k - j + |order|
    }

    predicate IsOld(j: nat)
      requires j < |order|
    {
      Recentness(vers, Members(), order[j]) < 0
    }

    // places from j to the next instance that is not outdated; `good` is one such place
    function Dist(j: nat, good: nat): (d: nat)
      requires j < |order| && good < |order| && !IsOld(good)
      ensures d <= Gap(j, good) < |order|
      ensures d == 0 <==> !IsOld(j)
      decreases Gap(j, good)
    {
      if !IsOld(j) then 0 else 1 + Dist(Up(j), good)
    }

    // one evaluation by the instance at place j
    function Turn(record: Option<Id>, j: nat): Option<Id>
      requires j < |order|
    {
      Evaluate(record, Members(), Recentness(vers, Members(), order[j]), order[j]).0
    }

    ghost predicate IsAt(record: Option<Id>, k: nat) {
      k < |order| && record == Some(order[k])
    }

    // The record names a live instance that is not outdated.
    ghost predicate IsSettled(record: Option<Id>) {
      exists k {:trigger IsAt(record, k)} :: IsAt(record, k) && !IsOld(k)
    }

    ghost function Place(id: Id): (k: nat)
      requires id in order
      ensures k < |order| && order[k] == id
    {
      var k :| 0 <= k < |order| && order[k] == id;
      k
    }

    // evaluations it takes d outdated leaders to hand over one after the other
    function Cost(d: nat): nat {
      if d == 0 then 0 else |order| + 1 + Cost(d - 1)
    }

    lemma CostStep(d: nat)
      ensures Cost(d + 1) == |order| + 1 + Cost(d) && Cost(0) == 0
    {
    }

    lemma {:induction false} CostIsProduct(d: nat)
      ensures Cost(d) == d * (|order| + 1)
    {
      if d > 0 {
        CostIsProduct(d - 1);
      }
    }

    lemma {:induction false} CostIsBounded(d: nat, k: nat)
      requires d + k < |order|
      ensures Cost(d) + 1 + k * (|order| + 1) <= |order| * |order|
    {
      CostIsProduct(d);
      var n := |order|;
      MulMono(d + k, n - 1, n + 1);
      assert (d + k) * (n + 1) == d * (n + 1) + k * (n + 1);
      assert (n - 1) * (n + 1) + 1 == n * n;
    }

    // How many evaluations the election still takes, when it is j's turn.
    ghost function Remaining(record: Option<Id>, j: nat, good: nat): nat
      requires j < |order| && good < |order| && !IsOld(good)
    {
      if record.None? then Cost(Dist(j, good)) + 1
      else if record.value !in order then Dist(j, good) + 1
      else
        var k := Place(record.value);
        if !IsOld(k) then 0 else Gap(j, k) + 1 + Cost(Dist(Up(k), good)) + 1
    }

    lemma PlaceIsUnique(k: nat)
      requires Valid() && k < |order|
      ensures order[k] in order && Place(order[k]) == k
    {
    }

    lemma SettledIsZero(record: Option<Id>, j: nat, good: nat)
      requires Valid() && j < |order| && good < |order| && !IsOld(good)
      ensures Remaining(record, j, good) == 0 <==> IsSettled(record)
    {
      if record.Some? && record.value in order {
        var k := Place(record.value);
        assert IsAt(record, k);
        if IsSettled(record) {
          var m: nat :| IsAt(record, m) && !IsOld(m);
          PlaceIsUnique(m);
        }
      }
    }

    // Every evaluation takes the election exactly one step further.
    lemma TurnAdvances(record: Option<Id>, j: nat, good: nat)
      requires Valid() && j < |order| && good < |order| && !IsOld(good)
      requires Remaining(record, j, good) > 0
      ensures Remaining(Turn(record, j), Up(j), good) == Remaining(record, j, good) - 1
    {
      hide Recentness, HasNewer, HasOlder, Cost;
      PlaceIsUnique(j);
      CostStep(0);
      var n := |order|;
      if record.None? {
        if IsOld(j) {
          assert Gap(Up(j), j) == n - 1;
          assert Dist(j, good) == 1 + Dist(Up(j), good);
          CostStep(Dist(Up(j), good));
        }
      } else if record.value in order {
        var k := Place(record.value);
        if k != j {
          assert Gap(Up(j), k) == Gap(j, k) - 1;
        }
      }
    }

    // A settled record is never changed again.
    lemma SettledStays(record: Option<Id>, j: nat)
      requires Valid() && j < |order| && IsSettled(record)
      ensures Turn(record, j) == record
    {
      var k: nat :| IsAt(record, k) && !IsOld(k);
    }

    lemma RemainingIsBounded(record: Option<Id>, j: nat, good: nat)
      requires Valid() && j < |order| && good < |order| && !IsOld(good)
      ensures Remaining(record, j, good) <= |order| * |order|
    {
      if record.None? {
        CostIsBounded(Dist(j, good), 0);
      } else if record.value in order {
        var k := Place(record.value);
        if IsOld(k) {
          assert Dist(k, good) == 1 + Dist(Up(k), good);
          CostIsBounded(Dist(Up(k), good), 1);
        }
      } else {
        MulMono(1, |order|, |order|);
      }
    }

    // The record after t evaluations, starting with the instance at place j.
    function RecordAfter(record: Option<Id>, j: nat, t: nat): Option<Id>
      requires j < |order|
      decreases t
    {
      if t == 0 then record else RecordAfter(Turn(record, j), Up(j), t - 1)
    }

    lemma {:induction false} SettlesOnTime(record: Option<Id>, j: nat, good: nat, t: nat)
      requires Valid() && j < |order| && good < |order| && !IsOld(good)
      ensures IsSettled(RecordAfter(record, j, t)) <==> t >= Remaining(record, j, good)
      ensures IsSettled(record) ==> RecordAfter(record, j, t) == record
      decreases t
    {
      SettledIsZero(record, j, good);
      if t > 0 {
        SettledIsZero(Turn(record, j), Up(j), good);
        if IsSettled(record) {
          SettledStays(record, j);
        } else {
          TurnAdvances(record, j, good);
        }
        SettlesOnTime(Turn(record, j), Up(j), good, t - 1);
      }
    }

    // From any record whatever, n rounds of evaluations by n instances settle the election on
    // a live instance whose image is not outdated, and it stays settled on that instance.
    lemma ElectionConverges(record: Option<Id>, j: nat, t: nat)
      requires Valid() && j < |order| && t >= |order| * |order|
      ensures IsSettled(RecordAfter(record, j, t))
      ensures RecordAfter(record, j, t) == RecordAfter(record, j, |order| * |order|)
    {
      assert order[0] in Members();
      var top := SomeoneIsNotOld(vers, Members());
      var good := Place(top);
      RemainingIsBounded(record, j, good);
      var n2 := |order| * |order|;
      SettlesOnTime(record, j, good, n2);
      SettlesOnTime(record, j, good, t);
      AfterSplits(record, j, n2, t - n2);
      SettlesOnTime(RecordAfter(record, j, n2), TurnAt(j, n2), good, t - n2);
    }

    function TurnAt(j: nat, t: nat): nat
      requires j < |order|
      ensures TurnAt(j, t) < |order|
      decreases t
    {
      if t == 0 then j else TurnAt(Up(j), t - 1)
    }

    lemma {:induction false} TurnsGoRound(j: nat, t: nat)
      requires j < |order|
      ensures TurnAt(j, t) == (j + t) % |order|
      decreases t
    {
      if t > 0 {
        TurnsGoRound(Up(j), t - 1);
        if j + 1 == |order| {
          ModShift(t - 1, |order|);
        }
      }
    }

    // The answer that the evaluation after t others gives
    function AnswerAt(record: Option<Id>, j: nat, t: nat): bool
      requires j < |order|
    {
      var k := TurnAt(j, t);
      Evaluate(RecordAfter(record, j, t), Members(), Recentness(vers, Members(), order[k]), order[k]).1
    }

    // Once the election is over there is exactly one leader: in every round its instance, and
    // no other, is told that it leads.
    lemma ExactlyOneLeads(record: Option<Id>, j: nat) returns (leader: nat)
      requires Valid() && j < |order|
      ensures leader < |order| && !IsOld(leader)
      ensures forall t :: t >= |order| * |order| ==>
                (AnswerAt(record, j, t) <==> (j + t) % |order| == leader)
    {
      var n2 := |order| * |order|;
      ElectionConverges(record, j, n2);
      leader :| IsAt(RecordAfter(record, j, n2), leader) && !IsOld(leader);
      forall t | t >= n2 ensures AnswerAt(record, j, t) <==> (j + t) % |order| == leader {
        ElectionConverges(record, j, t);
        TurnsGoRound(j, t);
        assert order[leader] in Members();
      }
    }

    lemma {:induction false} AfterSplits(record: Option<Id>, j: nat, t: nat, u: nat)
      requires j < |order|
      ensures RecordAfter(record, j, t + u) == RecordAfter(RecordAfter(record, j, t), TurnAt(j, t), u)
      decreases t
    {
      if t > 0 {
        AfterSplits(Turn(record, j), Up(j), t - 1, u);
      }
    }
  }

  lemma ModShift(x: nat, n: nat)
    requires n > 0
    ensures (x + n) % n == x % n
  {
    var q := x / n;
    assert x + n == n * (q + 1) + x % n;
    ModIs(x + n, n, q + 1, x % n);
  }

  lemma ModIs(x: nat, n: nat, q: nat, m: nat)
    requires m < n && x == n * q + m
    ensures x % n == m
  {
    assert x == n * (x / n) + x % n;
    if q > x / n {
      MulMono(x / n + 1, q, n);
      assert false;
    }
    if q < x / n {
      MulMono(q + 1, x / n, n);
      assert false;
    }
  }

  lemma MulMono(a: int, b: int, c: int)
    requires a <= b && 0 <= c
    ensures a * c <= b * c
  {
  }

  // The bound of n rounds is met: when all but one of the instances are outdated and nobody is
  // recorded, the election takes exactly n * n evaluations.
  lemma BoundIsTight(ring: Ring, t: nat)
    requires ring.Valid()
    requires forall j: nat :: j < |ring.order| ==> (ring.IsOld(j) <==> j != |ring.order| - 1)
    ensures ring.IsSettled(ring.RecordAfter(None, 0, t)) <==> t >= |ring.order| * |ring.order|
  {
    var n := |ring.order|;
    DistToLast(ring, 0);
    ring.CostIsProduct(n - 1);
    assert (n - 1) * (n + 1) + 1 == n * n;
    ring.SettlesOnTime(None, 0, n - 1, t);
  }

  lemma {:induction false} DistToLast(ring: Ring, j: nat)
    requires ring.Valid() && j < |ring.order|
    requires forall i: nat :: i < |ring.order| ==> (ring.IsOld(i) <==> i != |ring.order| - 1)
    ensures ring.Dist(j, |ring.order| - 1) == |ring.order| - 1 - j
    decreases |ring.order| - j
  {
    if j < |ring.order| - 1 {
      DistToLast(ring, j + 1);
    }
  }
}
