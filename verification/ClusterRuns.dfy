/**
 What election and scale-down come to over whole runs of a cluster: evaluations in turn end
 with one leader that knows it, and outdated instances give way to newer ones
 (engine/src/juliabox/db/__init__.py, plugins/compute_ec2/impl_ec2.py).
 */
module ClusterRuns {
  import opened Basics
  import opened Cluster

  // ---------- The election as a run ----------

  // t evaluations in turn, beginning with the instance at place j
  function Turns(ring: Ring, j: nat, t: nat): seq<Step>
    requires j < |ring.order|
    decreases t
  {
    if t == 0 then [] else [Evaluates(ring.order[j])] + Turns(ring, ring.Up(j), t - 1)
  }

  ghost predicate IsRingOf(ring: Ring, s: State) {
    ring.Valid() && s.members == ring.Members() && s.vers == ring.vers
  }

  lemma {:induction false} TurnsAreRun(ring: Ring, s: State, j: nat, t: nat)
    requires IsRingOf(ring, s) && j < |ring.order|
    ensures ValidRun(s, Turns(ring, j, t)) && IsRingOf(ring, After(s, Turns(ring, j, t)))
    ensures After(s, Turns(ring, j, t)).record == ring.RecordAfter(s.record, j, t)
    decreases t
  {
    if t > 0 {
      var steps := Turns(ring, j, t);
      assert steps[1..] == Turns(ring, ring.Up(j), t - 1);
      assert ring.order[j] in ring.Members();
      TurnsAreRun(ring, Next(s, steps[0]), ring.Up(j), t - 1);
    }
  }

  lemma TurnKeepsRing(ring: Ring, s: State, j: nat)
    requires IsRingOf(ring, s) && j < |ring.order|
    ensures Enabled(s, Evaluates(ring.order[j])) && IsRingOf(ring, Next(s, Evaluates(ring.order[j])))
  {
    assert ring.order[j] in ring.Members();
  }

  lemma {:induction false} TurnsSplit(ring: Ring, s: State, j: nat, t: nat, u: nat)
    requires IsRingOf(ring, s) && j < |ring.order|
    ensures ValidRun(s, Turns(ring, j, t)) && ValidRun(s, Turns(ring, j, t + u))
    ensures ValidRun(After(s, Turns(ring, j, t)), Turns(ring, ring.TurnAt(j, t), u))
    ensures After(s, Turns(ring, j, t + u)) == After(After(s, Turns(ring, j, t)), Turns(ring, ring.TurnAt(j, t), u))
    decreases t
  {
    hide Next, Enabled, IsRingOf;
    TurnsAreRun(ring, s, j, t);
    TurnsAreRun(ring, s, j, t + u);
    TurnsAreRun(ring, After(s, Turns(ring, j, t)), ring.TurnAt(j, t), u);
    if t > 0 {
      TurnKeepsRing(ring, s, j);
      var s' := Next(s, Evaluates(ring.order[j]));
      assert Turns(ring, j, t)[1..] == Turns(ring, ring.Up(j), t - 1);
      assert Turns(ring, j, t + u)[1..] == Turns(ring, ring.Up(j), t - 1 + u);
      TurnsSplit(ring, s', ring.Up(j), t - 1, u);
    }
  }

  ghost predicate KnowsLeader(s: State, i: Id, leader: Id) {
    i in s.latest && (s.latest[i] <==> i == leader)
  }

  // With the election settled, whoever evaluates knows who leads, and stays right about it.
  lemma {:induction false} SettledTurns(ring: Ring, s: State, j: nat, u: nat, k: nat)
    requires IsRingOf(ring, s) && j < |ring.order| && ring.IsAt(s.record, k) && !ring.IsOld(k)
    ensures var e := After(s, (TurnsAreRun(ring, s, j, u); Turns(ring, j, u)));
            && e.record == s.record
            && (forall i :: KnowsLeader(s, i, ring.order[k]) ==> KnowsLeader(e, i, ring.order[k]))
            && (forall v :: 0 <= v < u ==> KnowsLeader(e, ring.order[ring.TurnAt(j, v)], ring.order[k]))
    decreases u
  {
    TurnsAreRun(ring, s, j, u);
    if u > 0 {
      var s' := Next(s, Evaluates(ring.order[j]));
      assert Turns(ring, j, u)[1..] == Turns(ring, ring.Up(j), u - 1);
      assert ring.order[k] in ring.Members();
      SettledTurns(ring, s', ring.Up(j), u - 1, k);
      TurnsAreRun(ring, s', ring.Up(j), u - 1);
      var e := After(s, Turns(ring, j, u));
      assert KnowsLeader(s', ring.order[j], ring.order[k]);
      forall v | 0 <= v < u ensures KnowsLeader(e, ring.order[ring.TurnAt(j, v)], ring.order[k]) {
        if v > 0 {
          assert ring.TurnAt(j, v) == ring.TurnAt(ring.Up(j), v - 1);
        }
      }
    }
  }

  lemma EveryoneHasATurn(ring: Ring, j: nat, m: nat) returns (v: nat)
    requires j < |ring.order| && m < |ring.order|
    ensures v < |ring.order| && ring.TurnAt(j, v) == m
  {
    v := ring.Gap(j, m);
    ring.TurnsGoRound(j, v);
    var n := |ring.order|;
    ModIs(m, n, 0, m);
    ModIs(m + n, n, 1, m);
    assert j + v == m || j + v == m + n;
  }

  // From any state whatever, n rounds of evaluations in turn and one more end with exactly one
  // instance that holds itself to be the leader. It is alive, on record and not outdated, and
  // all others know that they do not lead.
  lemma OneLeaderInTheEnd(ring: Ring, s: State, j: nat, t: nat) returns (leader: Id)
    requires IsRingOf(ring, s) && j < |ring.order| && t >= |ring.order| * |ring.order| + |ring.order|
    ensures ValidRun(s, Turns(ring, j, t))
    ensures var e := After(s, Turns(ring, j, t));
            && e.record == Some(leader) && leader in s.members && !IsOutdated(s.vers, s.members, leader)
            && forall i <- s.members :: i in e.latest && (e.latest[i] <==> i == leader)
  {
    var n := |ring.order|;
    var t0 := t - n;
    TurnsSplit(ring, s, j, t0, n);
    TurnsAreRun(ring, s, j, t0);
    ring.ElectionConverges(s.record, j, t0);
    var mid := After(s, Turns(ring, j, t0));
    var k: nat :| ring.IsAt(mid.record, k) && !ring.IsOld(k);
    leader := ring.order[k];
    assert leader in ring.Members();
    var j' := ring.TurnAt(j, t0);
    SettledTurns(ring, mid, j', n, k);
    var e := After(s, Turns(ring, j, t));
    forall i | i in s.members ensures KnowsLeader(e, i, leader) {
      var m :| 0 <= m < n && ring.order[m] == i;
      var v := EveryoneHasATurn(ring, j', m);
      assert KnowsLeader(e, ring.order[ring.TurnAt(j', v)], leader);
    }
  }

  // ---------- Scale-down ----------

  // An instance may go after an hour and a half if it does not lead and is outdated, or if all
  // others run the same image (or its own is unknown) and it is not the only one.
  lemma WhoMayGo(vers: Versions, members: set<Id>, self: Id, uptime: int, isLeader: bool)
    requires self in members
    ensures CanTerminate(vers, members, self, uptime, isLeader)
            <==> uptime >= 90 && !isLeader
                 && (IsOutdated(vers, members, self)
                     || (members != {self}
                         && (VersionOf(vers, self) == 0
                             || forall i <- members :: VersionOf(vers, i) == VersionOf(vers, self))))
  {
    if members != {self} {
      OthersCount(members, self);
    }
  }

  lemma OthersCount(members: set<Id>, self: Id)
    requires self in members && members != {self}
    ensures |members| != 1
  {
    assert members == {self} + (members - {self});
    var other :| other in members - {self};
    assert |members| == |members - {self}| + 1 && |members - {self}| == |members - {self} - {other}| + 1;
  }

  function Outdated(s: State): set<Id> {
    set i | i in s.members && IsOutdated(s.vers, s.members, i)
  }

  // An upgrade can be completed: once an instance that is not outdated leads, the outdated ones
  // can all go, in any order, and leave exactly the others.
  lemma {:induction false} UpgradeCompletes(s: State, todo: seq<Id>, uptime: int)
    requires uptime >= 90 && s.record.Some? && s.record.value in s.members && s.record.value !in Outdated(s)
    requires NoDup(todo) && forall i :: i in todo <==> i in Outdated(s)
    ensures var steps := seq(|todo|, k requires 0 <= k < |todo| => Terminates(todo[k], uptime));
            && ValidRun(s, steps)
            && After(s, steps).members == s.members - Outdated(s)
            && Outdated(After(s, steps)) == {}
    decreases |todo|
  {
    var steps := seq(|todo|, k requires 0 <= k < |todo| => Terminates(todo[k], uptime));
    if todo == [] {
      assert Outdated(s) == {};
    } else {
      var i := todo[0];
      assert i in todo && i in Outdated(s);
      WhoMayGo(s.vers, s.members, i, uptime, s.record == Some(i));
      var s' := Next(s, steps[0]);
      StillOutdated(s, i);
      assert s'.members == s.members - {i} && s'.vers == s.vers && Outdated(s') == Outdated(s) - {i};
      var rest := todo[1..];
      assert forall x :: x in todo <==> x == i || x in rest;
      assert i !in rest;
      UpgradeCompletes(s', rest, uptime);
      assert steps[1..] == seq(|rest|, k requires 0 <= k < |rest| => Terminates(rest[k], uptime));
    }
  }

  // Without one outdated instance the others are as outdated as before.
  lemma StillOutdated(s: State, i: Id)
    requires i in Outdated(s)
    ensures forall j <- s.members :: j != i ==>
              (IsOutdated(s.vers, s.members - {i}, j) <==> IsOutdated(s.vers, s.members, j))
  {
    var top := SomeoneIsNotOld(s.vers, s.members);
    assert top != i && top in s.members - {i};
  }

  // ---------- Membership ----------

  // Told from the steps: who is there, and with which image
  predicate IsMember(s: State, steps: seq<Step>, i: Id) {
    if steps == [] then i in s.members
    else
      match steps[|steps| - 1]
      case Joins(j, _) => i == j || IsMember(s, steps[..|steps| - 1], i)
      case Terminates(j, _) => i != j && IsMember(s, steps[..|steps| - 1], i)
      case Dies(j) => i != j && IsMember(s, steps[..|steps| - 1], i)
      case Evaluates(_) => IsMember(s, steps[..|steps| - 1], i)
  }

  function ImageOf(s: State, steps: seq<Step>, i: Id): Version {
    if steps == [] then VersionOf(s.vers, i)
    else
      match steps[|steps| - 1]
      case Joins(j, version) => if i == j then version else ImageOf(s, steps[..|steps| - 1], i)
      case _ => ImageOf(s, steps[..|steps| - 1], i)
  }

  lemma {:induction false} MembersFollowSteps(s: State, steps: seq<Step>, i: Id)
    requires ValidRun(s, steps)
    ensures i in After(s, steps).members <==> IsMember(s, steps, i)
    ensures VersionOf(After(s, steps).vers, i) == ImageOf(s, steps, i)
    decreases |steps|
  {
    if steps != [] {
      Split(s, steps);
      MembersFollowSteps(s, steps[..|steps| - 1], i);
    }
  }
}
