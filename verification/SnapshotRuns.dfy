/**
 What housekeeping and attachment come to over whole runs, told from the steps alone: when a
 volume is given up, and what a user finds on the disk
 (engine/src/juliabox/plugins/vol_ebs/ebs_housekeep.py, ebs.py, disk_state_tbl.py).
 */
module SnapshotRuns {
  import opened Basics
  import opened Snapshots

  // ---------- When a volume goes ----------

  // The time of the user's last release
  function LastRelease(steps: seq<Step>, u: User): Option<int> {
    if steps == [] then None
    else
      var last := steps[|steps| - 1];
      if last.Release? && last.user == u then Some(last.now) else LastRelease(steps[..|steps| - 1], u)
  }

  // Whose session each snapshot was taken of
  function Backups(steps: seq<Step>): seq<User> {
    if steps == [] then []
    else
      var last := steps[|steps| - 1];
      Backups(steps[..|steps| - 1]) + if last.Release? && last.backup then [last.user] else []
  }

  // Every snapshot taken of the user's sessions has completed.
  predicate AllComplete(steps: seq<Step>, u: User) {
    forall id: nat :: id < |Backups(steps)| && Backups(steps)[id] == u ==> Complete(id) in steps
  }

  // What the state has recorded of the steps
  ghost predicate IsHistory(s: World, steps: seq<Step>) {
    && |s.snaps| == |Backups(steps)| && (forall id :: 0 <= id < |s.snaps| ==> s.snaps[id].user == Backups(steps)[id])
    && (forall id: nat :: id in s.done <==> Complete(id) in steps)
    && s.deleted <= s.done
    && (forall u <- s.disks :: s.disks[u].phase.Detached? ==> LastRelease(steps, u) == Some(s.disks[u].detachedAt))
  }

  lemma DeletedAreDone(s: World, u: User, now: int)
    requires Inv(s) && Enabled(s, Housekeep(u, now)) && s.deleted <= s.done
    ensures Next(s, Housekeep(u, now)).deleted <= s.done
  {
    hide Completed, Superseded, Incomplete;
    var listed := s.disks[u].listed;
    assert listed[..|listed|] == listed;
    SupersededMeans(s, u, |listed|);
  }

  lemma StepIsRecorded(s: World, front: seq<Step>, st: Step)
    requires Inv(s) && Enabled(s, st) && IsHistory(s, front)
    ensures IsHistory(Next(s, st), front + [st])
  {
    hide Completed, Superseded, Incomplete, Adopted, Source, Inv;
    var steps := front + [st];
    assert steps[..|steps| - 1] == front;
    if st.Housekeep? {
      DeletedAreDone(s, st.user, st.now);
    }
  }

  lemma {:induction false} RunIsRecorded(steps: seq<Step>)
    requires IsRun(EMPTY, steps)
    ensures Inv(After(EMPTY, steps)) && IsHistory(After(EMPTY, steps), steps)
    decreases |steps|
  {
    hide Inv, Next, Enabled, IsHistory;
    EverySnapshotIsSomewhere(steps);
    if steps == [] {
      NothingRecorded();
    } else {
      var front := steps[..|steps| - 1];
      RunIsRecorded(front);
      StepIsRecorded(After(EMPTY, front), front, steps[|steps| - 1]);
      assert front + [steps[|steps| - 1]] == steps;
    }
  }

  lemma NothingRecorded()
    ensures IsHistory(EMPTY, [])
  {
  }

  // In every run a volume goes if and only if it is housekeeping's turn with its user, all
  // snapshots ever taken of that user's sessions have completed, and the user's last release
  // was more than 24 hours ago.
  lemma VolumeGoesIff(steps: seq<Step>, st: Step, u: User)
    requires IsRun(EMPTY, steps) && Enabled(After(EMPTY, steps), st) && u in After(EMPTY, steps).disks
    ensures u !in Next(After(EMPTY, steps), st).disks
            <==> st.Housekeep? && st.user == u && AllComplete(steps, u)
                 && LastRelease(steps, u).Some? && st.now - LastRelease(steps, u).value > 24 * 60 * 60
  {
    hide Completed, Superseded, Incomplete, Adopted, Source, Inv;
    var s := After(EMPTY, steps);
    RunIsRecorded(steps);
    if st.Housekeep? && st.user == u {
      FilterMeans(s.disks[u].listed, s.done);
      ListedOrDone(s, u);
      assert AllComplete(steps, u) <==> forall id: nat :: id < |s.snaps| && s.snaps[id].user == u ==> id in s.done;
      NothingListed(s, u);
    }
  }

  // The snapshots of a user that are not complete are those listed that are not.
  lemma ListedOrDone(s: World, u: User)
    requires Inv(s) && s.deleted <= s.done && u in s.disks
    ensures forall id: nat :: id < |s.snaps| && s.snaps[id].user == u && id !in s.done ==> id in s.disks[u].listed
    ensures forall id <- s.disks[u].listed :: id < |s.snaps| && s.snaps[id].user == u
  {
    forall id: nat | id < |s.snaps| && s.snaps[id].user == u && id !in s.done ensures id in s.disks[u].listed {
      assert IsSomewhere(s, id);
    }
    forall id | id in s.disks[u].listed ensures id < |s.snaps| && s.snaps[id].user == u {
      assert IsOwn(s, id, u);
    }
  }

  lemma NothingListed(s: World, u: User)
    requires u in s.disks
    ensures Incomplete(s.disks[u].listed, s.done) == [] <==> forall id <- s.disks[u].listed :: id in s.done
  {
    var listed := s.disks[u].listed;
    FilterMeans(listed, s.done);
    if Incomplete(listed, s.done) != [] {
      assert Incomplete(listed, s.done)[0] in Incomplete(listed, s.done);
    }
  }

  // Whether the user's last session has been released
  predicate IsReleased(steps: seq<Step>, u: User) {
    steps != []
    && match steps[|steps| - 1]
       case GetDisk(v, _) => v != u && IsReleased(steps[..|steps| - 1], u)
       case Release(v, _, _) => v == u || IsReleased(steps[..|steps| - 1], u)
       case _ => IsReleased(steps[..|steps| - 1], u)
  }

  // In every run a user's volume is attached during sessions, and housekeeping's in between.
  lemma {:induction false} DetachedIffReleased(steps: seq<Step>, u: User)
    requires IsRun(EMPTY, steps) && u in After(EMPTY, steps).disks
    ensures After(EMPTY, steps).disks[u].phase.Detached? <==> IsReleased(steps, u)
    decreases |steps|
  {
    hide Completed, Superseded, Incomplete, Adopted, Source;
    if steps != [] {
      var front := steps[..|steps| - 1];
      if u in After(EMPTY, front).disks {
        DetachedIffReleased(front, u);
      }
    }
  }

  // ---------- One pass over many disks ----------

  // What concerns one user
  ghost predicate LooksAlike(s: World, s': World, u: User) {
    && StoredFor(s, u) == StoredFor(s', u) && (u in s.disks <==> u in s'.disks)
    && (u in s.disks ==> s.disks[u] == s'.disks[u])
    && s.done == s'.done && s.snaps == s'.snaps
  }

  lemma TurnOfAnother(s: World, u: User, v: User, now: int)
    requires Enabled(s, Housekeep(v, now)) && u != v
    ensures LooksAlike(Next(s, Housekeep(v, now)), s, u)
  {
    hide Completed, Superseded, Incomplete;
  }

  lemma SameTurn(s: World, s': World, u: User, now: int)
    requires LooksAlike(s, s', u) && Enabled(s, Housekeep(u, now)) && Enabled(s', Housekeep(u, now))
    ensures LooksAlike(Next(s, Housekeep(u, now)), Next(s', Housekeep(u, now)), u)
  {
    hide Completed, Superseded, Incomplete;
  }

  // A pass does to each of the disks what housekeeping of it alone would do, and nothing to
  // others.
  lemma {:induction false} PassTreatsEachAlone(s: World, users: seq<User>, now: int, u: User)
    requires NoDup(users) && forall v <- users :: Enabled(s, Housekeep(v, now))
    ensures u in users ==> LooksAlike(Pass(s, users, now), Next(s, Housekeep(u, now)), u)
    ensures u !in users ==> LooksAlike(Pass(s, users, now), s, u)
  {
    hide Next, Enabled, LooksAlike;
    if users == [] {
      assert LooksAlike(s, s, u) by { AlikeItself(s, u); }
    } else {
      var n := |users| - 1;
      var front, last := users[..n], users[n];
      assert forall v :: v in users <==> v in front || v == last;
      assert last !in front;
      PassTreatsEachAlone(s, front, now, u);
      PassTreatsEachAlone(s, front, now, last);
      var p := Pass(s, front, now);
      StillEnabled(s, p, last, now);
      if u == last {
        SameTurn(p, s, u, now);
      } else {
        TurnOfAnother(p, u, last, now);
        AlikeOn(Pass(s, users, now), p, if u in front then Next(s, Housekeep(u, now)) else s, u);
      }
    }
  }

  lemma AlikeItself(s: World, u: User)
    ensures LooksAlike(s, s, u)
  {
  }

  lemma AlikeOn(a: World, b: World, c: World, u: User)
    requires LooksAlike(a, b, u) && LooksAlike(b, c, u)
    ensures LooksAlike(a, c, u)
  {
  }

  lemma StillEnabled(s: World, p: World, u: User, now: int)
    requires LooksAlike(p, s, u) && Enabled(s, Housekeep(u, now))
    ensures Enabled(p, Housekeep(u, now))
  {
  }

  // ---------- What a user finds ----------

  // One disk that is made from a template when first asked for, and then only written to
  function OneDisk(steps: seq<Step>, u: User): Option<Data> {
    if steps == [] then None
    else
      var before := OneDisk(steps[..|steps| - 1], u);
      match steps[|steps| - 1]
      case GetDisk(v, template) => if v == u && before.None? then Some(template) else before
      case Write(v, data) => if v == u then Some(data) else before
      case _ => before
  }

  // In every orderly run each user finds on the disk exactly what would be on one private disk,
  // through all releases, snapshots, volumes given up and volumes made anew.
  lemma {:induction false} LooksLikeOneDisk(steps: seq<Step>, u: User)
    requires IsRun(EMPTY, steps) && IsOrderly(steps)
    ensures var s := After(EMPTY, steps);
            OneDisk(steps, u) == if u in s.disks then Some(s.disks[u].data) else LeftBy(steps, u)
    decreases |steps|
  {
    if steps != [] {
      hide Completed, Superseded, Incomplete, Adopted, Source, IsOrderly;
      var front, last := steps[..|steps| - 1], steps[|steps| - 1];
      assert IsOrderly(front) by { OrderlyFront(steps); }
      LooksLikeOneDisk(front, u);
      LatestHoldsWhatWasLeft(front, u);
      if last.GetDisk? && last.user == u && u !in After(EMPTY, front).disks {
        SessionsResume(front, u, last.template);
      }
    }
  }

  lemma OrderlyFront(steps: seq<Step>)
    requires IsRun(EMPTY, steps) && IsOrderly(steps) && steps != []
    ensures IsOrderly(steps[..|steps| - 1])
  {
  }
}
