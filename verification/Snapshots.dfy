/**
 Snapshots of EBS volumes: how a user's disk is attached, released, backed up by a snapshot
 that completes some time later, and how housekeeping rotates the snapshots and gives up
 volumes that are no longer used (engine/src/juliabox/plugins/vol_ebs/ebs_housekeep.py,
 ebs.py, disk_state_tbl.py). A snapshot's id is its position among all snapshots ever taken,
 so ids are fresh and grow with time.
 */
module Snapshots {
  import opened Basics

  type User = string
  type Data = string
  type Snap = nat

  const KEEP_SECS: int := 24 * 60 * 60

  datatype Phase = Attaching | Detached

  // A record of the disk state table, with what is on the volume that it names.
  datatype Disk = Disk(phase: Phase, listed: seq<Snap>, detachedAt: int, data: Data)
  datatype Taken = Taken(user: User, data: Data)

  // `stored` is the snapshot id in the users' session properties. The other fields are
  // EC2's: the snapshots ever taken, those that have completed, those deleted.
  datatype World = World(
    disks: map<User, Disk>, stored: map<User, Snap>,
    snaps: seq<Taken>, done: set<Snap>, deleted: set<Snap>)

  datatype Step =
    | GetDisk(user: User, template: Data)
    | Write(user: User, data: Data)
    | Release(user: User, backup: bool, now: int)
    | Complete(snap: Snap)
    | Housekeep(user: User, now: int)

  function Completed(listed: seq<Snap>, done: set<Snap>): seq<Snap> {
    if listed == [] then []
    else
      var last := |listed| - 1;
      var r := Completed(listed[..last], done);
      if listed[last] in done then r + [listed[last]] else r
  }

  function Incomplete(listed: seq<Snap>, done: set<Snap>): seq<Snap> {
    if listed == [] then []
    else
      var last := |listed| - 1;
      var r := Incomplete(listed[..last], done);
      if listed[last] in done then r else r + [listed[last]]
  }

  function StoredFor(s: World, u: User): Option<Snap> {
    if u in s.stored then Some(s.stored[u]) else None
  }

  // The snapshot stored once `completed` have been adopted one after the other
  function Adopted(stored: Option<Snap>, completed: seq<Snap>): Option<Snap> {
    if completed == [] then stored else Some(completed[|completed| - 1])
  }

  // and those deleted on the way.
  function Superseded(stored: Option<Snap>, completed: seq<Snap>): set<Snap> {
    if completed == [] then {}
    else (if stored.Some? then {stored.value} else {}) + set i | 0 <= i < |completed| - 1 :: completed[i]
  }

  function WithStored(m: map<User, Snap>, u: User, stored: Option<Snap>): map<User, Snap> {
    if stored.Some? then m[u := stored.value] else m
  }

  predicate IsUnused(d: Disk, now: int) {
    now - d.detachedAt > KEEP_SECS
  }

  predicate Enabled(s: World, st: Step) {
    match st
    case GetDisk(u, _) => true
    case Write(u, _) => u in s.disks && s.disks[u].phase.Attaching?
    case Release(u, _, _) => u in s.disks && s.disks[u].phase.Attaching?
    case Complete(snap) => snap < |s.snaps|
    case Housekeep(u, _) => u in s.disks && s.disks[u].phase.Detached?
  }

  // What a new volume is created from
  function Source(s: World, u: User, template: Data): Data {
    if u in s.stored && s.stored[u] < |s.snaps| then s.snaps[s.stored[u]].data else template
  }

  function Next(s: World, st: Step): World
    requires Enabled(s, st)
  {
    match st
    case GetDisk(u, template) =>
      var d := if u in s.disks then s.disks[u].(phase := Attaching)
               else Disk(Attaching, [], 0, Source(s, u, template));
      s.(disks := s.disks[u := d])
    case Write(u, data) => s.(disks := s.disks[u := s.disks[u].(data := data)])
    case Release(u, backup, now) =>
      var d := s.disks[u].(phase := Detached, detachedAt := now);
      if backup then
        s.(disks := s.disks[u := d.(listed := d.listed + [|s.snaps|])], snaps := s.snaps + [Taken(u, d.data)])
      else
        s.(disks := s.disks[u := d])
    case Complete(snap) => s.(done := s.done + {snap})
    case Housekeep(u, now) =>
      var d := s.disks[u];
      var completed, incomplete := Completed(d.listed, s.done), Incomplete(d.listed, s.done);
      s.(stored := WithStored(s.stored, u, Adopted(StoredFor(s, u), completed)),
         deleted := s.deleted + Superseded(StoredFor(s, u), completed),
         disks := if incomplete == [] && IsUnused(d, now) then s.disks - {u}
                  else s.disks[u := d.(listed := incomplete)])
  }

  // Runs; the state after a run is that of its last step.
  predicate IsRun(s: World, steps: seq<Step>)
    decreases |steps|, 0
  {
    steps == [] ||
    var last := |steps| - 1;
    IsRun(s, steps[..last]) && Enabled(After(s, steps[..last]), steps[last])
  }

  function After(s: World, steps: seq<Step>): World
    requires IsRun(s, steps)
    decreases |steps|, 1
  {
    if steps == [] then s
    else
      var last := |steps| - 1;
      Next(After(s, steps[..last]), steps[last])
  }

  // One pass of housekeeping over several disks
  function Pass(s: World, users: seq<User>, now: int): World {
    if users == [] then s
    else
      var p := Pass(s, users[..|users| - 1], now);
      var st := Housekeep(users[|users| - 1], now);
      if Enabled(p, st) then Next(p, st) else p
  }

  const EMPTY := World(map[], map[], [], {}, {})

  // ---------- Conservation ----------

  ghost predicate Increasing(listed: seq<Snap>) {
    forall i, j :: 0 <= i < j < |listed| ==> listed[i] < listed[j]
  }

  predicate IsOwn(s: World, id: Snap, u: User) {
    id < |s.snaps| && s.snaps[id].user == u
  }

  predicate IsStored(s: World, id: Snap) {
    exists u <- s.stored :: s.stored[u] == id
  }

  predicate IsListed(s: World, id: Snap) {
    exists u <- s.disks :: id in s.disks[u].listed
  }

  predicate IsSomewhere(s: World, id: Snap) {
    && (IsStored(s, id) || IsListed(s, id) || id in s.deleted)
    && !(IsStored(s, id) && IsListed(s, id))
    && !(IsStored(s, id) && id in s.deleted)
    && !(IsListed(s, id) && id in s.deleted)
  }

  ghost predicate Inv(s: World) {
    && (forall id: nat :: id < |s.snaps| ==> IsSomewhere(s, id))
    && (forall u <- s.stored :: IsOwn(s, s.stored[u], u) && s.stored[u] in s.done)
    && (forall u <- s.disks :: Increasing(s.disks[u].listed) && forall id <- s.disks[u].listed :: IsOwn(s, id, u))
    && (forall id <- s.deleted :: id < |s.snaps|)
  }

  // ---------- The implementation ----------

  class EBSVolumes {
    var disks: map<User, Disk>
    var stored: map<User, Snap>
    var snaps: seq<Taken>
    var done: set<Snap>
    var deleted: set<Snap>

    ghost function State(): World
      reads this
    {
      World(disks, stored, snaps, done, deleted)
    }

    constructor ()
      ensures State() == EMPTY
    {
      disks, stored, snaps, done, deleted := map[], map[], [], {}, {};
    }

    // EC2 raises for a snapshot that does not exist, so each caller is to show that it does.
    method IsSnapshotComplete(snap: Snap) returns (r: bool)
      requires snap < |snaps| && snap !in deleted
      ensures r <==> snap in done
    {
      r := snap in done;
    }

    method DeleteSnapshot(snap: Snap)
      requires snap < |snaps| && snap !in deleted
      modifies `deleted
      ensures deleted == old(deleted) + {snap}
    {
      deleted := deleted + {snap};
    }

    method GetDiskForUser(u: User, template: Data)
      modifies `disks
      ensures State() == Next(old(State()), GetDisk(u, template))
    {
      if u !in disks {
        var data := if u in stored && stored[u] < |snaps| then snaps[stored[u]].data else template;
        disks := disks[u := Disk(Attaching, [], 0, data)];
      }
      disks := disks[u := disks[u].(phase := Attaching)];
    }

    method Release(u: User, backup: bool, now: int)
      requires Enabled(State(), Step.Release(u, backup, now))
      modifies `disks, `snaps
      ensures State() == Next(old(State()), Step.Release(u, backup, now))
      ensures u in disks && disks[u].phase.Detached? && disks[u].detachedAt == now
      ensures backup ==> snaps == old(snaps) + [Taken(u, old(disks)[u].data)] && |old(snaps)| in disks[u].listed
    {
      var disk := disks[u];
      if backup {
        var snap := |snaps|;
        snaps := snaps + [Taken(u, disk.data)];
        disk := disk.(listed := disk.listed + [snap]);
      }
      disk := disk.(phase := Detached, detachedAt := now);
      disks := disks[u := disk];
    }

    // One disk's turn in do_cluster_housekeeping.
    method HousekeepDisk(u: User, now: int)
      requires Inv(State()) && Enabled(State(), Housekeep(u, now))
      modifies `disks, `stored, `deleted
      ensures State() == Next(old(State()), Housekeep(u, now))
    {
      hide Inv, Superseded, Completed, Incomplete;
      var disk := disks[u];
      ghost var s0, listed, stored0 := State(), disk.listed, StoredFor(State(), u);
      var snapId: Option<Snap> := if u in stored then Some(stored[u]) else None;
      var incomplete: seq<Snap> := [];
      var modified := false;
      NoneExamined(stored0, listed, done);
      for i := 0 to |disk.listed|
        invariant incomplete == Incomplete(listed[..i], done)
        invariant modified <==> Completed(listed[..i], done) != []
        invariant snapId == Adopted(stored0, Completed(listed[..i], done))
        invariant deleted == s0.deleted + Superseded(stored0, Completed(listed[..i], done))
        invariant disks == s0.disks && stored == s0.stored
      {
        var snap := disk.listed[i];
        OneExamined(listed, i, done);
        AdoptedExists(s0, u, i);
        var isComplete := IsSnapshotComplete(snap);
        if !isComplete {
          incomplete := incomplete + [snap];
          continue;
        }
        var oldSnapId := snapId;
        snapId := Some(snap);
        modified := true;
        if oldSnapId.Some? {
          DeleteSnapshot(oldSnapId.value);
        }
        SupersededGrows(stored0, Completed(listed[..i], done), snap);
      }
      assert listed[..|listed|] == listed;
      if modified {
        if snapId.Some? {
          stored := stored[u := snapId.value];
        }
        disk := disk.(listed := incomplete);
        disks := disks[u := disk];
      } else {
        NothingCompleted(listed, done);
      }
      if |incomplete| == 0 && now - disk.detachedAt > KEEP_SECS {
        disks := disks - {u};
      }
      assert disks == Next(s0, Housekeep(u, now)).disks;
    }

    // `detached` lists the disks that are in state detached, in the table's order.
    method DoClusterHousekeeping(detached: seq<User>, now: int)
      requires Inv(State())
      requires forall u <- detached :: u in disks && disks[u].phase.Detached?
      requires forall i, j :: 0 <= i < j < |detached| ==> detached[i] != detached[j]
      modifies `disks, `stored, `deleted
      ensures Inv(State())
      ensures State() == Pass(old(State()), detached, now)
    {
      hide Inv, Next;
      for i := 0 to |detached|
        invariant Inv(State()) && State() == Pass(old(State()), detached[..i], now)
        invariant forall k :: i <= k < |detached| ==>
                    detached[k] in disks && detached[k] in old(disks) && disks[detached[k]] == old(disks)[detached[k]]
      {
        ghost var s := State();
        assert detached[..i + 1][..i] == detached[..i];
        HousekeepKeepsInv(s, detached[i], now);
        OthersUntouched(s, detached[i], now);
        HousekeepDisk(detached[i], now);
      }
      assert detached[..|detached|] == detached;
    }
  }

  // ---------- One pass over one disk ----------

  lemma AppendIncreasing(listed: seq<Snap>, snap: Snap)
    requires Increasing(listed) && forall x <- listed :: x < snap
    ensures Increasing(listed + [snap])
  {
    assert forall i :: 0 <= i < |listed| ==> listed[i] in listed;
  }

  // The completed and the incomplete snapshots are those of the list, in its order.
  lemma {:induction false} FilterMeans(listed: seq<Snap>, done: set<Snap>)
    ensures forall x :: x in Completed(listed, done) <==> x in listed && x in done
    ensures forall x :: x in Incomplete(listed, done) <==> x in listed && x !in done
    ensures Increasing(listed) ==> Increasing(Completed(listed, done)) && Increasing(Incomplete(listed, done))
  {
    if listed != [] {
      var front, last := listed[..|listed| - 1], listed[|listed| - 1];
      FilterMeans(front, done);
      assert listed == front + [last];
      if Increasing(listed) {
        assert Increasing(front);
        assert forall x <- front :: x < last;
        AppendIncreasing(Completed(front, done), last);
        AppendIncreasing(Incomplete(front, done), last);
      }
    }
  }

  lemma NoneExamined(stored: Option<Snap>, listed: seq<Snap>, done: set<Snap>)
    ensures Completed(listed[..0], done) == Incomplete(listed[..0], done) == []
    ensures Superseded(stored, []) == {}
  {
  }

  lemma OneExamined(listed: seq<Snap>, i: nat, done: set<Snap>)
    requires i < |listed|
    ensures Completed(listed[..i + 1], done)
            == if listed[i] in done then Completed(listed[..i], done) + [listed[i]] else Completed(listed[..i], done)
    ensures Incomplete(listed[..i + 1], done)
            == if listed[i] in done then Incomplete(listed[..i], done) else Incomplete(listed[..i], done) + [listed[i]]
  {
    assert listed[..i + 1][..i] == listed[..i];
  }

  lemma {:induction false} NothingCompleted(listed: seq<Snap>, done: set<Snap>)
    ensures Completed(listed, done) == [] ==> Incomplete(listed, done) == listed
  {
    if listed != [] {
      NothingCompleted(listed[..|listed| - 1], done);
      assert listed == listed[..|listed| - 1] + [listed[|listed| - 1]];
    }
  }

  lemma SupersededGrows(stored: Option<Snap>, completed: seq<Snap>, snap: Snap)
    ensures Superseded(stored, completed + [snap])
            == Superseded(stored, completed)
               + (if Adopted(stored, completed).Some? then {Adopted(stored, completed).value} else {})
  {
    var more := completed + [snap];
    if completed != [] {
      assert forall x :: x in Superseded(stored, more) <==>
          stored == Some(x) || exists i :: 0 <= i < |completed| && x == more[i];
      assert forall i :: 0 <= i < |completed| ==> more[i] == completed[i];
    }
  }

  lemma SupersededOf(stored: Option<Snap>, completed: seq<Snap>)
    requires Increasing(completed) && (stored.Some? ==> stored.value !in completed)
    ensures var adopted := Adopted(stored, completed);
            && (completed != [] ==> adopted.Some? && adopted.value in completed)
            && (forall x <- completed :: adopted == Some(x) || x < adopted.value)
            && (forall x :: x in Superseded(stored, completed) <==>
                  completed != [] && (x in completed || stored == Some(x)) && adopted != Some(x))
  {
    if completed != [] {
      var n := |completed| - 1;
      assert completed[n] in completed;
      assert forall x :: x in completed <==> x == completed[n] || exists k :: 0 <= k < n && completed[k] == x;
    }
  }

  // The first i snapshots of a list: all but the last completed one are superseded.
  lemma SupersededMeans(s: World, u: User, i: nat)
    requires Inv(s) && u in s.disks && i <= |s.disks[u].listed|
    ensures var listed := s.disks[u].listed[..i];
            var completed := Completed(listed, s.done);
            var adopted := Adopted(StoredFor(s, u), completed);
            && Increasing(listed) && Increasing(completed)
            && (forall x :: x in completed <==> x in listed && x in s.done)
            && (completed != [] ==> adopted.Some? && adopted.value in completed)
            && (forall x <- completed :: adopted == Some(x) || x < adopted.value)
            && (forall x :: x in Superseded(StoredFor(s, u), completed) <==>
                  completed != [] && (x in completed || StoredFor(s, u) == Some(x)) && adopted != Some(x))
  {
    var listed := s.disks[u].listed[..i];
    var completed := Completed(listed, s.done);
    FilterMeans(listed, s.done);
    if u in s.stored {
      assert IsStored(s, s.stored[u]) && IsOwn(s, s.stored[u], u) && IsSomewhere(s, s.stored[u]);
      assert s.stored[u] !in s.disks[u].listed;
    }
    SupersededOf(StoredFor(s, u), completed);
  }

  // Housekeeping asks only for snapshots that exist, and deletes none twice.
  lemma AdoptedExists(s: World, u: User, i: nat)
    requires Inv(s) && u in s.disks && i < |s.disks[u].listed|
    ensures var listed := s.disks[u].listed;
            var completed := Completed(listed[..i], s.done);
            var gone := s.deleted + Superseded(StoredFor(s, u), completed);
            && listed[i] < |s.snaps| && listed[i] !in gone
            && (Adopted(StoredFor(s, u), completed).Some? ==>
                  Adopted(StoredFor(s, u), completed).value < |s.snaps|
                  && Adopted(StoredFor(s, u), completed).value !in gone)
  {
    hide Completed, Superseded;
    SupersededMeans(s, u, i);
    var listed := s.disks[u].listed;
    var adopted := Adopted(StoredFor(s, u), Completed(listed[..i], s.done));
    assert IsListed(s, listed[i]) && IsOwn(s, listed[i], u) && IsSomewhere(s, listed[i]);
    assert listed[i] !in listed[..i];
    if adopted.Some? {
      if adopted.value in listed {
        assert IsListed(s, adopted.value) && IsOwn(s, adopted.value, u) && IsSomewhere(s, adopted.value);
      } else {
        assert IsStored(s, adopted.value) && IsOwn(s, adopted.value, u) && IsSomewhere(s, adopted.value);
      }
    }
  }

  lemma OthersUntouched(s: World, u: User, now: int)
    requires Enabled(s, Housekeep(u, now))
    ensures var s' := Next(s, Housekeep(u, now));
            forall v <- s.disks :: v != u ==> v in s'.disks && s'.disks[v] == s.disks[v]
  {
  }

  // Where one snapshot is after a pass over one disk.
  lemma Moves(s: World, u: User, now: int, id: Snap)
    requires Inv(s) && Enabled(s, Housekeep(u, now)) && id < |s.snaps|
    ensures var s' := Next(s, Housekeep(u, now));
            var completed := Completed(s.disks[u].listed, s.done);
            var adopted := Adopted(StoredFor(s, u), completed);
            && (IsListed(s', id) <==> IsListed(s, id) && !(s.snaps[id].user == u && id in s.done))
            && (IsStored(s', id) <==> if s.snaps[id].user == u then adopted == Some(id) else IsStored(s, id))
            && (id in s'.deleted <==>
                  id in s.deleted
                  || (completed != [] && s.snaps[id].user == u && adopted != Some(id)
                      && (IsStored(s, id) || (IsListed(s, id) && id in s.done))))
  {
    hide Completed, Superseded, Incomplete, IsSomewhere;
    var s' := Next(s, Housekeep(u, now));
    var listed := s.disks[u].listed;
    assert listed[..|listed|] == listed;
    FilterMeans(listed, s.done);
    SupersededMeans(s, u, |listed|);
    var owner := s.snaps[id].user;
    assert IsListed(s, id) <==> owner in s.disks && id in s.disks[owner].listed;
    assert IsStored(s, id) <==> owner in s.stored && s.stored[owner] == id;
    assert IsListed(s', id) <==> owner in s'.disks && id in s'.disks[owner].listed;
    assert IsStored(s', id) <==> owner in s'.stored && s'.stored[owner] == id;
  }

  lemma HousekeepKeepsInv(s: World, u: User, now: int)
    requires Inv(s) && Enabled(s, Housekeep(u, now))
    ensures Inv(Next(s, Housekeep(u, now)))
  {
    hide Completed, Superseded, Incomplete;
    var s' := Next(s, Housekeep(u, now));
    var listed := s.disks[u].listed;
    assert listed[..|listed|] == listed;
    FilterMeans(listed, s.done);
    SupersededMeans(s, u, |listed|);
    forall id: nat | id < |s.snaps| ensures IsSomewhere(s', id) {
      assert IsSomewhere(s, id);
      Moves(s, u, now, id);
    }
  }

  // ---------- Every run ----------

  function ListOf(s: World, u: User): seq<Snap> {
    if u in s.disks then s.disks[u].listed else []
  }

  lemma SameLists(s: World, s': World)
    requires Inv(s) && s'.stored == s.stored && s'.deleted == s.deleted && s'.snaps == s.snaps && s.done <= s'.done
    requires forall u :: ListOf(s', u) == ListOf(s, u)
    ensures Inv(s')
  {
    forall id ensures IsListed(s', id) <==> IsListed(s, id) {
      assert IsListed(s, id) <==> exists u <- s.disks :: id in ListOf(s, u);
      assert IsListed(s', id) <==> exists u <- s'.disks :: id in ListOf(s', u);
      assert forall u :: id in ListOf(s, u) ==> u in s.disks;
      assert forall u :: id in ListOf(s', u) ==> u in s'.disks;
    }
    forall u | u in s'.disks
      ensures Increasing(s'.disks[u].listed) && forall id <- s'.disks[u].listed :: IsOwn(s', id, u)
    {
      assert ListOf(s', u) == ListOf(s, u);
    }
    forall id: nat | id < |s'.snaps| ensures IsSomewhere(s', id) {
      assert IsSomewhere(s, id);
    }
  }

  lemma ReleaseKeepsInv(s: World, u: User, now: int)
    requires Inv(s) && Enabled(s, Release(u, true, now))
    ensures Inv(Next(s, Release(u, true, now)))
  {
    var s' := Next(s, Release(u, true, now));
    var before, after, id' := s.disks[u].listed, s'.disks[u].listed, |s.snaps|;
    AppendIncreasing(before, id');
    assert forall v <- s'.disks :: v != u ==> s'.disks[v] == s.disks[v];
    assert forall x :: x in after <==> x in before || x == id';
    forall id: nat | id < |s'.snaps| ensures IsSomewhere(s', id) {
      if id < id' {
        assert IsSomewhere(s, id);
        assert IsListed(s', id) <==> IsListed(s, id) by {
          if v :| v in s.disks && id in s.disks[v].listed {
            assert id in s'.disks[v].listed;
          }
          if v :| v in s'.disks && id in s'.disks[v].listed {
            assert id in s.disks[v].listed;
          }
        }
      } else {
        assert id' in after;
        assert IsListed(s', id');
      }
    }
  }

  lemma StepKeepsInv(s: World, st: Step)
    requires Inv(s) && Enabled(s, st)
    ensures Inv(Next(s, st))
  {
    match st
    case Housekeep(u, now) => HousekeepKeepsInv(s, u, now);
    case Release(u, backup, now) =>
      if backup {
        ReleaseKeepsInv(s, u, now);
      } else {
        SameLists(s, Next(s, st));
      }
    case _ => SameLists(s, Next(s, st));
  }

  // Over any run, each snapshot taken is exactly one of stored, listed or deleted, and the
  // stored ones are complete.
  lemma {:induction false} EverySnapshotIsSomewhere(steps: seq<Step>)
    requires IsRun(EMPTY, steps)
    ensures Inv(After(EMPTY, steps))
    decreases |steps|
  {
    if steps != [] {
      var last := |steps| - 1;
      EverySnapshotIsSomewhere(steps[..last]);
      StepKeepsInv(After(EMPTY, steps[..last]), steps[last]);
    }
  }

  // One pass leaves the last completed snapshot in list order stored, the incomplete ones
  // listed in order, the others deleted, and other users' snapshots where they were.
  lemma PassRotates(s: World, u: User, now: int)
    requires Inv(s) && Enabled(s, Housekeep(u, now))
    ensures var s' := Next(s, Housekeep(u, now));
            var listed := s.disks[u].listed;
            && (forall id <- listed :: id in s.done && (forall later <- listed :: later > id ==> later !in s.done)
                  ==> StoredFor(s', u) == Some(id))
            && ((forall id <- listed :: id !in s.done) ==> StoredFor(s', u) == StoredFor(s, u) && s'.deleted == s.deleted)
            && (forall id :: id in ListOf(s', u) <==> id in listed && id !in s.done)
            && Increasing(ListOf(s', u))
            && (forall id: nat :: id < |s.snaps| && id !in s.deleted ==>
                  (id in s'.deleted <==>
                    s.snaps[id].user == u && StoredFor(s', u) != Some(id) && id !in ListOf(s', u)))
            && (forall v :: v != u ==> StoredFor(s', v) == StoredFor(s, v) && ListOf(s', v) == ListOf(s, v))
  {
    hide Completed, Superseded, Incomplete, IsSomewhere, Next, Adopted;
    var listed := s.disks[u].listed;
    assert listed[..|listed|] == listed;
    OnePass(s, u, now);
    FilterMeans(listed, s.done);
    AdoptedMeans(s, u);
    forall id: nat | id < |s.snaps| && id !in s.deleted {
      WhoIsDeleted(s, u, now, id);
    }
    hide Inv;
    assert forall id :: id in ListOf(Next(s, Housekeep(u, now)), u) <==> id in listed && id !in s.done;
  }

  // The effect of a pass in terms of the list's completed and incomplete parts
  lemma OnePass(s: World, u: User, now: int)
    requires Enabled(s, Housekeep(u, now))
    ensures var s' := Next(s, Housekeep(u, now));
            var completed := Completed(s.disks[u].listed, s.done);
            && StoredFor(s', u) == Adopted(StoredFor(s, u), completed)
            && ListOf(s', u) == Incomplete(s.disks[u].listed, s.done)
            && s'.deleted == s.deleted + Superseded(StoredFor(s, u), completed)
            && (forall v :: v != u ==> StoredFor(s', v) == StoredFor(s, v) && ListOf(s', v) == ListOf(s, v))
  {
    hide Completed, Superseded, Incomplete;
  }

  lemma AdoptedMeans(s: World, u: User)
    requires Inv(s) && u in s.disks
    ensures var listed := s.disks[u].listed;
            var adopted := Adopted(StoredFor(s, u), Completed(listed, s.done));
            && ((forall id <- listed :: id !in s.done) ==>
                  adopted == StoredFor(s, u) && Superseded(StoredFor(s, u), Completed(listed, s.done)) == {})
            && (forall id <- listed :: id in s.done && (forall later <- listed :: later > id ==> later !in s.done) ==>
                  adopted == Some(id))
  {
    hide Completed, Superseded, Incomplete, IsSomewhere;
    var listed := s.disks[u].listed;
    assert listed[..|listed|] == listed;
    SupersededMeans(s, u, |listed|);
    var completed := Completed(listed, s.done);
    assert completed == [] || completed[0] in completed;
  }

  lemma WhoIsDeleted(s: World, u: User, now: int, id: nat)
    requires Inv(s) && Enabled(s, Housekeep(u, now)) && id < |s.snaps| && id !in s.deleted
    ensures var s' := Next(s, Housekeep(u, now));
            id in s'.deleted <==> s.snaps[id].user == u && StoredFor(s', u) != Some(id) && id !in ListOf(s', u)
  {
    hide Completed, Superseded, Incomplete;
    var s' := Next(s, Housekeep(u, now));
    assert IsSomewhere(s, id);
    Moves(s, u, now, id);
    HousekeepKeepsInv(s, u, now);
    assert IsSomewhere(s', id);
    OwnListed(s', u, id);
  }

  lemma OwnListed(s: World, u: User, id: nat)
    requires Inv(s) && id < |s.snaps|
    ensures IsListed(s, id) && s.snaps[id].user == u <==> id in ListOf(s, u)
    ensures IsStored(s, id) && s.snaps[id].user == u <==> StoredFor(s, u) == Some(id)
  {
    hide IsSomewhere;
    assert id in ListOf(s, u) ==> IsOwn(s, id, u);
  }

  // A volume is given up only when nothing is pending for it and it is long unused.
  lemma OnlyUnusedVolumesGo(s: World, st: Step, u: User)
    requires Inv(s) && Enabled(s, st) && u in s.disks && u !in Next(s, st).disks
    ensures st.Housekeep? && st.user == u && s.disks[u].phase.Detached?
    ensures st.now - s.disks[u].detachedAt > 24 * 60 * 60
    ensures forall id <- s.disks[u].listed :: id in s.done
  {
    FilterMeans(s.disks[u].listed, s.done);
  }

  // ---------- What the next session finds ----------

  // Nothing newer than the stored snapshot has been deleted or adopted before.
  ghost predicate IsCurrent(s: World, u: User) {
    && (u in s.stored ==> forall id <- ListOf(s, u) :: s.stored[u] < id)
    && (forall id <- s.deleted :: IsOwn(s, id, u) ==> u in s.stored && id < s.stored[u])
  }

  // No snapshot on the list has completed before an older one.
  predicate InOrder(s: World, u: User) {
    forall a, b :: a in ListOf(s, u) && b in ListOf(s, u) && a < b && b in s.done ==> a in s.done
  }

  // A pass in terms of one user's list and stored snapshot.
  lemma PassMeans(s: World, u: User, now: int)
    requires Inv(s) && Enabled(s, Housekeep(u, now))
    ensures var s' := Next(s, Housekeep(u, now));
            var listed, stored, stored' := s.disks[u].listed, StoredFor(s, u), StoredFor(s', u);
            && s'.snaps == s.snaps
            && (forall id :: id in ListOf(s', u) <==> id in listed && id !in s.done)
            && (if forall id <- listed :: id !in s.done then stored' == stored
                else stored'.Some? && stored'.value in listed && stored'.value in s.done)
            && (forall id <- listed :: id in s.done ==> id <= stored'.value)
            && (forall id :: id in s'.deleted && id !in s.deleted ==>
                  ((id in listed && id in s.done) || stored == Some(id)) && stored' != Some(id)
                  && exists d <- listed :: d in s.done)
            && (forall id <- listed :: id in s.done ==> id in s'.deleted || stored' == Some(id))
  {
    hide Completed, Superseded, Incomplete, IsSomewhere;
    var s' := Next(s, Housekeep(u, now));
    var listed := s.disks[u].listed;
    assert listed[..|listed|] == listed;
    FilterMeans(listed, s.done);
    SupersededMeans(s, u, |listed|);
  }

  lemma InOrderKeepsCurrent(s: World, u: User, now: int)
    requires Inv(s) && Enabled(s, Housekeep(u, now)) && IsCurrent(s, u) && InOrder(s, u)
    ensures IsCurrent(Next(s, Housekeep(u, now)), u)
  {
    hide Next, Inv;
    PassMeans(s, u, now);
    var s' := Next(s, Housekeep(u, now));
    assert ListOf(s, u) == s.disks[u].listed;
    forall id | u in s'.stored && id in ListOf(s', u) ensures s'.stored[u] < id {
      assert id in ListOf(s, u);
    }
    forall id | id in s'.deleted && IsOwn(s', id, u) ensures u in s'.stored && id < s'.stored[u] {
      if id in s.deleted {
        assert IsOwn(s, id, u);
      }
    }
  }

  lemma OutOfOrderIsNotCurrent(s: World, u: User, now: int)
    requires Inv(s) && Enabled(s, Housekeep(u, now)) && !InOrder(s, u)
    ensures !IsCurrent(Next(s, Housekeep(u, now)), u)
  {
    hide Next, Inv;
    PassMeans(s, u, now);
    var s' := Next(s, Housekeep(u, now));
    var a, b :| a in ListOf(s, u) && b in ListOf(s, u) && a < b && b in s.done && a !in s.done;
    assert a in ListOf(s', u) && s'.stored[u] >= b;
  }

  // A pass keeps the user's stored snapshot current exactly when the listed snapshots have
  // completed in the order in which they were taken.
  lemma CurrentIffInOrder(s: World, u: User, now: int)
    requires Inv(s) && Enabled(s, Housekeep(u, now)) && IsCurrent(s, u)
    ensures IsCurrent(Next(s, Housekeep(u, now)), u) <==> InOrder(s, u)
  {
    if InOrder(s, u) {
      InOrderKeepsCurrent(s, u, now);
    } else {
      OutOfOrderIsNotCurrent(s, u, now);
    }
  }

  lemma OthersStayCurrent(s: World, st: Step, u: User)
    requires Inv(s) && Enabled(s, st) && IsCurrent(s, u) && !(st.Housekeep? && st.user == u)
    ensures IsCurrent(Next(s, st), u)
  {
    var s' := Next(s, st);
    assert u in s.stored ==> IsOwn(s, s.stored[u], u);
    if st.Release? {
      assert forall id <- ListOf(s', u) :: id in ListOf(s, u) || id == |s.snaps|;
    } else if st.Housekeep? {
      PassRotates(s, st.user, st.now);
      assert StoredFor(s', u) == StoredFor(s, u) && ListOf(s', u) == ListOf(s, u);
      forall id | id in s'.deleted && IsOwn(s', id, u) ensures id in s.deleted {
      }
    } else {
      assert ListOf(s', u) == ListOf(s, u);
    }
  }

  function LatestIn(snaps: seq<Taken>, u: User): (r: Option<Snap>)
    ensures r.Some? ==> r.value < |snaps| && snaps[r.value].user == u
    ensures forall id :: 0 <= id < |snaps| && snaps[id].user == u ==> r.Some? && id <= r.value
  {
    if snaps == [] then None
    else if snaps[|snaps| - 1].user == u then Some(|snaps| - 1)
    else LatestIn(snaps[..|snaps| - 1], u)
  }

  // Once a user's volume is gone, the stored snapshot is the latest one taken.
  lemma StoredIsLatest(s: World, u: User)
    requires Inv(s) && IsCurrent(s, u) && u !in s.disks
    ensures StoredFor(s, u) == LatestIn(s.snaps, u)
  {
    var latest := LatestIn(s.snaps, u);
    if latest.Some? {
      assert IsSomewhere(s, latest.value);
      assert !IsListed(s, latest.value);
    }
    if u in s.stored {
      assert IsOwn(s, s.stored[u], u);
    }
  }

  // What a user's last session left on the disk, if there was one
  function LeftBy(steps: seq<Step>, u: User): Option<Data>
    requires IsRun(EMPTY, steps)
    decreases |steps|
  {
    if steps == [] then None
    else
      var front, last := steps[..|steps| - 1], steps[|steps| - 1];
      if last.Release? && last.user == u then Some(After(EMPTY, front).disks[u].data) else LeftBy(front, u)
  }

  // Sessions are released with a backup, and snapshots found complete by housekeeping have
  // completed in order.
  ghost predicate IsOrderly(steps: seq<Step>)
    requires IsRun(EMPTY, steps)
    decreases |steps|
  {
    steps == [] ||
    var front, last := steps[..|steps| - 1], steps[|steps| - 1];
    && IsOrderly(front)
    && (last.Release? ==> last.backup)
    && (last.Housekeep? ==> InOrder(After(EMPTY, front), last.user))
  }

  lemma {:induction false} OrderlyRunsAreCurrent(steps: seq<Step>, u: User)
    requires IsRun(EMPTY, steps) && IsOrderly(steps)
    ensures Inv(After(EMPTY, steps)) && IsCurrent(After(EMPTY, steps), u)
    decreases |steps|
  {
    hide Inv, IsCurrent, InOrder, Next;
    EverySnapshotIsSomewhere(steps);
    if steps == [] {
      assert IsCurrent(EMPTY, u) by { EmptyIsCurrent(u); }
    } else {
      var front, last := steps[..|steps| - 1], steps[|steps| - 1];
      OrderlyRunsAreCurrent(front, u);
      if last.Housekeep? && last.user == u {
        CurrentIffInOrder(After(EMPTY, front), u, last.now);
      } else {
        OthersStayCurrent(After(EMPTY, front), last, u);
      }
    }
  }

  lemma EmptyIsCurrent(u: User)
    ensures IsCurrent(EMPTY, u)
  {
  }

  // The data of the user's latest snapshot is what the last session left, and so is what is
  // on a detached volume.
  predicate HoldsLeft(s: World, u: User, left: Option<Data>) {
    var latest := LatestIn(s.snaps, u);
    && left == (if latest.Some? then Some(s.snaps[latest.value].data) else None)
    && (u in s.disks && s.disks[u].phase.Detached? ==> left == Some(s.disks[u].data))
  }

  lemma StepHoldsLeft(s: World, st: Step, u: User, left: Option<Data>)
    requires Enabled(s, st) && HoldsLeft(s, u, left) && (st.Release? ==> st.backup)
    ensures HoldsLeft(Next(s, st), u, if st.Release? && st.user == u then Some(s.disks[u].data) else left)
  {
    hide Completed, Superseded, Incomplete, Adopted, Source;
    if st.Release? {
      var snaps := Next(s, st).snaps;
      assert snaps[..|snaps| - 1] == s.snaps;
    }
  }

  lemma {:induction false} LatestHoldsWhatWasLeft(steps: seq<Step>, u: User)
    requires IsRun(EMPTY, steps) && IsOrderly(steps)
    ensures HoldsLeft(After(EMPTY, steps), u, LeftBy(steps, u))
    decreases |steps|
  {
    hide Next, InOrder;
    if steps == [] {
      assert LatestIn([], u) == None;
    } else {
      var front, last := steps[..|steps| - 1], steps[|steps| - 1];
      LatestHoldsWhatWasLeft(front, u);
      hide HoldsLeft;
      StepHoldsLeft(After(EMPTY, front), last, u, LeftBy(front, u));
    }
  }

  // A session starts with exactly what the user's last session left, whether or not the
  // volume has been given up in between.
  lemma SessionsResume(steps: seq<Step>, u: User, template: Data)
    requires IsRun(EMPTY, steps) && IsOrderly(steps)
    requires var s := After(EMPTY, steps); u in s.disks ==> s.disks[u].phase.Detached?
    ensures var d := Next(After(EMPTY, steps), GetDisk(u, template)).disks[u].data;
            d == if LeftBy(steps, u).Some? then LeftBy(steps, u).value else template
  {
    var s := After(EMPTY, steps);
    OrderlyRunsAreCurrent(steps, u);
    LatestHoldsWhatWasLeft(steps, u);
    if u !in s.disks {
      StoredIsLatest(s, u);
    }
  }

  lemma Extend(steps: seq<Step>, st: Step, u: User)
    requires IsRun(EMPTY, steps) && Enabled(After(EMPTY, steps), st)
    ensures IsRun(EMPTY, steps + [st]) && After(EMPTY, steps + [st]) == Next(After(EMPTY, steps), st)
    ensures LeftBy(steps + [st], u) ==
            if st.Release? && st.user == u then Some(After(EMPTY, steps).disks[u].data) else LeftBy(steps, u)
  {
    assert (steps + [st])[..|steps|] == steps;
  }

  lemma TwoBackups(u: User) returns (steps: seq<Step>)
    ensures IsRun(EMPTY, steps) && LeftBy(steps, u) == Some("new")
    ensures After(EMPTY, steps) ==
            World(map[u := Disk(Detached, [0, 1], 0, "new")], map[], [Taken(u, "old"), Taken(u, "new")], {}, {})
  {
    steps := [];
    Extend(steps, GetDisk(u, "old"), u);
    steps := steps + [GetDisk(u, "old")];
    assert After(EMPTY, steps) == World(map[u := Disk(Attaching, [], 0, "old")], map[], [], {}, {});
    Extend(steps, Release(u, true, 0), u);
    steps := steps + [Release(u, true, 0)];
    var d := Disk(Detached, [0], 0, "old");
    assert [] + [0] == [0] && [] + [Taken(u, "old")] == [Taken(u, "old")];
    assert After(EMPTY, steps) == World(map[u := d], map[], [Taken(u, "old")], {}, {});
    Extend(steps, GetDisk(u, "old"), u);
    steps := steps + [GetDisk(u, "old")];
    assert After(EMPTY, steps) == World(map[u := d.(phase := Attaching)], map[], [Taken(u, "old")], {}, {});
    Extend(steps, Write(u, "new"), u);
    steps := steps + [Write(u, "new")];
    Extend(steps, Release(u, true, 0), u);
    steps := steps + [Release(u, true, 0)];
    assert [0] + [1] == [0, 1] && [Taken(u, "old")] + [Taken(u, "new")] == [Taken(u, "old"), Taken(u, "new")];
  }

  lemma FirstOfTwo()
    ensures Completed([0, 1], {1}) == [1] && Incomplete([0, 1], {1}) == [0]
    ensures Completed([0], {0, 1}) == [0] && Incomplete([0], {0, 1}) == []
  {
    assert [0, 1][..1] == [0];
  }

  lemma NewerIsAdopted(u: User) returns (steps: seq<Step>)
    ensures IsRun(EMPTY, steps) && LeftBy(steps, u) == Some("new")
    ensures After(EMPTY, steps) ==
            World(map[u := Disk(Detached, [0], 0, "new")], map[u := 1], [Taken(u, "old"), Taken(u, "new")], {1}, {})
  {
    hide Completed, Incomplete, LeftBy, IsRun;
    steps := TwoBackups(u);
    FirstOfTwo();
    Extend(steps, Complete(1), u);
    steps := steps + [Complete(1)];
    Extend(steps, Housekeep(u, 0), u);
    steps := steps + [Housekeep(u, 0)];
    assert {} + {1} == {1};
  }

  // A newer snapshot that completes a pass earlier than an older one is deleted for it: once
  // the volume is given up, the user is back at the older data.
  lemma OutOfOrderCompletionLosesData(u: User, template: Data) returns (steps: seq<Step>)
    ensures IsRun(EMPTY, steps) && u !in After(EMPTY, steps).disks
    ensures LeftBy(steps, u) == Some("new")
    ensures Next(After(EMPTY, steps), GetDisk(u, template)).disks[u].data == "old"
  {
    hide Completed, Incomplete, LeftBy, IsRun;
    steps := NewerIsAdopted(u);
    FirstOfTwo();
    Extend(steps, Complete(0), u);
    steps := steps + [Complete(0)];
    assert {1} + {0} == {0, 1};
    Extend(steps, Housekeep(u, KEEP_SECS + 1), u);
    steps := steps + [Housekeep(u, KEEP_SECS + 1)];
    assert After(EMPTY, steps).stored[u] == 0 && After(EMPTY, steps).disks == map[];
  }
}
