/**
 The lock-protected table of loopback disks: which disks are in use, and which are reserved
 until when (engine/src/juliabox/plugins/vol_loopback/loopback.py). The functions say what
 one critical section does to the two dictionaries; class LoopbackDisks is the object that
 performs them.
 */
module DiskTable {

  const RESERVE_SECS: int := 120

  // DISK_USE_STATUS and DISK_RESERVE_TIME.
  datatype Table = Table(used: map<int, bool>, reserved: map<int, int>)

  predicate IsExpired(t: Table, idx: int, now: int) {
    idx in t.reserved && t.reserved[idx] < now
  }

  predicate IsLiveReservation(t: Table, idx: int, now: int) {
    idx in t.reserved && t.reserved[idx] >= now
  }

  // _is_reserved forgets a reservation that has run out.
  function DropExpired(t: Table, idx: int, now: int): Table {
    if IsExpired(t, idx, now) then t.(reserved := t.reserved - {idx}) else t
  }

  // One round of the first loop of refresh_disk_use_status.
  function ScanOne(t: Table, idx: int, now: int): Table {
    var t' := DropExpired(t, idx, now);
    t'.(used := t'.used[idx := idx in t'.reserved])
  }

  // _mark_disk_used
  function MarkUsed(t: Table, idx: int, used: bool, forSecs: int, now: int): Table {
    Table(t.used[idx := used],
          if used && forSecs > 0 then t.reserved[idx := now + forSecs] else t.reserved - {idx})
  }

  predicate Covers(t: Table, maxDisks: nat) {
    forall i :: 0 <= i < maxDisks ==> i in t.used
  }

  predicate IsFree(t: Table, idx: int) {
    idx in t.used && !t.used[idx]
  }

  // _get_unused_disk_id: the first free index from begin on, or -1.
  function FirstUnused(t: Table, begin: nat, maxDisks: nat): (idx: int)
    requires Covers(t, maxDisks)
    ensures idx == -1 || begin <= idx < maxDisks
    ensures idx == -1 ==> forall i :: begin <= i < maxDisks ==> !IsFree(t, i)
    ensures idx != -1 ==> IsFree(t, idx) && forall i :: begin <= i < idx ==> !IsFree(t, i)
    decreases maxDisks - begin
  {
    if begin >= maxDisks then -1
    else if !t.used[begin] then begin
    else FirstUnused(t, begin + 1, maxDisks)
  }

  // The table after a reservation attempt that found disk `idx`.
  function Reserved(t: Table, idx: int, now: int): Table {
    if idx >= 0 then MarkUsed(t, idx, true, RESERVE_SECS, now) else t
  }

  // The first loop of refresh_disk_use_status over indices 0..n; the clock is read each round.
  function ScanAll(t: Table, times: seq<int>): Table
    decreases |times|
  {
    if times == [] then t
    else ScanOne(ScanAll(t, times[..|times| - 1]), |times| - 1, times[|times| - 1])
  }

  // Its second loop over the disk ids found in containers.
  function MarkAll(t: Table, ids: seq<int>): Table
    decreases |ids|
  {
    if ids == [] then t
    else MarkUsed(MarkAll(t, ids[..|ids| - 1]), ids[|ids| - 1], true, 0, 0)
  }

  lemma {:induction false} ScanAllMeans(t: Table, times: seq<int>)
    ensures var t' := ScanAll(t, times);
            && (forall i :: i in t'.used <==> i in t.used || 0 <= i < |times|)
            && (forall i :: i in t'.reserved <==> i in t.reserved && !(0 <= i < |times| && t.reserved[i] < times[i]))
            && (forall i <- t'.reserved :: t'.reserved[i] == t.reserved[i])
            && forall i <- t'.used :: t'.used[i] == if 0 <= i < |times| then i in t'.reserved else t.used[i]
  {
    hide ScanOne;
    if times != [] {
      var n := |times| - 1;
      ScanAllMeans(t, times[..n]);
      ScanOneMeans(ScanAll(t, times[..n]), n, times[n]);
    }
  }

  lemma ScanOneMeans(t: Table, idx: int, now: int)
    ensures var t' := ScanOne(t, idx, now);
            && t'.reserved == (if idx in t.reserved && t.reserved[idx] < now then t.reserved - {idx} else t.reserved)
            && t'.used == t.used[idx := idx in t'.reserved]
  {
  }

  lemma {:induction false} MarkAllMeans(t: Table, ids: seq<int>)
    ensures var t' := MarkAll(t, ids);
            && (forall i :: i in t'.used <==> i in t.used || i in ids)
            && t'.reserved == (map i | i in t.reserved && i !in ids :: t.reserved[i])
            && forall i <- t'.used :: t'.used[i] == (i in ids || t.used[i])
  {
    if ids != [] {
      MarkAllMeans(t, ids[..|ids| - 1]);
      assert ids == ids[..|ids| - 1] + [ids[|ids| - 1]];
    }
  }

  // A whole refresh: a disk is in use afterwards exactly when a reservation of it is still
  // running when its index is scanned, or some inspected container mounts it.
  lemma RefreshDecides(t: Table, times: seq<int>, ids: seq<int>, idx: int)
    requires 0 <= idx < |times|
    ensures var t' := MarkAll(ScanAll(t, times), ids);
            && idx in t'.used
            && (t'.used[idx] <==> IsLiveReservation(t, idx, times[idx]) || idx in ids)
            && (idx in t'.reserved <==> IsLiveReservation(t, idx, times[idx]) && idx !in ids)
  {
    ScanAllMeans(t, times);
    MarkAllMeans(ScanAll(t, times), ids);
  }

  class LoopbackDisks {
    const maxDisks: nat
    var useStatus: map<int, bool>
    var reserveTime: map<int, int>

    ghost function State(): Table
      reads this
    {
      Table(useStatus, reserveTime)
    }

    constructor (maxDisks: nat)
      ensures this.maxDisks == maxDisks && State() == Table(map[], map[])
    {
      this.maxDisks := maxDisks;
      useStatus, reserveTime := map[], map[];
    }

    method IsReserved(idx: int, now: int) returns (r: bool)
      modifies this
      ensures State() == DropExpired(old(State()), idx, now)
      ensures r <==> IsLiveReservation(old(State()), idx, now)
    {
      if idx in reserveTime && reserveTime[idx] < now {
        reserveTime := reserveTime - {idx};
      }
      r := idx in reserveTime;
    }

    method MarkDiskUsed(idx: int, used: bool, forSecs: int, now: int)
      modifies this
      ensures State() == MarkUsed(old(State()), idx, used, forSecs, now)
    {
      useStatus := useStatus[idx := used];
      if used && forSecs > 0 {
        reserveTime := reserveTime[idx := now + forSecs];
      } else if idx in reserveTime {
        reserveTime := reserveTime - {idx};
      }
    }

    // `times` are the clock readings of the scan, `mounted` the ids found by inspecting the
    // listed containers one after the other.
    method RefreshDiskUseStatus(times: seq<int>, mounted: seq<int>)
      requires |times| == maxDisks
      modifies this
      ensures State() == MarkAll(ScanAll(old(State()), times), mounted)
      ensures Covers(State(), maxDisks)
    {
      for idx := 0 to maxDisks
        invariant State() == ScanAll(old(State()), times[..idx])
      {
        var reserved := IsReserved(idx, times[idx]);
        useStatus := useStatus[idx := reserved];
        assert times[..idx + 1][..idx] == times[..idx];
      }
      assert times[..maxDisks] == times;
      ScanAllMeans(old(State()), times);
      for i := 0 to |mounted|
        invariant State() == MarkAll(ScanAll(old(State()), times), mounted[..i])
      {
        MarkDiskUsed(mounted[i], true, 0, 0);
        assert mounted[..i + 1][..i] == mounted[..i];
      }
      assert mounted[..|mounted|] == mounted;
      MarkAllMeans(ScanAll(old(State()), times), mounted);
    }

    method GetUnusedDiskId(begin: nat) returns (idx: int)
      requires Covers(State(), maxDisks)
      ensures idx == FirstUnused(State(), begin, maxDisks)
    {
      idx := begin;
      while idx < maxDisks
        invariant begin <= idx
        invariant FirstUnused(State(), begin, maxDisks) == FirstUnused(State(), idx, maxDisks)
      {
        if !useStatus[idx] {
          return;
        }
        idx := idx + 1;
      }
      idx := -1;
    }

    method ReserveDiskId(begin: nat, now: int) returns (idx: int)
      requires Covers(State(), maxDisks)
      modifies this
      ensures idx == FirstUnused(old(State()), begin, maxDisks)
      ensures State() == Reserved(old(State()), idx, now)
      ensures idx < 0 ==> State() == old(State())
      ensures idx >= 0 ==> useStatus == old(useStatus)[idx := true] && reserveTime == old(reserveTime)[idx := now + 120]
      ensures Covers(State(), maxDisks)
    {
      idx := GetUnusedDiskId(begin);
      if idx >= 0 {
        MarkDiskUsed(idx, true, RESERVE_SECS, now);
      }
    }

    method UnreserveDiskId(idx: int)
      modifies this
      ensures State() == MarkUsed(old(State()), idx, false, 0, 0)
    {
      MarkDiskUsed(idx, false, 0, 0);
    }

    // refresh_user_home_image while nothing else touches the table: the unused disks are
    // blanked one after the other, each under a reservation of its own.
    method RefreshUserHomeImage(now: int) returns (blanked: seq<int>)
      requires Covers(State(), maxDisks)
      modifies this
      ensures blanked == FreeFrom(old(State()), 0, maxDisks)
      ensures State().used == old(State()).used
      ensures State().reserved == old(State()).reserved - set d <- blanked
    {
      hide FirstUnused, MarkUsed, IsFree, FreeFrom;
      ghost var t := State();
      blanked := [];
      var diskId := 0;
      while diskId < maxDisks
        invariant 0 <= diskId && State() == Table(t.used, t.reserved - set d <- blanked)
        invariant blanked + FreeFrom(t, diskId, maxDisks) == FreeFrom(t, 0, maxDisks)
        decreases maxDisks - diskId
      {
        FreeFromFirst(t, diskId, maxDisks);
        FirstUnusedByUse(t, State(), diskId, maxDisks);
        ghost var before, begin := State(), diskId;
        diskId := ReserveDiskId(diskId, now);
        if diskId < 0 {
          assert blanked + [] == blanked;
          return;
        }
        UnreserveDiskId(diskId);
        ReservedAndBack(before, begin, maxDisks, now);
        OneMoreBlanked(t.reserved, blanked, diskId, FreeFrom(t, diskId + 1, maxDisks));
        blanked := blanked + [diskId];
        diskId := diskId + 1;
      }
      FreeFromFirst(t, diskId, maxDisks);
      FirstUnusedAtEnd(t, diskId, maxDisks);
      assert blanked + [] == blanked;
    }
  }

  lemma FirstUnusedAtEnd(t: Table, begin: nat, maxDisks: nat)
    requires Covers(t, maxDisks) && begin >= maxDisks
    ensures FirstUnused(t, begin, maxDisks) == -1
  {
  }

  lemma OneMoreBlanked(reserved: map<int, int>, blanked: seq<int>, d: int, rest: seq<int>)
    ensures (reserved - set x <- blanked) - {d} == reserved - set x <- blanked + [d]
    ensures blanked + [d] + rest == blanked + ([d] + rest)
  {
    assert (set x <- blanked + [d]) == (set x <- blanked) + {d};
  }

  // Reserving a disk and giving it back leaves at most a reservation less.
  lemma ReservedAndBack(t: Table, begin: nat, maxDisks: nat, now: int)
    requires Covers(t, maxDisks) && FirstUnused(t, begin, maxDisks) >= 0
    ensures var idx := FirstUnused(t, begin, maxDisks);
            MarkUsed(Reserved(t, idx, now), idx, false, 0, 0) == Table(t.used, t.reserved - {idx})
  {
    var idx := FirstUnused(t, begin, maxDisks);
    assert IsFree(t, idx);
  }

  // The unused disks from `begin` on, in ascending order
  function FreeFrom(t: Table, begin: nat, maxDisks: nat): seq<int>
    requires Covers(t, maxDisks)
    decreases maxDisks - begin
  {
    if begin >= maxDisks then []
    else (if IsFree(t, begin) then [begin] else []) + FreeFrom(t, begin + 1, maxDisks)
  }

  lemma {:induction false} FreeFromFirst(t: Table, begin: nat, maxDisks: nat)
    requires Covers(t, maxDisks)
    ensures var idx := FirstUnused(t, begin, maxDisks);
            FreeFrom(t, begin, maxDisks) == if idx == -1 then [] else [idx] + FreeFrom(t, idx + 1, maxDisks)
    decreases maxDisks - begin
  {
    if begin < maxDisks {
      FreeFromFirst(t, begin + 1, maxDisks);
    }
  }

  lemma {:induction false} FirstUnusedByUse(t: Table, t': Table, begin: nat, maxDisks: nat)
    requires Covers(t, maxDisks) && t'.used == t.used
    ensures FirstUnused(t', begin, maxDisks) == FirstUnused(t, begin, maxDisks)
    decreases maxDisks - begin
  {
    if begin < maxDisks {
      FirstUnusedByUse(t, t', begin + 1, maxDisks);
    }
  }

  // Blanking goes over exactly the unused disks, each once.
  lemma {:induction false} FreeFromMeans(t: Table, begin: nat, maxDisks: nat)
    requires Covers(t, maxDisks)
    ensures forall d :: d in FreeFrom(t, begin, maxDisks) <==> begin <= d < maxDisks && IsFree(t, d)
    ensures forall i, j :: 0 <= i < j < |FreeFrom(t, begin, maxDisks)| ==>
              FreeFrom(t, begin, maxDisks)[i] < FreeFrom(t, begin, maxDisks)[j]
    decreases maxDisks - begin
  {
    if begin < maxDisks {
      FreeFromMeans(t, begin + 1, maxDisks);
      var rest := FreeFrom(t, begin + 1, maxDisks);
      assert forall i :: 0 <= i < |rest| ==> rest[i] in rest;
    }
  }
}
