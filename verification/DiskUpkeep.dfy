/**
 The upkeep of disks over whole runs: who holds a disk, what an idle disk carries, and that no
 disk is lost (engine/src/juliabox/plugins/vol_loopback/loopback.py, jbox_container.py,
 vol/jbox_volume.py). Told from the steps alone where possible.
 */
module DiskUpkeep {
  import opened Basics
  import opened DiskTable
  import opened UserHome
  import opened DiskLifecycle
  import opened DiskSessions

  // ---------- Who is there ----------

  // The holder has reserved a disk and has neither handed it on nor given it up since.
  predicate IsHolding(steps: seq<Step>, hid: nat) {
    steps != []
    && match steps[|steps| - 1]
       case Reserve(h, _, _) => h == hid || IsHolding(steps[..|steps| - 1], hid)
       case Create(h, _) => h != hid && IsHolding(steps[..|steps| - 1], hid)
       case Abort(h) => h != hid && IsHolding(steps[..|steps| - 1], hid)
       case Unreserve(h) => h != hid && IsHolding(steps[..|steps| - 1], hid)
       case _ => IsHolding(steps[..|steps| - 1], hid)
  }

  // The container was there or has been created, and has not been removed since.
  predicate IsListed(s: State, steps: seq<Step>, cid: Cid) {
    if steps == [] then cid in s.containers
    else
      match steps[|steps| - 1]
      case Create(_, c) => c == cid || IsListed(s, steps[..|steps| - 1], cid)
      case Remove(c) => c != cid && IsListed(s, steps[..|steps| - 1], cid)
      case _ => IsListed(s, steps[..|steps| - 1], cid)
  }

  // The home image switched to last
  function CurrentImage(s: State, steps: seq<Step>): Image {
    if steps == [] then s.image
    else
      match steps[|steps| - 1]
      case SwitchImage(image) => image
      case _ => CurrentImage(s, steps[..|steps| - 1])
  }

  lemma StepTells(e: State, st: Step, hid: nat, cid: Cid)
    requires Enabled(e, st)
    ensures var e' := Next(e, st);
            && (hid in e'.holders <==>
                  (st.Reserve? && st.hid == hid)
                  || (hid in e.holders && !((st.Create? || st.Abort? || st.Unreserve?) && st.hid == hid)))
            && (cid in e'.containers <==>
                  (st.Create? && st.cid == cid) || (cid in e.containers && !(st.Remove? && st.cid == cid)))
            && e'.image == if st.SwitchImage? then st.image else e.image
  {
    hide Blank, Prepared, RestoreOver, SourceFor, OriginFor, IsBackupOf, ScanOne, MarkUsed, FirstUnused, AllClean;
  }

  // In every run, the reservations under way, the containers and the home image are those that
  // the steps tell of.
  lemma {:induction false} WhoIsThere(s: State, steps: seq<Step>, hid: nat, cid: Cid)
    requires Init(s) && ValidRun(s, steps)
    ensures var e := After(s, steps);
            && (hid in e.holders <==> IsHolding(steps, hid))
            && (cid in e.containers <==> IsListed(s, steps, cid))
            && e.image == CurrentImage(s, steps)
    decreases |steps|
  {
    hide Enabled, Next, ContentInv;
    if steps != [] {
      Split(s, steps);
      var front := steps[..|steps| - 1];
      WhoIsThere(s, front, hid, cid);
      StepTells(After(s, front), steps[|steps| - 1], hid, cid);
    }
  }

  // ---------- What an idle disk carries ----------

  ghost predicate NobodyWrites(s: State, steps: seq<Step>, d: int)
    requires ValidRun(s, steps)
    decreases |steps|
  {
    steps != [] ==> Written(s, steps[0]) != Some(d) && NobodyWrites(Next(s, steps[0]), steps[1..], d)
  }

  lemma {:induction false} UnwrittenStays(s: State, steps: seq<Step>, d: int)
    requires ValidRun(s, steps) && NobodyWrites(s, steps, d)
    ensures FilesOn(After(s, steps), d) == FilesOn(s, d)
    decreases |steps|
  {
    hide Enabled, Next, Written;
    if steps != [] {
      StepFrame(s, steps[0]);
      UnwrittenStays(Next(s, steps[0]), steps[1..], d);
    }
  }

  // A disk that a session has given up, or that the refresher has visited, carries the home
  // image of that time and its marker until it is written again; as long as the image has not
  // been superseded by a newer one, the next launch finds it ready as it is.
  lemma IdleDisksAreReady(s: State, steps: seq<Step>, st: Step, d: int, later: seq<Step>)
    requires Init(s) && ValidRun(s, steps) && Enabled(After(s, steps), st) && Assumed(After(s, steps), st)
    requires (st.Release? || st.BlankDisk?) && Written(After(s, steps), st) == Some(d)
    requires ValidRun(Next(After(s, steps), st), later) && NobodyWrites(Next(After(s, steps), st), later, d)
    ensures var img, e := CurrentImage(s, steps), After(Next(After(s, steps), st), later);
            && FilesOn(e, d) == Blank(img, true)
            && (e.image.mtime <= img.mtime ==>
                  IsRefreshed(FilesOn(e, d), e.image) && Prepared(FilesOn(e, d), e.image) == img.files)
  {
    hide Enabled, Next, Written, NobodyWrites, FilesOn, RunUnder, Init, AllocInv, ContentInv;
    WhoIsThere(s, steps, 0, "");
    InvHolds(s, steps);
    var before := After(s, steps);
    UnwrittenStays(Next(before, st), later, d);
    BlankedNow(before, st, d);
    var img := CurrentImage(s, steps);
    ImagesAreUnmarked(before);
    assert Blank(img, true) - {MARKER} == img.files;
  }

  lemma ImagesAreUnmarked(e: State)
    requires ContentInv(e)
    ensures MARKER !in e.image.files
  {
  }

  lemma BlankedNow(e: State, st: Step, d: int)
    requires Enabled(e, st) && (st.Release? || st.BlankDisk?) && Written(e, st) == Some(d)
    ensures FilesOn(Next(e, st), d) == Blank(e.image, true)
  {
    hide IsBackupOf, Blank;
  }

  // ---------- No disk is lost ----------

  // A refresh without a list that nothing else comes between: every index is scanned, and every
  // container is inspected
  function Scans(n: nat): seq<Step> {
    if n == 0 then [] else Scans(n - 1) + [Scan]
  }

  function Inspections(cids: seq<Cid>): seq<Step> {
    if cids == [] then [] else Inspections(cids[..|cids| - 1]) + [Inspect(cids[|cids| - 1])]
  }

  function Times(n: nat, now: int): (times: seq<int>)
    ensures |times| == n && forall i :: 0 <= i < n ==> times[i] == now
  {
    seq(n, i requires 0 <= i < n => now)
  }

  lemma {:induction false} ScansRun(s: State, n: nat)
    requires s.lock == Scanning(0, None) && n <= s.maxDisks
    ensures ValidRun(s, Scans(n))
    ensures After(s, Scans(n)) == s.(tbl := ScanAll(s.tbl, Times(n, s.now)), lock := Scanning(n, None))
  {
    if n > 0 {
      ScansRun(s, n - 1);
      hide ScanOne;
      Extend(s, Scans(n - 1), Scan, ALL_RULES);
      assert Times(n, s.now)[..n - 1] == Times(n - 1, s.now);
    }
  }

  function DisksOf(s: State, cids: seq<Cid>): seq<int>
    requires forall c <- cids :: c in s.containers
  {
    if cids == [] then []
    else DisksOf(s, cids[..|cids| - 1]) + [s.containers[cids[|cids| - 1]].disk]
  }

  lemma {:induction false} InspectionsRun(s: State, cids: seq<Cid>)
    requires s.lock.Inspecting? && NoDup(cids) && (forall c <- cids :: c in s.containers && c in s.lock.todo)
    ensures ValidRun(s, Inspections(cids))
    ensures After(s, Inspections(cids))
            == s.(tbl := MarkAll(s.tbl, DisksOf(s, cids)), lock := Inspecting(s.lock.todo - set c <- cids))
  {
    if cids == [] {
      assert s.lock.todo - (set c <- cids) == s.lock.todo;
    } else {
      var n := |cids| - 1;
      var front, c := cids[..n], cids[n];
      assert forall x :: x in cids <==> x in front || x == c;
      assert c !in front;
      InspectionsRun(s, front);
      hide MarkUsed;
      Extend(s, Inspections(front), Inspect(c), ALL_RULES);
      assert s.lock.todo - (set x <- front) - {c} == s.lock.todo - set x <- cids;
      assert MarkUsed(MarkAll(s.tbl, DisksOf(s, front)), s.containers[c].disk, true, 0, s.now)
             == MarkUsed(MarkAll(s.tbl, DisksOf(s, front)), s.containers[c].disk, true, 0, 0) by { MarkIsForGood(); }
    }
  }

  lemma MarkIsForGood()
    ensures forall t: Table, d: int, now: int :: MarkUsed(t, d, true, 0, now) == MarkUsed(t, d, true, 0, 0)
  {
  }

  lemma {:induction false} DisksOfMeans(s: State, cids: seq<Cid>, d: int)
    requires forall c <- cids :: c in s.containers
    ensures d in DisksOf(s, cids) <==> exists c <- cids :: s.containers[c].disk == d
  {
    if cids != [] {
      var front := cids[..|cids| - 1];
      assert forall c :: c in cids <==> c in front || c == cids[|cids| - 1];
      DisksOfMeans(s, front, d);
    }
  }

  lemma {:induction false} Join(s: State, a: seq<Step>, b: seq<Step>)
    requires ValidRun(s, a) && ValidRun(After(s, a), b)
    ensures ValidRun(s, a + b) && After(s, a + b) == After(After(s, a), b)
    decreases |a|
  {
    hide Enabled, Next, Obeys;
    if a == [] {
      assert a + b == b;
    } else {
      Join(Next(s, a[0]), a[1..], b);
      assert (a + b)[1..] == a[1..] + b;
    }
  }

  lemma One(s: State, st: Step)
    requires Enabled(s, st) && Assumed(s, st)
    ensures ValidRun(s, [st]) && After(s, [st]) == Next(s, st)
  {
    assert [st][1..] == [];
  }

  function RefreshSteps(maxDisks: nat, cids: seq<Cid>): seq<Step> {
    [RefreshBegin(None)] + Scans(maxDisks) + [TakeList] + Inspections(cids) + [RefreshEnd]
  }

  lemma RefreshRun(s: State, cids: seq<Cid>)
    requires s.lock.Open? && NoDup(cids) && forall c :: c in cids <==> c in s.containers
    ensures ValidRun(s, RefreshSteps(s.maxDisks, cids))
    ensures After(s, RefreshSteps(s.maxDisks, cids))
            == s.(tbl := MarkAll(ScanAll(s.tbl, Times(s.maxDisks, s.now)), DisksOf(s, cids)))
  {
    var n := s.maxDisks;
    One(s, RefreshBegin(None));
    var a := [RefreshBegin(None)];
    ScansRun(After(s, a), n);
    Join(s, a, Scans(n));
    hide ScanAll, MarkAll, Enabled, Next, RunUnder, After;
    var b := a + Scans(n);
    TakesList(s, After(s, b));
    Join(s, b, [TakeList]);
    var c := b + [TakeList];
    InspectionsRun(After(s, c), cids);
    SameDisks(s, After(s, c), cids);
    Join(s, c, Inspections(cids));
    var d := c + Inspections(cids);
    assert s.containers.Keys - (set x <- cids) == {};
    EndsRefresh(After(s, d));
    Join(s, d, [RefreshEnd]);
  }

  lemma TakesList(s: State, e: State)
    requires e.lock == Scanning(s.maxDisks, None) && e.maxDisks == s.maxDisks
    ensures ValidRun(e, [TakeList]) && After(e, [TakeList]) == e.(lock := Inspecting(e.containers.Keys))
  {
    One(e, TakeList);
  }

  lemma EndsRefresh(e: State)
    requires e.lock == Inspecting({})
    ensures ValidRun(e, [RefreshEnd]) && After(e, [RefreshEnd]) == e.(lock := Open)
  {
    One(e, RefreshEnd);
  }

  lemma {:induction false} SameDisks(s: State, e: State, cids: seq<Cid>)
    requires e.containers == s.containers && forall c <- cids :: c in s.containers
    ensures DisksOf(e, cids) == DisksOf(s, cids)
  {
    if cids != [] {
      SameDisks(s, e, cids[..|cids| - 1]);
    }
  }

  // No disk is lost: whatever has come before, after an undisturbed refresh every disk is free
  // that no container has and no running reservation names, and no other; nothing else changes.
  lemma RefreshFindsFree(s: State, cids: seq<Cid>, d: int)
    requires s.lock.Open? && NoDup(cids) && (forall c :: c in cids <==> c in s.containers) && 0 <= d < s.maxDisks
    ensures ValidRun(s, RefreshSteps(s.maxDisks, cids))
    ensures var e := After(s, RefreshSteps(s.maxDisks, cids));
            && (IsFree(e.tbl, d) <==>
                  && (forall c <- s.containers :: s.containers[c].disk != d)
                  && !(d in s.tbl.reserved && s.tbl.reserved[d] >= s.now))
            && e == s.(tbl := e.tbl)
  {
    RefreshRun(s, cids);
    RefreshDecides(s.tbl, Times(s.maxDisks, s.now), DisksOf(s, cids), d);
    DisksOfMeans(s, cids, d);
  }

  lemma RefresherTakes(s: State, hid: nat, d: int)
    requires s.lock.Open? && hid !in s.holders && Covers(s.tbl, s.maxDisks)
    requires d == FirstUnused(s.tbl, 0, s.maxDisks) >= 0
    ensures ValidRun(s, [Reserve(hid, 0, Refreshing)])
    ensures After(s, [Reserve(hid, 0, Refreshing)])
            == s.(tbl := MarkUsed(s.tbl, d, true, RESERVE_SECS, s.now),
                  holders := s.holders[hid := Holder(d, s.now + RESERVE_SECS, Refreshing)])
  {
    One(s, Reserve(hid, 0, Refreshing));
    hide FirstUnused, MarkUsed, RunUnder, After;
  }

  lemma RefresherFinishes(s: State, hid: nat)
    requires s.lock.Open? && hid in s.holders && s.holders[hid].work.Refreshing?
    ensures var d := s.holders[hid].disk;
            && ValidRun(s, [BlankDisk(hid), Unreserve(hid)])
            && After(s, [BlankDisk(hid), Unreserve(hid)])
               == s.(tbl := MarkUsed(s.tbl, d, false, 0, s.now), holders := s.holders - {hid},
                     disks := s.disks[d := Blank(s.image, true)])
  {
    hide Blank, MarkUsed;
    One(s, BlankDisk(hid));
    var s1 := Next(s, BlankDisk(hid));
    One(s1, Unreserve(hid));
    Join(s, [BlankDisk(hid)], [Unreserve(hid)]);
    assert [BlankDisk(hid)] + [Unreserve(hid)] == [BlankDisk(hid), Unreserve(hid)];
  }

  // The image refresher gives back each disk it takes, blank with the current image, and leaves
  // the others alone.
  lemma RefresherGivesBack(s: State, hid: nat)
    requires s.lock.Open? && hid !in s.holders && Covers(s.tbl, s.maxDisks) && FirstUnused(s.tbl, 0, s.maxDisks) >= 0
    ensures var d := FirstUnused(s.tbl, 0, s.maxDisks);
            var steps := [Reserve(hid, 0, Refreshing), BlankDisk(hid), Unreserve(hid)];
            && ValidRun(s, steps)
            && After(s, steps) == s.(tbl := Table(s.tbl.used, s.tbl.reserved - {d}),
                                     disks := s.disks[d := Blank(s.image, true)])
  {
    hide Blank, RunUnder, After, FirstUnused;
    var d := FirstUnused(s.tbl, 0, s.maxDisks);
    assert IsFree(s.tbl, d);
    RefresherTakes(s, hid, d);
    var s1 := After(s, [Reserve(hid, 0, Refreshing)]);
    RefresherFinishes(s1, hid);
    Join(s, [Reserve(hid, 0, Refreshing)], [BlankDisk(hid), Unreserve(hid)]);
    assert [Reserve(hid, 0, Refreshing)] + [BlankDisk(hid), Unreserve(hid)]
           == [Reserve(hid, 0, Refreshing), BlankDisk(hid), Unreserve(hid)];
    assert s1.holders - {hid} == s.holders;
    assert s1.tbl.used[d := false] == s.tbl.used;
    assert s1.tbl.reserved - {d} == s.tbl.reserved - {d};
  }
}
