/**
 What users find on their disks over whole runs: a session's disk changes only by what the
 session writes, and what a backed-up session left comes back in the user's next one
 (engine/src/juliabox/plugins/vol_loopback/loopback.py, vol/jbox_volume.py,
 interactive/sess_container.py). Who a session belongs to, and what was backed up, is told
 from the steps alone.
 */
module DiskSessions {
  import opened Basics
  import opened ContainerNames
  import opened DiskTable
  import opened UserHome
  import opened DiskLifecycle

  lemma {:induction false} Split(s: State, steps: seq<Step>)
    requires ValidRun(s, steps) && steps != []
    ensures var front, last := steps[..|steps| - 1], steps[|steps| - 1];
            && ValidRun(s, front) && Enabled(After(s, front), last) && Assumed(After(s, front), last)
            && After(s, steps) == Next(After(s, front), last)
    decreases |steps|
  {
    hide Enabled, Next, Obeys;
    if |steps| > 1 {
      Split(Next(s, steps[0]), steps[1..]);
      assert steps[1..][..|steps| - 2] == steps[..|steps| - 1][1..];
    } else {
      assert steps[..0] == [];
    }
  }

  // ---------- Whose sessions ----------

  // The user for whom the holder last reserved a disk
  function LauncherOf(steps: seq<Step>, hid: nat): Option<User> {
    if steps == [] then None
    else
      match steps[|steps| - 1]
      case Reserve(h, _, Launching(u, _)) => if h == hid then Some(u) else LauncherOf(steps[..|steps| - 1], hid)
      case _ => LauncherOf(steps[..|steps| - 1], hid)
  }

  // The user for whom the container was created, or whose it was at the start
  function OwnerOf(s: State, steps: seq<Step>, cid: Cid): Option<User> {
    if steps == [] then if cid in s.containers then Some(s.containers[cid].user) else None
    else
      var front := steps[..|steps| - 1];
      match steps[|steps| - 1]
      case Create(hid, c) => if c == cid then LauncherOf(front, hid) else OwnerOf(s, front, cid)
      case _ => OwnerOf(s, front, cid)
  }

  ghost predicate AreKnown(s: State, steps: seq<Step>, e: State) {
    && e.digests == s.digests
    && (forall cid <- e.containers :: OwnerOf(s, steps, cid) == Some(e.containers[cid].user))
    && (forall hid <- e.holders ::
          e.holders[hid].work.Launching? ==> LauncherOf(steps, hid) == Some(e.holders[hid].work.user))
  }

  lemma StepKeepsKnown(s: State, front: seq<Step>, e: State, st: Step)
    requires Enabled(e, st) && AreKnown(s, front, e)
    ensures AreKnown(s, front + [st], Next(e, st))
  {
    hide Blank, Prepared, RestoreOver, Found, UniqueSessname, EscSessname, IsBackupOf, ScanOne, MarkUsed, FirstUnused;
    assert (front + [st])[..|front|] == front;
  }

  lemma {:induction false} OwnersAreKnown(s: State, steps: seq<Step>)
    requires Init(s) && ValidRun(s, steps)
    ensures AreKnown(s, steps, After(s, steps))
    decreases |steps|
  {
    hide Enabled, Next, AreKnown;
    if steps == [] {
      NobodyLaunches(s);
    } else {
      Split(s, steps);
      var front := steps[..|steps| - 1];
      OwnersAreKnown(s, front);
      StepKeepsKnown(s, front, After(s, front), steps[|steps| - 1]);
      assert front + [steps[|steps| - 1]] == steps;
    }
  }

  lemma NobodyLaunches(s: State)
    requires Init(s)
    ensures AreKnown(s, [], s)
  {
  }

  // ---------- A session's files ----------

  // What the session wrote last, or else what it was given
  ghost function SessionFiles(s: State, steps: seq<Step>, cid: Cid): Files
    requires ValidRun(s, steps)
    decreases |steps|
  {
    if steps == [] then if cid in s.containers then FilesOn(s, s.containers[cid].disk) else map[]
    else
      Split(s, steps);
      var front := steps[..|steps| - 1];
      match steps[|steps| - 1]
      case SessionWrites(c, files) => if c == cid then files else SessionFiles(s, front, cid)
      case Create(hid, c) =>
        if c == cid then FilesOn(After(s, front), After(s, front).holders[hid].disk) else SessionFiles(s, front, cid)
      case _ => SessionFiles(s, front, cid)
  }

  predicate IsLive(s: State, cid: Cid) {
    cid in s.containers && s.containers[cid].phase.Live?
  }

  lemma OthersLeaveSessionAlone(e: State, st: Step, cid: Cid)
    requires AllocInv(e) && Enabled(e, st) && IsLive(Next(e, st), cid)
    requires !(st.SessionWrites? && st.cid == cid) && !(st.Create? && st.cid == cid)
    ensures IsLive(e, cid) && Next(e, st).containers[cid].disk == e.containers[cid].disk
    ensures FilesOn(Next(e, st), e.containers[cid].disk) == FilesOn(e, e.containers[cid].disk)
  {
    StepFrame(e, st);
    hide Blank, Prepared, RestoreOver, Found, UniqueSessname, EscSessname, IsBackupOf, ScanOne, MarkUsed, FirstUnused;
    hide TableInv;
  }

  lemma InvHolds(s: State, steps: seq<Step>)
    requires Init(s) && ValidRun(s, steps)
    ensures AllocInv(After(s, steps)) && ContentInv(After(s, steps))
  {
    RunKeepsInv(s, steps);
  }

  lemma LiveIsListed(s: State, cid: Cid)
    requires IsLive(s, cid)
    ensures cid in s.containers
  {
  }

  lemma SessionGets(e: State, st: Step, cid: Cid)
    requires Enabled(e, st) && IsLive(Next(e, st), cid)
    ensures st.SessionWrites? && st.cid == cid ==>
              FilesOn(Next(e, st), Next(e, st).containers[cid].disk) == st.files
    ensures st.Create? && st.cid == cid ==>
              st.hid in e.holders
              && FilesOn(Next(e, st), Next(e, st).containers[cid].disk) == FilesOn(e, e.holders[st.hid].disk)
  {
    hide IsBackupOf;
  }

  // In every run a live session's disk holds exactly what the session wrote last, or else what
  // it was given; nobody else ever writes to it.
  lemma {:induction false} SessionKeepsItsFiles(s: State, steps: seq<Step>, cid: Cid)
    requires Init(s) && ValidRun(s, steps) && IsLive(After(s, steps), cid)
    ensures FilesOn(After(s, steps), After(s, steps).containers[cid].disk) == SessionFiles(s, steps, cid)
    decreases |steps|
  {
    hide AllocInv, ContentInv, Init, Next, Enabled, RunUnder, FilesOn, IsLive;
    if steps == [] {
      LiveIsListed(s, cid);
    } else {
      Split(s, steps);
      var front, last := steps[..|steps| - 1], steps[|steps| - 1];
      var e := After(s, front);
      InvHolds(s, front);
      SessionGets(e, last, cid);
      if !(last.SessionWrites? && last.cid == cid) && !(last.Create? && last.cid == cid) {
        OthersLeaveSessionAlone(e, last, cid);
        SessionKeepsItsFiles(s, front, cid);
      }
    }
  }

  // ---------- What comes back ----------

  // The user's last backed-up release: the archive taken, and what the session left
  ghost predicate IsBackedUp(s: State, front: seq<Step>, st: Step, u: User) {
    st.Release? && st.backup.Some? && OwnerOf(s, front, st.cid) == Some(u)
  }

  ghost function LastBackup(s: State, steps: seq<Step>, u: User): Option<Archive> {
    if steps == [] then None
    else
      var front, last := steps[..|steps| - 1], steps[|steps| - 1];
      if IsBackedUp(s, front, last, u) then last.backup else LastBackup(s, front, u)
  }

  ghost function LastLeft(s: State, steps: seq<Step>, u: User): Option<Files>
    requires ValidRun(s, steps)
    decreases |steps|
  {
    if steps == [] then None
    else
      Split(s, steps);
      var front, last := steps[..|steps| - 1], steps[|steps| - 1];
      if IsBackedUp(s, front, last, u) then Some(SessionFiles(s, front, last.cid)) else LastLeft(s, front, u)
  }

  // The archive that a launch for the user restores
  ghost predicate WillRestore(s: State, steps: seq<Step>, e: State, u: User) {
    SourceFor(e, u) == match LastBackup(s, steps, u)
                       case Some(archive) => archive
                       case None => SourceFor(s, u)
  }

  lemma StoreKeepsOthers(e: State, st: Step, u: User)
    requires KnownUsers(e.digests) && u in e.digests && Enabled(e, st)
    requires st.Release? && st.backup.Some? ==> e.containers[st.cid].user in e.digests && e.containers[st.cid].user != u
    ensures SourceFor(Next(e, st), u) == SourceFor(e, u)
  {
    hide Blank, Prepared, RestoreOver, UniqueSessname, EscSessname, IsBackupOf, ScanOne, MarkUsed, FirstUnused;
    if st.Release? && st.backup.Some? {
      NamesDiffer(e, u, e.containers[st.cid].user);
    }
  }

  lemma BackupIsFound(e: State, st: Step, u: User)
    requires Enabled(e, st) && st.Release? && st.backup.Some? && e.containers[st.cid].user == u
    ensures SourceFor(Next(e, st), u) == st.backup.value
  {
    hide Blank, Prepared, RestoreOver, UniqueSessname, EscSessname, IsBackupOf;
  }

  // In every run the archive found for a user is that of the user's last backed-up release, or
  // the one found at the start when there was none since.
  lemma {:induction false} LastBackupIsFound(s: State, steps: seq<Step>, u: User)
    requires Init(s) && ValidRun(s, steps) && u in s.digests
    ensures WillRestore(s, steps, After(s, steps), u)
    decreases |steps|
  {
    hide Enabled, Next, SourceFor;
    if steps != [] {
      Split(s, steps);
      var front, last := steps[..|steps| - 1], steps[|steps| - 1];
      var e := After(s, front);
      RunKeepsInv(s, front);
      OwnersAreKnown(s, front);
      LastBackupIsFound(s, front, u);
      ReleasesKnown(s, front, e, last);
      hide AllocInv, ContentInv, AreKnown;
      if IsBackedUp(s, front, last, u) {
        BackupIsFound(e, last, u);
      } else {
        StoreKeepsOthers(e, last, u);
      }
    }
  }

  lemma ReleasesKnown(s: State, front: seq<Step>, e: State, st: Step)
    requires ContentInv(e) && AreKnown(s, front, e) && Enabled(e, st)
    ensures KnownUsers(e.digests) && e.digests == s.digests
    ensures st.Release? ==>
              && IsLive(e, st.cid) && e.containers[st.cid].user in e.digests
              && OwnerOf(s, front, st.cid) == Some(e.containers[st.cid].user)
  {
  }

  // That archive is a backup of what the session left.
  lemma {:induction false} BackupIsOfWhatWasLeft(s: State, steps: seq<Step>, u: User)
    requires Init(s) && ValidRun(s, steps)
    ensures LastLeft(s, steps, u).Some? <==> LastBackup(s, steps, u).Some?
    ensures LastLeft(s, steps, u).Some? ==>
              && IsBackupOf(LastBackup(s, steps, u).value, LastLeft(s, steps, u).value)
              && AllClean(LastLeft(s, steps, u).value)
    decreases |steps|
  {
    hide Next, IsBackupOf, AllClean;
    if steps != [] {
      Split(s, steps);
      var front, last := steps[..|steps| - 1], steps[|steps| - 1];
      BackupIsOfWhatWasLeft(s, front, u);
      if IsBackedUp(s, front, last, u) {
        SessionKeepsItsFiles(s, front, last.cid);
        RunKeepsInv(s, front);
        DisksAreClean(After(s, front), After(s, front).containers[last.cid].disk);
      }
    }
  }

  lemma DisksAreClean(e: State, d: int)
    requires ContentInv(e)
    ensures AllClean(FilesOn(e, d))
  {
  }

  // A launch restores it over a home image, and keeps it on the disk until the container starts.
  lemma FilledIsRestored(e: State, hid: nat, room: nat) returns (img: Image)
    requires AllocInv(e) && ContentInv(e) && Enabled(e, Fill(hid, room))
    ensures img in e.images
    ensures var h := e.holders[hid];
            var e' := Next(e, Fill(hid, room));
            && hid in e'.holders && e'.holders[hid].disk == h.disk && IsFilled(e', hid)
            && FilesOn(e', h.disk) == RestoreOver(img.files, Fitting(SourceFor(e, h.work.user), room))
  {
    hide RestoreOver, AllocInv, SourceFor;
    var h := e.holders[hid];
    assert StageInv(e, h);
    img :| img in e.images && img.mtime >= h.work.stage.asOf && FilesOn(e, h.disk) == img.files;
  }

  predicate IsFilled(s: State, hid: nat) {
    IsLaunch(s, hid) && s.holders[hid].work.stage.Filled?
  }

  predicate EndsLaunch(st: Step, hid: nat) {
    st == Abort(hid) || (st.Create? && st.hid == hid)
  }

  lemma {:induction false} FilledStays(e: State, steps: seq<Step>, hid: nat)
    requires AllocInv(e) && ContentInv(e) && ValidRun(e, steps) && IsFilled(e, hid)
    requires forall st <- steps :: !EndsLaunch(st, hid)
    ensures var e' := After(e, steps);
            && IsFilled(e', hid) && e'.holders[hid] == e.holders[hid]
            && FilesOn(e', e.holders[hid].disk) == FilesOn(e, e.holders[hid].disk)
    decreases |steps|
  {
    if steps != [] {
      StepKeepsAllocInv(e, steps[0]);
      StepKeepsContentInv(e, steps[0]);
      FilledStaysAt(e, steps[0], hid);
      hide AllocInv, ContentInv, Enabled, Next, IsFilled;
      assert forall st <- steps[1..] :: st in steps;
      FilledStays(Next(e, steps[0]), steps[1..], hid);
    }
  }

  lemma FilledStaysAt(e: State, st: Step, hid: nat)
    requires AllocInv(e) && Enabled(e, st) && IsFilled(e, hid) && !EndsLaunch(st, hid)
    ensures var e' := Next(e, st);
            && IsFilled(e', hid) && e'.holders[hid] == e.holders[hid]
            && FilesOn(e', e.holders[hid].disk) == FilesOn(e, e.holders[hid].disk)
  {
    HolderStays(e, st, hid);
    OthersKeepTheirDisks(e, st, hid);
    StepFrame(e, st);
  }

  lemma HolderStays(e: State, st: Step, hid: nat)
    requires Enabled(e, st) && IsFilled(e, hid) && !EndsLaunch(st, hid)
    ensures hid in Next(e, st).holders
    ensures !((st.Prepare? || st.Fill? || st.BlankDisk?) && st.hid == hid)
  {
    hide Blank, Prepared, RestoreOver, Found, UniqueSessname, EscSessname, IsBackupOf, ScanOne, MarkUsed, FirstUnused;
  }

  lemma LauncherIsKnown(s: State, steps: seq<Step>, hid: nat)
    requires Init(s) && ValidRun(s, steps) && IsLaunch(After(s, steps), hid)
    ensures LauncherOf(steps, hid) == Some(After(s, steps).holders[hid].work.user)
    ensures After(s, steps).holders[hid].work.user in s.digests
  {
    OwnersAreKnown(s, steps);
    RunKeepsInv(s, steps);
    assert StageInv(After(s, steps), After(s, steps).holders[hid]);
  }

  lemma {:induction false} ImagesStay(e: State, steps: seq<Step>)
    requires ValidRun(e, steps)
    ensures e.images <= After(e, steps).images
    decreases |steps|
  {
    hide Enabled, Next;
    if steps != [] {
      StepFrame(e, steps[0]);
      ImagesStay(Next(e, steps[0]), steps[1..]);
    }
  }

  lemma FillKeepsImages(e: State, hid: nat, room: nat)
    requires Enabled(e, Fill(hid, room))
    ensures Next(e, Fill(hid, room)).images == e.images
    ensures Next(e, Fill(hid, room)).holders[hid].work.user == e.holders[hid].work.user
  {
    hide RestoreOver, SourceFor, OriginFor;
  }

  lemma CreateHandsOver(e: State, hid: nat, cid: Cid)
    requires Enabled(e, Create(hid, cid))
    ensures var e' := Next(e, Create(hid, cid));
            && cid in e'.containers && e'.containers[cid].user == e.holders[hid].work.user && e'.images == e.images
            && FilesOn(e', e'.containers[cid].disk) == FilesOn(e, e.holders[hid].disk)
  {
  }

  // What a backed-up session of a user left is on the disk of the user's next container: if a
  // launch finds room for the archive, then whatever else goes on until its container is
  // created, every path that the user may keep has the content that the last such session left,
  // and every other path that of a home image.
  lemma SessionContinues(s: State, steps: seq<Step>, hid: nat, room: nat, later: seq<Step>, cid: Cid)
    returns (img: Image)
    requires Init(s) && ValidRun(s, steps) && Enabled(After(s, steps), Fill(hid, room))
    requires var u := After(s, steps).holders[hid].work.user;
             LastBackup(s, steps, u).Some? && |LastBackup(s, steps, u).value| <= room
    requires Assumed(After(s, steps), Fill(hid, room)) && ValidRun(Next(After(s, steps), Fill(hid, room)), later)
    requires forall st <- later :: !EndsLaunch(st, hid)
    requires Enabled(After(Next(After(s, steps), Fill(hid, room)), later), Create(hid, cid))
    ensures LauncherOf(steps, hid).Some? && LastLeft(s, steps, LauncherOf(steps, hid).value).Some?
    ensures var left := LastLeft(s, steps, LauncherOf(steps, hid).value).value;
            var e := Next(After(Next(After(s, steps), Fill(hid, room)), later), Create(hid, cid));
            var files := FilesOn(e, e.containers[cid].disk);
            && img in e.images && Some(e.containers[cid].user) == LauncherOf(steps, hid)
            && forall p ::
                 if p in left && !IsEssential(p) then p in files && files[p] == left[p]
                 else (p in files <==> p in img.files) && (p in files ==> files[p] == img.files[p])
  {
    var before := After(s, steps);
    var u, d := before.holders[hid].work.user, before.holders[hid].disk;
    var filled := Next(before, Fill(hid, room));
    BackupIsOfWhatWasLeft(s, steps, u);
    var left, archive := LastLeft(s, steps, u).value, LastBackup(s, steps, u).value;
    RunKeepsInv(s, steps);
    LauncherIsKnown(s, steps, hid);
    LastBackupIsFound(s, steps, u);
    img := FilledIsRestored(before, hid, room);
    StepKeepsAllocInv(before, Fill(hid, room));
    StepKeepsContentInv(before, Fill(hid, room));
    BackupRestoreRoundTrip(left, archive, img.files);
    FilledStays(filled, later, hid);
    ImagesStay(filled, later);
    FillKeepsImages(before, hid, room);
    CreateHandsOver(After(filled, later), hid, cid);
    assert Fitting(archive, room) == archive;
  }
}
