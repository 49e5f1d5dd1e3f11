/**
 Disks, launches, containers and the image refresher running together on one instance
 (engine/src/juliabox/plugins/vol_loopback/loopback.py, interactive/sess_container.py,
 jbox_container.py, vol/jbox_volume.py). Every step is what one thread does between two
 points where others can run; a refresh of the disk table holds the lock but is itself cut
 into steps, because containers come and go while it scans and inspects.
 */
module DiskLifecycle {
  import opened Basics
  import opened ContainerNames
  import opened DiskTable
  import opened Strings
  import opened UserHome

  type Cid = string
  type User = string

  // A stored archive, with the user whose session it was taken from
  datatype Saved = Saved(owner: User, archive: Archive)

  // Which archive a launch restored: none, the one under the user's own session name, or one
  // under the name used before session names had digests.
  datatype Origin = Nothing | OwnName | OldName(owner: User)

  // How far a launch has come with its disk. `asOf` is the modification time of the home
  // image that was current when the disk was prepared, `source` the archive restored from.
  datatype Stage = Picked | Ready(asOf: int) | Filled(asOf: int, source: Archive, from: Origin)
  datatype Work = Refreshing | Launching(user: User, stage: Stage)
  datatype Holder = Holder(disk: int, expires: int, work: Work)

  // A released container's disk has been handed back, but Docker still lists the container.
  datatype Phase = Live | Released
  datatype Box = Box(disk: int, user: User, phase: Phase)

  // The refresh in progress, if any. `list` is the container list it was called with.
  datatype Lock =
    | Open
    | Scanning(next: nat, list: Option<set<Cid>>)
    | Inspecting(todo: set<Cid>)

  // `digests` are the digests of all users' addresses. Archives are stored by name. `images`
  // and `archived` remember every home image that was ever current and every archive ever
  // taken, with its owner. Images are as they are on this instance, configuration included.
  datatype State = State(
    maxDisks: nat, now: int, tbl: Table, lock: Lock,
    containers: map<Cid, Box>, holders: map<nat, Holder>,
    disks: map<int, Files>, image: Image, images: set<Image>,
    digests: map<User, string>, store: map<string, Saved>, archived: set<(User, Archive)>)

  datatype Step =
    | Tick(to: int)
    | RefreshBegin(list: Option<set<Cid>>)
    | Scan
    | TakeList
    | Inspect(cid: Cid)
    | InspectFails(cid: Cid)
    | RefreshEnd
    | Reserve(hid: nat, begin: nat, work: Work)
    | Prepare(hid: nat)
    | Fill(hid: nat, room: nat)
    | Create(hid: nat, cid: Cid)
    | Abort(hid: nat)
    | BlankDisk(hid: nat)
    | Unreserve(hid: nat)
    | SessionWrites(cid: Cid, files: Files)
    | Release(cid: Cid, backup: Option<Archive>)
    | Remove(cid: Cid)
    | SwitchImage(image: Image)

  function FilesOn(s: State, d: int): Files {
    if d in s.disks then s.disks[d] else map[]
  }

  function DigestOf(s: State, u: User): string {
    if u in s.digests then s.digests[u] else ""
  }

  function NameOf(s: State, u: User): string {
    UniqueSessname(u, DigestOf(s, u))
  }

  function SourceFor(s: State, u: User): Archive {
    var found := Found(s.store, u, DigestOf(s, u));
    if found.Some? then found.value.archive else []
  }

  function OriginFor(s: State, u: User): Origin {
    if NameOf(s, u) in s.store then OwnName
    else if EscSessname(u) in s.store then OldName(s.store[EscSessname(u)].owner)
    else Nothing
  }

  predicate IsLaunch(s: State, hid: nat) {
    hid in s.holders && s.holders[hid].work.Launching?
  }

  ghost predicate Enabled(s: State, st: Step) {
    match st
    case Tick(to) => to >= s.now
    case RefreshBegin(_) => s.lock.Open?
    case Scan => s.lock.Scanning? && s.lock.next < s.maxDisks
    case TakeList => s.lock.Scanning? && s.lock.next == s.maxDisks
    case Inspect(cid) => s.lock.Inspecting? && cid in s.lock.todo
    case InspectFails(cid) => s.lock.Inspecting? && cid in s.lock.todo
    case RefreshEnd => s.lock.Inspecting? && s.lock.todo == {}
    case Reserve(hid, begin, work) =>
      && s.lock.Open? && hid !in s.holders
      && (work.Launching? ==> work.stage == Picked && work.user in s.digests)
      && Covers(s.tbl, s.maxDisks) && FirstUnused(s.tbl, begin, s.maxDisks) >= 0
    case Prepare(hid) => IsLaunch(s, hid) && s.holders[hid].work.stage.Picked?
    case Fill(hid, _) => IsLaunch(s, hid) && s.holders[hid].work.stage.Ready?
    case Create(hid, cid) => IsLaunch(s, hid) && s.holders[hid].work.stage.Filled? && cid !in s.containers
    case Abort(hid) => hid in s.holders
    case BlankDisk(hid) => hid in s.holders && s.holders[hid].work.Refreshing?
    case Unreserve(hid) => s.lock.Open? && hid in s.holders && s.holders[hid].work.Refreshing?
    case SessionWrites(cid, files) => cid in s.containers && s.containers[cid].phase.Live? && AllClean(files)
    case Release(cid, backup) =>
      && cid in s.containers && s.containers[cid].phase.Live?
      && (backup.Some? ==> IsBackupOf(backup.value, FilesOn(s, s.containers[cid].disk)))
    case Remove(cid) => cid in s.containers && s.containers[cid].phase.Released?
    case SwitchImage(image) => MARKER !in image.files && AllClean(image.files)
  }

  function Advance(s: State, hid: nat, stage: Stage, files: Files): State
    requires IsLaunch(s, hid)
  {
    var h := s.holders[hid];
    s.(holders := s.holders[hid := h.(work := h.work.(stage := stage))], disks := s.disks[h.disk := files])
  }

  ghost function Next(s: State, st: Step): State
    requires Enabled(s, st)
  {
    match st
    case Tick(to) => s.(now := to)
    case RefreshBegin(list) => s.(lock := Scanning(0, list))
    case Scan => s.(tbl := ScanOne(s.tbl, s.lock.next, s.now), lock := s.lock.(next := s.lock.next + 1))
    case TakeList => s.(lock := Inspecting(if s.lock.list.Some? then s.lock.list.value else s.containers.Keys))
    case Inspect(cid) =>
      // inspecting a container that is gone raises, and counts as "mounts nothing"
      s.(tbl := if cid in s.containers then MarkUsed(s.tbl, s.containers[cid].disk, true, 0, s.now) else s.tbl,
         lock := Inspecting(s.lock.todo - {cid}))
    case InspectFails(cid) => s.(lock := Inspecting(s.lock.todo - {cid}))
    case RefreshEnd => s.(lock := Open)
    case Reserve(hid, begin, work) =>
      var d := FirstUnused(s.tbl, begin, s.maxDisks);
      s.(tbl := DiskTable.Reserved(s.tbl, d, s.now),
         holders := s.holders[hid := Holder(d, s.now + RESERVE_SECS, work)])
    case Prepare(hid) =>
      Advance(s, hid, Ready(s.image.mtime), Prepared(FilesOn(s, s.holders[hid].disk), s.image))
    case Fill(hid, room) =>
      var h := s.holders[hid];
      var source := SourceFor(s, h.work.user);
      Advance(s, hid, Filled(h.work.stage.asOf, source, OriginFor(s, h.work.user)),
              RestoreOver(FilesOn(s, h.disk), Fitting(source, room)))
    case Create(hid, cid) =>
      var h := s.holders[hid];
      s.(containers := s.containers[cid := Box(h.disk, h.work.user, Live)], holders := s.holders - {hid})
    case Abort(hid) => s.(holders := s.holders - {hid})
    case BlankDisk(hid) => s.(disks := s.disks[s.holders[hid].disk := Blank(s.image, true)])
    case Unreserve(hid) =>
      s.(tbl := MarkUsed(s.tbl, s.holders[hid].disk, false, 0, s.now), holders := s.holders - {hid})
    case SessionWrites(cid, files) => s.(disks := s.disks[s.containers[cid].disk := files])
    case Release(cid, backup) =>
      var b := s.containers[cid];
      s.(disks := s.disks[b.disk := Blank(s.image, true)],
         store := if backup.Some? then s.store[NameOf(s, b.user) := Saved(b.user, backup.value)] else s.store,
         archived := if backup.Some? then s.archived + {(b.user, backup.value)} else s.archived,
         containers := s.containers[cid := b.(phase := Released)])
    case Remove(cid) => s.(containers := s.containers - {cid})
    case SwitchImage(image) => s.(image := image, images := s.images + {image})
  }

  // What the code relies on and does not enforce.
  // A thread that reserved a disk is done with it before the reservation runs out.
  predicate HoldersInTime(s: State, st: Step) {
    st.Tick? ==> forall hid <- s.holders :: st.to <= s.holders[hid].expires
  }

  // Inspecting a container that exists succeeds.
  predicate InspectionsSucceed(s: State, st: Step) {
    st.InspectFails? ==> st.cid !in s.containers
  }

  // A container list taken before the refresh began misses a container only while the
  // reservation made for its launch still runs.
  predicate ListRecentEnough(s: State, st: Step) {
    st.Scan? && s.lock.Scanning? && s.lock.list.Some? ==>
      forall cid <- s.containers :: s.containers[cid].disk == s.lock.next ==>
        cid in s.lock.list.value || IsLiveReservation(s.tbl, s.lock.next, s.now)
  }

  // Which of the three a run is required to respect.
  datatype Rules = Rules(inTime: bool, inspect: bool, recent: bool)
  const ALL_RULES := Rules(true, true, true)

  predicate Obeys(s: State, st: Step, rules: Rules) {
    && (rules.inTime ==> HoldersInTime(s, st))
    && (rules.inspect ==> InspectionsSucceed(s, st))
    && (rules.recent ==> ListRecentEnough(s, st))
  }

  predicate Assumed(s: State, st: Step) {
    Obeys(s, st, ALL_RULES)
  }

  // ---------- Safety: no two holders share a disk ----------

  ghost predicate Exclusive(s: State) {
    && (forall a, b :: a in s.containers && b in s.containers && a != b ==> s.containers[a].disk != s.containers[b].disk)
    && (forall a, b :: a in s.holders && b in s.holders && a != b ==> s.holders[a].disk != s.holders[b].disk)
    && (forall a, b :: a in s.containers && b in s.holders ==> s.containers[a].disk != s.holders[b].disk)
  }

  predicate InUse(t: Table, d: int) {
    d in t.used && t.used[d]
  }

  // A container's disk is marked, or the running refresh is still going to mark it.
  predicate Tracked(s: State, cid: Cid)
    requires cid in s.containers
  {
    var d := s.containers[cid].disk;
    match s.lock
    case Open => InUse(s.tbl, d)
    case Scanning(_, None) => true
    case Scanning(_, Some(list)) => InUse(s.tbl, d) || cid in list
    case Inspecting(todo) => InUse(s.tbl, d) || cid in todo
  }

  predicate Held(s: State, h: Holder) {
    && 0 <= h.disk < s.maxDisks && InUse(s.tbl, h.disk)
    && h.disk in s.tbl.reserved && s.tbl.reserved[h.disk] == h.expires >= s.now
  }

  ghost predicate TableInv(s: State) {
    && (s.lock.Scanning? ==> s.lock.next <= s.maxDisks && Covers(s.tbl, s.lock.next))
    && (!s.lock.Scanning? ==> Covers(s.tbl, s.maxDisks))
    && (forall cid <- s.containers :: Tracked(s, cid))
    && (forall hid <- s.holders :: Held(s, s.holders[hid]))
  }

  ghost predicate AllocInv(s: State) {
    Exclusive(s) && TableInv(s)
  }

  predicate IsRefreshStep(st: Step) {
    st.RefreshBegin? || st.Scan? || st.TakeList? || st.Inspect? || st.InspectFails? || st.RefreshEnd?
  }

  lemma RefreshStepKeepsAllocInv(s: State, st: Step)
    requires AllocInv(s) && Enabled(s, st) && Assumed(s, st)
    requires IsRefreshStep(st)
    ensures AllocInv(Next(s, st))
  {
    var s' := Next(s, st);
    forall hid | hid in s'.holders ensures Held(s', s'.holders[hid]) {
      assert Held(s, s.holders[hid]);
    }
    forall cid | cid in s'.containers ensures Tracked(s', cid) {
      assert Tracked(s, cid);
    }
  }

  // Scanning an index keeps track of all containers exactly when the list is recent enough for
  // that index; the assumption asks for no more than the refresh needs.
  lemma ScanTracksIff(s: State)
    requires AllocInv(s) && Enabled(s, Scan)
    ensures AllocInv(Next(s, Scan)) <==> ListRecentEnough(s, Scan)
  {
    if ListRecentEnough(s, Scan) {
      RefreshStepKeepsAllocInv(s, Scan);
    } else {
      var s' := Next(s, Scan);
      var cid :| cid in s.containers && s.containers[cid].disk == s.lock.next
                 && !(cid in s.lock.list.value || IsLiveReservation(s.tbl, s.lock.next, s.now));
      assert cid in s'.containers && !Tracked(s', cid);
    }
  }

  lemma ReserveKeepsAllocInv(s: State, st: Step)
    requires AllocInv(s) && Enabled(s, st) && st.Reserve?
    ensures AllocInv(Next(s, st))
  {
    var s' := Next(s, st);
    var d := FirstUnused(s.tbl, st.begin, s.maxDisks);
    forall cid | cid in s'.containers ensures Tracked(s', cid) && s'.containers[cid].disk != d {
      assert Tracked(s, cid);
    }
    forall hid | hid in s'.holders ensures Held(s', s'.holders[hid]) {
      if hid != st.hid {
        assert Held(s, s.holders[hid]);
      }
    }
    forall hid | hid in s.holders ensures s.holders[hid].disk != d {
      assert Held(s, s.holders[hid]);
    }
  }

  // Steps that leave the table and everybody's disk alone
  lemma SameDisksKeepAllocInv(s: State, s': State)
    requires AllocInv(s) && s'.tbl == s.tbl && s'.lock == s.lock && s'.maxDisks == s.maxDisks && s'.now == s.now
    requires s'.containers.Keys <= s.containers.Keys && s'.holders.Keys <= s.holders.Keys
    requires forall cid <- s'.containers :: s'.containers[cid].disk == s.containers[cid].disk
    requires forall hid <- s'.holders ::
               s'.holders[hid].disk == s.holders[hid].disk && s'.holders[hid].expires == s.holders[hid].expires
    ensures AllocInv(s')
  {
    forall cid | cid in s'.containers ensures Tracked(s', cid) {
      assert Tracked(s, cid);
    }
    forall hid | hid in s'.holders ensures Held(s', s'.holders[hid]) {
      assert Held(s, s.holders[hid]);
    }
  }

  lemma CreateKeepsAllocInv(s: State, st: Step)
    requires AllocInv(s) && Enabled(s, st) && st.Create?
    ensures AllocInv(Next(s, st))
  {
    var s' := Next(s, st);
    assert Held(s, s.holders[st.hid]);
    forall hid | hid in s'.holders ensures Held(s', s'.holders[hid]) {
      assert Held(s, s.holders[hid]);
    }
    forall cid | cid in s'.containers ensures Tracked(s', cid) {
      assert cid in s.containers ==> Tracked(s, cid);
    }
  }

  lemma TickKeepsAllocInv(s: State, st: Step)
    requires AllocInv(s) && Enabled(s, st) && Assumed(s, st) && st.Tick?
    ensures AllocInv(Next(s, st))
  {
    var s' := Next(s, st);
    forall hid | hid in s'.holders ensures Held(s', s'.holders[hid]) {
      assert Held(s, s.holders[hid]);
    }
    forall cid | cid in s'.containers ensures Tracked(s', cid) {
      assert Tracked(s, cid);
    }
  }

  lemma UnreserveKeepsAllocInv(s: State, st: Step)
    requires AllocInv(s) && Enabled(s, st) && st.Unreserve?
    ensures AllocInv(Next(s, st))
  {
    var s' := Next(s, st);
    forall hid | hid in s'.holders ensures Held(s', s'.holders[hid]) {
      assert Held(s, s.holders[hid]);
    }
    forall cid | cid in s'.containers ensures Tracked(s', cid) {
      assert Tracked(s, cid);
    }
  }

  lemma StepKeepsAllocInv(s: State, st: Step)
    requires AllocInv(s) && Enabled(s, st) && Assumed(s, st)
    ensures AllocInv(Next(s, st))
  {
    if IsRefreshStep(st) {
      RefreshStepKeepsAllocInv(s, st);
    } else if st.Reserve? {
      ReserveKeepsAllocInv(s, st);
    } else if st.Create? {
      CreateKeepsAllocInv(s, st);
    } else if st.Tick? {
      TickKeepsAllocInv(s, st);
    } else if st.Unreserve? {
      UnreserveKeepsAllocInv(s, st);
    } else {
      hide AllocInv;
      SameDisksKeepAllocInv(s, Next(s, st));
    }
  }

  // ---------- Content: what a disk holds when it is handed over ----------

  predicate Occupied(s: State, d: int) {
    exists cid <- s.containers :: s.containers[cid].disk == d && s.containers[cid].phase.Live?
  }

  // The marker is trustworthy: the disk holds one of the home images and nothing else.
  predicate MarkerMeansBlank(s: State, d: int) {
    MARKER in FilesOn(s, d) ==> exists img <- s.images :: FilesOn(s, d) == Blank(img, true)
  }

  ghost predicate ReadyDisk(s: State, h: Holder, asOf: int) {
    exists img <- s.images :: img.mtime >= asOf && FilesOn(s, h.disk) == img.files
  }

  ghost predicate HandedOver(files: Files, images: set<Image>, asOf: int, source: Archive) {
    exists img, room: nat :: img in images && img.mtime >= asOf && files == RestoreOver(img.files, Fitting(source, room))
  }

  // Whose archive a launch restored from
  predicate IsFrom(s: State, user: User, source: Archive, from: Origin) {
    match from
    case Nothing => source == []
    case OwnName => (user, source) in s.archived
    case OldName(owner) => owner in s.digests && (owner, source) in s.archived && EscSessname(owner) == EscSessname(user)
  }

  ghost predicate StageInv(s: State, h: Holder) {
    h.work.Launching? ==>
      && h.work.user in s.digests
      && match h.work.stage
         case Picked => true
         case Ready(asOf) => ReadyDisk(s, h, asOf)
         case Filled(asOf, source, from) =>
           && HandedOver(FilesOn(s, h.disk), s.images, asOf, source) && IsFrom(s, h.work.user, source, from)
           && MARKER !in FilesOn(s, h.disk)
  }

  // Digests are digests, those of different users differ, and no address without the digest
  // reads like a session name with one.
  ghost predicate KnownUsers(digests: map<User, string>) {
    && (forall u <- digests :: IsDigest(digests[u]))
    && (forall u, v :: u in digests && v in digests && u != v ==> digests[u] != digests[v])
    && (forall u, v :: u in digests && v in digests ==> EscSessname(u) != UniqueSessname(v, digests[v]))
  }

  // Archives are stored under one of their owners' two names, and are as backups make them.
  ghost predicate StoreInv(s: State) {
    && KnownUsers(s.digests)
    && (forall n <- s.store ::
          && s.store[n].owner in s.digests && (s.store[n].owner, s.store[n].archive) in s.archived
          && IsPlain(s.store[n].archive)
          && (n == EscSessname(s.store[n].owner) || n == NameOf(s, s.store[n].owner)))
    && (forall cid <- s.containers :: s.containers[cid].user in s.digests)
  }

  ghost predicate DisksInv(s: State) {
    && s.image in s.images
    && (forall img <- s.images :: MARKER !in img.files && AllClean(img.files))
    && (forall d :: AllClean(FilesOn(s, d)))
    && (forall d {:trigger MarkerMeansBlank(s, d)} :: Occupied(s, d) || MarkerMeansBlank(s, d))
  }

  ghost predicate ContentInv(s: State) {
    DisksInv(s) && StoreInv(s) && forall hid <- s.holders :: StageInv(s, s.holders[hid])
  }

  // ---------- Whose archive is restored ----------

  lemma NamesDiffer(s: State, u: User, v: User)
    requires KnownUsers(s.digests) && u in s.digests && v in s.digests && u != v
    ensures NameOf(s, u) != NameOf(s, v)
  {
    SessionNamesDiffer(u, s.digests[u], v, s.digests[v]);
  }

  lemma StoredUnder(s: State, u: User)
    requires StoreInv(s) && u in s.digests
    ensures NameOf(s, u) in s.store ==> s.store[NameOf(s, u)].owner == u
    ensures EscSessname(u) in s.store ==> EscSessname(s.store[EscSessname(u)].owner) == EscSessname(u)
  {
    if NameOf(s, u) in s.store && s.store[NameOf(s, u)].owner != u {
      NamesDiffer(s, u, s.store[NameOf(s, u)].owner);
    }
  }

  // The archive restored for a user is the user's own if and only if there is one under the
  // session name with a digest, or none under the name without, or that one is the user's.
  lemma RestoredIsOwnIff(s: State, u: User)
    requires StoreInv(s) && u in s.digests
    ensures var found := Found(s.store, u, DigestOf(s, u));
            (found.None? || found.value.owner == u) <==>
            (NameOf(s, u) in s.store || EscSessname(u) !in s.store || s.store[EscSessname(u)].owner == u)
    ensures IsFrom(s, u, SourceFor(s, u), OriginFor(s, u)) && IsPlain(SourceFor(s, u))
  {
    StoredUnder(s, u);
  }

  // A disk whose marker is in date holds an image at least as recent as the current one.
  lemma PreparedIsImage(s: State, d: int) returns (img: Image)
    requires s.image in s.images && MarkerMeansBlank(s, d)
    requires forall img <- s.images :: MARKER !in img.files
    ensures img in s.images && img.mtime >= s.image.mtime && Prepared(FilesOn(s, d), s.image) == img.files
  {
    if IsRefreshed(FilesOn(s, d), s.image) {
      img :| img in s.images && FilesOn(s, d) == Blank(img, true);
      assert img.files[MARKER := Stamp(img.mtime)] - {MARKER} == img.files;
    } else {
      img := s.image;
    }
  }

  lemma PrepareKeepsStage(s: State, st: Step)
    requires AllocInv(s) && ContentInv(s) && Enabled(s, st) && st.Prepare?
    ensures var s' := Next(s, st);
            && StageInv(s', s'.holders[st.hid]) && MARKER !in FilesOn(s', s'.holders[st.hid].disk)
            && AllClean(FilesOn(s', s'.holders[st.hid].disk))
  {
    hide RestoreOver, IsClean;
    var d := s.holders[st.hid].disk;
    assert !Occupied(s, d);
    assert StageInv(s, s.holders[st.hid]);
    var img := PreparedIsImage(s, d);
  }

  lemma FillKeepsStage(s: State, st: Step)
    requires AllocInv(s) && ContentInv(s) && Enabled(s, st) && st.Fill?
    ensures var s' := Next(s, st);
            && StageInv(s', s'.holders[st.hid]) && MARKER !in FilesOn(s', s'.holders[st.hid].disk)
            && AllClean(FilesOn(s', s'.holders[st.hid].disk))
  {
    hide RestoreOver, IsClean, AllocInv, NameOf;
    var h := s.holders[st.hid];
    assert StageInv(s, h);
    var img :| img in s.images && img.mtime >= h.work.stage.asOf && FilesOn(s, h.disk) == img.files;
    var source := SourceFor(s, h.work.user);
    RestoredIsOwnIff(s, h.work.user);
    PlainNeverMarks(img.files, Fitting(source, st.room));
    RestoreKeepsClean(img.files, Fitting(source, st.room));
    assert HandedOver(RestoreOver(img.files, Fitting(source, st.room)), s.images, h.work.stage.asOf, source);
  }

  // The disks a step leaves alone keep what is known about them.
  lemma UntouchedDisk(s: State, s': State, d: int)
    requires FilesOn(s', d) == FilesOn(s, d) && s.images <= s'.images
    ensures MarkerMeansBlank(s, d) ==> MarkerMeansBlank(s', d)
  {
  }

  lemma UntouchedHolder(s: State, s': State, h: Holder)
    requires FilesOn(s', h.disk) == FilesOn(s, h.disk) && s.images <= s'.images && s.archived <= s'.archived
    requires StageInv(s, h) && s'.digests == s.digests
    ensures StageInv(s', h)
  {
    hide RestoreOver;
    if h.work.Launching? && h.work.stage.Filled? {
      var img, room: nat :| img in s.images && img.mtime >= h.work.stage.asOf
                            && FilesOn(s, h.disk) == RestoreOver(img.files, Fitting(h.work.stage.source, room));
    }
  }

  // The disk a step writes to, if it writes to one.
  function Written(s: State, st: Step): Option<int> {
    match st
    case Prepare(hid) => if hid in s.holders then Some(s.holders[hid].disk) else None
    case Fill(hid, _) => if hid in s.holders then Some(s.holders[hid].disk) else None
    case BlankDisk(hid) => if hid in s.holders then Some(s.holders[hid].disk) else None
    case SessionWrites(cid, _) => if cid in s.containers then Some(s.containers[cid].disk) else None
    case Release(cid, _) => if cid in s.containers then Some(s.containers[cid].disk) else None
    case _ => None
  }

  lemma WrittenDiskStaysTrusted(s: State, st: Step)
    requires AllocInv(s) && ContentInv(s) && Enabled(s, st)
    ensures var s' := Next(s, st);
            forall d :: Written(s, st) == Some(d) ==>
              (Occupied(s', d) || MarkerMeansBlank(s', d)) && AllClean(FilesOn(s', d))
  {
    hide RestoreOver, IsClean, StageInv, StoreInv, AllocInv, Prepared, Found, IsBackupOf, Fitting;
    var s' := Next(s, st);
    MarkerIsEssential();
    match st
    case Prepare(hid) => PrepareKeepsStage(s, st);
    case Fill(hid, _) => FillKeepsStage(s, st);
    case SessionWrites(cid, _) => assert cid in s'.containers;
    case _ =>
  }

  lemma StepFrame(s: State, st: Step)
    requires Enabled(s, st)
    ensures s.images <= Next(s, st).images && s.archived <= Next(s, st).archived && Next(s, st).digests == s.digests
    ensures forall d :: Written(s, st) != Some(d) ==> FilesOn(Next(s, st), d) == FilesOn(s, d)
    ensures forall d :: Written(s, st) != Some(d) && Occupied(s, d) ==> Occupied(Next(s, st), d)
  {
    hide Blank, Prepared, RestoreOver, Found, UniqueSessname, EscSessname, IsBackupOf, ScanOne, MarkUsed, FirstUnused;
    forall d | Written(s, st) != Some(d) && Occupied(s, d) ensures Occupied(Next(s, st), d) {
      var cid :| cid in s.containers && s.containers[cid].disk == d && s.containers[cid].phase.Live?;
      assert cid in Next(s, st).containers && Next(s, st).containers[cid] == s.containers[cid];
    }
  }

  lemma StepKeepsTrust(s: State, st: Step, d: int)
    requires AllocInv(s) && ContentInv(s) && Enabled(s, st)
    ensures Occupied(Next(s, st), d) || MarkerMeansBlank(Next(s, st), d)
    ensures AllClean(FilesOn(Next(s, st), d))
  {
    hide Next, Enabled, Written, Occupied, MarkerMeansBlank, AllocInv, StoreInv, StageInv, AllClean, FilesOn;
    var s' := Next(s, st);
    if Written(s, st) == Some(d) {
      WrittenDiskStaysTrusted(s, st);
    } else {
      StepFrame(s, st);
      UntouchedDisk(s, s', d);
      assert Occupied(s, d) || MarkerMeansBlank(s, d);
    }
  }

  lemma OthersKeepTheirDisks(s: State, st: Step, hid: nat)
    requires AllocInv(s) && Enabled(s, st) && hid in s.holders && hid in Next(s, st).holders
    requires !((st.Prepare? || st.Fill? || st.BlankDisk?) && st.hid == hid)
    ensures Next(s, st).holders[hid] == s.holders[hid] && Written(s, st) != Some(s.holders[hid].disk)
  {
    hide RestoreOver, Blank, Prepared, Found, UniqueSessname, EscSessname, IsBackupOf, TableInv;
  }

  lemma NewHolderIsPicked(s: State, st: Step, hid: nat)
    requires Enabled(s, st) && hid in Next(s, st).holders
    requires hid !in s.holders || (st.BlankDisk? && st.hid == hid)
    ensures StageInv(Next(s, st), Next(s, st).holders[hid])
  {
    hide RestoreOver, Blank, Prepared, Found, UniqueSessname, EscSessname, IsBackupOf, HandedOver, ReadyDisk;
  }

  lemma StepKeepsStage(s: State, st: Step, hid: nat)
    requires AllocInv(s) && ContentInv(s) && Enabled(s, st)
    requires hid in Next(s, st).holders
    ensures StageInv(Next(s, st), Next(s, st).holders[hid])
  {
    hide RestoreOver, Blank, Prepared, Found, UniqueSessname, EscSessname, IsBackupOf;
    hide AllocInv, StageInv, DisksInv, StoreInv;
    if st.Prepare? && st.hid == hid {
      PrepareKeepsStage(s, st);
    } else if st.Fill? && st.hid == hid {
      FillKeepsStage(s, st);
    } else if hid in s.holders && !(st.BlankDisk? && st.hid == hid) {
      StepFrame(s, st);
      OthersKeepTheirDisks(s, st, hid);
      UntouchedHolder(s, Next(s, st), s.holders[hid]);
    } else {
      NewHolderIsPicked(s, st, hid);
    }
  }

  // A backup is stored under its owner's own name, and is plain because disks are clean.
  lemma StepKeepsStore(s: State, st: Step)
    requires AllocInv(s) && ContentInv(s) && Enabled(s, st)
    ensures StoreInv(Next(s, st))
  {
    hide RestoreOver, IsClean, UniqueSessname, EscSessname, AllocInv, IsDigest, Blank, Prepared, Found;
    hide KnownUsers, IsPlain;
    if st.Release? && st.backup.Some? {
      BackupsArePlain(st.backup.value, FilesOn(s, s.containers[st.cid].disk));
    } else if st.Create? {
      assert StageInv(s, s.holders[st.hid]);
    }
  }

  lemma StepKeepsContentInv(s: State, st: Step)
    requires AllocInv(s) && ContentInv(s) && Enabled(s, st)
    ensures ContentInv(Next(s, st))
  {
    hide RestoreOver, IsClean, AllocInv, StoreInv, StageInv;
    var s' := Next(s, st);
    StepKeepsStore(s, st);
    forall d ensures (Occupied(s', d) || MarkerMeansBlank(s', d)) && AllClean(FilesOn(s', d)) {
      StepKeepsTrust(s, st, d);
    }
    forall hid | hid in s'.holders ensures StageInv(s', s'.holders[hid]) {
      StepKeepsStage(s, st, hid);
    }
  }

  // ---------- Runs ----------

  // The daemon starts with empty tables and refreshes first; containers, disks and backups
  // may have survived from an earlier run.
  ghost predicate Init(s: State) {
    && s.tbl == Table(map[], map[]) && s.lock == Scanning(0, None) && s.holders == map[]
    && Exclusive(s) && ContentInv(s)
  }

  ghost predicate RunUnder(s: State, steps: seq<Step>, rules: Rules)
    decreases |steps|
  {
    steps == [] || (Enabled(s, steps[0]) && Obeys(s, steps[0], rules) && RunUnder(Next(s, steps[0]), steps[1..], rules))
  }

  ghost predicate ValidRun(s: State, steps: seq<Step>) {
    RunUnder(s, steps, ALL_RULES)
  }

  ghost function After(s: State, steps: seq<Step>, rules: Rules := ALL_RULES): State
    requires RunUnder(s, steps, rules)
    decreases |steps|
  {
    if steps == [] then s else After(Next(s, steps[0]), steps[1..], rules)
  }

  lemma {:induction false} RunKeepsInv(s: State, steps: seq<Step>)
    requires AllocInv(s) && ContentInv(s) && ValidRun(s, steps)
    ensures AllocInv(After(s, steps)) && ContentInv(After(s, steps))
    decreases |steps|
  {
    if steps != [] {
      StepKeepsAllocInv(s, steps[0]);
      StepKeepsContentInv(s, steps[0]);
      RunKeepsInv(Next(s, steps[0]), steps[1..]);
    }
  }

  // In every interleaving no two of the existing containers, the launches in progress and the
  // image refreshers have the same disk.
  lemma NoDiskIsShared(s: State, steps: seq<Step>)
    requires Init(s) && ValidRun(s, steps)
    ensures Exclusive(After(s, steps))
  {
    RunKeepsInv(s, steps);
  }

  ghost predicate IsTakenBy(s: State, st: Step, user: User, archive: Archive) {
    && st.Release? && st.backup == Some(archive)
    && st.cid in s.containers && s.containers[st.cid].user == user && s.containers[st.cid].phase.Live?
    && IsBackupOf(archive, FilesOn(s, s.containers[st.cid].disk))
  }

  // In the course of the run the archive was taken from the disk of a session of the user's.
  ghost predicate IsTaken(s: State, steps: seq<Step>, user: User, archive: Archive)
    requires ValidRun(s, steps)
    decreases |steps|
  {
    steps != []
    && (IsTakenBy(s, steps[0], user, archive) || IsTaken(Next(s, steps[0]), steps[1..], user, archive))
  }

  lemma StepTakes(s: State, st: Step, user: User, archive: Archive)
    requires Enabled(s, st)
    ensures (user, archive) in Next(s, st).archived <==> (user, archive) in s.archived || IsTakenBy(s, st, user, archive)
  {
    hide IsBackupOf, RestoreOver, Prepared, Blank, Found, FirstUnused, ScanOne, MarkUsed;
  }

  // After any run, exactly those archives are on record as a user's that were before or have
  // been taken from the disk of one of that user's own sessions.
  lemma {:induction false} BackupsAreOwn(s: State, steps: seq<Step>, user: User, archive: Archive)
    requires ValidRun(s, steps)
    ensures (user, archive) in After(s, steps).archived
            <==> (user, archive) in s.archived || IsTaken(s, steps, user, archive)
    decreases |steps|
  {
    hide Enabled, Next, Obeys, IsTakenBy;
    if steps != [] {
      StepTakes(s, steps[0], user, archive);
      BackupsAreOwn(Next(s, steps[0]), steps[1..], user, archive);
    }
  }

  // The archive is the user's, or there is none.
  predicate IsOwnBackup(s: State, user: User, source: Archive) {
    source == [] || (user, source) in s.archived
  }

  // In every interleaving a disk given to a new container holds a home image no older than the
  // one current when the disk was prepared, overlaid with one archive: the user's own, or one
  // stored under the name without digest by a user whose address has the same name.
  lemma HandOverIsClean(s: State, steps: seq<Step>, hid: nat, cid: Cid)
    requires Init(s) && ValidRun(s, steps)
    requires Enabled(After(s, steps), Create(hid, cid))
    ensures var before := After(s, steps);
            var h := before.holders[hid];
            var stage := h.work.stage;
            var after := Next(before, Create(hid, cid));
            && after.containers[cid].user == h.work.user
            && HandedOver(FilesOn(after, after.containers[cid].disk), after.images, stage.asOf, stage.source)
            && IsFrom(after, h.work.user, stage.source, stage.from)
            && ((forall v <- after.digests :: EscSessname(v) == EscSessname(h.work.user) ==> v == h.work.user) ==>
                  IsOwnBackup(after, h.work.user, stage.source))
            && MARKER !in FilesOn(after, after.containers[cid].disk)
  {
    RunKeepsInv(s, steps);
    hide RestoreOver, UniqueSessname, EscSessname, AllocInv, DisksInv;
    var before := After(s, steps);
    var h := before.holders[hid];
    assert StageInv(before, h);
    var after := Next(before, Create(hid, cid));
    StepFrame(before, Create(hid, cid));
    UntouchedHolder(before, after, h);
  }

  // ---------- The three assumptions are needed ----------

  // A refresh with a given container list keeps track of every container exactly when each
  // container it misses still has its launch's reservation.
  lemma RefreshTracksIff(s: State, times: seq<int>, list: set<Cid>, mounted: seq<int>)
    requires Exclusive(s) && |times| == s.maxDisks
    requires forall cid <- s.containers :: 0 <= s.containers[cid].disk < s.maxDisks
    requires forall d :: d in mounted <==> exists cid <- s.containers :: cid in list && s.containers[cid].disk == d
    ensures var t := MarkAll(ScanAll(s.tbl, times), mounted);
            (forall cid <- s.containers :: InUse(t, s.containers[cid].disk))
            <==> (forall cid <- s.containers ::
                    cid in list || IsLiveReservation(s.tbl, s.containers[cid].disk, times[s.containers[cid].disk]))
  {
    var t := MarkAll(ScanAll(s.tbl, times), mounted);
    forall cid | cid in s.containers
      ensures InUse(t, s.containers[cid].disk)
              <==> cid in list || IsLiveReservation(s.tbl, s.containers[cid].disk, times[s.containers[cid].disk])
    {
      RefreshDecides(s.tbl, times, mounted, s.containers[cid].disk);
    }
  }

  lemma {:induction false} Extend(s: State, steps: seq<Step>, st: Step, rules: Rules)
    requires RunUnder(s, steps, rules)
    requires Enabled(After(s, steps, rules), st) && Obeys(After(s, steps, rules), st, rules)
    ensures RunUnder(s, steps + [st], rules)
    ensures After(s, steps + [st], rules) == Next(After(s, steps, rules), st)
    decreases |steps|
  {
    if steps == [] {
      assert (steps + [st])[1..] == [];
    } else {
      Extend(Next(s, steps[0]), steps[1..], st, rules);
      assert (steps + [st])[1..] == steps[1..] + [st];
    }
  }

  function Digest(c: char): string {
    seq(40, i requires 0 <= i < 40 => c)
  }

  // Two users with short addresses
  lemma TwoUsers(u: User, v: User)
    requires u != v && |u| <= 10 && |v| <= 10
    ensures KnownUsers(map[u := Digest('a'), v := Digest('b')])
  {
    EscIsShort(u);
    EscIsShort(v);
    hide EscSessname, Split;
    assert Digest('a')[0] == 'a' && Digest('b')[0] == 'b';
  }

  // An instance with a single disk and two users, before the daemon's first refresh
  function Start(u: User, v: User, store: map<string, Saved>, archived: set<(User, Archive)>): State {
    var img := Image(map[], 0);
    State(1, 0, Table(map[], map[]), Scanning(0, None), map[], map[], map[], img, {img},
          map[u := Digest('a'), v := Digest('b')], store, archived)
  }

  lemma StartIsInit(u: User, v: User, store: map<string, Saved>, archived: set<(User, Archive)>)
    requires u != v && |u| <= 10 && |v| <= 10
    requires forall n <- store ::
               store[n].owner in {u, v} && (store[n].owner, store[n].archive) in archived && IsPlain(store[n].archive)
               && n == EscSessname(store[n].owner)
    ensures Init(Start(u, v, store, archived))
  {
    hide EscSessname, UniqueSessname, IsPlain, KnownUsers;
    TwoUsers(u, v);
    var s := Start(u, v, store, archived);
    forall d ensures MarkerMeansBlank(s, d) && AllClean(FilesOn(s, d)) {
      assert FilesOn(s, d) == map[];
    }
  }

  // and after it, with or without other steps before
  lemma Refresh(s: State, steps: seq<Step>, rules: Rules) returns (longer: seq<Step>)
    requires RunUnder(s, steps, rules)
    requires var e := After(s, steps, rules);
             && e.lock == Scanning(0, None) && e.maxDisks == 1
             && e.containers == map[] && e.tbl == Table(map[], map[])
    ensures longer == steps + [Scan, TakeList, RefreshEnd] && RunUnder(s, longer, rules)
    ensures After(s, longer, rules) == After(s, steps, rules).(lock := Open, tbl := Table(map[0 := false], map[]))
  {
    longer := steps;
    Extend(s, longer, Scan, rules);
    longer := longer + [Scan];
    Extend(s, longer, TakeList, rules);
    longer := longer + [TakeList];
    Extend(s, longer, RefreshEnd, rules);
    longer := longer + [RefreshEnd];
  }

  // A first user's launch holds the only disk.
  lemma FirstLaunch(s: State, u: User, v: User, store: map<string, Saved>, archived: set<(User, Archive)>, rules: Rules)
    returns (steps: seq<Step>)
    requires s == Start(u, v, store, archived) && Init(s)
    ensures |steps| == 4 && RunUnder(s, steps, rules) && forall st <- steps :: !st.Tick?
    ensures var e := After(s, steps, rules);
            && e.maxDisks == 1 && e.now == 0 && e.lock == Open && e.containers == map[] && e.disks == map[]
            && e.image == Image(map[], 0) && e.digests == s.digests && e.store == s.store && e.archived == s.archived
            && e.tbl == Table(map[0 := true], map[0 := RESERVE_SECS])
            && e.holders == map[0 := Holder(0, RESERVE_SECS, Launching(u, Picked))]
  {
    hide Init;
    steps := Refresh(s, [], rules);
    var reserve := Reserve(0, 0, Launching(u, Picked));
    Extend(s, steps, reserve, rules);
    steps := steps + [reserve];
  }

  // A first user's session is running on the only disk, over the archive found for the user.
  lemma FirstSession(s: State, u: User, v: User, store: map<string, Saved>, archived: set<(User, Archive)>, rules: Rules)
    returns (steps: seq<Step>)
    requires s == Start(u, v, store, archived) && Init(s)
    ensures |steps| == 7 && RunUnder(s, steps, rules) && forall st <- steps :: !st.Tick?
    ensures var e := After(s, steps, rules);
            && e.maxDisks == 1 && e.now == 0 && e.lock == Open && e.holders == map[] && e.archived == s.archived
            && e.tbl == Table(map[0 := true], map[0 := RESERVE_SECS])
            && e.containers == map["c1" := Box(0, u, Live)] && e.digests == s.digests
            && FilesOn(e, 0) == RestoreOver(map[], Fitting(SourceFor(s, u), 1))
  {
    hide Init, RestoreOver, Found, RunUnder, After, UniqueSessname, EscSessname;
    steps := FirstLaunch(s, u, v, store, archived, rules);
    Extend(s, steps, Prepare(0), rules);
    steps := steps + [Prepare(0)];
    assert FilesOn(After(s, steps, rules), 0) == map[];
    Extend(s, steps, Fill(0, 1), rules);
    steps := steps + [Fill(0, 1)];
    Extend(s, steps, Create(0, "c1"), rules);
    steps := steps + [Create(0, "c1")];
  }

  // After a refresh that lost the disk, the next launch is given it as well.
  lemma ReserveAgain(s: State, steps: seq<Step>, rules: Rules, hid: nat, user: User) returns (longer: seq<Step>)
    requires RunUnder(s, steps, rules)
    requires var e := After(s, steps, rules);
             && e.maxDisks == 1 && e.lock.Open? && hid !in e.holders && e.tbl.used == map[0 := false]
             && user in e.digests
             && (("c1" in e.containers && e.containers["c1"].disk == 0) || (0 in e.holders && e.holders[0].disk == 0))
    ensures longer == steps + [Reserve(hid, 0, Launching(user, Picked))]
    ensures RunUnder(s, longer, rules) && !Exclusive(After(s, longer, rules))
  {
    var reserve := Reserve(hid, 0, Launching(user, Picked));
    var e := After(s, steps, rules);
    assert FirstUnused(e.tbl, 0, 1) == 0;
    Extend(s, steps, reserve, rules);
    longer := steps + [reserve];
    var e' := Next(e, reserve);
    assert e'.holders[hid].disk == 0;
    if "c1" in e.containers && e.containers["c1"].disk == 0 {
      assert "c1" in e'.containers && hid in e'.holders;
    } else {
      assert 0 in e'.holders && hid in e'.holders && e'.holders[0].disk == 0;
    }
  }

  // A refresh up to its inspections, with a given list or none
  lemma ScanWith(s: State, steps: seq<Step>, list: Option<set<Cid>>, rules: Rules) returns (longer: seq<Step>)
    requires RunUnder(s, steps, rules)
    requires var e := After(s, steps, rules); e.maxDisks == 1 && e.lock == Open && (rules.recent ==> list.None?)
    ensures longer == steps + [RefreshBegin(list), Scan, TakeList] && RunUnder(s, longer, rules)
    ensures var e := After(s, steps, rules);
            After(s, longer, rules)
            == e.(tbl := ScanOne(e.tbl, 0, e.now),
                  lock := Inspecting(if list.Some? then list.value else e.containers.Keys))
  {
    hide RunUnder, After;
    var e := After(s, steps, rules);
    longer := steps + [RefreshBegin(list)];
    Extend(s, steps, RefreshBegin(list), rules);
    assert After(s, longer, rules) == e.(lock := Scanning(0, list));
    Extend(s, longer, Scan, rules);
    longer := longer + [Scan];
    assert After(s, longer, rules) == e.(tbl := ScanOne(e.tbl, 0, e.now), lock := Scanning(1, list));
    Extend(s, longer, TakeList, rules);
    longer := longer + [TakeList];
  }

  // and its end, after at most one inspection
  lemma InspectWith(s: State, steps: seq<Step>, inspects: seq<Step>, rules: Rules) returns (longer: seq<Step>)
    requires RunUnder(s, steps, rules)
    requires var e := After(s, steps, rules);
             && e.lock == Inspecting(if inspects == [] then {} else {"c1"})
             && (inspects == [] || inspects == [Inspect("c1")] || (inspects == [InspectFails("c1")] && !rules.inspect))
             && (inspects != [] ==> "c1" in e.containers && e.containers["c1"].disk == 0)
    ensures longer == steps + inspects + [RefreshEnd] && RunUnder(s, longer, rules)
    ensures var e := After(s, steps, rules);
            After(s, longer, rules)
            == e.(tbl := if inspects == [Inspect("c1")] then MarkUsed(e.tbl, 0, true, 0, e.now) else e.tbl, lock := Open)
  {
    hide RunUnder, After;
    longer := steps + inspects;
    if inspects != [] {
      Extend(s, steps, inspects[0], rules);
      assert {"c1"} - {"c1"} == {};
    } else {
      assert longer == steps;
    }
    Extend(s, longer, RefreshEnd, rules);
    longer := longer + [RefreshEnd];
  }

  // A first session, a pause of some length, and a refresh
  lemma SessionThenRefresh(pause: nat, list: Option<set<Cid>>, inspects: seq<Step>, rules: Rules)
    returns (s: State, steps: seq<Step>)
    requires rules.recent ==> list.None?
    requires inspects == [] || inspects == [Inspect("c1")] || (inspects == [InspectFails("c1")] && !rules.inspect)
    requires list == if inspects == [] then Some({}) else None
    ensures s == Start("ann", "bob", map[], {}) && Init(s) && RunUnder(s, steps, rules)
    ensures pause == 0 ==> forall st <- steps :: !st.Tick?
    ensures var e := After(s, steps, rules);
            && e.maxDisks == 1 && e.lock == Open && e.holders == map[] && "bob" in e.digests
            && e.containers == map["c1" := Box(0, "ann", Live)]
            && e.tbl == if inspects == [Inspect("c1")] then Table(map[0 := true], map[])
                        else ScanOne(Table(map[0 := true], map[0 := RESERVE_SECS]), 0, pause)
  {
    hide RunUnder, After, Init, Found, EscSessname, UniqueSessname, RestoreOver;
    StartIsInit("ann", "bob", map[], {});
    s := Start("ann", "bob", map[], {});
    steps := FirstSession(s, "ann", "bob", map[], {}, rules);
    if pause > 0 {
      Extend(s, steps, Tick(pause), rules);
      steps := steps + [Tick(pause)];
    }
    steps := ScanWith(s, steps, list, rules);
    steps := InspectWith(s, steps, inspects, rules);
  }

  // maintain passes a list it took before it had the lock. If the launch's reservation runs
  // out in between, the disk of a container missing from the list is given out again.
  lemma StaleListSharesDisk() returns (s: State, steps: seq<Step>)
    ensures Init(s) && RunUnder(s, steps, Rules(true, true, false))
    ensures !Exclusive(After(s, steps, Rules(true, true, false)))
  {
    hide RunUnder, After, Init, Exclusive;
    s, steps := SessionThenRefresh(RESERVE_SECS + 1, Some({}), [], Rules(true, true, false));
    steps := ReserveAgain(s, steps, Rules(true, true, false), 1, "bob");
  }

  // The list need not be old. Without any time passing, a second refresh, whose inspection
  // ended the reservation of the container's launch, is enough.
  lemma FreshListSharesDisk() returns (s: State, steps: seq<Step>)
    ensures Init(s) && RunUnder(s, steps, Rules(true, true, false)) && forall st <- steps :: !st.Tick?
    ensures RefreshBegin(Some(s.containers.Keys)) in steps
    ensures !Exclusive(After(s, steps, Rules(true, true, false)))
  {
    hide RunUnder, After, Init, Exclusive;
    var rules := Rules(true, true, false);
    s, steps := SessionThenRefresh(0, None, [Inspect("c1")], rules);
    var k := |steps|;
    steps := ScanWith(s, steps, Some({}), rules);
    assert steps[k] == RefreshBegin(Some({}));
    steps := InspectWith(s, steps, [], rules);
    assert steps[k] == RefreshBegin(Some({}));
    steps := ReserveAgain(s, steps, rules, 1, "bob");
    assert steps[k] == RefreshBegin(Some({})) && s.containers.Keys == {};
  }

  lemma FailedInspectionSharesDisk() returns (s: State, steps: seq<Step>)
    ensures Init(s) && RunUnder(s, steps, Rules(true, false, true))
    ensures !Exclusive(After(s, steps, Rules(true, false, true)))
  {
    hide RunUnder, After, Init, Exclusive;
    s, steps := SessionThenRefresh(RESERVE_SECS + 1, None, [InspectFails("c1")], Rules(true, false, true));
    steps := ReserveAgain(s, steps, Rules(true, false, true), 1, "bob");
  }

  lemma SlowLaunchSharesDisk() returns (s: State, steps: seq<Step>)
    ensures Init(s) && RunUnder(s, steps, Rules(false, true, true))
    ensures !Exclusive(After(s, steps, Rules(false, true, true)))
  {
    hide RunUnder, After, Init, Exclusive;
    var rules := Rules(false, true, true);
    StartIsInit("ann", "bob", map[], {});
    s := Start("ann", "bob", map[], {});
    steps := FirstLaunch(s, "ann", "bob", map[], {}, rules);
    Extend(s, steps, Tick(RESERVE_SECS + 1), rules);
    steps := steps + [Tick(RESERVE_SECS + 1)];
    steps := ScanWith(s, steps, None, rules);
    steps := InspectWith(s, steps, [], rules);
    steps := ReserveAgain(s, steps, rules, 1, "bob");
  }

  // ---------- Names without digests ----------

  // An archive stored before session names had digests is restored for another user whose
  // address has the same name.
  lemma OldArchiveReachesOther() returns (s: State, steps: seq<Step>)
    ensures Init(s) && ValidRun(s, steps)
    ensures var e := After(s, steps);
            && e.containers == map["c1" := Box(0, "a_b@c", Live)]
            && FilesOn(e, 0) == map["notes" := Data("of a.b")]
            && forall archive :: (("a_b@c", archive) !in e.archived)
  {
    hide RunUnder, After, Init, EscSessname, UniqueSessname, RestoreOver, IsPlain, KnownUsers;
    var owner, other, archive := "a.b@c", "a_b@c", [Member("juser/notes", Data("of a.b"))];
    ClashingAddresses();
    NotesRestored(archive, Data("of a.b"));
    var store, archived := map[EscSessname(owner) := Saved(owner, archive)], {(owner, archive)};
    StartIsInit(other, owner, store, archived);
    s := Start(other, owner, store, archived);
    assert NameOf(s, other) !in store by { UnlikeOldName(s, other, owner); }
    steps := FirstSession(s, other, owner, store, archived, ALL_RULES);
    assert Fitting(archive, 1) == archive;
  }

  lemma UnlikeOldName(s: State, u: User, v: User)
    requires u != v && |u| <= 10 && |v| <= 10 && s.digests == map[u := Digest('a'), v := Digest('b')]
    ensures NameOf(s, u) != EscSessname(v)
  {
    TwoUsers(u, v);
  }

  lemma ClashingAddresses()
    ensures EscSessname("a.b@c") == EscSessname("a_b@c")
  {
    hide EscSessname;
    var s := "a.b@c";
    assert s[1..] == ".b@c" && s[1..][1..] == "b@c" && "b@c"[1..] == "@c" && "@c"[1..] == "c" && "c"[1..] == "";
    assert ReplaceChar("c", '.', "_") == "c";
    assert ReplaceChar("@c", '.', "_") == "@c";
    assert ReplaceChar("b@c", '.', "_") == "b@c";
    assert ReplaceChar(".b@c", '.', "_") == "_b@c";
    assert ReplaceChar(s, '.', "_") == "a_b@c";
    EscNamesClash(s);
  }

  lemma NotesRestored(archive: Archive, blob: Blob)
    requires archive == [Member("juser/notes", blob)]
    ensures IsPlain(archive) && RestoreOver(map[], archive) == map["notes" := blob]
  {
    NotesIsPlain();
    assert "juser/notes" == JUSER + "notes";
    hide IsRestored, NormPath, IsClean, IsEssential;
    MemberRestored("notes");
    assert archive[..0] == [];
    assert RestoreOver(map[], archive) == Extracted(map[], "notes", blob);
  }

  lemma NotesIsPlain()
    ensures IsClean("notes") && NormPath("notes") == "notes" && !IsEssential("notes")
  {
    SplitOfPlain("notes", '/');
    hide Split, NormPath, IsEssential;
    assert IsClean("notes");
    NormPathOfClean("notes");
    if IsEssential("notes") {
      EssentialStartsWithDot("notes");
    }
  }
}
