/**
 Two-way synchronisation of a local folder with a Google Drive folder
 (container/interactive/IJulia/tornado/src/gdrivesync.py).

 A tree maps paths below the synchronised folder to entries; the folder itself is the empty
 path. Titles on the remote side are taken to be unique within a folder. Drive has content
 for files only: transferring content from or to a folder raises.
 */
module FolderSync {
  import opened Basics

  type Path = seq<string>
  datatype Entry = Dir | File(content: string, mtime: real)
  type Tree = map<Path, Entry>

  // The two sides, the paths of the files transferred so far, and the remote folders'
  // modification times.
  datatype Sides = Sides(local: Tree, remote: Tree, uploads: set<Path>, downloads: set<Path>, times: Path -> real)

  function Parent(p: Path): Path
    requires p != []
  {
    p[..|p| - 1]
  }

  predicate IsFolder(t: Tree, p: Path) {
    p == [] || (p in t && t[p].Dir?)
  }

  ghost predicate IsTree(t: Tree) {
    [] !in t && forall p <- t :: IsFolder(t, Parent(p))
  }

  ghost predicate DepthAtMost(s: Sides, depth: nat) {
    (forall p <- s.local :: |p| <= depth) && (forall p <- s.remote :: |p| <= depth)
  }

  ghost predicate GoodSides(s: Sides, depth: nat) {
    IsTree(s.local) && IsTree(s.remote) && DepthAtMost(s, depth)
  }

  predicate IsDotName(name: string) {
    |name| > 0 && name[0] == '.'
  }

  predicate IsHidden(p: Path) {
    p != [] && IsDotName(p[|p| - 1])
  }

  function Look(t: Tree, p: Path): Option<Entry> {
    if p in t then Some(t[p]) else None
  }

  // ---------- What a run does to one path ----------

  datatype Action =
    | Keep
    | Upload
    | Download
    | MakeLocal
    // the loop over the local listing raises, having made a remote folder or not
    | MakeRemoteAndFail
    | FailToPush
    // the loop over the remaining remote listing raises
    | FailToPull
    // listing the local folder raises, because it is a file
    | FailToList

  predicate FailsPushing(a: Action) {
    a == MakeRemoteAndFail || a == FailToPush
  }

  predicate Raises(a: Action) {
    FailsPushing(a) || a == FailToPull || a == FailToList
  }

  // Raised because a path is a file on one side and a folder on the other.
  predicate IsClash(a: Action) {
    Raises(a) && a != MakeRemoteAndFail
  }

  // Local entries whose name starts with a dot are not listed, so they are overlooked. `time`
  // is that of the remote entry if it is a folder.
  function ActionFor(l: Option<Entry>, r: Option<Entry>, hidden: bool, time: real): Action {
    if r.None? then
      if l.None? || hidden then Keep
      else if l.value.Dir? then MakeRemoteAndFail
      else Upload
    else if r.value.Dir? then
      if l.None? then MakeLocal
      else if l.value.Dir? then Keep
      else if hidden then FailToList
      else if -1.0 < l.value.mtime - time < 1.0 then Keep
      else FailToPush
    else if l.None? then Download
    else if l.value.Dir? then FailToPull
    else if hidden then Download
    else if l.value.mtime - r.value.mtime >= 1.0 then Upload
    else if l.value.mtime - r.value.mtime <= -1.0 then Download
    else Keep
  }

  function ActionAt(s: Sides, p: Path): Action {
    ActionFor(Look(s.local, p), Look(s.remote, p), IsHidden(p), s.times(p))
  }

  // `at` is the server's time when the path is uploaded; both sides take it over.
  function Uploaded(s: Sides, p: Path, at: Path -> real): Entry
    requires p in s.local && s.local[p].File?
  {
    File(s.local[p].content, at(p))
  }

  function LocalAfter(s: Sides, p: Path, at: Path -> real): Option<Entry> {
    match ActionAt(s, p)
    case Upload => Some(Uploaded(s, p, at))
    case Download => Some(s.remote[p])
    case MakeLocal => Some(Dir)
    case _ => Look(s.local, p)
  }

  function RemoteAfter(s: Sides, p: Path, at: Path -> real): Option<Entry> {
    match ActionAt(s, p)
    case Upload => Some(Uploaded(s, p, at))
    case MakeRemoteAndFail => Some(Dir)
    case _ => Look(s.remote, p)
  }

  ghost predicate IsMerged(s: Sides, s': Sides, p: Path, at: Path -> real) {
    && Look(s'.local, p) == LocalAfter(s, p, at)
    && Look(s'.remote, p) == RemoteAfter(s, p, at)
    && (p in s'.uploads <==> p in s.uploads || ActionAt(s, p) == Upload)
    && (p in s'.downloads <==> p in s.downloads || ActionAt(s, p) == Download)
    && s'.times(p) == s.times(p)
  }

  ghost predicate IsSame(s: Sides, s': Sides, p: Path) {
    && Look(s'.local, p) == Look(s.local, p)
    && Look(s'.remote, p) == Look(s.remote, p)
    && (p in s'.uploads <==> p in s.uploads)
    && (p in s'.downloads <==> p in s.downloads)
    && s'.times(p) == s.times(p)
  }

  predicate IsBelow(p: Path, loc: Path) {
    loc < p
  }

  predicate IsFile(t: Tree, p: Path) {
    p in t && t[p].File?
  }

  // A path is considered when its folder exists remotely and no file stands in the way locally:
  // those are the folders descended into.
  predicate IsVisited(s: Sides, loc: Path, p: Path) {
    IsBelow(p, loc) && IsFolder(s.remote, Parent(p)) && forall k :: |loc| < k < |p| ==> !IsFile(s.local, p[..k])
  }

  // A complete run: visited paths are merged, everything else is untouched.
  ghost predicate IsSynced(s: Sides, s': Sides, loc: Path, at: Path -> real) {
    forall p :: if IsVisited(s, loc, p) then IsMerged(s, s', p, at) else IsSame(s, s', p)
  }

  // An aborted run: every path is either untouched or merged.
  ghost predicate IsPartlySynced(s: Sides, s': Sides, loc: Path, at: Path -> real) {
    forall p :: IsSame(s, s', p) || (IsVisited(s, loc, p) && IsMerged(s, s', p, at))
  }

  ghost predicate Fails(s: Sides, loc: Path) {
    exists p :: IsVisited(s, loc, p) && Raises(ActionAt(s, p))
  }

  // The run stopped at some path, with the effect that raising there has.
  ghost predicate StoppedAt(s: Sides, s': Sides, loc: Path, p: Path, at: Path -> real) {
    IsVisited(s, loc, p) && Raises(ActionAt(s, p)) && IsMerged(s, s', p, at)
  }

  ghost predicate IsStopped(s: Sides, s': Sides, loc: Path, at: Path -> real) {
    exists p :: StoppedAt(s, s', loc, p, at)
  }

  // ---------- Folder listings ----------

  predicate IsChildIn(p: Path, loc: Path, names: set<string>) {
    |p| == |loc| + 1 && p[..|loc|] == loc && p[|loc|] in names
  }

  function Names(t: Tree, loc: Path): (names: set<string>)
    ensures forall f :: f in names <==> loc + [f] in t
  {
    var names := set p | p in t && |p| == |loc| + 1 && p[..|loc|] == loc :: p[|loc|];
    assert forall f :: f in names ==> loc + [f] in t by {
      forall f | f in names ensures loc + [f] in t {
        var p :| p in t && |p| == |loc| + 1 && p[..|loc|] == loc && p[|loc|] == f;
        assert p == loc + [f];
      }
    }
    assert forall f :: loc + [f] in t ==> f in names by {
      forall f | loc + [f] in t ensures f in names {
        assert (loc + [f])[..|loc|] == loc;
      }
    }
    names
  }

  ghost predicate IsLocalListing(m: map<string, Entry>, t: Tree, loc: Path) {
    && (forall f :: f in m <==> loc + [f] in t && !IsDotName(f))
    && (forall f <- m :: m[f] == t[loc + [f]])
  }

  ghost predicate IsRemoteListing(m: map<string, Entry>, t: Tree, loc: Path) {
    && (forall f :: f in m <==> loc + [f] in t)
    && (forall f <- m :: m[f] == t[loc + [f]])
  }

  function LocalListing(t: Tree, loc: Path): (m: map<string, Entry>)
    ensures IsLocalListing(m, t, loc)
  {
    map f | f in Names(t, loc) && !IsDotName(f) :: t[loc + [f]]
  }

  function RemoteListing(t: Tree, loc: Path): (m: map<string, Entry>)
    ensures IsRemoteListing(m, t, loc)
  {
    map f | f in Names(t, loc) :: t[loc + [f]]
  }

  lemma ListedLocally(m: map<string, Entry>, t: Tree, loc: Path, f: string)
    requires IsLocalListing(m, t, loc) && f in m
    ensures Look(t, loc + [f]) == Some(m[f]) && !IsDotName(f)
  {
  }

  lemma ListedRemotely(m: map<string, Entry>, t: Tree, loc: Path, f: string)
    requires IsRemoteListing(m, t, loc)
    ensures Look(t, loc + [f]) == if f in m then Some(m[f]) else None
  {
  }

  // The children named in `names` are merged, everything else is untouched.
  ghost predicate ChildrenMerged(s: Sides, s': Sides, loc: Path, names: set<string>, at: Path -> real) {
    forall p :: if IsChildIn(p, loc, names) then IsMerged(s, s', p, at) else IsSame(s, s', p)
  }

  lemma ChildOneMore(p: Path, loc: Path, names: set<string>, f: string)
    ensures IsChildIn(p, loc, names + {f}) <==> p == loc + [f] || IsChildIn(p, loc, names)
  {
    if p == loc + [f] {
      assert p[..|loc|] == loc;
    } else if IsChildIn(p, loc, names + {f}) {
      assert p == p[..|loc|] + [p[|loc|]];
    }
  }

  // The remote entries left after the local files in `done` were dealt with.
  function Unpaired(remList: map<string, Entry>, locList: map<string, Entry>, done: set<string>): map<string, Entry> {
    map f | f in remList && !(f in done && f in locList && locList[f].File?) :: remList[f]
  }

  lemma NothingPaired(remList: map<string, Entry>, locList: map<string, Entry>)
    ensures Unpaired(remList, locList, {}) == remList
  {
  }

  lemma UnpairedStep(remList: map<string, Entry>, locList: map<string, Entry>, done: set<string>, f: string)
    requires f in locList && f !in done
    ensures var left := Unpaired(remList, locList, done);
            && (f in left <==> f in remList) && (f in left ==> left[f] == remList[f])
            && Unpaired(remList, locList, done + {f}) == if locList[f].File? then left - {f} else left
  {
  }

  lemma NothingMerged(s: Sides, loc: Path, at: Path -> real)
    ensures ChildrenMerged(s, s, loc, {}, at)
  {
  }

  lemma ChildUntouched(s0: Sides, s1: Sides, loc: Path, names: set<string>, f: string, at: Path -> real)
    requires ChildrenMerged(s0, s1, loc, names, at) && f !in names
    ensures IsSame(s0, s1, loc + [f])
    ensures Look(s1.local, loc + [f]) == Look(s0.local, loc + [f])
    ensures Look(s1.remote, loc + [f]) == Look(s0.remote, loc + [f])
  {
    ChildOneMore(loc + [f], loc, names, f);
  }

  // One more child is merged.
  lemma ChildrenStep(s0: Sides, s1: Sides, s2: Sides, loc: Path, names: set<string>, f: string, at: Path -> real)
    requires ChildrenMerged(s0, s1, loc, names, at) && f !in names
    requires IsMerged(s1, s2, loc + [f], at)
    requires forall p :: p != loc + [f] ==> IsSame(s1, s2, p)
    ensures ChildrenMerged(s0, s2, loc, names + {f}, at)
  {
    ChildUntouched(s0, s1, loc, names, f, at);
    forall p ensures if IsChildIn(p, loc, names + {f}) then IsMerged(s0, s2, p, at) else IsSame(s0, s2, p) {
      ChildOneMore(p, loc, names, f);
      if p != loc + [f] {
        assert IsSame(s1, s2, p);
      }
    }
  }

  // ---------- The synchroniser ----------

  class GDriveSync {
    var local: Tree
    var remote: Tree
    // the files transferred so far
    var uploads: set<Path>
    var downloads: set<Path>
    // the remote folders' modification times
    const times: Path -> real

    ghost function Both(): Sides
      reads this
    {
      Sides(local, remote, uploads, downloads, times)
    }

    constructor (local: Tree, remote: Tree, times: Path -> real)
      ensures Both() == Sides(local, remote, {}, {}, times)
    {
      this.local, this.remote, uploads, downloads, this.times := local, remote, {}, {}, times;
    }

    method UploadFile(p: Path, at: Path -> real)
      requires p in local && local[p].File?
      modifies this
      ensures var s, e := old(Both()), Uploaded(old(Both()), p, at);
              Both() == Sides(s.local[p := e], s.remote[p := e], s.uploads + {p}, s.downloads, s.times)
      ensures HasContent(local, p, old(local[p].content)) && HasContent(remote, p, old(local[p].content))
      ensures local[p].mtime == remote[p].mtime == at(p)
    {
      remote := remote[p := File(local[p].content, at(p))];
      ghost var before := local;
      SyncFileTime(p);
      SameTree(local, before[p := File(before[p].content, at(p))]);
      uploads := uploads + {p};
    }

    method DownloadFile(p: Path)
      requires p in remote && remote[p].File?
      modifies this
      ensures var s := old(Both());
              Both() == Sides(s.local[p := s.remote[p]], s.remote, s.uploads, s.downloads + {p}, s.times)
    {
      var now: real := *;
      local := local[p := File(remote[p].content, now)];
      SyncFileTime(p);
      SameTree(local, old(local)[p := remote[p]]);
      downloads := downloads + {p};
    }

    // _sync_file_time: the two sides' files are of the same time afterwards, so that a run
    // would leave them alone.
    method SyncFileTime(p: Path)
      requires p in local && p in remote && local[p].File? && remote[p].File?
      modifies `local
      ensures p in local && local[p].File? && local[p].content == old(local)[p].content
      ensures local[p].mtime == remote[p].mtime && (IsHidden(p) || ActionAt(Both(), p) == Keep)
      ensures forall q :: q != p ==> Look(local, q) == Look(old(local), q)
    {
      local := local[p := File(local[p].content, remote[p].mtime)];
    }

    // One round of the loop over the local listing; `r` is the remote listing's entry, if any.
    method PushOne(p: Path, attrs: Entry, r: Option<Entry>, at: Path -> real) returns (ok: bool)
      requires Look(local, p) == Some(attrs) && Look(remote, p) == r && !IsHidden(p)
      modifies this
      ensures ok <==> !FailsPushing(ActionAt(old(Both()), p))
      ensures IsMerged(old(Both()), Both(), p, at)
      ensures forall q :: q != p ==> IsSame(old(Both()), Both(), q)
    {
      ok := true;
      if attrs.Dir? {
        if r.None? {
          // the folder is created remotely, then the lookup of a missing key raises
          remote := remote[p := Dir];
          ok := false;
        }
      } else if r.None? {
        UploadFile(p, at);
      } else {
        var isFile := r.value.File?;
        var tdiff := attrs.mtime - if isFile then r.value.mtime else times(p);
        if tdiff >= 1.0 {
          if isFile {
            UploadFile(p, at);
          }
          ok := isFile;
        } else if tdiff <= -1.0 {
          if isFile {
            DownloadFile(p);
          }
          ok := isFile;
        }
      }
    }

    // One round of that loop, seen from the state `s0` the listings were taken in.
    method PushNext(ghost s0: Sides, loc: Path, ghost done: set<string>, f: string, attrs: Entry, r: Option<Entry>,
                    at: Path -> real)
      returns (ok: bool)
      requires ChildrenMerged(s0, Both(), loc, done, at)
      requires f !in done && !IsDotName(f)
      requires Look(s0.local, loc + [f]) == Some(attrs) && Look(s0.remote, loc + [f]) == r
      modifies this
      ensures ok <==> !FailsPushing(ActionAt(s0, loc + [f]))
      ensures ChildrenMerged(s0, Both(), loc, done + {f}, at)
    {
      ghost var s1 := Both();
      ChildUntouched(s0, s1, loc, done, f, at);
      ok := PushOne(loc + [f], attrs, r, at);
      ChildrenStep(s0, s1, Both(), loc, done, f, at);
    }

    // The loop over the local listing. `left` is what remains of the remote listing.
    method PushLocal(loc: Path, locList: map<string, Entry>, remList: map<string, Entry>, at: Path -> real)
      returns (left: map<string, Entry>, ok: bool, ghost done: set<string>)
      requires IsLocalListing(locList, local, loc) && IsRemoteListing(remList, remote, loc)
      modifies this
      ensures ok <==> forall f <- locList :: !FailsPushing(ActionAt(old(Both()), loc + [f]))
      ensures done <= locList.Keys && ChildrenMerged(old(Both()), Both(), loc, done, at)
      ensures ok ==> done == locList.Keys
      ensures !ok ==> exists f <- done :: FailsPushing(ActionAt(old(Both()), loc + [f]))
      ensures ok ==> left == Unpaired(remList, locList, locList.Keys)
    {
      hide ChildrenMerged, Unpaired, IsLocalListing, IsRemoteListing, FailsPushing, ActionAt;
      ghost var s0 := Both();
      left, done := remList, {};
      NothingMerged(s0, loc, at);
      NothingPaired(remList, locList);
      var todo := locList.Keys;
      while todo != {}
        invariant todo <= locList.Keys && done == locList.Keys - todo
        invariant forall f <- done :: !FailsPushing(ActionAt(s0, loc + [f]))
        invariant ChildrenMerged(s0, Both(), loc, done, at)
        invariant left == Unpaired(remList, locList, done)
        decreases todo
      {
        var f :| f in todo;
        ListedLocally(locList, s0.local, loc, f);
        ListedRemotely(remList, s0.remote, loc, f);
        UnpairedStep(remList, locList, done, f);
        var r := if f in left then Some(left[f]) else None;
        ok := PushNext(s0, loc, done, f, locList[f], r, at);
        if locList[f].File? {
          left := left - {f};
        }
        todo, done := todo - {f}, done + {f};
        if !ok {
          return;
        }
      }
      ok := true;
    }

    // One round of the loop over what remains of the remote listing.
    method PullNext(ghost s0: Sides, loc: Path, ghost names: set<string>, f: string, attrs: Entry, at: Path -> real)
      returns (ok: bool)
      requires ChildrenMerged(s0, Both(), loc, names, at)
      requires PullPre(s0, loc, f, attrs, names)
      modifies this
      ensures ok <==> ActionAt(s0, loc + [f]) != FailToPull
      ensures ChildrenMerged(s0, Both(), loc, names + {f}, at)
    {
      ghost var s1 := Both();
      if f in names {
        ChildIsMerged(s0, s1, loc, names, f, at);
        assert names + {f} == names;
      } else {
        ChildUntouched(s0, s1, loc, names, f, at);
      }
      ok := true;
      if attrs.Dir? {
        if loc + [f] !in local {
          local := local[loc + [f] := Dir];
        }
      } else if loc + [f] in local && local[loc + [f]].Dir? {
        // a folder cannot be written to
        ok := false;
      } else {
        DownloadFile(loc + [f]);
      }
      if f !in names {
        ChildrenStep(s0, s1, Both(), loc, names, f, at);
      }
    }

    // The second loop. Only folders remain on the remote list afterwards.
    method PullRemote(ghost s0: Sides, loc: Path, left: map<string, Entry>, ghost names: set<string>, at: Path -> real)
      returns (folders: set<string>, ok: bool, ghost done: set<string>)
      requires ChildrenMerged(s0, Both(), loc, names, at)
      requires forall f <- left :: PullPre(s0, loc, f, left[f], names)
      modifies this
      ensures done <= left.Keys && ChildrenMerged(s0, Both(), loc, names + done, at)
      ensures ok <==> forall f <- left :: ActionAt(s0, loc + [f]) != FailToPull
      ensures ok ==> done == left.Keys && folders == set f | f in left && left[f].Dir?
      ensures !ok ==> exists f <- done :: ActionAt(s0, loc + [f]) == FailToPull
    {
      hide ChildrenMerged, PullPre, ActionAt;
      var todo := left.Keys;
      done := {};
      folders := left.Keys;
      assert names + {} == names;
      while todo != {}
        invariant todo <= left.Keys && done == left.Keys - todo
        invariant ChildrenMerged(s0, Both(), loc, names + done, at)
        invariant forall f <- done :: ActionAt(s0, loc + [f]) != FailToPull
        invariant folders == set f | f in left && (f in todo || left[f].Dir?)
        decreases todo
      {
        var f :| f in todo;
        PullPreLater(s0, loc, f, left[f], names, done);
        ok := PullNext(s0, loc, names + done, f, left[f], at);
        assert names + done + {f} == names + (done + {f});
        if left[f].File? {
          folders := folders - {f};
        }
        todo, done := todo - {f}, done + {f};
        if !ok {
          return;
        }
      }
      assert done == left.Keys;
      ok := true;
    }

    // The two listing loops of _sync_folder: everything directly in `loc` is merged.
    method SyncEntries(loc: Path, at: Path -> real, ghost depth: nat) returns (folders: set<string>, ok: bool)
      requires GoodSides(Both(), depth) && IsFolder(local, loc) && IsFolder(remote, loc)
      modifies this
      ensures ok <==> !EntryFails(old(Both()), loc)
      ensures ok ==> EntriesMerged(old(Both()), Both(), loc, at)
      ensures ok ==> folders == FolderNames(old(Both()), loc)
      ensures !ok ==> IsPartlySynced(old(Both()), Both(), loc, at) && IsStopped(old(Both()), Both(), loc, at)
      ensures GoodSides(Both(), depth)
    {
      hide GoodSides, IsPartlySynced, IsStopped, EntryFails, EntriesMerged, FolderNames, ChildrenMerged, PullPre;
      hide Unpaired, ActionAt, IsFolder, IsLocalListing, IsRemoteListing;
      ghost var s0 := Both();
      var locList := LocalListing(local, loc);
      var remList := RemoteListing(remote, loc);
      var left;
      ghost var done;
      left, ok, done := PushLocal(loc, locList, remList, at);
      ChildrenKeepGood(s0, Both(), loc, done, at, depth);
      if !ok {
        FailingChild(s0, Both(), loc, done, done, at);
        folders := {};
        return;
      }
      LeftForPull(s0, loc, locList, remList, left);
      folders, ok, done := PullRemote(s0, loc, left, locList.Keys, at);
      ChildrenKeepGood(s0, Both(), loc, locList.Keys + done, at, depth);
      if !ok {
        FailingChild(s0, Both(), loc, locList.Keys + done, done, at);
        return;
      }
      NoFailingChild(s0, loc, locList, remList, left);
      AllEntriesMerged(s0, Both(), loc, locList, remList, left, at);
    }

    // _sync_folder. Listing a local path that is a file raises.
    method SyncFolder(loc: Path, at: Path -> real, ghost depth: nat) returns (ok: bool)
      requires GoodSides(Both(), depth) && IsFolder(remote, loc) && |loc| <= depth
      modifies this
      ensures ok <==> IsFolder(old(local), loc) && !Fails(old(Both()), loc)
      ensures ok ==> IsSynced(old(Both()), Both(), loc, at)
      ensures !ok && IsFolder(old(local), loc) ==>
                IsPartlySynced(old(Both()), Both(), loc, at) && IsStopped(old(Both()), Both(), loc, at)
      ensures !IsFolder(old(local), loc) ==> Both() == old(Both())
      ensures GoodSides(Both(), depth)
      decreases depth - |loc|
    {
      hide IsFolder, GoodSides, Fails, IsSynced, IsPartlySynced, IsStopped, EntryFails, EntriesMerged, FolderNames;
      hide Descended, ActionAt, IsFile;
      if !IsFolder(local, loc) {
        return false;
      }
      ghost var s0 := Both();
      var folders;
      folders, ok := SyncEntries(loc, at, depth);
      if !ok {
        EntryFailsIsFails(s0, loc);
        return;
      }
      var todo := folders;
      ghost var done := {};
      StartDescent(s0, Both(), loc, at);
      while todo != {}
        invariant todo <= folders && done == folders - todo
        invariant Descended(s0, Both(), loc, done, at)
        invariant GoodSides(Both(), depth)
        decreases todo
      {
        var f :| f in todo;
        ghost var s1 := Both();
        BeforeDescent(s0, s1, loc, done, f, at, depth);
        ok := SyncFolder(loc + [f], at, depth);
        if !ok {
          if IsFolder(s1.local, loc + [f]) {
            DescentFails(s0, s1, Both(), loc, done, f, at);
          } else {
            ListingFails(s0, s1, loc, done, f, at);
          }
          return;
        }
        DescentStep(s0, s1, Both(), loc, done, f, at);
        todo, done := todo - {f}, done + {f};
      }
      assert done == folders;
      DescentEnds(s0, Both(), loc, at, depth);
    }
  }

  // What the first loop leaves for the second.
  ghost predicate PullPre(s0: Sides, loc: Path, f: string, attrs: Entry, names: set<string>) {
    && Look(s0.remote, loc + [f]) == Some(attrs)
    && (if f in names then Look(s0.local, loc + [f]) == Some(Dir) else loc + [f] in s0.local ==> IsDotName(f))
  }

  lemma PullPreLater(s0: Sides, loc: Path, f: string, attrs: Entry, names: set<string>, done: set<string>)
    requires PullPre(s0, loc, f, attrs, names) && f !in done
    ensures PullPre(s0, loc, f, attrs, names + done)
  {
  }

  lemma ChildIsMerged(s0: Sides, s1: Sides, loc: Path, names: set<string>, f: string, at: Path -> real)
    requires ChildrenMerged(s0, s1, loc, names, at) && f in names
    ensures IsMerged(s0, s1, loc + [f], at)
  {
    ChildOneMore(loc + [f], loc, names, f);
    assert names + {f} == names;
  }

  predicate IsEntryOf(p: Path, loc: Path) {
    |p| == |loc| + 1 && p[..|loc|] == loc
  }

  // The remote folders that are descended into: not those with a listed local file of the name.
  function FolderNames(s: Sides, loc: Path): set<string> {
    set f | f in Names(s.remote, loc) && s.remote[loc + [f]].Dir? && (IsFile(s.local, loc + [f]) ==> IsDotName(f))
  }

  ghost predicate EntriesMerged(s: Sides, s': Sides, loc: Path, at: Path -> real) {
    forall p :: if IsEntryOf(p, loc) then IsMerged(s, s', p, at) else IsSame(s, s', p)
  }

  ghost predicate EntryFails(s: Sides, loc: Path) {
    exists p :: IsEntryOf(p, loc) && Raises(ActionAt(s, p)) && ActionAt(s, p) != FailToList
  }

  // What merging some children keeps, path by path.
  lemma ChildKeepsGood(s0: Sides, s1: Sides, loc: Path, names: set<string>, at: Path -> real, depth: nat, p: Path)
    requires GoodSides(s0, depth) && ChildrenMerged(s0, s1, loc, names, at)
    ensures IsFolder(s0.local, p) ==> IsFolder(s1.local, p)
    ensures IsFolder(s0.remote, p) ==> IsFolder(s1.remote, p)
    ensures p in s1.local && p !in s0.local ==> p in s0.remote && IsChildIn(p, loc, names)
    ensures p in s1.remote && p !in s0.remote ==> p in s0.local && IsChildIn(p, loc, names)
  {
    if IsChildIn(p, loc, names) {
      assert IsMerged(s0, s1, p, at);
    } else {
      assert IsSame(s0, s1, p);
    }
  }

  lemma ChildrenKeepGood(s0: Sides, s1: Sides, loc: Path, names: set<string>, at: Path -> real, depth: nat)
    requires GoodSides(s0, depth) && IsFolder(s0.local, loc) && IsFolder(s0.remote, loc)
    requires ChildrenMerged(s0, s1, loc, names, at)
    ensures GoodSides(s1, depth)
  {
    hide ChildrenMerged, IsMerged, IsSame;
    forall p | p in s1.local ensures p != [] && IsFolder(s1.local, Parent(p)) && |p| <= depth {
      ChildKeepsGood(s0, s1, loc, names, at, depth, p);
      assert p !in s0.local ==> Parent(p) == loc;
      ChildKeepsGood(s0, s1, loc, names, at, depth, Parent(p));
    }
    forall p | p in s1.remote ensures p != [] && IsFolder(s1.remote, Parent(p)) && |p| <= depth {
      ChildKeepsGood(s0, s1, loc, names, at, depth, p);
      assert p !in s0.remote ==> Parent(p) == loc;
      ChildKeepsGood(s0, s1, loc, names, at, depth, Parent(p));
    }
  }

  lemma ChildIsVisited(s: Sides, loc: Path, p: Path)
    requires IsEntryOf(p, loc) && IsFolder(s.remote, loc)
    ensures IsVisited(s, loc, p)
  {
    assert Parent(p) == loc;
  }

  lemma FailingChild(s0: Sides, s1: Sides, loc: Path, names: set<string>, done: set<string>, at: Path -> real)
    requires IsFolder(s0.remote, loc) && ChildrenMerged(s0, s1, loc, names, at) && done <= names
    requires exists f <- done :: Raises(ActionAt(s0, loc + [f])) && ActionAt(s0, loc + [f]) != FailToList
    ensures EntryFails(s0, loc) && IsPartlySynced(s0, s1, loc, at) && IsStopped(s0, s1, loc, at)
  {
    hide IsMerged, IsSame, IsVisited, ActionAt, Raises, IsFolder;
    var f :| f in done && Raises(ActionAt(s0, loc + [f])) && ActionAt(s0, loc + [f]) != FailToList;
    var q := loc + [f];
    assert IsEntryOf(q, loc);
    ChildIsVisited(s0, loc, q);
    ChildIsMerged(s0, s1, loc, names, f, at);
    assert StoppedAt(s0, s1, loc, q, at);
    forall p ensures IsSame(s0, s1, p) || (IsVisited(s0, loc, p) && IsMerged(s0, s1, p, at)) {
      if IsChildIn(p, loc, names) {
        ChildIsVisited(s0, loc, p);
      }
    }
  }

  lemma NoFailingChild(s0: Sides, loc: Path, locList: map<string, Entry>, remList: map<string, Entry>,
                       left: map<string, Entry>)
    requires IsLocalListing(locList, s0.local, loc) && IsRemoteListing(remList, s0.remote, loc)
    requires left == Unpaired(remList, locList, locList.Keys)
    requires forall f <- locList :: !FailsPushing(ActionAt(s0, loc + [f]))
    requires forall f <- left :: ActionAt(s0, loc + [f]) != FailToPull
    ensures !EntryFails(s0, loc)
  {
    forall p | IsEntryOf(p, loc) ensures Raises(ActionAt(s0, p)) ==> ActionAt(s0, p) == FailToList {
      var f := p[|loc|];
      assert p == loc + [f];
      assert p in s0.local && !IsHidden(p) ==> f in locList;
      assert f in left <==> f in remList && !(f in locList && locList[f].File?);
    }
  }

  lemma LeftForPull(s0: Sides, loc: Path, locList: map<string, Entry>, remList: map<string, Entry>,
                    left: map<string, Entry>)
    requires IsLocalListing(locList, s0.local, loc) && IsRemoteListing(remList, s0.remote, loc)
    requires left == Unpaired(remList, locList, locList.Keys)
    ensures forall f <- left :: PullPre(s0, loc, f, left[f], locList.Keys)
  {
    forall f | f in left ensures PullPre(s0, loc, f, left[f], locList.Keys) {
      assert loc + [f] in s0.remote;
    }
  }

  lemma AllEntriesMerged(s0: Sides, s1: Sides, loc: Path, locList: map<string, Entry>, remList: map<string, Entry>,
                         left: map<string, Entry>, at: Path -> real)
    requires IsLocalListing(locList, s0.local, loc) && IsRemoteListing(remList, s0.remote, loc)
    requires left == Unpaired(remList, locList, locList.Keys)
    requires ChildrenMerged(s0, s1, loc, locList.Keys + left.Keys, at)
    ensures EntriesMerged(s0, s1, loc, at)
    ensures (set f | f in left && left[f].Dir?) == FolderNames(s0, loc)
  {
    forall p ensures if IsEntryOf(p, loc) then IsMerged(s0, s1, p, at) else IsSame(s0, s1, p) {
      if IsEntryOf(p, loc) {
        var f := p[|loc|];
        assert p == loc + [f];
        if f !in locList.Keys + left.Keys {
          assert IsSame(s0, s1, p);
          assert p !in s0.remote;
          assert p in s0.local ==> IsHidden(p);
        }
      }
    }
    forall f | f in FolderNames(s0, loc) ensures f in left && left[f].Dir? {
      assert loc + [f] in s0.remote;
    }
  }

  lemma EntryFailsIsFails(s: Sides, loc: Path)
    requires EntryFails(s, loc) && IsFolder(s.remote, loc)
    ensures Fails(s, loc)
  {
    var p :| IsEntryOf(p, loc) && Raises(ActionAt(s, p)) && ActionAt(s, p) != FailToList;
    ChildIsVisited(s, loc, p);
  }

  // ---------- Descending into the remote folders ----------

  predicate IsDone(s0: Sides, loc: Path, done: set<string>, p: Path) {
    IsVisited(s0, loc, p) && (|p| == |loc| + 1 || p[|loc|] in done)
  }

  // The entries are merged, the folders in `done` have been descended into, and nothing raised
  // except that some of the others may turn out not to be listable.
  ghost predicate Descended(s0: Sides, s: Sides, loc: Path, done: set<string>, at: Path -> real) {
    forall p ::
      if IsDone(s0, loc, done, p) then
        IsMerged(s0, s, p, at)
        && (Raises(ActionAt(s0, p)) ==> ActionAt(s0, p) == FailToList && |p| == |loc| + 1 && p[|loc|] !in done)
      else IsSame(s0, s, p)
  }

  lemma BelowChild(p: Path, loc: Path, f: string)
    ensures IsBelow(p, loc + [f]) <==> IsBelow(p, loc) && |p| > |loc| + 1 && p[|loc|] == f
  {
    if IsBelow(p, loc) && |p| > |loc| + 1 && p[|loc|] == f {
      assert p[..|loc| + 1] == p[..|loc|] + [p[|loc|]];
    }
  }

  lemma {:induction false} AncestorIsFolder(t: Tree, p: Path, k: nat)
    requires IsTree(t) && IsFolder(t, p) && k <= |p|
    ensures IsFolder(t, p[..k])
    decreases |p|
  {
    if k == |p| {
      assert p[..k] == p;
    } else {
      AncestorIsFolder(t, Parent(p), k);
      assert Parent(p)[..k] == p[..k];
    }
  }

  lemma StartDescent(s0: Sides, s1: Sides, loc: Path, at: Path -> real)
    requires EntriesMerged(s0, s1, loc, at) && !EntryFails(s0, loc) && IsFolder(s0.remote, loc)
    ensures Descended(s0, s1, loc, {}, at)
  {
    forall p ensures IsDone(s0, loc, {}, p) <==> IsEntryOf(p, loc) {
      if IsEntryOf(p, loc) {
        ChildIsVisited(s0, loc, p);
      }
    }
  }

  lemma BeforeDescent(s0: Sides, s1: Sides, loc: Path, done: set<string>, f: string, at: Path -> real, depth: nat)
    requires Descended(s0, s1, loc, done, at) && f in FolderNames(s0, loc)
    requires GoodSides(s0, depth) && IsFolder(s0.remote, loc)
    ensures loc + [f] in s1.local && IsFolder(s1.remote, loc + [f]) && |loc| < depth
    ensures IsFolder(s1.local, loc + [f]) <==> ActionAt(s0, loc + [f]) != FailToList
    ensures IsFolder(s1.local, loc + [f]) <==> !IsFile(s0.local, loc + [f])
  {
    var p := loc + [f];
    assert p in s0.remote;
    ChildIsVisited(s0, loc, p);
    assert IsDone(s0, loc, done, p);
  }

  // Nothing below a folder not yet descended into has changed, so it is judged as at the start.
  lemma UndescendedIsSame(s0: Sides, s1: Sides, loc: Path, done: set<string>, f: string, p: Path, at: Path -> real)
    requires Descended(s0, s1, loc, done, at) && f in FolderNames(s0, loc) && f !in done
    requires IsFolder(s0.remote, loc) && IsBelow(p, loc + [f]) && !IsFile(s0.local, loc + [f])
    ensures IsSame(s0, s1, p) && (IsVisited(s1, loc + [f], p) <==> IsVisited(s0, loc, p))
  {
    hide Descended, IsMerged, IsSame, IsVisited, IsFile;
    BelowChild(p, loc, f);
    DescendedAt(s0, s1, loc, done, p, at);
    var q := Parent(p);
    if q == loc + [f] {
      ChildIsVisited(s0, loc, q);
      assert IsDone(s0, loc, done, q);
      DescendedAt(s0, s1, loc, done, q, at);
      RemoteFolderStays(s0, s1, q, at);
    } else {
      BelowChild(q, loc, f);
      DescendedAt(s0, s1, loc, done, q, at);
      SameFolder(s0, s1, q);
    }
    forall k | |loc| + 1 < k < |p| ensures IsFile(s0.local, p[..k]) <==> IsFile(s1.local, p[..k]) {
      BelowChild(p[..k], loc, f);
      assert p[..k][..|loc| + 1] == p[..|loc| + 1];
      DescendedAt(s0, s1, loc, done, p[..k], at);
      SameFolder(s0, s1, p[..k]);
    }
    assert p[..|loc| + 1] == loc + [f];
    SameWay(s0, s1, loc, f, p);
  }

  lemma SameWay(s0: Sides, s1: Sides, loc: Path, f: string, p: Path)
    requires IsBelow(p, loc + [f]) && p[..|loc| + 1] == loc + [f] && !IsFile(s0.local, loc + [f])
    requires IsFolder(s0.remote, Parent(p)) <==> IsFolder(s1.remote, Parent(p))
    requires forall k :: |loc| + 1 < k < |p| ==> (IsFile(s0.local, p[..k]) <==> IsFile(s1.local, p[..k]))
    ensures IsVisited(s1, loc + [f], p) <==> IsVisited(s0, loc, p)
  {
    hide IsFile;
    BelowChild(p, loc, f);
  }

  lemma DescendedAt(s0: Sides, s: Sides, loc: Path, done: set<string>, p: Path, at: Path -> real)
    requires Descended(s0, s, loc, done, at)
    ensures IsDone(s0, loc, done, p) ==> IsMerged(s0, s, p, at)
    ensures !IsDone(s0, loc, done, p) ==> IsSame(s0, s, p)
  {
  }

  lemma RemoteFolderStays(s0: Sides, s: Sides, p: Path, at: Path -> real)
    requires IsMerged(s0, s, p, at) && p in s0.remote && s0.remote[p].Dir?
    ensures IsFolder(s.remote, p)
  {
    assert Look(s.remote, p) == Some(Dir);
  }

  lemma SameFolder(s0: Sides, s: Sides, p: Path)
    requires IsSame(s0, s, p)
    ensures IsFolder(s.remote, p) <==> IsFolder(s0.remote, p)
    ensures IsFile(s.local, p) <==> IsFile(s0.local, p)
  {
  }

  lemma DescentStep(s0: Sides, s1: Sides, s2: Sides, loc: Path, done: set<string>, f: string, at: Path -> real)
    requires Descended(s0, s1, loc, done, at) && f in FolderNames(s0, loc) && f !in done
    requires IsFolder(s0.remote, loc) && !IsFile(s0.local, loc + [f])
    requires IsSynced(s1, s2, loc + [f], at) && !Fails(s1, loc + [f])
    ensures Descended(s0, s2, loc, done + {f}, at)
  {
    forall p
      ensures if IsDone(s0, loc, done + {f}, p) then
                IsMerged(s0, s2, p, at)
                && (Raises(ActionAt(s0, p)) ==>
                      ActionAt(s0, p) == FailToList && |p| == |loc| + 1 && p[|loc|] !in done + {f})
              else IsSame(s0, s2, p)
    {
      DescentStepAt(s0, s1, s2, loc, done, f, at, p);
    }
  }

  // One path's case of the step
  lemma DescentStepAt(s0: Sides, s1: Sides, s2: Sides, loc: Path, done: set<string>, f: string, at: Path -> real,
                      p: Path)
    requires Descended(s0, s1, loc, done, at) && f in FolderNames(s0, loc) && f !in done
    requires IsFolder(s0.remote, loc) && !IsFile(s0.local, loc + [f])
    requires IsSynced(s1, s2, loc + [f], at) && !Fails(s1, loc + [f])
    ensures IsDone(s0, loc, done + {f}, p) ==> IsMerged(s0, s2, p, at)
    ensures IsDone(s0, loc, done + {f}, p) && Raises(ActionAt(s0, p)) ==>
              ActionAt(s0, p) == FailToList && |p| == |loc| + 1 && p[|loc|] !in done + {f}
    ensures !IsDone(s0, loc, done + {f}, p) ==> IsSame(s0, s2, p)
  {
    hide IsVisited, ActionFor, IsMerged, IsSame, Descended, FolderNames, IsFile;
    BelowChild(p, loc, f);
    RaisesAt(s0, s1, loc, done, p, at);
    DescendedAt(s0, s1, loc, done, p, at);
    if IsBelow(p, loc + [f]) {
      UndescendedIsSame(s0, s1, loc, done, f, p, at);
      assert IsDone(s0, loc, done + {f}, p) <==> IsVisited(s1, loc + [f], p);
      assert if IsVisited(s1, loc + [f], p) then IsMerged(s1, s2, p, at) else IsSame(s1, s2, p);
      SameThen(s0, s1, s2, p, at);
    } else {
      assert IsDone(s0, loc, done + {f}, p) <==> IsDone(s0, loc, done, p) by { DoneElsewhere(s0, loc, done, f, p); }
      assert !IsVisited(s1, loc + [f], p) by { VisitedIsBelow(s1, loc + [f], p); }
      assert IsSame(s1, s2, p);
      ThenSame(s0, s1, s2, p, at);
      if IsDone(s0, loc, done, p) && |p| == |loc| + 1 && p[|loc|] == f {
        VisitedIsBelow(s0, loc, p);
        assert p == loc + [f];
        FileRaises(s0, p);
      }
    }
  }

  lemma RaisesAt(s0: Sides, s: Sides, loc: Path, done: set<string>, p: Path, at: Path -> real)
    requires Descended(s0, s, loc, done, at)
    ensures IsDone(s0, loc, done, p) && Raises(ActionAt(s0, p)) ==>
              ActionAt(s0, p) == FailToList && |p| == |loc| + 1 && p[|loc|] !in done
  {
  }

  // Unchanged, then merged or unchanged
  lemma SameThen(s0: Sides, s1: Sides, s2: Sides, p: Path, at: Path -> real)
    requires IsSame(s0, s1, p)
    ensures ActionAt(s1, p) == ActionAt(s0, p)
    ensures IsMerged(s1, s2, p, at) ==> IsMerged(s0, s2, p, at)
    ensures IsSame(s1, s2, p) ==> IsSame(s0, s2, p)
  {
  }

  // Merged or unchanged, then unchanged
  lemma ThenSame(s0: Sides, s1: Sides, s2: Sides, p: Path, at: Path -> real)
    requires IsSame(s1, s2, p)
    ensures IsMerged(s0, s1, p, at) ==> IsMerged(s0, s2, p, at)
    ensures IsSame(s0, s1, p) ==> IsSame(s0, s2, p)
  {
  }

  lemma VisitedIsBelow(s: Sides, loc: Path, p: Path)
    ensures IsVisited(s, loc, p) ==> IsBelow(p, loc)
  {
  }

  lemma DoneElsewhere(s0: Sides, loc: Path, done: set<string>, f: string, p: Path)
    requires !IsBelow(p, loc + [f])
    ensures IsDone(s0, loc, done + {f}, p) <==> IsDone(s0, loc, done, p)
  {
    BelowChild(p, loc, f);
  }

  lemma FileRaises(s: Sides, p: Path)
    ensures ActionAt(s, p) == FailToList ==> IsFile(s.local, p)
  {
  }

  lemma DescentFails(s0: Sides, s1: Sides, s2: Sides, loc: Path, done: set<string>, f: string, at: Path -> real)
    requires Descended(s0, s1, loc, done, at) && f in FolderNames(s0, loc) && f !in done
    requires IsFolder(s0.remote, loc) && !IsFile(s0.local, loc + [f])
    requires IsPartlySynced(s1, s2, loc + [f], at) && IsStopped(s1, s2, loc + [f], at)
    ensures IsPartlySynced(s0, s2, loc, at) && IsStopped(s0, s2, loc, at) && Fails(s0, loc)
  {
    hide IsVisited, ActionAt, IsMerged, IsSame, Descended, FolderNames, IsFile, Raises;
    forall p ensures IsSame(s0, s2, p) || (IsVisited(s0, loc, p) && IsMerged(s0, s2, p, at)) {
      DescendedAt(s0, s1, loc, done, p, at);
      if IsBelow(p, loc + [f]) {
        UndescendedIsSame(s0, s1, loc, done, f, p, at);
        SameThen(s0, s1, s2, p, at);
      } else {
        VisitedIsBelow(s1, loc + [f], p);
        assert IsSame(s1, s2, p);
        ThenSame(s0, s1, s2, p, at);
        DoneIsVisited(s0, loc, done, p);
      }
    }
    var p :| StoppedAt(s1, s2, loc + [f], p, at);
    VisitedIsBelow(s1, loc + [f], p);
    UndescendedIsSame(s0, s1, loc, done, f, p, at);
    SameThen(s0, s1, s2, p, at);
    assert StoppedAt(s0, s2, loc, p, at);
  }

  lemma DoneIsVisited(s0: Sides, loc: Path, done: set<string>, p: Path)
    ensures IsDone(s0, loc, done, p) ==> IsVisited(s0, loc, p)
  {
  }

  lemma ListingFails(s0: Sides, s1: Sides, loc: Path, done: set<string>, f: string, at: Path -> real)
    requires Descended(s0, s1, loc, done, at) && f in FolderNames(s0, loc)
    requires IsFolder(s0.remote, loc) && ActionAt(s0, loc + [f]) == FailToList
    ensures IsPartlySynced(s0, s1, loc, at) && IsStopped(s0, s1, loc, at) && Fails(s0, loc)
  {
    var p := loc + [f];
    ChildIsVisited(s0, loc, p);
    assert IsDone(s0, loc, done, p);
    assert StoppedAt(s0, s1, loc, p, at);
  }

  lemma DescentEnds(s0: Sides, s: Sides, loc: Path, at: Path -> real, depth: nat)
    requires Descended(s0, s, loc, FolderNames(s0, loc), at)
    requires GoodSides(s0, depth) && IsFolder(s0.remote, loc)
    ensures IsSynced(s0, s, loc, at) && !Fails(s0, loc)
  {
    forall p
      ensures if IsVisited(s0, loc, p) then IsMerged(s0, s, p, at) && !Raises(ActionAt(s0, p)) else IsSame(s0, s, p)
    {
      hide Descended, IsMerged, IsSame, FolderNames, ActionAt, Raises;
      DescendedAt(s0, s, loc, FolderNames(s0, loc), p, at);
      RaisesAt(s0, s, loc, FolderNames(s0, loc), p, at);
      AllAreDone(s0, loc, p);
    }
  }

  lemma AllAreDone(s: Sides, loc: Path, p: Path)
    requires IsTree(s.remote) && IsFolder(s.remote, loc)
    ensures IsDone(s, loc, FolderNames(s, loc), p) <==> IsVisited(s, loc, p)
    ensures IsVisited(s, loc, p) && ActionAt(s, p) == FailToList && |p| == |loc| + 1 ==> p[|loc|] in FolderNames(s, loc)
  {
    if IsVisited(s, loc, p) && |p| > |loc| + 1 {
      AncestorIsFolder(s.remote, Parent(p), |loc| + 1);
      assert Parent(p)[..|loc| + 1] == p[..|loc| + 1] == loc + [p[|loc|]];
      assert !IsFile(s.local, p[..|loc| + 1]);
    } else if IsVisited(s, loc, p) {
      assert p == loc + [p[|loc|]];
    }
  }

  // ---------- What a whole run achieves ----------

  predicate IsVisible(p: Path) {
    forall name <- p :: !IsDotName(name)
  }

  // No local file stands where the remote side has a folder, from the synchronised folder down
  // to the path.
  predicate IsClear(s: Sides, p: Path) {
    forall k :: 0 < k <= |p| ==> !(IsFile(s.local, p[..k]) && IsFolder(s.remote, p[..k]))
  }

  lemma {:induction false} VisibleIsVisited(s: Sides, p: Path, depth: nat)
    requires GoodSides(s, depth) && !Fails(s, []) && p in s.local && IsVisible(p)
    ensures IsVisited(s, [], p)
    decreases |p|
  {
    var q := Parent(p);
    if q != [] {
      assert q in s.local && s.local[q].Dir?;
      assert IsVisible(q) by { assert forall name <- q :: name in p; }
      VisibleIsVisited(s, q, depth);
      assert q[|q| - 1] in p && !IsHidden(q);
      hide GoodSides, Fails, IsVisible;
      FolderIsPaired(s, q);
      forall k | 0 < k < |p| ensures !IsFile(s.local, p[..k]) {
        assert k < |q| ==> p[..k] == q[..k];
      }
    }
  }

  lemma FolderIsPaired(s: Sides, q: Path)
    requires q in s.local && s.local[q].Dir? && !IsHidden(q) && !Raises(ActionAt(s, q))
    ensures IsFolder(s.remote, q)
  {
  }

  lemma ClearIsVisited(s: Sides, p: Path, depth: nat)
    requires GoodSides(s, depth) && p in s.remote && IsClear(s, p)
    ensures IsVisited(s, [], p)
  {
    forall k | 0 < k < |p| ensures !IsFile(s.local, p[..k]) {
      AncestorIsFolder(s.remote, Parent(p), k);
      assert Parent(p)[..k] == p[..k];
    }
  }

  // Afterwards both sides have the same visible paths, of the same kinds, except at and below
  // local files that stand where the remote side has a folder; and a file present on both sides
  // has the same content on both unless the two were within a second of each other, in which
  // case neither was touched.
  lemma SidesAgree(s: Sides, s': Sides, at: Path -> real, depth: nat, p: Path)
    requires GoodSides(s, depth) && !Fails(s, []) && IsSynced(s, s', [], at) && IsVisible(p) && IsClear(s, p)
    ensures p in s'.local <==> p in s'.remote
    ensures p in s'.local ==> s'.local[p].Dir? == s'.remote[p].Dir?
    ensures p in s'.local && s'.local[p].File? ==>
              s'.local[p] == s'.remote[p]
              || (IsSame(s, s', p) && p in s.local && p in s.remote && s.local[p].File? && s.remote[p].File?
                  && -1.0 < s.local[p].mtime - s.remote[p].mtime < 1.0)
  {
    assert !IsHidden(p);
    if p in s.local {
      VisibleIsVisited(s, p, depth);
      assert !Raises(ActionAt(s, p));
      assert p[..|p|] == p;
    }
    if p in s.remote {
      ClearIsVisited(s, p, depth);
    }
    assert if IsVisited(s, [], p) then IsMerged(s, s', p, at) else IsSame(s, s', p);
  }

  // And in the excepted places they do not: there is still a file on one side and a folder on
  // the other.
  lemma UnclearDisagrees(s: Sides, s': Sides, at: Path -> real, p: Path)
    requires IsSynced(s, s', [], at) && !IsClear(s, p)
    ensures exists k :: 0 < k <= |p| && IsFile(s'.local, p[..k]) && p[..k] in s'.remote && s'.remote[p[..k]].Dir?
  {
    var k :| 0 < k <= |p| && IsFile(s.local, p[..k]) && IsFolder(s.remote, p[..k]);
    RunIsAnyRun(s, s', at);
    assert IsSame(s, s', p[..k]) || IsMerged(s, s', p[..k], at);
    KindsStay(s, s', p[..k], at);
  }

  // Where both sides have a file, the one newer by a second or more prevails on both.
  lemma NewerPrevails(s: Sides, s': Sides, at: Path -> real, depth: nat, p: Path)
    requires GoodSides(s, depth) && IsSynced(s, s', [], at) && !IsHidden(p)
    requires p in s.local && s.local[p].File? && p in s.remote && s.remote[p].File?
    ensures p in s'.local && p in s'.remote && s'.local[p].File? && s'.remote[p].File?
    ensures s.local[p].mtime - s.remote[p].mtime >= 1.0 ==>
              s'.local[p].content == s'.remote[p].content == s.local[p].content
    ensures s.remote[p].mtime - s.local[p].mtime >= 1.0 ==>
              s'.local[p].content == s'.remote[p].content == s.remote[p].content
  {
    forall k | 0 < k < |p| ensures !IsFile(s.local, p[..k]) {
      AncestorIsFolder(s.local, Parent(p), k);
      assert Parent(p)[..k] == p[..k];
    }
    assert IsVisited(s, [], p);
    assert IsMerged(s, s', p, at);
  }

  // A run, complete or aborted, merges a path or leaves it alone.
  ghost predicate IsAnyRun(s: Sides, s': Sides, at: Path -> real) {
    forall p :: IsSame(s, s', p) || IsMerged(s, s', p, at)
  }

  lemma RunIsAnyRun(s: Sides, s': Sides, at: Path -> real)
    requires IsSynced(s, s', [], at) || IsPartlySynced(s, s', [], at)
    ensures IsAnyRun(s, s', at)
  {
    forall p ensures IsSame(s, s', p) || IsMerged(s, s', p, at) {
      if IsSynced(s, s', [], at) {
        assert if IsVisited(s, [], p) then IsMerged(s, s', p, at) else IsSame(s, s', p);
      }
    }
  }

  lemma KindsStay(s: Sides, s': Sides, p: Path, at: Path -> real)
    requires IsSame(s, s', p) || IsMerged(s, s', p, at)
    ensures p in s.local ==> p in s'.local && s'.local[p].Dir? == s.local[p].Dir?
    ensures p in s.remote ==> p in s'.remote && s'.remote[p].Dir? == s.remote[p].Dir?
    ensures p in s.remote && s.remote[p].Dir? ==> (IsFile(s'.local, p) <==> IsFile(s.local, p))
    ensures IsClash(ActionAt(s', p)) <==> IsClash(ActionAt(s, p))
    ensures IsClash(ActionAt(s, p)) ==> p in s.remote
  {
  }

  // No path disappears from either side or changes kind, even when the run is aborted.
  lemma NothingIsLost(s: Sides, s': Sides, at: Path -> real)
    requires IsSynced(s, s', [], at) || IsPartlySynced(s, s', [], at)
    ensures forall p <- s.local :: p in s'.local && s'.local[p].Dir? == s.local[p].Dir?
    ensures forall p <- s.remote :: p in s'.remote && s'.remote[p].Dir? == s.remote[p].Dir?
  {
    RunIsAnyRun(s, s', at);
    forall p | p in s.local ensures p in s'.local && s'.local[p].Dir? == s.local[p].Dir? {
      KindsStay(s, s', p, at);
    }
    forall p | p in s.remote ensures p in s'.remote && s'.remote[p].Dir? == s.remote[p].Dir? {
      KindsStay(s, s', p, at);
    }
  }

  predicate HasContent(t: Tree, p: Path, content: string) {
    p in t && t[p].File? && t[p].content == content
  }

  // In every run, complete or aborted, a file that only one side has keeps its content there,
  // and is put on the other side with that content or not at all; and no file has a content that
  // it had on neither side.
  lemma ContentsStay(s: Sides, s': Sides, at: Path -> real, p: Path, content: string)
    requires IsSynced(s, s', [], at) || IsPartlySynced(s, s', [], at)
    ensures HasContent(s.local, p, content) && p !in s.remote ==>
              HasContent(s'.local, p, content) && (p in s'.remote ==> HasContent(s'.remote, p, content))
    ensures HasContent(s.remote, p, content) && p !in s.local ==>
              HasContent(s'.remote, p, content) && (p in s'.local ==> HasContent(s'.local, p, content))
    ensures HasContent(s'.local, p, content) || HasContent(s'.remote, p, content) ==>
              HasContent(s.local, p, content) || HasContent(s.remote, p, content)
  {
    RunIsAnyRun(s, s', at);
    assert IsSame(s, s', p) || IsMerged(s, s', p, at);
  }

  // A file's content is only ever given up for a version on the other side that is newer by a
  // second or more, or, locally, for the remote version if the name is dotted.
  lemma GivenUpForNewer(s: Sides, s': Sides, at: Path -> real, p: Path, content: string)
    requires IsSynced(s, s', [], at) || IsPartlySynced(s, s', [], at)
    ensures HasContent(s.local, p, content) && !HasContent(s'.local, p, content) ==>
              IsFile(s.remote, p) && HasContent(s'.local, p, s.remote[p].content)
              && (s.remote[p].mtime - s.local[p].mtime >= 1.0 || IsHidden(p))
    ensures HasContent(s.remote, p, content) && !HasContent(s'.remote, p, content) ==>
              IsFile(s.local, p) && HasContent(s'.remote, p, s.local[p].content)
              && s.local[p].mtime - s.remote[p].mtime >= 1.0 && !IsHidden(p)
  {
    RunIsAnyRun(s, s', at);
    assert IsSame(s, s', p) || IsMerged(s, s', p, at);
  }

  // Local entries with a dotted name that are not on the remote side stay as they are and do not
  // get there, not even by an aborted run.
  lemma DotNamesStayLocal(s: Sides, s': Sides, at: Path -> real, p: Path, name: string)
    requires IsSynced(s, s', [], at) || IsPartlySynced(s, s', [], at)
    requires p != [] && p[|p| - 1] == "." + name && p in s.local && p !in s.remote
    ensures p in s'.local && s'.local[p] == s.local[p] && p !in s'.remote
  {
    RunIsAnyRun(s, s', at);
    assert IsSame(s, s', p) || IsMerged(s, s', p, at);
  }

  // A complete run uploads every other local file that a remote folder is there for.
  lemma OthersAreUploaded(s: Sides, s': Sides, at: Path -> real, depth: nat, p: Path, content: string)
    requires GoodSides(s, depth) && IsSynced(s, s', [], at)
    requires HasContent(s.local, p, content) && p !in s.remote && IsFolder(s.remote, Parent(p))
    requires p[|p| - 1] == "" || p[|p| - 1][0] != '.'
    ensures HasContent(s'.remote, p, content) && p in s'.uploads
  {
    forall k | 0 < k < |p| ensures !IsFile(s.local, p[..k]) {
      AncestorIsFolder(s.local, Parent(p), k);
      assert Parent(p)[..k] == p[..k];
    }
    assert IsVisited(s, [], p);
    assert IsMerged(s, s', p, at);
  }

  // Where a run fails: at a local folder, not dotted, that is missing remotely; at a remote file
  // for which there is a local folder; at a remote folder for which there is a local file that is
  // dotted or a second or more apart in time.
  lemma WhatRaises(s: Sides, p: Path)
    ensures Raises(ActionAt(s, p)) <==>
              || (p in s.local && s.local[p].Dir? && p !in s.remote && !IsHidden(p))
              || (p in s.local && s.local[p].Dir? && p in s.remote && s.remote[p].File?)
              || (p in s.local && s.local[p].File? && p in s.remote && s.remote[p].Dir?
                  && (IsHidden(p) || s.local[p].mtime - s.times(p) >= 1.0 || s.times(p) - s.local[p].mtime >= 1.0))
  {
  }

  // The state in which the next run starts.
  function NextRun(s: Sides): Sides {
    s.(uploads := {}, downloads := {})
  }

  // What one run visits the next one visits, and nothing else below the old remote folders.
  lemma VisitedStays(s: Sides, s': Sides, at: Path -> real, depth: nat, p: Path)
    requires GoodSides(s, depth) && IsAnyRun(s, s', at)
    ensures IsVisited(s, [], p) ==> IsVisited(NextRun(s'), [], p)
    ensures IsVisited(NextRun(s'), [], p) && IsFolder(s.remote, Parent(p)) ==> IsVisited(s, [], p)
  {
    hide IsMerged, IsSame, IsFile, IsAnyRun, GoodSides;
    if p != [] && IsFolder(s.remote, Parent(p)) {
      StaysAt(s, s', at, Parent(p));
      forall k | 0 < k < |p| ensures IsFile(s'.local, p[..k]) <==> IsFile(s.local, p[..k]) {
        assert IsTree(s.remote) by { GoodIsTree(s, depth); }
        AncestorIsFolder(s.remote, Parent(p), k);
        assert Parent(p)[..k] == p[..k];
        StaysAt(s, s', at, p[..k]);
      }
    }
  }

  lemma GoodIsTree(s: Sides, depth: nat)
    requires GoodSides(s, depth)
    ensures IsTree(s.local) && IsTree(s.remote)
  {
  }

  lemma StaysAt(s: Sides, s': Sides, at: Path -> real, p: Path)
    requires IsAnyRun(s, s', at) && IsFolder(s.remote, p)
    ensures IsFolder(s'.remote, p)
    ensures p != [] ==> (IsFile(s'.local, p) <==> IsFile(s.local, p))
  {
    assert IsSame(s, s', p) || IsMerged(s, s', p, at);
    KindsStay(s, s', p, at);
  }

  // A complete run creates no remote folders.
  lemma RemoteFoldersStay(s: Sides, s': Sides, at: Path -> real, q: Path)
    requires !Fails(s, []) && IsSynced(s, s', [], at)
    ensures IsFolder(s'.remote, q) <==> IsFolder(s.remote, q)
  {
    if IsVisited(s, [], q) {
      assert IsMerged(s, s', q, at) && !Raises(ActionAt(s, q));
    } else {
      assert IsSame(s, s', q);
    }
  }

  // What a second run would do to a path: nothing, except to a remote file with a dot-name,
  // which the local listing overlooks.
  lemma SecondAction(s: Sides, s': Sides, at: Path -> real, p: Path)
    requires IsMerged(s, s', p, at) && !Raises(ActionAt(s, p))
    ensures ActionAt(NextRun(s'), p) == if IsHidden(p) && p in s.remote && s.remote[p].File? then Download else Keep
    ensures ActionAt(NextRun(s'), p) == Download ==> Look(s'.local, p) == Look(s'.remote, p)
  {
  }

  lemma SecondVisit(s: Sides, s': Sides, at: Path -> real, depth: nat, p: Path)
    requires GoodSides(s, depth) && !Fails(s, []) && IsSynced(s, s', [], at)
    ensures IsVisited(NextRun(s'), [], p) <==> IsVisited(s, [], p)
  {
    RunIsAnyRun(s, s', at);
    VisitedStays(s, s', at, depth, p);
    if IsVisited(NextRun(s'), [], p) {
      RemoteFoldersStay(s, s', at, Parent(p));
    }
  }

  // A second run changes neither side, and transfers exactly the remote files with a dot-name
  // that it comes to; so it transfers nothing if and only if there are none.
  lemma SecondRunChangesNothing(s: Sides, s': Sides, s'': Sides, at: Path -> real, at': Path -> real, depth: nat)
    requires GoodSides(s, depth) && !Fails(s, []) && IsSynced(s, s', [], at)
    requires IsSynced(NextRun(s'), s'', [], at')
    ensures !Fails(NextRun(s'), [])
    ensures s''.local == s'.local && s''.remote == s'.remote
    ensures s''.uploads == {}
    ensures forall p :: p in s''.downloads <==> IsVisited(s, [], p) && IsFile(s.remote, p) && IsHidden(p)
    ensures s''.downloads == {} <==> forall p :: IsVisited(s, [], p) && IsFile(s.remote, p) ==> !IsHidden(p)
  {
    hide IsVisited, GoodSides, ActionFor;
    forall p
      ensures Look(s''.local, p) == Look(s'.local, p) && Look(s''.remote, p) == Look(s'.remote, p)
      ensures p !in s''.uploads
      ensures p in s''.downloads <==> IsVisited(s, [], p) && IsFile(s.remote, p) && IsHidden(p)
      ensures IsVisited(NextRun(s'), [], p) ==> !Raises(ActionAt(NextRun(s'), p))
    {
      SecondVisit(s, s', at, depth, p);
      if IsVisited(s, [], p) {
        assert IsMerged(s, s', p, at) && !Raises(ActionAt(s, p));
        SecondAction(s, s', at, p);
        assert IsMerged(NextRun(s'), s'', p, at');
      } else {
        assert IsSame(NextRun(s'), s'', p);
      }
    }
    SameTree(s'.local, s''.local);
    SameTree(s'.remote, s''.remote);
  }

  lemma SameTree(t: Tree, t': Tree)
    requires forall p :: Look(t, p) == Look(t', p)
    ensures t == t'
  {
    assert forall p :: p in t <==> Look(t, p).Some?;
    assert forall p :: p in t' <==> Look(t', p).Some?;
    assert forall p <- t :: Look(t, p) == Some(t[p]);
    assert forall p <- t' :: Look(t', p) == Some(t'[p]);
  }

  // A local folder missing on the remote side aborts the run.
  lemma LocalOnlyFolderAborts(name: string, times: Path -> real)
    requires !IsDotName(name)
    ensures Fails(Sides(map[[name] := Dir], map[], {}, {}, times), [])
  {
    var s := Sides(map[[name] := Dir], map[], {}, {}, times);
    assert IsVisited(s, [], [name]) && ActionAt(s, [name]) == MakeRemoteAndFail;
  }

  // A run comes to a path that is a file on one side and a folder on the other, and raises there.
  ghost predicate HasClash(s: Sides) {
    exists p :: IsVisited(s, [], p) && IsClash(ActionAt(s, p))
  }

  // No run, complete or aborted, brings such a clash about or does away with one.
  lemma ClashesStay(s: Sides, s': Sides, at: Path -> real, depth: nat)
    requires GoodSides(s, depth) && (IsSynced(s, s', [], at) || IsPartlySynced(s, s', [], at))
    ensures HasClash(NextRun(s')) <==> HasClash(s)
  {
    hide IsVisited, ActionFor, IsMerged, IsSame;
    RunIsAnyRun(s, s', at);
    if HasClash(s) {
      var p :| IsVisited(s, [], p) && IsClash(ActionAt(s, p));
      VisitedStays(s, s', at, depth, p);
      KindsStay(s, s', p, at);
      assert IsClash(ActionAt(NextRun(s'), p));
    }
    if HasClash(NextRun(s')) {
      var p :| IsVisited(NextRun(s'), [], p) && IsClash(ActionAt(NextRun(s'), p));
      KindsStay(s, s', p, at);
      VisitedStays(s, s', at, depth, p);
    }
  }

  function MissingFolders(s: Sides): set<Path> {
    set p | p in s.local && s.local[p].Dir? && p !in s.remote
  }

  // Without a clash a run fails only on one of them.
  lemma FailureMisses(s: Sides)
    requires Fails(s, []) && !HasClash(s)
    ensures MissingFolders(s) != {}
  {
    var p :| IsVisited(s, [], p) && Raises(ActionAt(s, p));
    assert p in MissingFolders(s);
  }

  // And then every aborted run leaves fewer local folders missing remotely.
  lemma AbortedRunMakesProgress(s: Sides, s': Sides, at: Path -> real)
    requires !HasClash(s) && IsPartlySynced(s, s', [], at) && IsStopped(s, s', [], at)
    ensures |MissingFolders(NextRun(s'))| < |MissingFolders(s)|
  {
    var p :| StoppedAt(s, s', [], p, at);
    assert p in MissingFolders(s) && p !in MissingFolders(NextRun(s'));
    forall q | q in MissingFolders(NextRun(s')) ensures q in MissingFolders(s) {
      assert IsSame(s, s', q) || IsMerged(s, s', q, at);
    }
    SubsetIsSmaller(MissingFolders(NextRun(s')), MissingFolders(s), p);
  }

  // Runs one after the other, all of them aborted: what each starts from, leaves, and the
  // server's times in it.
  datatype Run = Run(start: Sides, end: Sides, at: Path -> real)

  ghost predicate AreAborted(runs: seq<Run>, depth: nat) {
    && (forall i :: 0 <= i < |runs| ==>
          && GoodSides(runs[i].start, depth)
          && IsPartlySynced(runs[i].start, runs[i].end, [], runs[i].at)
          && IsStopped(runs[i].start, runs[i].end, [], runs[i].at))
    && (forall i :: 0 < i < |runs| ==> runs[i].start == NextRun(runs[i - 1].end))
  }

  // With a clash every run is aborted, for ever. Without one, at most as many runs are aborted
  // as there were folders missing at first, and after that many the next one completes.
  lemma {:induction false} RepeatedRunsComplete(runs: seq<Run>, depth: nat)
    requires runs != [] && AreAborted(runs, depth)
    ensures var s, next := runs[0].start, NextRun(runs[|runs| - 1].end);
            && (HasClash(next) <==> HasClash(s))
            && (HasClash(s) ==> Fails(next, []))
            && (!HasClash(s) ==>
                  && |runs| <= |MissingFolders(s)|
                  && |MissingFolders(next)| <= |MissingFolders(s)| - |runs|
                  && (|runs| == |MissingFolders(s)| ==> !Fails(next, [])))
    decreases |runs|
  {
    hide IsPartlySynced, IsStopped, GoodSides, MissingFolders, Fails, HasClash;
    var n := |runs| - 1;
    if n > 0 {
      assert AreAborted(runs[..n], depth);
      RepeatedRunsComplete(runs[..n], depth);
    }
    var next := NextRun(runs[n].end);
    ClashesStay(runs[n].start, runs[n].end, runs[n].at, depth);
    if HasClash(runs[0].start) {
      ClashFails(next);
    } else {
      AbortedRunMakesProgress(runs[n].start, runs[n].end, runs[n].at);
      if Fails(next, []) {
        FailureMisses(next);
      }
    }
  }

  lemma ClashFails(s: Sides)
    requires HasClash(s)
    ensures Fails(s, [])
  {
    var p :| IsVisited(s, [], p) && IsClash(ActionAt(s, p));
    assert Raises(ActionAt(s, p));
  }

  lemma SubsetIsSmaller(a: set<Path>, b: set<Path>, p: Path)
    requires a <= b && p in b && p !in a
    ensures |a| < |b|
  {
    CardinalityOfSubset(a, b - {p});
  }

  lemma {:induction false} CardinalityOfSubset(a: set<Path>, b: set<Path>)
    requires a <= b
    ensures |a| <= |b|
  {
    if a != {} {
      var x :| x in a;
      CardinalityOfSubset(a - {x}, b - {x});
    }
  }
}
