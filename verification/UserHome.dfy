/**
 The content of a user's home disk: refresh marker, home image, backup and restore
 (engine/src/juliabox/vol/jbox_volume.py and refresh_disk/release of
 engine/src/juliabox/plugins/vol_loopback/loopback.py).

 A disk is a map from relative paths to file contents; folders are implied by paths.
 */
module UserHome {
  import opened Basics
  import opened ContainerNames
  import opened Strings

  // The only content the code itself interprets is a time stamp.
  datatype Blob = Data(text: string) | Stamp(time: int)
  type Files = map<string, Blob>

  // A home image: the files that a blank disk gets from it, and its modification time.
  datatype Image = Image(files: Files, mtime: int)

  datatype Member = Member(name: string, blob: Blob)
  type Archive = seq<Member>

  const JULIABOX: string := ".juliabox"
  const MARKER: string := JULIABOX + "/.refreshed"
  const JUSER: string := "juser/"
  const ESSENTIALS: seq<string> :=
    [".juliabox", ".ipython/README", ".ipython/kernels", ".ipython/profile_julia", ".ipython/profile_default"]

  // ---------- Paths ----------

  // The component loop of os.path.normpath.
  function NormComps(comps: seq<string>, absolute: bool, acc: seq<string>): seq<string> {
    if comps == [] then acc
    else
      var c := comps[0];
      var next :=
        if c == "" || c == "." then acc
        else if c != ".." || (!absolute && acc == []) || (acc != [] && acc[|acc| - 1] == "..") then acc + [c]
        else if acc != [] then acc[..|acc| - 1]
        else acc;
      NormComps(comps[1..], absolute, next)
  }

  function NormPath(path: string): string {
    if path == "" then "."
    else
      var slashes := if !StartsWith(path, "/") then ""
                     else if StartsWith(path, "//") && !StartsWith(path, "///") then "//"
                     else "/";
      var comps := NormComps(Split(path, '/'), slashes != "", []);
      var norm := slashes + (if comps == [] then "" else Join(comps, '/'));
      if norm == "" then "." else norm
  }

  // Paths as a directory walk produces them.
  predicate IsClean(path: string) {
    forall c <- Split(path, '/') :: c != "" && c != "." && c != ".."
  }

  lemma {:induction false} NormCompsOfClean(comps: seq<string>, acc: seq<string>)
    requires forall c <- comps :: c != "" && c != "." && c != ".."
    ensures NormComps(comps, false, acc) == acc + comps
  {
    if comps == [] {
      assert acc + comps == acc;
    } else {
      assert forall c <- comps[1..] :: c in comps;
      assert comps[0] in comps;
      NormCompsOfClean(comps[1..], acc + [comps[0]]);
      assert acc + [comps[0]] + comps[1..] == acc + comps;
    }
  }

  lemma NormPathOfClean(path: string)
    requires IsClean(path)
    ensures NormPath(path) == path
  {
    var comps := Split(path, '/');
    assert path != "" && path[0] != '/' by { assert comps[0] in comps; }
    NormCompsOfClean(comps, []);
    assert [] + comps == comps;
    JoinOfSplit(path, '/');
  }

  lemma {:induction false} NormCompsOfDot(a: seq<string>, c: string, b: seq<string>, absolute: bool, acc: seq<string>)
    requires c == "" || c == "."
    ensures NormComps(a + [c] + b, absolute, acc) == NormComps(a + b, absolute, acc)
  {
    if a == [] {
      assert (a + [c] + b)[1..] == b && a + b == b;
    } else {
      var x := a[0];
      var next :=
        if x == "" || x == "." then acc
        else if x != ".." || (!absolute && acc == []) || (acc != [] && acc[|acc| - 1] == "..") then acc + [x]
        else if acc != [] then acc[..|acc| - 1]
        else acc;
      assert (a + [c] + b)[1..] == a[1..] + [c] + b && (a + b)[1..] == a[1..] + b;
      NormCompsOfDot(a[1..], c, b, absolute, next);
    }
  }

  // A step to the folder one is in does not change where a path leads.
  lemma NormPathOfDot(p: string, q: string)
    requires p != "" && !StartsWith(q, "/")
    ensures NormPath(p + "/./" + q) == NormPath(p + "/" + q)
  {
    var long, short := p + "/./" + q, p + "/" + q;
    var rest := "." + ['/'] + q;
    assert long == p + ['/'] + rest && short == p + ['/'] + q;
    SplitAppend(p, rest, '/');
    SplitAppend(".", q, '/');
    SplitOfPlain(".", '/');
    SplitAppend(p, q, '/');
    var absolute := StartsWith(long, "/");
    NormCompsOfDot(Split(p, '/'), ".", Split(q, '/'), absolute, []);
    hide Split, NormComps, Join;
    assert Split(p, '/') + ["."] + Split(q, '/') == Split(p, '/') + (["."] + Split(q, '/'));
    SameSlashes(p, q);
  }

  lemma SameSlashes(p: string, q: string)
    requires p != "" && !StartsWith(q, "/")
    ensures forall s :: s == "/" || s == "//" || s == "///" ==>
              (StartsWith(p + "/./" + q, s) <==> StartsWith(p + "/" + q, s))
  {
    var long, short := p + "/./" + q, p + "/" + q;
    assert |q| > 0 ==> q[0] != '/' by { assert |q| > 0 ==> q[..1] == [q[0]]; }
    assert long[|p|] == '/' && long[|p| + 1] == '.' && short[|p|] == '/';
    assert |q| > 0 ==> short[|p| + 1] == q[0];
    assert forall i :: 0 <= i < |p| ==> long[i] == p[i] && short[i] == p[i];
    forall s | s == "/" || s == "//" || s == "///" ensures StartsWith(long, s) <==> StartsWith(short, s) {
      StartsByChar(long, s);
      StartsByChar(short, s);
      forall i | 0 <= i < |s| ensures s[i] == '/' {
      }
      assert |s| >= |p| + 2 ==> !StartsWith(long, s) by { assert |s| >= |p| + 2 ==> s[|p| + 1] == '/'; }
      assert |s| >= |p| + 2 && |short| >= |s| ==> short[|p| + 1] != '/';
    }
  }

  lemma StartsByChar(s: string, p: string)
    ensures StartsWith(s, p) <==> |p| <= |s| && forall i :: 0 <= i < |p| ==> s[i] == p[i]
  {
  }

  lemma {:induction false} NormCompsAreProper(comps: seq<string>, absolute: bool, acc: seq<string>)
    requires forall c <- comps + acc :: '/' !in c
    requires "" !in acc
    ensures forall c <- NormComps(comps, absolute, acc) :: '/' !in c && c != ""
  {
    if comps != [] {
      var c := comps[0];
      var next :=
        if c == "" || c == "." then acc
        else if c != ".." || (!absolute && acc == []) || (acc != [] && acc[|acc| - 1] == "..") then acc + [c]
        else if acc != [] then acc[..|acc| - 1]
        else acc;
      assert c in comps + acc && forall x <- comps[1..] :: x in comps;
      NormCompsAreProper(comps[1..], absolute, next);
    }
  }

  // A normalized path is absolute if and only if the path is, with two slashes where the path
  // has exactly two; so a member whose name goes on with a slash after juser/ leads out of the
  // disk.
  lemma AbsoluteStaysAbsolute(path: string)
    ensures StartsWith(NormPath(path), "/") <==> StartsWith(path, "/")
    ensures StartsWith(NormPath(path), "//") <==> StartsWith(path, "//") && !StartsWith(path, "///")
    ensures StartsWith(path, "/") ==> !IsClean(NormPath(path))
  {
    var comps := NormComps(Split(path, '/'), StartsWith(path, "/"), []);
    NormCompsAreProper(Split(path, '/'), StartsWith(path, "/"), []);
    var norm := NormPath(path);
    if comps != [] {
      JoinStarts(comps);
    }
    hide Split, NormComps, Join, IsClean;
    StartsByChar(path, "/");
    StartsByChar(path, "//");
    StartsByChar(path, "///");
    StartsByChar(norm, "/");
    StartsByChar(norm, "//");
    if StartsWith(path, "/") {
      var slashes := if StartsWith(path, "//") && !StartsWith(path, "///") then "//" else "/";
      var joined := if comps == [] then "" else Join(comps, '/');
      assert norm == slashes + joined;
      assert joined != "" ==> norm[|slashes|] == joined[0] && joined[0] != '/';
      assert norm[0] == '/' && (|norm| >= 2 && norm[1] == '/' <==> slashes == "//");
      SlashedIsNotClean(norm);
    } else {
      assert norm[0] != '/';
      assert !StartsWith(path, "//");
    }
  }

  lemma JoinStarts(comps: seq<string>)
    requires comps != [] && forall c <- comps :: '/' !in c && c != ""
    ensures Join(comps, '/') != "" && Join(comps, '/')[0] != '/'
  {
    assert comps[0] in comps;
    assert comps[0][0] in comps[0];
  }

  lemma SlashedIsNotClean(path: string)
    requires StartsWith(path, "/")
    ensures !IsClean(path)
  {
    assert path == "" + ['/'] + path[1..];
    SplitAppend("", path[1..], '/');
    assert Split("", '/') == [""];
    assert "" in Split(path, '/');
  }

  predicate IsRoot(p: string) {
    p in ESSENTIALS
  }

  // The string comparison of _is_path_user_home_essential.
  predicate LiesUnder(chk: string, p: string) {
    StartsWith(chk, p) && (|p| == |chk| || chk[|p|] == '/')
  }

  ghost predicate IsEssential(path: string) {
    exists p {:trigger IsRoot(p)} :: IsRoot(p) && LiesUnder(NormPath(path), p)
  }

  method IsPathUserHomeEssential(path: string) returns (essential: bool)
    ensures essential <==> IsEssential(path)
  {
    var chk := NormPath(path);
    for i := 0 to |ESSENTIALS|
      invariant forall p :: IsRoot(p) && LiesUnder(chk, p) ==> p in ESSENTIALS[i..]
    {
      var p := ESSENTIALS[i];
      if LiesUnder(chk, p) {
        assert IsRoot(p);
        return true;
      }
      assert ESSENTIALS[i..] == [p] + ESSENTIALS[i + 1..];
    }
    return false;
  }

  predicate AtOrBelow(path: string, root: string) {
    Split(root, '/') <= Split(path, '/')
  }

  // The string comparison decides exactly whether the normalized path lies at or below one
  // of the essential folders and files.
  lemma EssentialIsComponentPrefix(path: string)
    ensures IsEssential(path) <==> exists p {:trigger IsRoot(p)} :: IsRoot(p) && AtOrBelow(NormPath(path), p)
  {
    forall p | IsRoot(p) ensures LiesUnder(NormPath(path), p) <==> AtOrBelow(NormPath(path), p) {
      TextPrefixIsComponentPrefix(NormPath(path), p, '/');
    }
  }

  lemma RootsAreDotted(p: string)
    requires IsRoot(p)
    ensures |p| > 0 && p[0] == '.'
  {
  }

  lemma EssentialStartsWithDot(path: string)
    requires IsClean(path) && IsEssential(path)
    ensures StartsWith(path, ".")
  {
    NormPathOfClean(path);
    var p :| IsRoot(p) && LiesUnder(path, p);
    RootsAreDotted(p);
    assert path[..1] == ".";
  }

  lemma UnderJuliaboxIsEssential(path: string)
    requires IsClean(path) && Split(path, '/')[0] == JULIABOX
    ensures IsEssential(path)
  {
    NormPathOfClean(path);
    SplitOfPlain(JULIABOX, '/');
    assert [JULIABOX] <= Split(path, '/');
    assert IsRoot(JULIABOX) by { assert ESSENTIALS[0] == JULIABOX; }
    EssentialIsComponentPrefix(path);
  }

  lemma FileInJuliabox(path: string, file: string)
    requires path == JULIABOX + ['/'] + file && '/' !in file
    requires file != "" && file != "." && file != ".."
    ensures IsClean(path) && Split(path, '/')[0] == JULIABOX
  {
    SplitOfPlain(JULIABOX, '/');
    SplitOfPlain(file, '/');
    SplitAppend(JULIABOX, file, '/');
  }

  lemma MarkerIsEssential()
    ensures IsClean(MARKER) && IsEssential(MARKER)
  {
    FileInJuliabox(MARKER, MARKER[10..]);
    UnderJuliaboxIsEssential(MARKER);
  }

  // ---------- Backup and restore ----------

  function PathOf(name: string): string {
    if |name| >= |JUSER| then name[|JUSER|..] else ""
  }

  // Whether _backup archives a path: everything but the top-level .juliabox folder.
  predicate IsArchived(path: string) {
    Split(path, '/')[0] != ".juliabox"
  }

  // Whether restore extracts an archive member.
  ghost predicate IsRestored(name: string) {
    && StartsWith(name, JUSER)
    && !(StartsWith(name, "juser/.") && IsEssential(PathOf(name)))
    && PathOf(name) != ""
  }

  // The path of the file that a member is extracted to: names are resolved like any path.
  function Target(name: string): string {
    NormPath(PathOf(name))
  }

  // Extracting to `path`; a path that leads out of the disk does not touch its files.
  function Extracted(files: Files, path: string, blob: Blob): Files {
    if IsClean(NormPath(path)) then files[NormPath(path) := blob] else files
  }

  // Extraction in archive order; a later member overwrites an earlier one.
  ghost function RestoreOver(home: Files, archive: Archive): Files {
    if archive == [] then home
    else
      var before := RestoreOver(home, archive[..|archive| - 1]);
      var m := archive[|archive| - 1];
      if IsRestored(m.name) then Extracted(before, PathOf(m.name), m.blob) else before
  }

  // Whether restoring a member writes the file p.
  ghost predicate LandsOn(name: string, p: string) {
    IsRestored(name) && Target(name) == p && IsClean(p)
  }

  ghost predicate IsBackupOf(archive: Archive, files: Files) {
    && (forall m <- archive ::
          m.name == JUSER + PathOf(m.name) && PathOf(m.name) in files && IsArchived(PathOf(m.name))
          && m.blob == files[PathOf(m.name)])
    && (forall p <- files :: IsArchived(p) ==> Member(JUSER + p, files[p]) in archive)
  }

  ghost predicate IsLastOn(archive: Archive, i: nat, p: string) {
    i < |archive| && LandsOn(archive[i].name, p) && forall j :: i < j < |archive| ==> !LandsOn(archive[j].name, p)
  }

  // Each file on a restored disk is the last archive member that lands on it, or is left from
  // the home below when there is none.
  lemma {:induction false} RestoredFrom(home: Files, archive: Archive, p: string)
    ensures var back := RestoreOver(home, archive);
            (exists i: nat :: IsLastOn(archive, i, p) && p in back && back[p] == archive[i].blob)
            || ((forall m <- archive :: !LandsOn(m.name, p))
                && (p in back <==> p in home) && (p in back ==> back[p] == home[p]))
  {
    hide IsRestored, NormPath, IsClean;
    if archive != [] {
      var n := |archive| - 1;
      var before := archive[..n];
      assert archive == before + [archive[n]];
      if LandsOn(archive[n].name, p) {
        assert IsLastOn(archive, n, p);
      } else {
        RestoredFrom(home, before, p);
        var back := RestoreOver(home, before);
        if i: nat :| IsLastOn(before, i, p) && p in back && back[p] == before[i].blob {
          assert IsLastOn(archive, i, p);
        }
      }
    }
  }

  // A name that passes the guard for dotted names without being dotted, and still leads to
  // the marker
  predicate LeadsToMarker(name: string) {
    StartsWith(name, JUSER) && !StartsWith(name, "juser/.") && Target(name) == MARKER
  }

  lemma MarkerLandings(name: string)
    ensures LandsOn(name, MARKER) <==> LeadsToMarker(name)
  {
    MarkerIsEssential();
    if Target(name) == MARKER {
      assert PathOf(name) != "";
      NormPathOfClean(MARKER);
      assert IsEssential(PathOf(name)) <==> IsEssential(MARKER);
    }
  }

  // Restoring an archive brings back the refresh marker if and only if the archive holds a
  // member whose name is not dotted but leads to the marker.
  lemma RestoreMarksIff(home: Files, archive: Archive)
    requires MARKER !in home
    ensures MARKER in RestoreOver(home, archive) <==> exists m <- archive :: LeadsToMarker(m.name)
  {
    RestoredFrom(home, archive, MARKER);
    if m :| m in archive && LeadsToMarker(m.name) {
      MarkerLandings(m.name);
    }
    if i: nat :| IsLastOn(archive, i, MARKER) {
      MarkerLandings(archive[i].name);
      assert archive[i] in archive;
    }
  }

  // Such a name goes up from a folder again, as juser/x/../.juliabox/.refreshed does.
  lemma RelativeNameMarks(home: Files, folder: string, blob: Blob)
    requires '/' !in folder && folder != "" && folder[0] != '.'
    ensures RestoreOver(home, [Member(JUSER + (folder + "/../" + MARKER), blob)]) == home[MARKER := blob]
  {
    hide NormPath, IsEssential, IsClean;
    var path := folder + "/../" + MARKER;
    var name := JUSER + path;
    MarkerIsEssential();
    UpAndDown(folder, MARKER);
    assert PathOf(name) == path by { assert name[|JUSER|..] == path; }
    assert !StartsWith(name, "juser/.") by { assert name[6] == folder[0]; }
    assert IsRestored(name);
    var archive := [Member(name, blob)];
    assert archive[..0] == [];
    assert RestoreOver(home, archive) == Extracted(home, path, blob);
  }

  // Going into a folder and out of it again leads nowhere else.
  lemma UpAndDown(folder: string, path: string)
    requires '/' !in folder && folder != "" && folder != "." && folder != ".." && IsClean(path)
    ensures NormPath(folder + "/../" + path) == path
  {
    var full, comps := folder + "/../" + path, Split(path, '/');
    UpAndDownParts(folder, path);
    UpAndDownComps(folder, comps);
    assert Join(comps, '/') != "" by {
      JoinOfSplit(path, '/');
      assert comps[0] in comps;
    }
    hide Split, NormComps, Join, NormPath, IsClean;
    NormCompsOfClean(comps, []);
    assert [] + comps == comps;
    NormPathOfRelative(full);
    JoinOfSplit(path, '/');
  }

  lemma NormPathOfRelative(path: string)
    requires path != "" && path[0] != '/'
    ensures var comps := NormComps(Split(path, '/'), false, []);
            NormPath(path) == if comps == [] || Join(comps, '/') == "" then "." else Join(comps, '/')
  {
    hide Split, NormComps, Join;
    assert !StartsWith(path, "/");
    var comps := NormComps(Split(path, '/'), false, []);
    var norm := if comps == [] then "" else Join(comps, '/');
    assert "" + norm == norm;
  }

  lemma UpAndDownParts(folder: string, path: string)
    requires '/' !in folder && folder != ""
    ensures Split(folder + "/../" + path, '/') == [folder, ".."] + Split(path, '/')
    ensures (folder + "/../" + path)[0] != '/'
  {
    hide Split;
    var rest := ".." + ['/'] + path;
    assert folder + "/../" + path == folder + ['/'] + rest;
    SplitOfPlain(folder, '/');
    SplitOfPlain("..", '/');
    SplitAppend("..", path, '/');
    SplitAppend(folder, rest, '/');
  }

  lemma UpAndDownComps(folder: string, comps: seq<string>)
    requires folder != "" && folder != "." && folder != ".."
    ensures NormComps([folder, ".."] + comps, false, []) == NormComps(comps, false, [])
  {
    var all := [folder, ".."] + comps;
    assert all[1..] == [".."] + comps && ([".."] + comps)[1..] == comps;
    assert [] + [folder] == [folder] && [folder][..0] == [];
    assert NormComps(all, false, []) == NormComps([".."] + comps, false, [folder]);
  }

  // Archives as backups of a disk make them: clean paths below juser/.
  predicate IsPlain(archive: Archive) {
    forall m <- archive :: m.name == JUSER + PathOf(m.name) && IsClean(PathOf(m.name))
  }

  // They never lead to the marker.
  lemma PlainNeverMarks(home: Files, archive: Archive)
    requires IsPlain(archive) && MARKER !in home
    ensures MARKER !in RestoreOver(home, archive)
  {
    RestoreMarksIff(home, archive);
    hide RestoreOver, LeadsToMarker;
    forall m | m in archive ensures !LeadsToMarker(m.name) {
      PlainNameLeadsElsewhere(m.name);
    }
  }

  lemma PlainNameLeadsElsewhere(name: string)
    requires name == JUSER + PathOf(name) && IsClean(PathOf(name))
    ensures !LeadsToMarker(name)
  {
    NormPathOfClean(PathOf(name));
    hide NormPath, IsClean;
    if Target(name) == MARKER {
      assert name[..7] == "juser/.";
    }
  }

  lemma BackupsArePlain(archive: Archive, files: Files)
    requires IsBackupOf(archive, files) && AllClean(files)
    ensures IsPlain(archive)
  {
  }

  lemma {:induction false} RestoreKeepsClean(home: Files, archive: Archive)
    requires AllClean(home)
    ensures AllClean(RestoreOver(home, archive))
  {
    if archive != [] {
      RestoreKeepsClean(home, archive[..|archive| - 1]);
    }
  }

  predicate AllClean(files: Files) {
    forall p <- files :: IsClean(p)
  }

  lemma MemberRestored(p: string)
    requires IsClean(p)
    ensures PathOf(JUSER + p) == p && Target(JUSER + p) == p
    ensures IsRestored(JUSER + p) <==> !IsEssential(p)
  {
    var name := JUSER + p;
    assert name[|JUSER|..] == p;
    NormPathOfClean(p);
    assert p != "" by { assert Split(p, '/')[0] in Split(p, '/'); }
    assert name[6] == p[0];
    if IsEssential(p) {
      EssentialStartsWithDot(p);
      assert name[..7] == "juser/.";
    }
  }

  // Backing a disk up and restoring it onto any other home gives every essential path the new
  // home's content and every other path of the user its original content.
  lemma BackupRestoreRoundTrip(files: Files, archive: Archive, home: Files)
    requires AllClean(files) && IsBackupOf(archive, files)
    ensures var back := RestoreOver(home, archive);
            forall p ::
              if p in files && !IsEssential(p) then p in back && back[p] == files[p]
              else (p in back <==> p in home) && (p in back ==> back[p] == home[p])
  {
    hide RestoreOver, IsEssential, IsRestored, NormPath, IsClean;
    forall p ensures var back := RestoreOver(home, archive);
                     if p in files && !IsEssential(p) then p in back && back[p] == files[p]
                     else (p in back <==> p in home) && (p in back ==> back[p] == home[p])
    {
      RestoredFrom(home, archive, p);
      forall i | 0 <= i < |archive|
        ensures LandsOn(archive[i].name, p) <==> archive[i].name == JUSER + p && !IsEssential(p)
        ensures archive[i].name == JUSER + p ==> p in files && archive[i].blob == files[p]
      {
        assert archive[i] in archive;
        MemberRestored(PathOf(archive[i].name));
        assert archive[i].name == JUSER + p ==> PathOf(archive[i].name) == p by { assert PathOf(JUSER + p) == p; }
      }
      if p in files && !IsEssential(p) {
        if !IsArchived(p) {
          UnderJuliaboxIsEssential(p);
        }
        var i :| 0 <= i < |archive| && archive[i] == Member(JUSER + p, files[p]);
      }
    }
  }

  // ---------- The archive of a user ----------

  // restore looks for an archive by the session name with a digest, then by the one without.
  function Found<T>(store: map<string, T>, email: string, digest: string): Option<T> {
    if UniqueSessname(email, digest) in store then Some(store[UniqueSessname(email, digest)])
    else if EscSessname(email) in store then Some(store[EscSessname(email)])
    else None
  }

  // The part of an archive that the disk has room for
  function Fitting(archive: Archive, room: nat): (part: Archive)
    ensures part <= archive && |part| <= room && (part != archive ==> |part| == room)
  {
    if room < |archive| then archive[..room] else archive
  }

  // ---------- The volume object ----------

  // is_refreshed: a marker that cannot be read as a time counts as absent.
  predicate IsRefreshed(files: Files, image: Image) {
    MARKER in files && files[MARKER].Stamp? && files[MARKER].time >= image.mtime
  }

  // The configuration file of the instance; `setUrl` is what setting its address in the file
  // does to it, whether it existed or not.
  const PROFILE: string := ".ipython/profile_default"
  const NBCONFIG: string := PROFILE + "/ipython_notebook_config.py"

  function Configured(files: Files, setUrl: Option<Blob> -> Blob): Files {
    if exists p <- files :: AtOrBelow(p, PROFILE) then
      (files - {NBCONFIG + ".temp"})[NBCONFIG := setUrl(if NBCONFIG in files then Some(files[NBCONFIG]) else None)]
    else files
  }

  // Where there is a profile its configuration file is set, from the old one if there was one,
  // and its temporary copy is gone; nothing else changes.
  lemma ConfiguredMeans(files: Files, setUrl: Option<Blob> -> Blob, p: string)
    ensures var after := Configured(files, setUrl);
            if forall q <- files :: !AtOrBelow(q, PROFILE) then Look(after, p) == Look(files, p)
            else if p == NBCONFIG then Look(after, p) == Some(setUrl(Look(files, p)))
            else if p == NBCONFIG + ".temp" then Look(after, p) == None
            else Look(after, p) == Look(files, p)
  {
    hide AtOrBelow;
    assert |NBCONFIG + ".temp"| != |NBCONFIG|;
  }

  function Look(files: Files, p: string): Option<Blob> {
    if p in files then Some(files[p]) else None
  }

  // A blanked disk is the image's, and carries the marker, with the image's time, if and only if
  // it was to be marked.
  lemma BlankMeans(image: Image, mark: bool, p: string)
    requires MARKER !in image.files
    ensures Look(Blank(image, mark), p) == if p == ".juliabox/.refreshed" && mark then Some(Stamp(image.mtime))
                                           else Look(image.files, p)
  {
    assert MARKER == ".juliabox/.refreshed";
  }

  function Blank(image: Image, mark: bool): Files {
    if mark then image.files[MARKER := Stamp(image.mtime)] else image.files
  }

  // The disk before the user's backup is restored
  function Prepared(files: Files, image: Image): Files {
    if IsRefreshed(files, image) then files - {MARKER} else image.files
  }

  ghost function EssentialPart(files: Files): Files {
    map p | p in files && IsEssential(p) :: files[p]
  }

  ghost predicate BelowAny(path: string, roots: seq<string>) {
    exists r <- roots :: AtOrBelow(path, r)
  }

  lemma BelowAnyStep(roots: seq<string>, i: nat)
    requires i < |roots|
    ensures forall p :: BelowAny(p, roots[..i + 1]) <==> BelowAny(p, roots[..i]) || AtOrBelow(p, roots[i])
  {
    assert roots[..i + 1] == roots[..i] + [roots[i]];
  }

  lemma SubtreesAreEssentials(files: Files)
    requires AllClean(files)
    ensures (map p | p in files && !BelowAny(p, ESSENTIALS) :: files[p])
            == files - EssentialPart(files).Keys
  {
    forall p | p in files ensures BelowAny(p, ESSENTIALS) <==> IsEssential(p) {
      assert forall r :: IsRoot(r) <==> r in ESSENTIALS;
      EssentialIsComponentPrefix(p);
      NormPathOfClean(p);
    }
  }

  class Volume {
    var files: Files

    constructor (files: Files)
      ensures this.files == files
    {
      this.files := files;
    }

    // Afterwards the disk counts as refreshed for the image and every older one, and for no
    // newer one.
    method MarkRefreshed(image: Image)
      modifies this
      ensures forall other: Image :: IsRefreshed(files, other) <==> other.mtime <= image.mtime
      ensures files - {MARKER} == old(files) - {MARKER}
    {
      files := files[MARKER := Stamp(image.mtime)];
    }

    method UnmarkRefreshed()
      modifies this
      ensures files == old(files) - {MARKER}
    {
      if MARKER in files {
        files := files - {MARKER};
      }
    }

    // The first loop of restore_user_home on a disk in use: whole subtrees are deleted.
    method DeleteSubtrees(roots: seq<string>)
      modifies this
      ensures files == map p | p in old(files) && !BelowAny(p, roots) :: old(files)[p]
    {
      for i := 0 to |roots|
        invariant files == map p | p in old(files) && !BelowAny(p, roots[..i]) :: old(files)[p]
      {
        files := map p | p in files && !AtOrBelow(p, roots[i]) :: files[p];
        BelowAnyStep(roots, i);
        assert forall p <- old(files) :: p in files <==> !BelowAny(p, roots[..i + 1]);
      }
      assert roots[..|roots|] == roots;
    }

    // Its second loop: the essential members of the image are extracted.
    method ExtractEssentials(image: Files)
      modifies this
      ensures files == old(files) + EssentialPart(image)
    {
      hide IsEssential;
      ghost var part := EssentialPart(image);
      var todo := image.Keys;
      while todo != {}
        invariant todo <= image.Keys
        invariant files == old(files) + (part - todo)
        decreases todo
      {
        var name :| name in todo;
        todo := todo - {name};
        var essential := IsPathUserHomeEssential(name);
        if essential {
          files := files[name := image[name]];
        }
      }
    }

    // restore_user_home. On a disk in use only the essential paths are replaced.
    method RestoreUserHome(image: Image, newDisk: bool)
      requires AllClean(files)
      modifies this
      ensures newDisk ==> files == old(files) + image.files
      ensures !newDisk ==> files == (old(files) - EssentialPart(old(files)).Keys) + EssentialPart(image.files)
    {
      if newDisk {
        files := files + image.files;
      } else {
        DeleteSubtrees(ESSENTIALS);
        SubtreesAreEssentials(old(files));
        ExtractEssentials(image.files);
      }
    }

    // setup_instance_config for the default profile
    method SetupInstanceConfig(setUrl: Option<Blob> -> Blob)
      modifies this
      ensures files == Configured(old(files), setUrl)
    {
      hide Split;
      if exists p <- files :: AtOrBelow(p, PROFILE) {
        files := files - {NBCONFIG + ".temp"};
        var before := if NBCONFIG in files then Some(files[NBCONFIG]) else None;
        files := files[NBCONFIG := setUrl(before)];
      }
    }

    // Blanking deletes everything, the marker included, before the image is extracted.
    method RefreshDisk(image: Image, setUrl: Option<Blob> -> Blob, mark: bool)
      modifies this
      ensures files == Blank(image.(files := Configured(image.files, setUrl)), mark)
    {
      files := map[];
      RestoreUserHome(image, true);
      assert files == image.files;
      SetupInstanceConfig(setUrl);
      if mark {
        ghost var home := files;
        MarkRefreshed(image);
        MarkerIsThatOf(home, files, image);
      }
    }

    method Backup(clear: bool) returns (archive: Archive)
      modifies this
      ensures IsBackupOf(archive, old(files))
      ensures files == if clear then map[] else old(files)
    {
      archive := [];
      var todo := files.Keys;
      while todo != {}
        invariant todo <= files.Keys
        invariant IsBackupOf(archive, map p | p in files && p !in todo :: files[p])
        decreases todo
      {
        var f :| f in todo;
        todo := todo - {f};
        if IsArchived(f) {
          assert PathOf(JUSER + f) == f;
          archive := archive + [Member(JUSER + f, files[f])];
        }
      }
      assert files == map p | p in files && p !in todo :: files[p];
      if clear {
        files := map[];
      }
    }

    // `room` is how many members the disk has room for; running out of space ends the
    // restore without failing the login.
    method RestoreArchive(archive: Archive, room: nat)
      modifies this
      ensures files == RestoreOver(old(files), Fitting(archive, room))
    {
      var n := if room < |archive| then room else |archive|;
      for i := 0 to n
        invariant files == RestoreOver(old(files), archive[..i])
      {
        var m := archive[i];
        assert archive[..i + 1][..i] == archive[..i];
        if !StartsWith(m.name, JUSER) {
          continue;
        }
        var extractName := m.name[|JUSER|..];
        if StartsWith(m.name, "juser/.") {
          var essential := IsPathUserHomeEssential(extractName);
          if essential {
            continue;
          }
        }
        if |extractName| == 0 {
          continue;
        }
        files := Extracted(files, extractName, m.blob);
      }
      assert archive[..n] == Fitting(archive, room);
    }

    method Restore(store: map<string, Archive>, email: string, digest: string, room: nat)
      modifies this
      ensures var found := Found(store, email, digest);
              files == if found.Some? then RestoreOver(old(files), Fitting(found.value, room)) else old(files)
    {
      var src := UniqueSessname(email, digest);
      if src !in store {
        src := EscSessname(email);
      }
      if src !in store {
        return;
      }
      RestoreArchive(store[src], room);
    }

    method Release(image: Image, setUrl: Option<Blob> -> Blob, backup: bool) returns (archive: Archive)
      modifies this
      ensures backup ==> IsBackupOf(archive, old(files))
      ensures files == Blank(image.(files := Configured(image.files, setUrl)), true)
    {
      archive := [];
      if backup {
        archive := Backup(true);
      }
      RefreshDisk(image, setUrl, true);
    }

    // The part of get_disk_for_user that follows the reservation of a disk.
    method PrepareForUser(image: Image, setUrl: Option<Blob> -> Blob, store: map<string, Archive>,
                          email: string, digest: string, room: nat)
      modifies this
      ensures var home := Prepared(old(files), image.(files := Configured(image.files, setUrl)));
              var found := Found(store, email, digest);
              files == if found.Some? then RestoreOver(home, Fitting(found.value, room)) else home
    {
      if !IsRefreshed(files, image) {
        RefreshDisk(image, setUrl, false);
      } else {
        UnmarkRefreshed();
      }
      Restore(store, email, digest, room);
    }
  }

  lemma MarkerIsThatOf(home: Files, files: Files, image: Image)
    requires forall other: Image :: IsRefreshed(files, other) <==> other.mtime <= image.mtime
    requires files - {MARKER} == home - {MARKER}
    ensures files == home[MARKER := Stamp(image.mtime)]
  {
    assert IsRefreshed(files, image);
    var stamp := files[MARKER].time;
    assert IsRefreshed(files, Image(map[], stamp));
    forall p | p != MARKER ensures (p in files <==> p in home) && (p in home ==> files[p] == home[p]) {
      assert p in files - {MARKER} <==> p in home - {MARKER};
      if p in home {
        assert (files - {MARKER})[p] == (home - {MARKER})[p];
      }
    }
  }
}
