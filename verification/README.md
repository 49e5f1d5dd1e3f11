# A verified model of JuliaBox

JuliaBox runs Julia sessions and API servers in Docker containers on a cluster of machines. This
project models the parts of it that are state machines, allocators or translations, and proves
what they are there for. One module models one component:

| module | component |
|---|---|
| `DiskTable`, `DiskLifecycle` | the table of loopback disks with its timed reservations, and the life of a disk from reservation to release, as interleaved steps of several threads |
| `DiskSessions`, `DiskUpkeep` | what users find on their disks over whole runs, and that no disk is lost |
| `UserHome` | the contents of a disk: essential paths, refresh marker, backup and restore |
| `FolderSync` | the two-way synchronisation of a local folder with Google Drive |
| `Cluster`, `ClusterRuns` | image versions, scale-down, the leader record and the election; their outcome over whole runs |
| `Sessions` | accepting a session, choosing the instance to redirect to, and chains of hops |
| `ApiQueue`, `ApiCalls`, `ApiCallRuns`, `ApiContainers` | admission of API calls, connectors and queues, and the upkeep of API containers |
| `ContainerNames`, `Strings` | printing, parsing and classifying container names |
| `Basics` | optional values, lists without repetition |
| `Snapshots`, `SnapshotRuns` | EBS volumes, their snapshots and housekeeping; what users find over whole runs |
| `SqlTable` | the SQLite table: query translation and access by primary key |
| `MonthCount` | counting users over calendar months |
| `Homework` | records of homework answers and score totals |
| `Scheduler` | the daemon's table of running commands |

Where the code changes state in place the model is a class whose methods follow the code's loops
and branches, each proved against a function of the old state. What is claimed of these functions,
of all runs of their steps, or of all inputs, are lemmas. Protocols run by several threads or
machines are state machines: a `Step` is what happens atomically, `Next` its effect, and a run is
any sequence of enabled steps.

`dafny verify dfyconfig.toml` checks the whole project.

## What the model assumes

- Disks: holders of a reservation finish within its 120 s, existing containers can be inspected,
  and a container list handed to a refresh misses only containers whose launch is still reserved.
  `DiskLifecycle` states the three as predicates on steps (`HoldersInTime`, `InspectionsSucceed`,
  `ListRecentEnough`) and shows for each that safety is lost without it. Blanking a disk, restoring
  a home image and switching to a new image are single steps, and home images carry no marker.
- Archives: those in the store at the start were made by backups and lie under one of their owners'
  names; digests of different users differ, and no address without its digest reads like a session
  name with one (`KnownUsers`). Sessions write whatever they like, but file systems have no path
  components that are empty, `.` or `..`. A member name with `..` is resolved when it is extracted,
  and one that leads out of the disk leaves the files on it alone.
- Synchronisation: titles within a remote folder are unique; creating the remote folder succeeds,
  although `gdrivesync.py:78` passes a time object as metadata; Drive raises when content is to be
  stored into or fetched from a folder, and the modification time of a remote folder does not change
  when something in it does. The ghost parameter `depth` bounds the depth of the given, finite trees
  and serves termination only.
- Cluster: one evaluation of the leader record is a single step, and membership is the same for all.
- API upkeep: Docker's container names are distinct, nothing else acts during one pass, an API's
  connectors are on its present queue, and the digests of launched containers are new ones.
- Snapshots: housekeeping and release of one disk do not overlap.
- Loads, means, scores and file times are real numbers; SHA-1 digests are parameters of 40
  lower-case hexadecimal digits; clocks are parameters.

## Where the code does not do what it seems to promise

- A refresh of the disk table may be given a container list that is out of date, as session upkeep
  does (`sess_container.py:115-171`), and can then free the disk of a container created meanwhile
  (`DiskLifecycle.StaleListSharesDisk`); `RefreshTracksIff` says exactly when it does not. A bound
  on the age of the list would not do: another refresh may have ended the reservation that protects
  a container missing from it, without any time passing (`FreshListSharesDisk`).
- The guard that keeps an archive from bringing the refresh marker back (`jbox_volume.py:397`) looks
  only at names dotted right after `juser/`. A name that goes down and up again leads to the marker
  all the same (`UserHome.RelativeNameMarks`); `RestoreMarksIff` says exactly which archives do it,
  and backups never do (`BackupsArePlain`, `PlainNeverMarks`).
- When there is no archive under a user's session name, restore falls back to the name without
  digest, which does not tell a dot from an underscore (`ContainerNames.EscNamesClash`), so that it
  may restore another user's archive (`DiskLifecycle.OldArchiveReachesOther`); `RestoredIsOwnIff`
  says exactly when it does not.
- `gdrivesync.py:82` reads the key `full_path` where the local listing has `fullpath`, so that a
  local folder that is missing remotely aborts the run after the remote folder has been created.
  So does, in every run, a path that is a file on one side and a folder on the other, unless their
  times are within a second. `SyncFolder` and `WhatRaises` say exactly when a run is aborted, `RepeatedRunsComplete` when repeating it helps. Remote files with a
  dot-name are downloaded again in every run, because the local listing skips them.
- Below an average load of 50 the redirect names the most loaded instances while new sessions are
  accepted by the one that sorts first (`Sessions.RedirectAgreesIff`, `IdleRedirectIsRejected`).
- An instance that cannot determine its own image version may scale the newest image down
  (`Cluster.UnknownOwnImageLosesNewest`); `KeepsNewestForAllIff` says exactly when none can.
- Giving up an API's queue while a call is in progress can send later requests of that API to
  another one (`ApiCalls.RetiringUnderACallMisroutes`). Every call stays on its API's queue exactly
  in the runs that never do so (`StepKeepsRoutesIff`, `RoutedIffQuiet`).
- The comment "approx 5 polls" at `api_container.py:142` is pessimistic: an idle API is at 0 by the
  third pass. When an API without a queue is met, the same method sets its count to 0 and then fails
  on the missing queue.
- Snapshots that complete out of order make housekeeping delete the newer one
  (`Snapshots.CurrentIffInOrder`, `OutOfOrderCompletionLosesData`).
- Updating a record that is not in an SQLite table does nothing and reports nothing. Operands of the
  wrong shape are not refused when the values happen to add up, and are then bound to the wrong
  placeholders (`SqlTable.OwnValuesIff`, `MisshapenOperandsCanMisbind`).
- A scheduled target must be wrapped exactly once (`Scheduler.ExactIffWrappedOnce`). The signature
  of a housekeeping command does not name the plugin, so that of several plugins for a feature only
  the first is started (`Scheduler.JBoxd.ScheduleHousekeeping`).
- `get_report` takes the maximal score from a key `max_score` that no record has
  (`course_homework_tbl.py:174`), so that the maximum it reports is always 0.

## Model

| member | source | states |
|---|---|---|
| `DiskLifecycle.NoDiskIsShared` | engine/src/juliabox/plugins/vol_loopback/loopback.py:46-163 | In every interleaving of clock ticks, refreshes (broken into single scans and inspections), reservations, launches, aborted launches, image refreshes, releases and removals, no two of the existing containers, the launches in progress and the image refreshers have the same disk, if holders finish within their 120 s, existing containers can be inspected, and a refresh works on a list that misses only containers whose launch is still reserved |
| `DiskLifecycle.StaleListSharesDisk` | engine/src/juliabox/plugins/vol_loopback/loopback.py:58-64 | A refresh given a container list from before the container was made, once the reservation of its launch has run out, frees its disk: a concrete run, keeping to the other two assumptions, after which the disk is given out twice |
| `DiskLifecycle.FreshListSharesDisk` | engine/src/juliabox/plugins/vol_loopback/loopback.py:58-65 | The list need not be old: a concrete run in which no time passes at all, and the inspections of another refresh, which end the reservation, are enough |
| `DiskLifecycle.FailedInspectionSharesDisk` | engine/src/juliabox/plugins/vol_loopback/loopback.py:33-44 | A failed inspection counts as "mounts nothing": a concrete run in which this alone makes two holders share a disk |
| `DiskLifecycle.SlowLaunchSharesDisk` | engine/src/juliabox/plugins/vol_loopback/loopback.py:97-106 | A launch that outlives its reservation: a concrete run in which this alone makes two holders share a disk |
| `DiskLifecycle.RefreshTracksIff` | engine/src/juliabox/plugins/vol_loopback/loopback.py:46-68 | A refresh with a given list leaves every container's disk marked as used if and only if each container missing from the list still has a running reservation when its disk is scanned |
| `DiskLifecycle.ScanTracksIff` | engine/src/juliabox/plugins/vol_loopback/loopback.py:50-56 | Scanning an index keeps track of all containers if and only if the list is recent enough for it: the assumption is exactly what a refresh with a list needs |
| `DiskLifecycle.HandOverIsClean` | engine/src/juliabox/plugins/vol_loopback/loopback.py:116-133 | In every interleaving, the disk of a new container holds a home image at least as recent as the one current when the disk was prepared, overlaid with (the part that fits of) one archive, and carries no refresh marker; the archive is one of that user's own sessions, or one stored under the name without digest by a user whose address has the same such name, which only that user has if nobody else's address has it |
| `DiskLifecycle.RestoredIsOwnIff` | engine/src/juliabox/vol/jbox_volume.py:372-383 | The archive found for a user is the user's own if and only if there is one under the session name with digest, or none under the name without, or the latter is the user's |
| `DiskLifecycle.OldArchiveReachesOther` | engine/src/juliabox/vol/jbox_volume.py:374-380 | An archive stored under the name without digest is restored for another user: a concrete run with the addresses a.b@c and a_b@c |
| `DiskLifecycle.BackupsAreOwn` | engine/src/juliabox/plugins/vol_loopback/loopback.py:178-181 | After any run an archive is on record as a user's if and only if it was before, or was taken in the course of the run as a backup of the disk of one of that user's own sessions (that the last one is then found again is `DiskSessions.LastBackupIsFound`) |
| `DiskLifecycle.StepKeepsAllocInv` | engine/src/juliabox/interactive/sess_container.py:48-112 | Each step of the allocator, of launching by name, of container removal and of the clock keeps: exclusive disks, reserved disks marked until they expire, every container tracked by the table or by the refresh in progress |
| `DiskLifecycle.StepKeepsContentInv` | engine/src/juliabox/vol/jbox_volume.py:218-239 | Each step keeps: a disk that carries the marker holds one of the home images and nothing else, each stage of a launch has the contents and the archive it claims, and stored archives are plain, on record and under one of their owners' two names |
| `DiskLifecycle.RunKeepsInv` | engine/src/juliabox/jbox_container.py:198-206 | Both invariants hold after every run |
| `DiskSessions.SessionContinues` | engine/src/juliabox/vol/jbox_volume.py:345-424 | What a backed-up session left comes back: in every interleaving, if a launch for the user finds room for the archive of that user's last backed-up release, then whatever else goes on until its container is created, that container's disk has every path outside the essential ones as the session left it, and all other paths as in a home image |
| `DiskSessions.LastBackupIsFound` | engine/src/juliabox/vol/jbox_volume.py:345-383 | In every run the archive found for a user is that of the user's last backed-up release, told from the steps, or the one found at the start when there has been none |
| `DiskSessions.BackupIsOfWhatWasLeft` | engine/src/juliabox/plugins/vol_loopback/loopback.py:178-181 | That archive is a backup of what the session wrote last |
| `DiskSessions.SessionKeepsItsFiles` | engine/src/juliabox/interactive/sess_container.py:48-112 | In every run a live session's disk holds exactly what the session wrote last, or else what it was given at its start; nobody else ever writes to it |
| `DiskSessions.OwnersAreKnown` | engine/src/juliabox/interactive/sess_container.py:48-112 | In every run a container and a launch belong to the user for whom the disk was reserved |
| `DiskUpkeep.WhoIsThere` | engine/src/juliabox/plugins/vol_loopback/loopback.py:97-163 | In every run the reservations under way, the containers listed and the home image are those that the steps so far tell of |
| `DiskUpkeep.IdleDisksAreReady` | engine/src/juliabox/plugins/vol_loopback/loopback.py:151-181 | A disk given up by a session or visited by the refresher carries the home image of that time and its marker until it is next written, and a launch then uses it as it is unless there is a newer image |
| `DiskUpkeep.RefreshFindsFree` | engine/src/juliabox/plugins/vol_loopback/loopback.py:46-68 | No disk is lost: whatever came before, after an undisturbed refresh exactly those disks are free that no container has and no running reservation names, and nothing else has changed |
| `DiskUpkeep.RefresherGivesBack` | engine/src/juliabox/plugins/vol_loopback/loopback.py:151-163 | The steps of the refresher on one disk give it back unused, with the current image and its marker, and leave everything else alone |
| `DiskTable.RefreshDecides` | engine/src/juliabox/plugins/vol_loopback/loopback.py:46-68 | After a refresh a disk is in use exactly when its reservation is still running at the time its index is scanned or an inspected container mounts it; its reservation survives exactly in the first case without the second |
| `DiskTable.ScanAllMeans` | engine/src/juliabox/plugins/vol_loopback/loopback.py:50-56 | The scanning loop drops exactly the reservations that ran out before their index was reached, and marks exactly the reserved disks |
| `DiskTable.MarkAllMeans` | engine/src/juliabox/plugins/vol_loopback/loopback.py:61-65 | The marking loop marks exactly the mounted disks in addition, and ends their reservations |
| `DiskTable.FirstUnused` | engine/src/juliabox/plugins/vol_loopback/loopback.py:75-80 | The result is the least unused index from the given one on, or -1 when there is none |
| `DiskTable.LoopbackDisks.RefreshDiskUseStatus` | engine/src/juliabox/plugins/vol_loopback/loopback.py:46-68 | The two loops compute the scan and the marking, and afterwards every index has a status |
| `DiskTable.LoopbackDisks.GetUnusedDiskId` | engine/src/juliabox/plugins/vol_loopback/loopback.py:75-80 | Finds the least unused index |
| `DiskTable.LoopbackDisks.IsReserved` | engine/src/juliabox/plugins/vol_loopback/loopback.py:82-86 | True exactly for a reservation that has not run out; one that has is forgotten |
| `DiskTable.LoopbackDisks.MarkDiskUsed` | engine/src/juliabox/plugins/vol_loopback/loopback.py:88-95 | Status and reservation of the one index are set; a reservation stays only when marking for some seconds |
| `DiskTable.LoopbackDisks.ReserveDiskId` | engine/src/juliabox/plugins/vol_loopback/loopback.py:97-106 | The least unused disk is marked and reserved for 120 s; the table is unchanged when there is none |
| `DiskTable.LoopbackDisks.UnreserveDiskId` | engine/src/juliabox/plugins/vol_loopback/loopback.py:108-114 | The disk is unused and unreserved again |
| `DiskTable.LoopbackDisks.RefreshUserHomeImage` | engine/src/juliabox/plugins/vol_loopback/loopback.py:151-163 | Left alone, the refresher blanks the unused disks in ascending order and hands all of them back |
| `DiskTable.FreeFromMeans` | engine/src/juliabox/plugins/vol_loopback/loopback.py:151-163 | The disks so blanked are exactly the unused ones, each once |
| `UserHome.EssentialIsComponentPrefix` | engine/src/juliabox/vol/jbox_volume.py:241-247 | The string test for essential paths holds exactly when the normalized path lies component-wise at or below one of the essential roots |
| `UserHome.IsPathUserHomeEssential` | engine/src/juliabox/vol/jbox_volume.py:241-247 | The loop decides that test |
| `UserHome.NormPathOfClean` | engine/src/juliabox/vol/jbox_volume.py:243 | Normalizing leaves a path without empty, `.` and `..` components as it is |
| `UserHome.NormPathOfDot` | engine/src/juliabox/vol/jbox_volume.py:243 | A step to the folder one is in does not change where a path leads |
| `UserHome.AbsoluteStaysAbsolute` | engine/src/juliabox/vol/jbox_volume.py:243 | A normalized path is absolute exactly when the path is, and then leads out of the disk |
| `UserHome.BackupRestoreRoundTrip` | engine/src/juliabox/vol/jbox_volume.py:345-424 | Backing a disk up and restoring onto any home gives every essential path the home's content and every other path of the user its original content, and adds nothing else |
| `UserHome.RestoredFrom` | engine/src/juliabox/vol/jbox_volume.py:387-420 | Every file on a restored disk is that of the last archive member whose name leads to its path, `..` resolved, or is left from the home below when there is none; and every such member's file is there |
| `UserHome.RestoreMarksIff` | engine/src/juliabox/vol/jbox_volume.py:395-403 | Restoring an archive onto a home without the refresh marker brings the marker back if and only if some member's name begins with juser/, is not dotted after it, and leads to the marker |
| `UserHome.RelativeNameMarks` | engine/src/juliabox/vol/jbox_volume.py:395-403 | Such names exist: for every plain folder name, juser/folder/../.juliabox/.refreshed |
| `UserHome.PlainNeverMarks` | engine/src/juliabox/vol/jbox_volume.py:345-404 | Restoring an archive of clean paths below juser/ never brings the marker back |
| `UserHome.BackupsArePlain` | engine/src/juliabox/vol/jbox_volume.py:345-360 | Backups of a disk are such archives |
| `UserHome.MarkerIsEssential` | engine/src/juliabox/vol/jbox_volume.py:218-247 | The refresh marker is an essential path |
| `UserHome.Volume.MarkRefreshed` | engine/src/juliabox/vol/jbox_volume.py:218-234 | Afterwards the disk counts as refreshed for exactly the images that are not newer than the given one, and every other file is as before |
| `UserHome.Volume.UnmarkRefreshed` | engine/src/juliabox/vol/jbox_volume.py:236-239 | The marker is gone, nothing else is touched |
| `UserHome.Volume.SetupInstanceConfig` | engine/src/juliabox/vol/jbox_volume.py:266-329 | If the profile folder exists, its configuration file is written, from the old one if there is one, and the temporary file is gone; otherwise nothing changes |
| `UserHome.ConfiguredMeans` | engine/src/juliabox/vol/jbox_volume.py:266-329 | Path by path: only the configuration file and its temporary copy are touched, and only where there is a profile |
| `UserHome.Volume.RestoreUserHome` | engine/src/juliabox/vol/jbox_volume.py:249-264 | On a new disk the whole image is extracted; on a used one exactly the essential paths are replaced by those of the image |
| `UserHome.SubtreesAreEssentials` | engine/src/juliabox/vol/jbox_volume.py:256-259 | Deleting the essential roots as subtrees removes exactly the paths that pass the test for essential paths |
| `UserHome.Volume.RefreshDisk` | engine/src/juliabox/plugins/vol_loopback/loopback.py:168-176 | Whatever was on the disk, afterwards it holds exactly the home image with the instance's configuration, and the marker if asked for |
| `UserHome.BlankMeans` | engine/src/juliabox/plugins/vol_loopback/loopback.py:168-176 | Path by path: a blanked disk has the image's files, and the marker with the image's time exactly when it was asked for |
| `UserHome.Volume.Backup` | engine/src/juliabox/vol/jbox_volume.py:345-360 | The archive holds every file outside the top-level .juliabox folder with its content, and only such files; the disk is emptied if asked for |
| `UserHome.Volume.RestoreArchive` | engine/src/juliabox/vol/jbox_volume.py:387-420 | The loop extracts the members that fit in archive order, with the effect that `RestoredFrom` and `RestoreMarksIff` describe |
| `UserHome.Volume.Restore` | engine/src/juliabox/vol/jbox_volume.py:372-420 | The archive under the session name with digest is restored, else the one under the name without, else nothing is |
| `UserHome.Volume.Release` | engine/src/juliabox/plugins/vol_loopback/loopback.py:178-181 | The archive is a backup of the disk, which is left with the configured home image and the marker |
| `UserHome.Volume.PrepareForUser` | engine/src/juliabox/plugins/vol_loopback/loopback.py:116-133 | A disk whose marker is recent is only unmarked, any other is blanked; then the archive found for the user, by the new or the old name, is restored over it |
| `FolderSync.GDriveSync.SyncFolder` | container/interactive/IJulia/tornado/src/gdrivesync.py:46-124 | On any two trees, the recursive merge fails exactly when it comes to a local folder that is missing remotely, or to a path that is a file on one side and a folder on the other (unless a listed local file and the remote folder are within a second of each other), or is to list a file; otherwise every visited path is merged as its two sides demand and nothing else changes; when it fails every path is merged or untouched, and the one it failed on is as failing leaves it |
| `FolderSync.GDriveSync.SyncEntries` | container/interactive/IJulia/tornado/src/gdrivesync.py:46-119 | The two listing loops with their deletions merge every entry of one folder, leave everything else alone, and leave exactly the remote folders to descend into; they fail exactly when some entry makes them |
| `FolderSync.GDriveSync.PushLocal` | container/interactive/IJulia/tornado/src/gdrivesync.py:69-107 | The loop over the local listing merges its entries up to the first that raises, and takes exactly the paired files off the remote list |
| `FolderSync.GDriveSync.PullRemote` | container/interactive/IJulia/tornado/src/gdrivesync.py:110-119 | The loop over the remaining remote entries merges them, fails exactly when one of them is a file where there is a local folder, and leaves exactly the folders |
| `FolderSync.GDriveSync.PushOne` | container/interactive/IJulia/tornado/src/gdrivesync.py:71-107 | One local entry is uploaded, downloaded, left, or raises (after making the remote folder, or as a file that stands for a remote folder), as the two sides of its path demand |
| `FolderSync.GDriveSync.UploadFile` | container/interactive/IJulia/tornado/src/gdrivesync.py:126-134 | Both sides have the content that the local file had, and the server's time; nothing else changes |
| `FolderSync.GDriveSync.DownloadFile` | container/interactive/IJulia/tornado/src/gdrivesync.py:136-141 | The local file becomes the remote one, time included |
| `FolderSync.GDriveSync.SyncFileTime` | container/interactive/IJulia/tornado/src/gdrivesync.py:143-149 | The local file gets the remote time and keeps its content, so that a run would leave it alone unless its name is dotted; all other paths are as before |
| `FolderSync.SidesAgree` | container/interactive/IJulia/tornado/src/gdrivesync.py:46-124 | After a complete run both sides have the same visible paths, of the same kinds, except at and below local files that stand where the remote side has a folder; and a file has the same content on both unless the two were within a second of each other, in which case neither was touched |
| `FolderSync.UnclearDisagrees` | container/interactive/IJulia/tornado/src/gdrivesync.py:94-107 | In the excepted places the sides still disagree: a file on one side, a folder on the other |
| `FolderSync.NewerPrevails` | container/interactive/IJulia/tornado/src/gdrivesync.py:94-102 | Of two versions of a file the one newer by a second or more is on both sides afterwards |
| `FolderSync.NothingIsLost` | container/interactive/IJulia/tornado/src/gdrivesync.py:46-124 | No path disappears from either side or changes kind, even when the run is aborted (what becomes of contents is `FolderSync.ContentsStay`) |
| `FolderSync.ContentsStay` | container/interactive/IJulia/tornado/src/gdrivesync.py:46-141 | In every run, complete or aborted, a file that only one side has keeps its content there and is put on the other side with that content or not at all, and no file gets a content that it had on neither side |
| `FolderSync.GivenUpForNewer` | container/interactive/IJulia/tornado/src/gdrivesync.py:94-119 | In every run, a content is given up only for that of the other side, and only if that is newer by a second or more or, locally, if the name is dotted |
| `FolderSync.OthersAreUploaded` | container/interactive/IJulia/tornado/src/gdrivesync.py:71-91 | A complete run puts every local file whose name is not dotted, and for whose folder there is a remote one, on the remote side with its content |
| `FolderSync.DotNamesStayLocal` | container/interactive/IJulia/tornado/src/gdrivesync.py:49-52 | Local entries with a dotted name that the remote side does not have stay as they are and never get there |
| `FolderSync.WhatRaises` | container/interactive/IJulia/tornado/src/gdrivesync.py:71-124 | Where a run fails: at an undotted local folder that is missing remotely, at a remote file for which there is a local folder, at a remote folder for which there is a local file that is dotted or a second or more apart in time |
| `FolderSync.SecondRunChangesNothing` | container/interactive/IJulia/tornado/src/gdrivesync.py:46-124 | A second run does not fail, changes neither side, uploads nothing and downloads exactly the remote files with a dot-name that it comes to; so it transfers nothing if and only if there are none |
| `FolderSync.RemoteFoldersStay` | container/interactive/IJulia/tornado/src/gdrivesync.py:73-87 | A complete run creates no remote folder |
| `FolderSync.LocalOnlyFolderAborts` | container/interactive/IJulia/tornado/src/gdrivesync.py:71-87 | A local folder that is missing remotely aborts the run: after the remote folder is created, a key is read that local entries do not have |
| `FolderSync.ClashesStay` | container/interactive/IJulia/tornado/src/gdrivesync.py:46-124 | No run, complete or aborted, brings about or does away with a path on which runs fail because it is a file on one side and a folder on the other |
| `FolderSync.AbortedRunMakesProgress` | container/interactive/IJulia/tornado/src/gdrivesync.py:71-87 | Without such a path, every aborted run leaves strictly fewer local folders missing remotely |
| `FolderSync.RepeatedRunsComplete` | container/interactive/IJulia/tornado/src/gdrivesync.py:71-87 | Repeating aborted runs gets to a complete one if and only if there is no such path: with one every run fails; without one at most as many runs in a row are aborted as local folders were missing remotely at first, and after that many the next run does not fail |
| `Cluster.GetImageRecentness` | engine/src/juliabox/plugins/compute_ec2/impl_ec2.py:423-447 | The loop over maximum and minimum yields -1 exactly when the own version is known and some instance runs a newer image, 1 when none does and some instance runs an older one, 0 otherwise |
| `Cluster.SomeoneIsNotOld` | engine/src/juliabox/plugins/compute_ec2/impl_ec2.py:423-447 | In any non-empty cluster some instance with a maximal version has recentness at least 0 |
| `Cluster.ScaleDownKeepsNewest` | engine/src/juliabox/plugins/compute_ec2/impl_ec2.py:208-238 | Each decision to terminate leaves other instances, and the maximal version among them is the one before, versions recorded as unknown included |
| `ClusterRuns.WhoMayGo` | engine/src/juliabox/plugins/compute_ec2/impl_ec2.py:208-238 | An instance may terminate if and only if it has been up for 90 minutes, does not lead, and is outdated or, not being alone, of unknown version or of the same as all others |
| `Cluster.ScaleDownKeepsTrueNewest` | engine/src/juliabox/plugins/compute_ec2/impl_ec2.py:208-238 | With versions missing from the view of an instance that knows its own, its decision still keeps the truly newest image |
| `Cluster.KeepsNewestForAllIff` | engine/src/juliabox/plugins/compute_ec2/impl_ec2.py:208-238 | A decision to terminate keeps the newest image whatever the versions missing from the view are, if and only if the own version is known or another instance is seen at the greatest version |
| `Cluster.UnknownOwnImageLosesNewest` | engine/src/juliabox/plugins/compute_ec2/impl_ec2.py:328-343 | In the failing case: a concrete cluster in which the only instance with the newest image, not knowing it, decides to terminate |
| `Cluster.ScaleDownRunsAreSafe` | engine/src/juliabox/plugins/compute_ec2/impl_ec2.py:208-238 | Over any run of evaluations, joins and terminations by decision, the cluster stays non-empty, keeps an instance at least as new as its newest, and never records a leader that is gone |
| `Cluster.DynConfig.SetClusterLeader` | engine/src/juliabox/db/dynconfig.py:64-69 | The instance leads the cluster, and no other cluster's leader changes |
| `Cluster.DynConfig.UnsetClusterLeader` | engine/src/juliabox/db/dynconfig.py:56-62 | The cluster has no leader on record, and no other cluster's leader changes |
| `Cluster.DynConfig.IsClusterLeader` | engine/src/juliabox/db/__init__.py:31-54 | The answer is true exactly if the instance is on record, alive and not outdated; the record is that of one evaluation: a missing record is taken over by anyone, that of a dead instance only by one that is not outdated, an outdated leader steps down; other clusters' records stay |
| `Cluster.DynConfig.IsProposedClusterLeader` | engine/src/juliabox/db/__init__.py:25-28 | True exactly for the recorded instance |
| `Cluster.AtMostOneLeader` | engine/src/juliabox/db/__init__.py:31-54 | In every run of evaluations, joins, deaths and terminations at most one live instance's latest answer is true, and that instance is the recorded leader |
| `Cluster.ToldToLeadIff` | engine/src/juliabox/db/__init__.py:31-54 | In every run an instance's latest answer is that it leads if and only if it was on record and not outdated when it gave it and has not left since |
| `Cluster.Ring.TurnAdvances` | engine/src/juliabox/db/__init__.py:31-54 | With fixed membership and round-robin evaluation, every evaluation takes the election exactly one step closer to its end |
| `Cluster.Ring.SettlesOnTime` | engine/src/juliabox/db/__init__.py:31-54 | The record names a live instance that is not outdated after t evaluations if and only if t is at least the computed remaining number; once it does it never changes |
| `Cluster.Ring.ElectionConverges` | engine/src/juliabox/db/__init__.py:31-54 | From any record whatever, n rounds of n instances settle the election for good |
| `Cluster.Ring.ExactlyOneLeads` | engine/src/juliabox/db/__init__.py:31-54 | From n * n evaluations on, one instance that is not outdated answers true whenever it is its turn, and every other one answers false |
| `Cluster.BoundIsTight` | engine/src/juliabox/db/__init__.py:31-54 | With all but one instance outdated and no record, exactly n * n evaluations are needed |
| `ClusterRuns.OneLeaderInTheEnd` | engine/src/juliabox/db/__init__.py:31-54 | From any state whatever, after n rounds of evaluations and one more exactly one instance holds itself to be the leader; it is on record, alive and not outdated, and all others know that they do not lead |
| `ClusterRuns.UpgradeCompletes` | engine/src/juliabox/plugins/compute_ec2/impl_ec2.py:208-238 | Once an instance that is not outdated is on record, all outdated ones can terminate, in any order, and exactly the others are left |
| `ClusterRuns.MembersFollowSteps` | engine/src/juliabox/plugins/compute_ec2/impl_ec2.py:394-405 | In every run the instances that count as members, and their versions, are those that the joins and leaves so far tell of |
| `Sessions.RedirectAgreesIff` | engine/src/juliabox/plugins/compute_ec2/impl_ec2.py:240-320 | The instance named by the redirect accepts if and only if it is not full and: the average load of the current instances is at least 50, or it runs a newer image, or it leads, or it sorts first among them |
| `Sessions.BusyRedirectIsAccepted` | engine/src/juliabox/plugins/compute_ec2/impl_ec2.py:240-320 | On a shared snapshot with loads of at most 100, not all 100, and an average of at least 50, the instance named by the redirect accepts |
| `Sessions.IdleRedirectIsRejected` | engine/src/juliabox/plugins/compute_ec2/impl_ec2.py:240-320 | Below that average the two procedures can disagree: a concrete cluster |
| `Sessions.WhoIsNamed` | engine/src/juliabox/plugins/compute_ec2/impl_ec2.py:240-262 | The redirect names the first by id of the current instances below the average load, if that is at least 50, or else above it; of all of them if they are equally loaded |
| `Sessions.WhoAccepts` | engine/src/juliabox/plugins/compute_ec2/impl_ec2.py:264-320 | With its own load in the snapshot an instance accepts if and only if it is neither full nor outdated, and it runs a newer image than others, or leads, or is not below an average of at least 50 or the first of those below it, or is the first of all at a lower average |
| `Sessions.NobodyReports` | engine/src/juliabox/plugins/compute_ec2/impl_ec2.py:264-320 | Where no current instance reports a load, an instance accepts unless it is full or outdated |
| `Sessions.SharedSnapshotNeverRaises` | engine/src/juliabox/plugins/compute_ec2/impl_ec2.py:260-320 | On a snapshot that includes the deciding instance, the sorting of an empty list is never reached |
| `Sessions.AverageIsBetween` | engine/src/juliabox/plugins/compute_ec2/impl_ec2.py:187-195 | Either some load lies below the average or all loads equal it |
| `Sessions.HopsEnd` | engine/src/juliabox/handlers/main.py:96-127 | A chain of hops visits at most numhopmax + 2 instances, launches only where a launch attempt succeeds, and turns the visitor away only at a full instance |
| `Sessions.VisitsAre` | engine/src/juliabox/handlers/main.py:96-127 | A visitor is launched upon arrival, or at the instance that all redirects name, or is sent there until all hops are used up, exactly numhopmax + 2 visits in all, and then launched unless it is full |
| `Sessions.BusyClusterLaunchesAfterOneHop` | engine/src/juliabox/handlers/main.py:96-127 | On a busy cluster a visitor is launched after at most one redirect, wherever the visitor arrives |
| `Sessions.UnlessFullEveryoneLaunches` | engine/src/juliabox/handlers/handler_base.py:316-340 | As long as no instance is full every chain of hops ends in a launch |
| `ApiQueue.APIQueue.Reset` | engine/src/juliabox/api/api_queue.py:44-54 | Numbers start at zero, which is a sound state |
| `ApiQueue.APIQueue.IncrOutstanding` | engine/src/juliabox/api/api_queue.py:121-123 | The new mean is the weighted one, and stays within a quarter of the new number |
| `ApiQueue.StaysNear` | engine/src/juliabox/api/api_queue.py:121-123 | Changing the number by at most one keeps the mean strictly within 1/4 of it |
| `ApiQueue.DistanceAfterCalls` | engine/src/juliabox/api/api_queue.py:121-123 | After k calls from a fresh queue the distance is exactly (1 - 5^-k)/4, so that no smaller bound holds |
| `ApiQueue.AdmissionCaps` | engine/src/juliabox/api/api_connector.py:91-101 | An admitted call brings the number to at most BUFFER_SZ + 1 |
| `ApiQueue.CapIsReached` | engine/src/juliabox/api/api_connector.py:91-101 | That many calls are indeed admitted one after the other |
| `ApiQueue.DesiredInRange` | engine/src/juliabox/api/api_container.py:129-149 | Desired counts stay within 0 and the maximum, and grow to the maximum while the mean exceeds 1 |
| `ApiQueue.DesiredByCalls` | engine/src/juliabox/api/api_container.py:129-149 | The new count by the number of calls: with two or more it grows by as many as the mean has in full, with one it grows by at most one, with none it shrinks by one and at a mean below 0.01 to 0 |
| `ApiQueue.OutstandingWantsContainer` | engine/src/juliabox/api/api_container.py:129-149 | An API with calls outstanding never gets the desired count 0 |
| `ApiQueue.IdleDrainsByThirdPass` | engine/src/juliabox/api/api_container.py:129-152 | An API with nothing outstanding has the desired count 0 at its third consecutive idle pass at the latest |
| `ApiQueue.StaysDrained` | engine/src/juliabox/api/api_container.py:129-152 | and keeps it while idle |
| `ApiQueue.TwoPassesAreNotEnough` | engine/src/juliabox/api/api_container.py:129-152 | Two passes may not be enough: a concrete sound queue |
| `ApiCalls.PoolsAndQueuesStaySound` | engine/src/juliabox/api/api_connector.py:35-101 | In every run a connector serves one call at a time and is not pooled meanwhile, no queue serves two APIs, and every queue keeps its bounds (which connectors are pooled again is `ApiCallRuns.TimedOutStaysGone` and `AnsweredIsReused`) |
| `ApiCalls.StepKeepsRoutesIff` | engine/src/juliabox/api/api_connector.py:35-101 | From a sound state, a step keeps every call and every pooled connector on its API's queue if and only if it does not give up the queue of an API that has calls in progress |
| `ApiCalls.CallsReachTheirApi` | engine/src/juliabox/api/api_connector.py:35-101 | In every run that gives up a queue only while its API has no calls, each call uses the queue of its API, and a queue's number is exactly the number of its calls |
| `ApiCalls.RoutedIffQuiet` | engine/src/juliabox/api/api_container.py:200-207 | Each call and connector is on its API's queue all through a run if and only if the run gives up queues only while their APIs have no calls |
| `ApiCalls.CallsAreCapped` | engine/src/juliabox/api/api_connector.py:91-101 | In such a run no API ever has more than BUFFER_SZ + 1 calls in progress |
| `ApiCalls.RetiringUnderACallMisroutes` | engine/src/juliabox/api/api_queue.py:80-103 | In the failing case a later request goes to another API: a concrete run whose last step is a request of API a, on a connector that was idle and that then serves it on the queue of API b |
| `ApiCallRuns.TimedOutStaysGone` | engine/src/juliabox/api/api_connector.py:49-69 | In every run, a connector that has once timed out is in no pool and serves no call ever after |
| `ApiCallRuns.AnsweredIsReused` | engine/src/juliabox/api/api_connector.py:43-54 | A connector whose call was answered is pooled if and only if its API has a pool with room, and then serves the API's next request, for which no new one is made |
| `ApiCallRuns.CallsAreServed` | engine/src/juliabox/api/api_connector.py:91-101 | In runs that give up queues only while their APIs have no calls, a request for an API with fewer than 20 calls in progress starts one more, with more than 20 it is refused, and other APIs' calls stay |
| `ApiCallRuns.EveryQueueIsKept` | engine/src/juliabox/api/api_queue.py:80-103 | In every run each queue ever made is an API's or waits in the cache |
| `ApiCallRuns.IdlePassesDrain` | engine/src/juliabox/api/api_container.py:129-152 | Two idle passes over an API without calls make its desired count 0 and leave other queues alone |
| `ApiCallRuns.BusyQueuesAreLeft` | engine/src/juliabox/api/api_container.py:151-152 | A pass over an API with calls in progress leaves its queue and all else alone |
| `ApiCalls.APIConnectors.GetQueue` | engine/src/juliabox/api/api_queue.py:89-103 | The API's queue is found, or reused from the cache and reset, or created |
| `ApiCalls.APIConnectors.NewConn` | engine/src/juliabox/api/api_connector.py:15-28 | A connector to the API's queue is added to its pool |
| `ApiCalls.APIConnectors.GetConn` | engine/src/juliabox/api/api_connector.py:43-47 | A connector of the API that serves no call is taken from its pool, made if need be |
| `ApiCalls.APIConnectors.SendRecv` | engine/src/juliabox/api/api_connector.py:56-101 | A call is started on such a connector and counted, or refused on an overloaded queue |
| `ApiCalls.APIConnectors.Release` | engine/src/juliabox/api/api_connector.py:49-54 | The call is counted off, and the connector is in a pool afterwards if and only if it had no errors and its API has a pool with room |
| `ApiCalls.APIConnectors.ReleaseQueue` | engine/src/juliabox/api/api_container.py:200-207 | The API's pool and queue are given up, the queue to the cache |
| `ApiContainers.APIContainers.Register` | engine/src/juliabox/api/api_container.py:262-272 | The name is listed once under its API; a new name counts as having just responded, a new API wants one container |
| `ApiContainers.APIContainers.Deregister` | engine/src/juliabox/api/api_container.py:274-280 | The name is not listed under the API any more |
| `ApiContainers.APIContainers.Examine` | engine/src/juliabox/api/api_container.py:163-183 | Examining one container lists it, or deletes it when it is inactive or has not responded for too long, and touches no other |
| `ApiContainers.APIContainers.Prune` | engine/src/juliabox/api/api_container.py:185-198 | Unknown names leave the lists and the pings, and no list stays empty |
| `ApiContainers.APIContainers.RefreshContainerList` | engine/src/juliabox/api/api_container.py:154-198 | A sound index becomes exactly the grouping, by the API their names parse to, of the active containers that are not stale, without duplicates or empty entries; exactly the inactive and the stale ones are deleted, the ping entries are those of the active ones, and counts once wanted stay |
| `ApiContainers.WhoIsPurged` | engine/src/juliabox/api/api_container.py:164-184 | A container is deleted when it is not active, or is listed and last responded longer ago than allowed |
| `ApiContainers.NewContainersStay` | engine/src/juliabox/api/api_container.py:164-184 | An active container that is seen for the first time is kept by that refresh, and by later ones until the time allowed has passed, even if it never responds |
| `ApiContainers.APIContainers.CalcDesiredContainerCounts` | engine/src/juliabox/api/api_container.py:129-152 | Each listed API gets its new count and each idle queue its new mean; it raises if and only if a listed API has no queue |
| `ApiContainers.APIContainers.ReleaseQueues` | engine/src/juliabox/api/api_container.py:200-207 | Exactly the queues of listed APIs remain, and the connectors of those given up go with them |
| `ApiContainers.APIContainers.CreateNew` | engine/src/juliabox/api/api_container.py:87-127 | A launched container is in Docker's list and, as its start registers it at once, in the index and the pings |
| `ApiContainers.APIContainers.LaunchMissing` | engine/src/juliabox/api/api_container.py:234-238 | The launching loop adds exactly the new names, in order, to the API's list and Docker's |
| `ApiContainers.APIContainers.SendTerminates` | engine/src/juliabox/api/api_container.py:228-232 | The terminating loop sends all messages if and only if the queue is not overloaded before any of them |
| `ApiContainers.APIContainers.Balance` | engine/src/juliabox/api/api_container.py:224-237 | For one API exactly the shortage is launched and registered and exactly the excess is sent terminate messages; it raises if and only if the queue overloads on the way |
| `ApiContainers.APIContainers.BalanceAll` | engine/src/juliabox/api/api_container.py:225-238 | All listed APIs are so treated, one launch using up no other API's names; it raises if and only if one of their queues overloads |
| `ApiContainers.APIContainers.Maintain` | engine/src/juliabox/api/api_container.py:209-239 | One pass makes the index the grouping above, and succeeds if and only if every API in it has a queue with room for the messages that its new count asks for; then exactly the differences to the new counts are launched or sent terminate messages, for the listed APIs and no others, and the index is the grouping with exactly the launched containers added |
| `ApiContainers.CountsAreMet` | engine/src/juliabox/api/api_container.py:225-238 | With the launched containers registered and the messages answered, every listed API has exactly as many containers as are desired |
| `ApiContainers.FewCallsLeaveRoom` | engine/src/juliabox/api/api_container.py:225-232 | A queue whose calls and containers are together at most BUFFER_SZ has that room |
| `ContainerNames.ParseInvertsPrint` | engine/src/juliabox/api/api_container.py:54-74 | Parsing a generated name, with or without the slash, returns the API name, whatever it is, and the name is that of an API container |
| `ContainerNames.ApiNamesNeverClash` | engine/src/juliabox/api/api_container.py:54-63 | Containers of different APIs never get the same name |
| `ContainerNames.SessionNamesAreSessions` | engine/src/juliabox/jbox_util.py:64-79 | No e-mail address gives a session name that is classified as a service or an API container or parses as an API name |
| `ContainerNames.SessionNamesDiffer` | engine/src/juliabox/jbox_util.py:74-79 | Session names with different digests differ |
| `ContainerNames.EscNamesClash` | engine/src/juliabox/jbox_util.py:64-67 | Names without digest do not: an address and the same with its dots made underscores have the same |
| `ContainerNames.ListingsPartition` | engine/src/juliabox/jbox_container.py:82-122 | The three listings, each by its own suffix test, share the containers out: each container is in exactly one of them, as often as in Docker's list |
| `ContainerNames.KindBySuffix` | engine/src/juliabox/jbox_container.py:82-122 | The suffix tests of the listings agree with the chain of tests that counts |
| `ContainerNames.SessionContainers` | engine/src/juliabox/jbox_container.py:82-88 | Lists exactly the names with neither suffix, in Docker's order |
| `ContainerNames.ContainersOfType` | engine/src/juliabox/jbox_container.py:115-122 | Lists exactly the names with the suffix, in Docker's order |
| `ContainerNames.NumActive` | engine/src/juliabox/jbox_container.py:99-113 | The single loop with its chain of tests counts as many as the listing of that kind has, or as the session and the API listing have together |
| `Snapshots.EverySnapshotIsSomewhere` | engine/src/juliabox/plugins/vol_ebs/ebs_housekeep.py:46-79 | Over any run of releases, completions in any order and housekeeping, each snapshot taken is exactly one of stored, listed or deleted, and stored ones are complete |
| `Snapshots.PassRotates` | engine/src/juliabox/plugins/vol_ebs/ebs_housekeep.py:56-70 | One pass over a disk leaves the last completed snapshot in list order stored, exactly the incomplete ones listed in order, deletes the others and no other user's |
| `Snapshots.Moves` | engine/src/juliabox/plugins/vol_ebs/ebs_housekeep.py:56-70 | Where each single snapshot is after a pass, in terms of where it was |
| `Snapshots.AdoptedExists` | engine/src/juliabox/plugins/compute_ec2/awsebsvol.py:141-147 | Housekeeping asks only for snapshots that exist and deletes none twice, so that neither call raises |
| `Snapshots.OnlyUnusedVolumesGo` | engine/src/juliabox/plugins/vol_ebs/ebs_housekeep.py:71-76 | A volume is given up only when all its listed snapshots are complete and its recorded time of detachment is more than 24 h ago |
| `SnapshotRuns.VolumeGoesIff` | engine/src/juliabox/plugins/vol_ebs/ebs_housekeep.py:71-76 | In every run a volume goes if and only if housekeeping comes to it, all snapshots ever taken of the user's sessions have completed, and the user's last release, told from the steps, was more than 24 h ago |
| `SnapshotRuns.DetachedIffReleased` | engine/src/juliabox/plugins/vol_ebs/ebs.py:183-202 | In every run a user's volume is detached if and only if the user's last session has been released |
| `SnapshotRuns.PassTreatsEachAlone` | engine/src/juliabox/plugins/vol_ebs/ebs_housekeep.py:46-79 | A pass over many disks does to each what housekeeping of it alone would do, and nothing to the others |
| `Snapshots.CurrentIffInOrder` | engine/src/juliabox/plugins/vol_ebs/ebs_housekeep.py:57-66 | A pass keeps the stored snapshot newer than all it supersedes and older than all still listed if and only if no listed snapshot has completed before an older one |
| `Snapshots.StoredIsLatest` | engine/src/juliabox/plugins/vol_ebs/ebs.py:123-154 | If so, the snapshot that a new volume is created from is the user's latest one |
| `Snapshots.SessionsResume` | engine/src/juliabox/plugins/vol_ebs/ebs.py:123-202 | If sessions are backed up and snapshots complete in order, a session starts with exactly what the user's last session left, whether or not the volume was given up meanwhile |
| `SnapshotRuns.LooksLikeOneDisk` | engine/src/juliabox/plugins/vol_ebs/ebs.py:123-202 | In every orderly run each user finds what would be on a single private disk that only the user's own writes change, through all releases, snapshots, volumes given up and volumes made anew |
| `Snapshots.OutOfOrderCompletionLosesData` | engine/src/juliabox/plugins/vol_ebs/ebs_housekeep.py:57-66 | Out of order, a newer snapshot may be deleted for an older one: a concrete run after which the user is back at the older data |
| `Snapshots.EBSVolumes.GetDiskForUser` | engine/src/juliabox/plugins/vol_ebs/ebs.py:123-162 | An existing volume is attached as it is, a new one is created from the stored snapshot or the template |
| `Snapshots.EBSVolumes.Release` | engine/src/juliabox/plugins/vol_ebs/ebs.py:183-202 | The disk is detached with the time of the release, and a new snapshot of what is on it is appended to its list if backed up |
| `Snapshots.EBSVolumes.HousekeepDisk` | engine/src/juliabox/plugins/vol_ebs/ebs_housekeep.py:52-78 | The loop over the list has the effect of one pass |
| `Snapshots.EBSVolumes.DoClusterHousekeeping` | engine/src/juliabox/plugins/vol_ebs/ebs_housekeep.py:46-79 | One pass over each detached disk, keeping the conservation invariant |
| `SqlTable.SQLiteTable.Translate` | engine/src/juliabox/plugins/db_sqlite3/impl_sqlite3.py:55-74 | Succeeds if and only if every criterion on a known column has an operator of the table and, for prefixes, a string; with operands of their shape, clause and positional values are true of a row exactly when it satisfies every criterion on a known column |
| `SqlTable.SQLiteTable.Scan` | engine/src/juliabox/plugins/db_sqlite3/impl_sqlite3.py:97-99 | With operands of their shape, the records returned are exactly those of the rows satisfying all criteria, in order; whatever the operands, the query is answered if and only if it can be translated and the values are as many as the placeholders |
| `SqlTable.SQLiteTable.Count` | engine/src/juliabox/plugins/db_sqlite3/impl_sqlite3.py:101-106 | The number of those rows |
| `SqlTable.SQLiteTable.Select` | engine/src/juliabox/plugins/db_sqlite3/impl_sqlite3.py:87-95 | The first of those rows, or not found; with the full primary key, in any order, it is a lookup in the map of records |
| `SqlTable.SQLiteTable.Insert` | engine/src/juliabox/plugins/db_sqlite3/impl_sqlite3.py:46-53 | The map gains the known columns of the record under its key; it fails if and only if the key is taken |
| `SqlTable.SQLiteTable.Delete` | engine/src/juliabox/plugins/db_sqlite3/impl_sqlite3.py:108-127 | The map loses the key, also when it had no such record; a record without its full key is not found |
| `SqlTable.SQLiteTable.Update` | engine/src/juliabox/plugins/db_sqlite3/impl_sqlite3.py:129-159 | An existing record is replaced by the known columns of the new one, missing ones becoming null; one that is not there is not stored |
| `SqlTable.TestMeets` | engine/src/juliabox/plugins/db_sqlite3/impl_sqlite3.py:12-21 | A single comparison is true in three-valued logic exactly when the cell meets the criterion: never for nulls, both bounds included for between |
| `SqlTable.OperatorsSelect` | engine/src/juliabox/plugins/db_sqlite3/impl_sqlite3.py:12-21 | For each of the eight operator names, written after the column's name, and for the column's name alone: which cells it selects |
| `SqlTable.NullsAreNotSelected` | engine/src/juliabox/plugins/db_sqlite3/impl_sqlite3.py:12-21 | No operator selects a null cell, or anything for a null value |
| `SqlTable.WhatIsTranslatable` | engine/src/juliabox/plugins/db_sqlite3/impl_sqlite3.py:55-74 | A criterion is translated exactly when it names one of the eight operators, or none, and gives a single text for a prefix |
| `SqlTable.WhereAppend` | engine/src/juliabox/plugins/db_sqlite3/impl_sqlite3.py:55-63 | Appending a clause and its values adds exactly one condition and leaves the binding of the earlier values alone |
| `SqlTable.OrderDoesNotMatter` | engine/src/juliabox/plugins/db_sqlite3/impl_sqlite3.py:65-85 | The rows chosen do not depend on the order of the keyword arguments |
| `SqlTable.TranslationMeans` | engine/src/juliabox/plugins/db_sqlite3/impl_sqlite3.py:55-85 | Clause and values of well-shaped criteria are true of a row exactly when it satisfies each of them |
| `SqlTable.KeyIsLookup` | engine/src/juliabox/plugins/db_sqlite3/impl_sqlite3.py:87-95 | Criteria naming the full primary key choose the row with that key, or none |
| `SqlTable.KeyRemoved` | engine/src/juliabox/plugins/db_sqlite3/impl_sqlite3.py:108-127 | Deleting by the key clause removes exactly the record with that key |
| `SqlTable.KeyUpdated` | engine/src/juliabox/plugins/db_sqlite3/impl_sqlite3.py:129-159 | Updating by the key clause changes exactly the record with that key and keeps keys unique |
| `SqlTable.ItemOfRow` | engine/src/juliabox/plugins/db_sqlite3/impl_sqlite3.py:46-53 | Reading back the row stored for a record gives its known columns |
| `SqlTable.OwnValuesIff` | engine/src/juliabox/plugins/db_sqlite3/impl_sqlite3.py:60-63 | Of criteria that can be translated, every clause is bound to its own values if and only if every criterion on a known column has the shape its operator takes |
| `SqlTable.MisshapenOperandsCanMisbind` | engine/src/juliabox/plugins/db_sqlite3/impl_sqlite3.py:60-63 | In the failing case the query may still be answered: a between with one value together with a list of two for another column binds values to the wrong placeholders, in a concrete query |
| `MonthCount.CountCreated` | engine/src/juliabox/db/user_v2.py:243-271 | The loop ends, visits each calendar month from the first to the last exactly once and in order, and its sum is the number of users created in the interval, for users whose month was set together with their time; it is not reached exactly when the interval would begin outside the years 1 to 9999 |
| `MonthCount.AllCountedIff` | engine/src/juliabox/db/user_v2.py:256-271 | Counting by months equals counting all users of the interval if and only if each of them is filed under one of the months; otherwise it is less |
| `MonthCount.CountAllCounts` | engine/src/juliabox/db/user_v2.py:259-260 | The flat count is the number of users whose time lies in the interval, both ends included |
| `MonthCount.DatedUsersAreFiled` | engine/src/juliabox/db/user_v2.py:133-142 | A user whose month was set together with the time is filed under a month of every interval containing the time |
| `MonthCount.NextCodeIsNextMonth` | engine/src/juliabox/db/user_v2.py:266-269 | The step over month codes goes from each month to the next, over the turn of the year |
| `MonthCount.NextMonth` | engine/src/juliabox/db/db_base.py:67-69 | Each month is followed by the next of its year, and December by January of the next year |
| `MonthCount.CodesAreOrdered` | engine/src/juliabox/db/db_base.py:67-69 | Month codes are ordered like months |
| `MonthCount.MonthsFollowTimes` | engine/src/juliabox/db/db_base.py:67-69 | Later times are not in earlier months |
| `MonthCount.YearStarts` | engine/src/juliabox/db/db_base.py:67-86 | The calendar of month lengths agrees with the closed formula for the days before a year |
| `MonthCount.MonthStarts` | engine/src/juliabox/db/db_base.py:67-86 | The month lengths add up to the usual days before each month, in leap years and others |
| `MonthCount.TimesAreBounded` | engine/src/juliabox/db/db_base.py:75-86 | The times of representable dates are the seconds from the beginning of year 1 to the end of year 9999 |
| `MonthCount.EpochIs1970` | engine/src/juliabox/db/db_base.py:75-86 | The origin of the time stamps is the beginning of January 1970 |
| `Homework.RecordInClosedForm` | engine/src/juliabox/plugins/course_homework/course_homework_tbl.py:101-146 | Over any run of submissions by any students, a record depends only on that student's own answers: attempts are the wrong ones, it is correct if and only if a right answer came before max_attempts wrong ones (always, without a limit), the score is max_score if so and 0 otherwise, and the answer kept is the right one, or the last one given while attempts were left |
| `Homework.CorrectIsFinal` | engine/src/juliabox/plugins/course_homework/course_homework_tbl.py:130-134 | A correct record's answer, mark and score never change |
| `Homework.KeysStay` | engine/src/juliabox/plugins/course_homework/course_homework_tbl.py:101-146 | Submissions by students leave the answer keys alone |
| `Homework.CourseHomework.CheckAnswer` | engine/src/juliabox/plugins/course_homework/course_homework_tbl.py:101-146 | The table is that after one submission, or unchanged when not recording; the score returned is the one then on record, and the explanation is given with right answers only |
| `Homework.CourseHomework.Report` | engine/src/juliabox/plugins/course_homework/course_homework_tbl.py:148-210 | The report has each question's entry; each student asked for who has a record on some question, and nobody else, gets the sum of their scores; the maximal score is 0 |
| `Homework.CourseHomework.QuestionReport` | engine/src/juliabox/plugins/course_homework/course_homework_tbl.py:156-186 | Each such student appears once, with answer, evaluation, score and attempts as recorded, the answer key not at all; the attempts allowed are those of the key, the maximal score is 0 |
| `Homework.TotalIsSolvedScore` | engine/src/juliabox/plugins/course_homework/course_homework_tbl.py:101-210 | Whatever has been submitted, in any order and by whomever, the total reported for a student is the sum of the maximal scores of the questions that the student's own answers solve |
| `Homework.WhoIsReported` | engine/src/juliabox/plugins/course_homework/course_homework_tbl.py:156-164 | Reported are the one student asked for, or all whose ids the store finds after a blank, never the key |
| `Scheduler.NoCommandRunsTwice` | engine/src/juliabox/srvr_jboxd.py:67-94 | In every interleaving, for targets wrapped once, no two live threads carry the same command and arguments, and each finds its own entry when it finishes |
| `Scheduler.ExactIffWrappedOnce` | engine/src/juliabox/srvr_jboxd.py:21-32 | The table names exactly the live threads in every run if and only if targets are wrapped exactly once |
| `Scheduler.SuppressedIffLive` | engine/src/juliabox/srvr_jboxd.py:71-86 | A command is turned down exactly when a live thread carries the same signature |
| `Scheduler.LockIsGivenBack` | engine/src/juliabox/srvr_jboxd.py:71-94 | Whoever holds the lock releases it within two steps of its own |
| `Scheduler.WrappedTwiceCrashes` | engine/src/juliabox/srvr_jboxd.py:88-94 | A target wrapped more than once raises at its second removal, holding the lock: a concrete run |
| `Scheduler.StuckForever` | engine/src/juliabox/srvr_jboxd.py:88-94 | From then on no command is accepted or finished, whatever happens |
| `Scheduler.JBoxd.ScheduleThread` | engine/src/juliabox/srvr_jboxd.py:71-86 | A new signature is entered and started, one that is active is ignored |
| `Scheduler.JBoxd.ScheduleHousekeeping` | engine/src/juliabox/srvr_jboxd.py:232-241 | While no thread finishes only the first plugin of each feature is started, because the signature does not name the plugin |

## Left out

- `DiskLifecycle`: launching by name, container removal and the image refresher are steps on values, not methods on containers; a container mounts one loopback disk; stale session upkeep, pings and port validation are not modelled.
- `DiskTable`: the logged number of free disks and the used percentage.
- `UserHome`: permissions, links, empty folders, the local and remote copies of a backup file, tutorial links and custom Julia images. An archive is the sequence of its members; a full disk is the number of members that still fit; what is written outside the disk is not modelled.
- `FolderSync`: duplicate titles in a remote folder, the precision of file times, time zones, and failures of the Drive service other than those of content for folders.
- `Cluster`: reading and writing the leader record are one step, caching of versions and uptime is not modelled, and a version is a number.
- `Sessions`: `redirect_to_logged_in_instance`, cookies, the jobs that are queued, and the request for a new machine in `should_accept_session`; a snapshot of loads does not change during a chain of hops.
- `ApiCalls`: sockets, message contents and callbacks; time-outs are answers with errors.
- `ApiContainers.APIContainers.Maintain`: a pass is atomic, so that terminated containers go away only after it; an overload is an exception because `send_terminate_msg` gives no overload handler; after a failed pass the index is only known to be sound.
- `Snapshots`: the device allocator of `ebs.py`, which has the shape of the loopback allocator, attach failures, node housekeeping, and session properties that are missing. A disk record and its volume are one object, and the states attached and attaching, detached and detaching are not distinguished.
- `SqlTable`: connections and commits, decimals and byte strings; LIKE is a parameter.
- `MonthCount.CountCreated`: fractions of a second, which the code truncates toward 1970.
- `Homework`: creating answer keys and problem set metadata.
- `Scheduler`: the commands' own effects, the command queue, signals, and retries.
- Docker, ZMQ, AWS, Google Drive, bucket stores, tar and mount commands appear as abstract state.
- `plugins/parallel/user_cluster.py`, spot prices, statistics, dynamic configuration other than the leader record, mail, DNS, authentication, templates, browser code, and install and load scripts: input and output, or easy.
