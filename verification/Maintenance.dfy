/**
 Storage retention (`MaintenanceRunner`): purges, sweeps and the size cap over
 the events, artifacts, queue and episode tables and the files on disk.
 The clock reads `now` throughout a run, and every file operation succeeds.
 */
module Maintenance {
  import opened Common

  const DAY := 86_400
  /** 9999-12-31 00:00:00, the mark when the worker has stored none. */
  const NO_MARK := 253_402_214_400

  /** `text` ranks the timestamp as SQLite orders its text; `time` is what
      `datetime()` makes of it, None when it makes nothing of it. */
  datatype Event = Event(text: int, time: Option<int>, processed: int)

  datatype Artifact = Artifact(eventId: string, path: string, createdText: int)

  datatype Job = Job(eventId: string, expires: Option<int>)

  datatype Episode = Episode(closed: bool, start: Option<int>)

  datatype File = File(size: nat, modified: Option<int>, image: bool)

  /** The worker's `observations_distilled_through`. */
  datatype Mark = NoMark | Unreadable | Through(time: int)

  datatype Outcome<T> = Done(value: T) | ForeignKeyFailure

  // -------------------------------------------------------------- what expires

  /** `expired_event_clause`: past retention and distilled, or past twice the retention. */
  predicate Expired(time: Option<int>, now: int, days: nat, mark: Mark) {
    && time.Some? && time.value < now - days * DAY
    && (|| (match mark
            case NoMark => time.value < NO_MARK
            case Unreadable => false
            case Through(t) => time.value < t)
        || time.value < now - 2 * days * DAY)
  }

  predicate Doomed(e: Event, now: int, days: nat, mark: Mark) {
    e.processed != 0 && Expired(e.time, now, days, mark)
  }

  /** Which events retention deletes: of the processed ones with a time, those past
      twice the retention whatever the mark, and those past retention that the worker
      has distilled (any, when it has stored no mark yet and the time is before 9999-12-31). */
  ghost predicate DueToGo(e: Event, now: int, days: nat, mark: Mark) {
    && e.processed != 0 && e.time.Some?
    && (|| e.time.value < now - 2 * days * 86_400
        || (e.time.value < now - days * 86_400
            && if mark.Through? then e.time.value < mark.time else mark.NoMark? && e.time.value < 253_402_214_400))
  }

  /** Twice the retention is past the retention, so that is all of it. */
  lemma DoomedIff(e: Event, now: int, days: nat, mark: Mark)
    ensures Doomed(e, now, days, mark) <==> DueToGo(e, now, days, mark)
  {
    assert now - 2 * days * 86_400 <= now - days * 86_400;
  }

  /** A queue job past its time to live. */
  predicate JobExpired(j: Job, now: int) { j.expires.Some? && j.expires.value < now }

  /** A closed episode past its retention. */
  predicate EpisodeExpired(e: Episode, now: int, days: nat) {
    e.closed && e.start.Some? && e.start.value < now - days * DAY
  }

  // ------------------------------------------------------------------- files

  predicate Under(dir: string, path: string) { dir + "/" <= path }

  predicate EndsWith(s: string, suffix: string) { |s| >= |suffix| && s[|s| - |suffix|..] == suffix }

  predicate IsArtifactFile(path: string) { EndsWith(path, ".bin") || EndsWith(path, ".bin.tmp") }

  /** The bytes of all the files. */
  ghost function Total(files: map<string, File>): nat
    decreases |files|
  {
    if files == map[] then 0 else
      var p :| p in files;
      files[p].size + Total(files - {p})
  }

  lemma {:induction false} TotalWithout(files: map<string, File>, p: string)
    requires p in files
    ensures Total(files) == files[p].size + Total(files - {p})
    decreases |files|
  {
    var q :| q in files && Total(files) == files[q].size + Total(files - {q});
    if q != p {
      TotalWithout(files - {q}, p);
      TotalWithout(files - {p}, q);
      assert files - {q} - {p} == files - {p} - {q};
    }
  }

  function PathSet(paths: seq<string>): set<string> { set p | p in paths }

  /** A later step of a chain of deletions frees what is left of the files. */
  ghost predicate Freed(before: map<string, File>, after: map<string, File>, bytes: nat) {
    && after.Keys <= before.Keys && (forall p | p in after :: after[p] == before[p])
    && Total(before) == Total(after) + bytes
  }

  function WithoutPaths(files: map<string, File>, paths: seq<string>): map<string, File> { files - PathSet(paths) }

  lemma PathSetSnoc(paths: seq<string>, p: string)
    ensures PathSet(paths + [p]) == PathSet(paths) + {p}
  {
  }

  lemma MinusNone(files: map<string, File>)
    ensures files - PathSet([]) == files
  {
  }

  lemma MinusMore(before: map<string, File>, files: map<string, File>, paths: seq<string>, i: nat)
    requires i < |paths| && files == before - PathSet(paths[..i])
    ensures files - {paths[i]} == before - PathSet(paths[..i + 1])
  {
    assert paths[..i + 1] == paths[..i] + [paths[i]];
    PathSetSnoc(paths[..i], paths[i]);
  }

  lemma FreedMore(before: map<string, File>, files: map<string, File>, bytes: nat, p: string)
    requires Freed(before, files, bytes) && p in files
    ensures Freed(before, files - {p}, bytes + files[p].size)
  {
    TotalWithout(files, p);
  }

  lemma FreedThen(a: map<string, File>, b: map<string, File>, c: map<string, File>, m: nat, n: nat)
    requires Freed(a, b, m) && Freed(b, c, n)
    ensures Freed(a, c, m + n)
  {
  }

  datatype Report = Report(
    eventsPurged: nat,
    artifactsPurged: nat,
    sizeEvicted: nat,
    screenshotsPurged: nat,
    bytesFreed: nat,
    episodesPurged: nat,
    jobsPurged: nat)

  // ------------------------------------------------------------------ eviction

  /** The rows oldest first: by event time, or by their own when the event is gone. */
  function AgeOf(a: Artifact, events: map<string, Event>): int {
    if a.eventId in events then events[a.eventId].text else a.createdText
  }

  ghost predicate OldestFirst(rows: seq<Artifact>, events: map<string, Event>) {
    forall i, j | 0 <= i < j < |rows| :: AgeOf(rows[i], events) <= AgeOf(rows[j], events)
  }

  function SizeOf(files: map<string, File>, path: string): nat {
    if path in files then files[path].size else 0
  }

  function SizesOf(files: map<string, File>, rows: seq<Artifact>): nat {
    if rows == [] then 0 else SizesOf(files, rows[..|rows| - 1]) + SizeOf(files, rows[|rows| - 1].path)
  }

  function Paths(rows: seq<Artifact>): (paths: seq<string>)
    ensures |paths| == |rows| && forall i | 0 <= i < |rows| :: paths[i] == rows[i].path
  {
    seq(|rows|, i requires 0 <= i < |rows| => rows[i].path)
  }

  function InDir(files: map<string, File>, dir: string): map<string, File> {
    map p | p in files && Under(dir, p) :: files[p]
  }

  /** What the first `n` rows free is what their deletion takes off the directory, when
      those that name a file name different ones inside it; a missing file frees nothing. */
  lemma {:induction false} EvictionFrees(files: map<string, File>, dir: string, rows: seq<Artifact>, n: nat)
    requires n <= |rows|
    requires forall i | 0 <= i < |rows| && rows[i].path in files :: Under(dir, rows[i].path)
    requires forall i, j | 0 <= i < j < |rows| && rows[i].path in files :: rows[i].path != rows[j].path
    ensures Total(InDir(files, dir)) == Total(InDir(files - PathSet(Paths(rows[..n])), dir)) + SizesOf(files, rows[..n])
  {
    if n == 0 {
      assert files - PathSet(Paths(rows[..0])) == files;
    } else {
      EvictionFrees(files, dir, rows, n - 1);
      var p := rows[n - 1].path;
      var fewer, all := PathSet(Paths(rows[..n - 1])), PathSet(Paths(rows[..n]));
      assert rows[..n][..n - 1] == rows[..n - 1];
      assert Paths(rows[..n]) == Paths(rows[..n - 1]) + [p];
      assert all == fewer + {p};
      var dirBefore := InDir(files - fewer, dir);
      if p in files {
        assert p !in fewer;
        TotalWithout(dirBefore, p);
      }
      assert dirBefore - {p} == InDir(files - all, dir);
      assert p !in files ==> dirBefore - {p} == dirBefore;
    }
  }

  /** `ids` lists the set, each member once. */
  ghost predicate Selects(ids: seq<string>, all: set<string>) {
    && (forall i, j | 0 <= i < j < |ids| :: ids[i] != ids[j])
    && (forall a :: a in ids <==> a in all)
  }

  ghost predicate InOrder(ids: seq<string>, artifacts: map<string, Artifact>, events: map<string, Event>) {
    forall i, j | 0 <= i < j < |ids| ::
      ids[i] in artifacts && ids[j] in artifacts && AgeOf(artifacts[ids[i]], events) <= AgeOf(artifacts[ids[j]], events)
  }

  lemma SelectOneMore(ids: seq<string>, at: nat, a: string, all: set<string>)
    requires Selects(ids, all) && a !in all && at <= |ids|
    ensures Selects(ids[..at] + [a] + ids[at..], all + {a})
  {
    assert ids == ids[..at] + ids[at..];
  }

  lemma InsertInOrder(ids: seq<string>, at: nat, a: string, artifacts: map<string, Artifact>, events: map<string, Event>)
    requires at <= |ids| && a in artifacts && (forall x | x in ids :: x in artifacts) && InOrder(ids, artifacts, events)
    requires forall k | 0 <= k < at :: AgeOf(artifacts[ids[k]], events) <= AgeOf(artifacts[a], events)
    requires forall k | at <= k < |ids| :: AgeOf(artifacts[ids[k]], events) > AgeOf(artifacts[a], events)
    ensures InOrder(ids[..at] + [a] + ids[at..], artifacts, events)
  {
    var more := ids[..at] + [a] + ids[at..];
    forall i, j | 0 <= i < j < |more|
      ensures more[i] in artifacts && more[j] in artifacts && AgeOf(artifacts[more[i]], events) <= AgeOf(artifacts[more[j]], events)
    {
      var x, y := if i < at then i else i - 1, if j < at then j else j - 1;
      if i == at {
        assert more[j] == ids[y];
      } else if j == at {
        assert more[i] == ids[x];
      } else {
        assert more[i] == ids[x] && more[j] == ids[y];
      }
    }
  }

  lemma SelectedAll(rows: seq<Artifact>, ids: seq<string>, artifacts: map<string, Artifact>, events: map<string, Event>)
    requires Selects(ids, artifacts.Keys) && InOrder(ids, artifacts, events)
    requires |rows| == |ids| && forall i | 0 <= i < |ids| :: ids[i] in artifacts && rows[i] == artifacts[ids[i]]
    ensures RowsOf(rows, artifacts, events)
  {
    hide InOrder, Selects, OldestFirst;
    InOldestFirst(rows, ids, artifacts, events);
    ListsAll(rows, ids, artifacts);
    assert Lists(rows, ids, artifacts);
  }

  lemma InOldestFirst(rows: seq<Artifact>, ids: seq<string>, artifacts: map<string, Artifact>, events: map<string, Event>)
    requires InOrder(ids, artifacts, events)
    requires |rows| == |ids| && forall i | 0 <= i < |ids| :: ids[i] in artifacts && rows[i] == artifacts[ids[i]]
    ensures OldestFirst(rows, events)
  {
  }

  lemma ListsAll(rows: seq<Artifact>, ids: seq<string>, artifacts: map<string, Artifact>)
    requires Lists(rows, ids, artifacts)
    ensures |rows| == |artifacts|
    ensures forall r | r in rows :: exists a :: a in artifacts && artifacts[a] == r
    ensures forall a | a in artifacts :: artifacts[a] in rows
  {
    DistinctSize(ids);
    assert (set a | a in ids) == artifacts.Keys;
    forall a | a in artifacts
      ensures artifacts[a] in rows
    {
      assert a in ids;
      var i :| 0 <= i < |ids| && ids[i] == a;
      assert rows[i] == artifacts[a];
    }
  }

  /** `rows` are the rows of `ids`, which lists the table. */
  ghost predicate Lists(rows: seq<Artifact>, ids: seq<string>, artifacts: map<string, Artifact>) {
    && Selects(ids, artifacts.Keys) && |rows| == |ids|
    && forall i | 0 <= i < |ids| :: ids[i] in artifacts && rows[i] == artifacts[ids[i]]
  }

  /** `rows` are the table's rows, oldest first. */
  ghost predicate RowsOf(rows: seq<Artifact>, artifacts: map<string, Artifact>, events: map<string, Event>) {
    && OldestFirst(rows, events) && |rows| == |artifacts| && (exists ids :: Lists(rows, ids, artifacts))
    && (forall r | r in rows :: exists a :: a in artifacts && artifacts[a] == r)
    && (forall a | a in artifacts :: artifacts[a] in rows)
  }

  /** `paths` are those of an oldest-first prefix of the rows: none when the directory
      is within the cap; else as many as free the excess (or all), and no more. */
  ghost predicate Evicts(files: map<string, File>, dir: string, maxBytes: nat, rows: seq<Artifact>, paths: seq<string>) {
    var size, n := Total(InDir(files, dir)), |paths|;
    && n <= |rows| && paths == Paths(rows[..n])
    && (size <= maxBytes ==> n == 0)
    && (size > maxBytes ==> n == |rows| || SizesOf(files, rows[..n]) >= size - maxBytes)
    && (n > 0 ==> SizesOf(files, rows[..n - 1]) < size - maxBytes)
  }

  /** When the rows name different files inside the directory, or missing ones, deleting
      what is evicted brings it within the cap unless every row goes, and one row less would not. */
  lemma EvictionMeetsCap(files: map<string, File>, dir: string, maxBytes: nat, rows: seq<Artifact>, paths: seq<string>)
    requires Evicts(files, dir, maxBytes, rows, paths)
    requires forall i | 0 <= i < |rows| && rows[i].path in files :: Under(dir, rows[i].path)
    requires forall i, j | 0 <= i < j < |rows| && rows[i].path in files :: rows[i].path != rows[j].path
    ensures |paths| == |rows| || Total(InDir(files - PathSet(paths), dir)) <= maxBytes
    ensures |paths| > 0 ==> Total(InDir(files - PathSet(paths[..|paths| - 1]), dir)) > maxBytes
  {
    var n := |paths|;
    EvictionFrees(files, dir, rows, n);
    if n == 0 {
      assert files - PathSet(paths) == files;
    } else {
      EvictionFrees(files, dir, rows, n - 1);
      assert rows[..n][..n - 1] == rows[..n - 1];
      assert paths[..n - 1] == Paths(rows[..n - 1]);
    }
  }

  // --------------------------------------------------------------- the store

  datatype Options = Options(
    retentionDays: nat,
    retentionDaysEpisodes: nat,
    artifactDir: Option<string>,
    artifactMaxBytes: Option<nat>,
    screenshotsDir: Option<string>,
    screenshotTtlDays: nat)

  /** An artifact file is one whose name ends in either suffix; a path under a directory
      is the directory's followed by a slash; a screenshot goes that lies directly in
      its directory. */
  lemma ArtifactFileIff(path: string)
    ensures IsArtifactFile(path) <==> (exists stem: string :: path == stem + ".bin") || (exists stem: string :: path == stem + ".bin.tmp")
  {
    if EndsWith(path, ".bin") { assert path == path[..|path| - 4] + ".bin"; }
    if EndsWith(path, ".bin.tmp") { assert path == path[..|path| - 8] + ".bin.tmp"; }
  }

  lemma UnderIff(dir: string, path: string)
    ensures Under(dir, path) <==> exists rest: string :: path == dir + "/" + rest
  {
    if Under(dir, path) { assert path == dir + "/" + path[|dir| + 1..]; }
  }

  lemma ExpiredShotIff(path: string, f: File, dir: string, cutoff: int)
    ensures ExpiredShot(path, f, dir, cutoff) <==>
            && (exists name: string :: path == dir + "/" + name && '/' !in name)
            && f.image && exists t :: f.modified == Some(t) && t < cutoff
  {
    if Under(dir, path) { assert path == dir + "/" + path[|dir| + 1..]; }
    if name: string :| path == dir + "/" + name && '/' !in name { assert path[|dir| + 1..] == name; }
  }

  function PathsIn(rows: map<string, Artifact>): set<string> { set a | a in rows :: rows[a].path }

  /** An expired screenshot: an image directly under `dir` past its time to live. */
  predicate ExpiredShot(path: string, f: File, dir: string, cutoff: int) {
    && Under(dir, path) && '/' !in path[|dir| + 1..]
    && f.image && f.modified.Some? && f.modified.value < cutoff
  }

  /** What a deletion leaves: rows by event or path, jobs by event, files by what they are. */
  function RowsOn(rows: map<string, Artifact>, live: set<string>): map<string, Artifact> {
    map a | a in rows && rows[a].eventId in live :: rows[a]
  }

  function RowsOff(rows: map<string, Artifact>, doomed: set<string>): map<string, Artifact> {
    map a | a in rows && rows[a].eventId !in doomed :: rows[a]
  }

  function RowsNotAt(rows: map<string, Artifact>, paths: seq<string>): map<string, Artifact> {
    map a | a in rows && rows[a].path !in paths :: rows[a]
  }

  function JobsOff(queue: map<string, Job>, doomed: set<string>): map<string, Job> {
    map j | j in queue && queue[j].eventId !in doomed :: queue[j]
  }

  function JobsFresh(queue: map<string, Job>, now: int): map<string, Job> {
    map j | j in queue && !JobExpired(queue[j], now) :: queue[j]
  }

  function EpisodesLeft(episodes: map<string, Episode>, now: int, days: nat): map<string, Episode> {
    map e | e in episodes && !EpisodeExpired(episodes[e], now, days) :: episodes[e]
  }

  function WithoutShots(files: map<string, File>, dir: string, cutoff: int): map<string, File> {
    map p | p in files && !ExpiredShot(p, files[p], dir, cutoff) :: files[p]
  }

  /** The files less those of the rows that go. */
  function WithoutRowFiles(files: map<string, File>, rows: map<string, Artifact>, kept: map<string, Artifact>): map<string, File> {
    files - PathsIn(rows - kept.Keys)
  }

  function Shots(files: map<string, File>, dir: string, cutoff: int): set<string> {
    set p | p in files && ExpiredShot(p, files[p], dir, cutoff)
  }

  lemma WithoutShotsIs(files: map<string, File>, dir: string, cutoff: int)
    ensures WithoutShots(files, dir, cutoff) == files - Shots(files, dir, cutoff)
  {
    hide ExpiredShot;
  }

  function WithoutUnreferenced(files: map<string, File>, artifacts: map<string, Artifact>, dir: string): map<string, File> {
    map p | p in files && !(Under(dir, p) && IsArtifactFile(p) && p !in PathsIn(artifacts)) :: files[p]
  }

  /** The artifact files no row references. */
  function Strays(files: map<string, File>, artifacts: map<string, Artifact>, dir: string): set<string> {
    var referenced := PathsIn(artifacts);
    set p | p in files && Under(dir, p) && IsArtifactFile(p) && p !in referenced
  }

  lemma WithoutUnreferencedIs(files: map<string, File>, artifacts: map<string, Artifact>, dir: string)
    ensures WithoutUnreferenced(files, artifacts, dir) == files - Strays(files, artifacts, dir)
  {
    hide Under, IsArtifactFile, PathsIn;
  }

  datatype Disk = Disk(
    events: map<string, Event>,
    artifacts: map<string, Artifact>,
    queue: map<string, Job>,
    files: map<string, File>)

  ghost predicate AllReferenced(files: map<string, File>, artifacts: map<string, Artifact>, dir: string) {
    forall p | p in files && Under(dir, p) && IsArtifactFile(p) :: p in PathsIn(artifacts)
  }

  lemma FreedNothing(files: map<string, File>)
    ensures Freed(files, files, 0)
  {
  }

  ghost predicate DoomedId(disk: Disk, e: string, days: nat, now: int, mark: Mark) {
    e in disk.events && DueToGo(disk.events[e], now, days, mark)
  }

  /** Events: exactly those due to go. */
  ghost predicate EventsRetained(before: Disk, after: Disk, days: nat, now: int, mark: Mark) {
    && (forall e | e in after.events :: e in before.events && after.events[e] == before.events[e])
    && (forall e | e in before.events :: e in after.events <==> !DueToGo(before.events[e], now, days, mark))
  }

  /** Jobs: exactly those of doomed events go, and, once `expunged`, the expired ones. */
  ghost predicate JobsRetained(before: Disk, after: Disk, days: nat, now: int, mark: Mark, expunged: bool) {
    && (forall j | j in after.queue :: j in before.queue && after.queue[j] == before.queue[j])
    && (forall j | j in before.queue :: j in after.queue <==>
          && !DoomedId(before, before.queue[j].eventId, days, now, mark)
          && !(expunged && before.queue[j].expires.Some? && before.queue[j].expires.value < now))
  }

  ghost predicate RowsShrink(before: Disk, after: Disk) {
    forall a | a in after.artifacts :: a in before.artifacts && after.artifacts[a] == before.artifacts[a]
  }

  /** Rows: exactly those go whose event is doomed, whose event is gone (with an artifact
      directory), or whose path was evicted. */
  ghost predicate RowsRetained(before: Disk, after: Disk, opts: Options, now: int, mark: Mark, evicted: seq<string>) {
    && RowsShrink(before, after)
    && (forall a | a in before.artifacts :: a in after.artifacts <==>
          && !DoomedId(before, before.artifacts[a].eventId, opts.retentionDays, now, mark)
          && (opts.artifactDir.Some? ==> before.artifacts[a].eventId in before.events)
          && before.artifacts[a].path !in evicted)
  }

  /** With an artifact directory every remaining row's event exists and every remaining
      artifact file is referenced. */
  ghost predicate NoOrphans(after: Disk, dir: Option<string>) {
    dir.Some? ==>
      && (forall a | a in after.artifacts :: after.artifacts[a].eventId in after.events)
      && AllReferenced(after.files, after.artifacts, dir.value)
  }

  /** A row that names the file goes. */
  ghost predicate RowReleased(before: Disk, after: Disk, p: string) {
    exists a :: a in before.artifacts && a !in after.artifacts && before.artifacts[a].path == p
  }

  ghost predicate Unreferenced(after: Disk, dir: Option<string>, p: string) {
    dir.Some? && Under(dir.value, p) && IsArtifactFile(p) && p !in PathsIn(after.artifacts)
  }

  predicate ShotGone(disk: Disk, opts: Options, now: int, p: string) {
    && p in disk.files && opts.screenshotsDir.Some?
    && ExpiredShot(p, disk.files[p], opts.screenshotsDir.value, now - opts.screenshotTtlDays * DAY)
  }

  /** Files: exactly those go that a row going names, that are artifact files without a
      row, and, once `expunged`, expired screenshots. */
  ghost predicate FilesRetained(before: Disk, after: Disk, opts: Options, now: int, expunged: bool) {
    && (forall p | p in after.files :: p in before.files && after.files[p] == before.files[p])
    && (forall p | p in before.files :: p !in after.files <==>
          || RowReleased(before, after, p)
          || Unreferenced(after, opts.artifactDir, p)
          || (expunged && ShotGone(before, opts, now, p)))
  }

  /** The whole of what stays and what goes. */
  ghost predicate Retained(before: Disk, after: Disk, opts: Options, now: int, mark: Mark, evicted: seq<string>, expunged: bool) {
    && EventsRetained(before, after, opts.retentionDays, now, mark)
    && JobsRetained(before, after, opts.retentionDays, now, mark, expunged)
    && RowsRetained(before, after, opts, now, mark, evicted)
    && NoOrphans(after, opts.artifactDir)
    && FilesRetained(before, after, opts, now, expunged)
  }

  /** A stage after which exactly the files of the rows it dropped are gone. */
  ghost predicate ReleasesFiles(before: Disk, after: Disk) {
    && RowsShrink(before, after)
    && (forall p | p in after.files :: p in before.files && after.files[p] == before.files[p])
    && (forall p | p in before.files :: p !in after.files <==> RowReleased(before, after, p))
  }

  /** Such a stage after others keeps the account of the files. */
  lemma FilesStayRetained(first: Disk, before: Disk, after: Disk, opts: Options, now: int)
    requires RowsShrink(first, before) && FilesRetained(first, before, opts, now, false) && ReleasesFiles(before, after)
    requires opts.artifactDir.Some? ==> AllReferenced(before.files, before.artifacts, opts.artifactDir.value)
    ensures FilesRetained(first, after, opts, now, false)
    ensures opts.artifactDir.Some? ==> AllReferenced(after.files, after.artifacts, opts.artifactDir.value)
  {
    hide Under, IsArtifactFile, ExpiredShot;
    forall p | p in first.files
      ensures p !in after.files <==> RowReleased(first, after, p) || Unreferenced(after, opts.artifactDir, p)
    {
      FileGoes(first, before, after, opts, now, p);
    }
    if opts.artifactDir.Some? {
      forall p | p in after.files && Under(opts.artifactDir.value, p) && IsArtifactFile(p)
        ensures p in PathsIn(after.artifacts)
      {
        var a :| a in before.artifacts && before.artifacts[a].path == p;
        assert !RowReleased(before, after, p);
        assert after.artifacts[a].path == p;
      }
    }
  }

  lemma FileGoes(first: Disk, before: Disk, after: Disk, opts: Options, now: int, p: string)
    requires RowsShrink(first, before) && FilesRetained(first, before, opts, now, false) && ReleasesFiles(before, after)
    requires opts.artifactDir.Some? ==> AllReferenced(before.files, before.artifacts, opts.artifactDir.value)
    requires p in first.files
    ensures p !in after.files <==> RowReleased(first, after, p) || Unreferenced(after, opts.artifactDir, p)
  {
    hide Under, IsArtifactFile, ExpiredShot;
    if p in before.files {
      if RowReleased(before, after, p) {
        var a :| a in before.artifacts && a !in after.artifacts && before.artifacts[a].path == p;
        assert a in first.artifacts;
      }
      if RowReleased(first, after, p) {
        var a :| a in first.artifacts && a !in after.artifacts && first.artifacts[a].path == p;
        assert a in before.artifacts by { assert !RowReleased(first, before, p); }
      }
      if Unreferenced(after, opts.artifactDir, p) {
        var a :| a in before.artifacts && before.artifacts[a].path == p;
        assert a !in after.artifacts;
      }
    } else if RowReleased(first, before, p) {
      var a :| a in first.artifacts && a !in before.artifacts && first.artifacts[a].path == p;
      assert a !in after.artifacts;
    } else {
      PathsShrink(before, after);
    }
  }

  lemma PathsShrink(before: Disk, after: Disk)
    requires RowsShrink(before, after)
    ensures PathsIn(after.artifacts) <= PathsIn(before.artifacts)
  {
    forall p | p in PathsIn(after.artifacts)
      ensures p in PathsIn(before.artifacts)
    {
      var a :| a in after.artifacts && after.artifacts[a].path == p;
      assert before.artifacts[a].path == p;
    }
  }

  /** The files after the orphan sweep: those of dropped rows and unreferenced ones are gone. */
  ghost predicate SweptFrom(before: map<string, File>, after: map<string, File>,
                            rows: map<string, Artifact>, kept: map<string, Artifact>, dir: string) {
    && AllReferenced(after, kept, dir)
    && (forall p | p in after :: p in before && after[p] == before[p])
    && forall p | p in before :: p !in after <==>
         || p in PathsIn(rows - kept.Keys)
         || (Under(dir, p) && IsArtifactFile(p) && p !in PathsIn(kept))
  }

  /** What the orphan sweep does; nothing without an artifact directory. */
  ghost predicate Swept(before: Disk, after: Disk, dir: Option<string>) {
    && after.events == before.events && after.queue == before.queue
    && (dir.None? ==> after == before)
    && (dir.Some? ==>
          && after.artifacts == RowsOn(before.artifacts, before.events.Keys)
          && SweptFrom(before.files, after.files, before.artifacts, after.artifacts, dir.value))
  }

  lemma SweptNothing(disk: Disk, dir: Option<string>)
    ensures dir.None? ==> Swept(disk, disk, dir)
  {
  }

  /** Retention after the sweep: the rows of doomed events and their files, then the events and their jobs. */
  ghost predicate Purged(before: Disk, after: Disk, doomed: set<string>) {
    && after.artifacts == RowsOff(before.artifacts, doomed)
    && after.files == before.files - PathsIn(before.artifacts - after.artifacts.Keys)
    && after.events == before.events - doomed
    && after.queue == JobsOff(before.queue, doomed)
  }

  lemma ReleasedPaths(before: Disk, after: Disk, p: string)
    ensures p in PathsIn(before.artifacts - after.artifacts.Keys) <==> RowReleased(before, after, p)
  {
    if RowReleased(before, after, p) {
      var a :| a in before.artifacts && a !in after.artifacts && before.artifacts[a].path == p;
      assert a in before.artifacts - after.artifacts.Keys;
    }
  }

  lemma SweepHolds(before: Disk, swept: Disk, opts: Options, now: int)
    requires Swept(before, swept, opts.artifactDir)
    ensures RowsShrink(before, swept) && FilesRetained(before, swept, opts, now, false)
    ensures opts.artifactDir.Some? ==> AllReferenced(swept.files, swept.artifacts, opts.artifactDir.value)
  {
    hide Under, IsArtifactFile, PathsIn;
    forall p | p in before.files
      ensures p in PathsIn(before.artifacts - swept.artifacts.Keys) <==> RowReleased(before, swept, p)
    {
      ReleasedPaths(before, swept, p);
    }
  }

  lemma PurgeReleases(swept: Disk, after: Disk, doomed: set<string>)
    requires Purged(swept, after, doomed)
    ensures ReleasesFiles(swept, after)
  {
    hide PathsIn;
    forall p | p in swept.files
      ensures p in PathsIn(swept.artifacts - after.artifacts.Keys) <==> RowReleased(swept, after, p)
    {
      ReleasedPaths(swept, after, p);
    }
  }

  /** Exactly the doomed events go, with exactly their jobs, their rows and the orphaned
      ones, and exactly the files of those and the unreferenced ones. */
  lemma RetentionHolds(before: Disk, swept: Disk, after: Disk, doomed: set<string>, opts: Options, now: int, mark: Mark)
    requires Swept(before, swept, opts.artifactDir) && Purged(swept, after, doomed)
    requires doomed == set e | e in before.events && Doomed(before.events[e], now, opts.retentionDays, mark)
    ensures Retained(before, after, opts, now, mark, [], false)
  {
    hide Swept, Purged, DoomedId, EventsRetained, JobsRetained, RowsRetained, RowsShrink, FilesRetained, ReleasesFiles, AllReferenced, Doomed;
    SweepHolds(before, swept, opts, now);
    PurgeReleases(swept, after, doomed);
    FilesStayRetained(before, swept, after, opts, now);
    forall e
      ensures e in doomed <==> DoomedId(before, e, opts.retentionDays, now, mark)
    {
      DoomedIdIs(before, e, opts.retentionDays, now, mark);
    }
    EventsHold(before, swept, after, doomed, opts, now, mark);
    RowsHold(before, swept, after, doomed, opts, now, mark);
  }

  lemma DoomedIdIs(disk: Disk, e: string, days: nat, now: int, mark: Mark)
    ensures DoomedId(disk, e, days, now, mark) <==> e in disk.events && Doomed(disk.events[e], now, days, mark)
  {
    if e in disk.events { DoomedIff(disk.events[e], now, days, mark); }
  }

  lemma EventsHold(before: Disk, swept: Disk, after: Disk, doomed: set<string>, opts: Options, now: int, mark: Mark)
    requires Swept(before, swept, opts.artifactDir) && Purged(swept, after, doomed)
    requires forall e :: e in doomed <==> DoomedId(before, e, opts.retentionDays, now, mark)
    ensures EventsRetained(before, after, opts.retentionDays, now, mark)
    ensures JobsRetained(before, after, opts.retentionDays, now, mark, false)
  {
    hide Doomed, DueToGo, SweptFrom, PathsIn;
  }

  lemma RowsHold(before: Disk, swept: Disk, after: Disk, doomed: set<string>, opts: Options, now: int, mark: Mark)
    requires Swept(before, swept, opts.artifactDir) && Purged(swept, after, doomed)
    requires forall e :: e in doomed <==> DoomedId(before, e, opts.retentionDays, now, mark)
    ensures RowsRetained(before, after, opts, now, mark, [])
    ensures opts.artifactDir.Some? ==> forall a | a in after.artifacts :: after.artifacts[a].eventId in after.events
  {
    hide DoomedId, SweptFrom, PathsIn;
  }

  /** After an eviction: rows by path, and their files. */
  ghost predicate Evicted(before: Disk, after: Disk, paths: seq<string>) {
    && after.events == before.events && after.queue == before.queue
    && after.artifacts == RowsNotAt(before.artifacts, paths)
    && after.files == WithoutPaths(before.files, paths)
    && forall p | p in paths :: p in PathsIn(before.artifacts)
  }

  lemma EvictionReleases(before: Disk, after: Disk, paths: seq<string>)
    requires Evicted(before, after, paths)
    ensures ReleasesFiles(before, after)
  {
    forall p | p in before.files
      ensures p in paths <==> RowReleased(before, after, p)
    {
      if p in paths {
        var a :| a in before.artifacts && before.artifacts[a].path == p;
        assert a !in after.artifacts;
      }
    }
  }

  /** After the cap the rows at the evicted paths and their files are gone besides, and nothing else. */
  lemma EvictionRetains(first: Disk, before: Disk, after: Disk, paths: seq<string>, opts: Options, now: int, mark: Mark)
    requires Retained(first, before, opts, now, mark, [], false) && Evicted(before, after, paths)
    ensures Retained(first, after, opts, now, mark, paths, false)
  {
    hide Doomed, FilesRetained, AllReferenced, ReleasesFiles;
    EvictionReleases(before, after, paths);
    FilesStayRetained(first, before, after, opts, now);
  }

  /** Screenshots, and queue jobs past their time to live. */
  ghost predicate Expunged(before: Disk, after: Disk, opts: Options, now: int) {
    && after.events == before.events && after.artifacts == before.artifacts
    && after.queue == JobsFresh(before.queue, now)
    && after.files == match opts.screenshotsDir
                      case None => before.files
                      case Some(dir) => WithoutShots(before.files, dir, now - opts.screenshotTtlDays * DAY)
  }

  /** After the last stages the expired jobs and screenshots are gone besides, and nothing else. */
  lemma ExpungeRetains(first: Disk, before: Disk, after: Disk, evicted: seq<string>, opts: Options, now: int, mark: Mark)
    requires Retained(first, before, opts, now, mark, evicted, false) && Expunged(before, after, opts, now)
    ensures Retained(first, after, opts, now, mark, evicted, true)
  {
    hide DoomedId, Doomed, FilesRetained, Expunged, AllReferenced;
    JobsAndFilesExpunged(first, before, after, opts, now, mark);
    assert after.events == before.events && after.artifacts == before.artifacts by { ExpungedKeeps(before, after, opts, now); }
  }

  lemma ExpungedKeeps(before: Disk, after: Disk, opts: Options, now: int)
    requires Expunged(before, after, opts, now)
    ensures after.events == before.events && after.artifacts == before.artifacts
  {
  }

  lemma JobsAndFilesExpunged(first: Disk, before: Disk, after: Disk, opts: Options, now: int, mark: Mark)
    requires JobsRetained(first, before, opts.retentionDays, now, mark, false) && FilesRetained(first, before, opts, now, false)
    requires Expunged(before, after, opts, now)
    ensures JobsRetained(first, after, opts.retentionDays, now, mark, true) && FilesRetained(first, after, opts, now, true)
    ensures opts.artifactDir.Some? && AllReferenced(before.files, before.artifacts, opts.artifactDir.value) ==>
              AllReferenced(after.files, after.artifacts, opts.artifactDir.value)
  {
    hide DoomedId, ExpiredShot, Under, IsArtifactFile, PathsIn;
    assert forall p :: RowReleased(first, after, p) <==> RowReleased(first, before, p);
  }

  // ------------------------------------------------------------- the size cap

  /** The rows name different files, or missing ones, inside the directory. */
  ghost predicate OwnFiles(disk: Disk, dir: string) {
    && (forall a | a in disk.artifacts && disk.artifacts[a].path in disk.files :: Under(dir, disk.artifacts[a].path))
    && (forall a, b | a in disk.artifacts && b in disk.artifacts && a != b && disk.artifacts[a].path in disk.files ::
          disk.artifacts[a].path != disk.artifacts[b].path)
  }

  /** What the cap does after retention: it evicts an oldest-first prefix of the rows
      left, as `Evicts` says, when there are a directory and a cap. */
  ghost predicate CapApplied(kept: Disk, opts: Options, rows: seq<Artifact>, evicted: seq<string>) {
    if opts.artifactDir.Some? && opts.artifactMaxBytes.Some?
    then RowsOf(rows, kept.artifacts, kept.events) && Evicts(kept.files, opts.artifactDir.value, opts.artifactMaxBytes.value, rows, evicted)
    else evicted == []
  }

  /** `a` is not younger than `b`: by the event's time, or by the row's own when its event is gone. */
  ghost predicate NotYounger(a: Artifact, b: Artifact, events: map<string, Event>) {
    && (a.eventId in events && b.eventId in events ==> events[a.eventId].text <= events[b.eventId].text)
    && (a.eventId in events && b.eventId !in events ==> events[a.eventId].text <= b.createdText)
    && (a.eventId !in events && b.eventId in events ==> a.createdText <= events[b.eventId].text)
    && (a.eventId !in events && b.eventId !in events ==> a.createdText <= b.createdText)
  }

  /** No evicted row is younger than one that stays (where its path is its own). */
  ghost predicate OldestGo(kept: Disk, evicted: seq<string>) {
    forall a, b | a in kept.artifacts && b in kept.artifacts
      && kept.artifacts[a].path in evicted && kept.artifacts[b].path !in evicted
      && OwnPath(kept.artifacts, a) :: NotYounger(kept.artifacts[a], kept.artifacts[b], kept.events)
  }

  ghost predicate OwnPath(rows: map<string, Artifact>, a: string) {
    a in rows && forall c | c in rows && rows[c].path == rows[a].path :: c == a
  }

  lemma EvictedAreOldest(kept: Disk, opts: Options, rows: seq<Artifact>, evicted: seq<string>)
    requires CapApplied(kept, opts, rows, evicted)
    ensures OldestGo(kept, evicted)
  {
    hide SizesOf, Total, InDir, OldestFirst, AgeOf;
    forall a, b | a in kept.artifacts && b in kept.artifacts
      && kept.artifacts[a].path in evicted && kept.artifacts[b].path !in evicted && OwnPath(kept.artifacts, a)
      ensures NotYounger(kept.artifacts[a], kept.artifacts[b], kept.events)
    {
      var ids :| Lists(rows, ids, kept.artifacts);
      var i, j := PlacesIn(kept.artifacts, rows, ids, evicted, a, b);
      OlderComesFirst(rows, kept.events, i, j);
    }
  }

  lemma OlderComesFirst(rows: seq<Artifact>, events: map<string, Event>, i: nat, j: nat)
    requires OldestFirst(rows, events) && i < j < |rows|
    ensures NotYounger(rows[i], rows[j], events)
  {
  }

  lemma PlacesIn(artifacts: map<string, Artifact>, rows: seq<Artifact>, ids: seq<string>, evicted: seq<string>, a: string, b: string)
    returns (i: nat, j: nat)
    requires Lists(rows, ids, artifacts) && |evicted| <= |rows| && evicted == Paths(rows[..|evicted|])
    requires OwnPath(artifacts, a) && b in artifacts && artifacts[a].path in evicted && artifacts[b].path !in evicted
    ensures i < j < |rows| && rows[i] == artifacts[a] && rows[j] == artifacts[b]
  {
    i :| 0 <= i < |evicted| && evicted[i] == artifacts[a].path;
    assert forall k | 0 <= k < |evicted| :: evicted[k] == rows[k].path;
    assert ids[i] == a;
    assert b in ids;
    j :| 0 <= j < |ids| && ids[j] == b;
  }

  /** Of the episodes exactly the closed ones go that began before the retention. */
  ghost predicate EpisodesRetained(before: map<string, Episode>, after: map<string, Episode>, days: nat, now: int) {
    && (forall e | e in after :: e in before && after[e] == before[e])
    && (forall e | e in before :: e !in after <==>
          before[e].closed && before[e].start.Some? && before[e].start.value < now - days * 86_400)
  }

  /** The directory is within the cap or no row is left, and with one eviction less it
      would not have been within the cap. */
  ghost predicate CapMet(kept: Disk, after: Disk, opts: Options, evicted: seq<string>) {
    opts.artifactDir.Some? && opts.artifactMaxBytes.Some? ==>
      var dir, max := opts.artifactDir.value, opts.artifactMaxBytes.value;
      && (after.artifacts == map[] || Total(InDir(after.files, dir)) <= max)
      && (evicted != [] ==> Total(InDir(WithoutPaths(kept.files, evicted[..|evicted| - 1]), dir)) > max)
  }

  lemma {:induction false} TotalOfFewer(fewer: map<string, File>, files: map<string, File>)
    requires fewer.Keys <= files.Keys && forall p | p in fewer :: fewer[p] == files[p]
    ensures Total(fewer) <= Total(files)
    decreases |fewer|
  {
    if fewer != map[] {
      var p :| p in fewer;
      TotalWithout(fewer, p);
      TotalWithout(files, p);
      TotalOfFewer(fewer - {p}, files - {p});
    }
  }

  /** Rows that name different files still do after retention, which deletes none of them. */
  lemma StillOwnFiles(before: Disk, kept: Disk, dir: string, opts: Options, now: int, mark: Mark)
    requires Retained(before, kept, opts, now, mark, [], false) && OwnFiles(before, dir)
    ensures OwnFiles(kept, dir)
  {
    hide Doomed, ExpiredShot, Under, IsArtifactFile, NoOrphans;
  }

  lemma RowsApart(rows: seq<Artifact>, disk: Disk, dir: string)
    requires RowsOf(rows, disk.artifacts, disk.events) && OwnFiles(disk, dir)
    ensures forall i | 0 <= i < |rows| && rows[i].path in disk.files :: Under(dir, rows[i].path)
    ensures forall i, j | 0 <= i < j < |rows| && rows[i].path in disk.files :: rows[i].path != rows[j].path
  {
    hide Under, OldestFirst;
    var ids :| Lists(rows, ids, disk.artifacts);
    forall i | 0 <= i < |rows|
      ensures ids[i] in disk.artifacts && rows[i] == disk.artifacts[ids[i]]
    {
    }
  }

  lemma AllEvicted(rows: seq<Artifact>, kept: Disk, paths: seq<string>)
    requires RowsOf(rows, kept.artifacts, kept.events) && paths == Paths(rows)
    ensures RowsNotAt(kept.artifacts, paths) == map[]
  {
    forall a | a in kept.artifacts
      ensures kept.artifacts[a].path in paths
    {
      assert kept.artifacts[a] in rows;
      var i :| 0 <= i < |rows| && rows[i] == kept.artifacts[a];
      assert paths[i] == kept.artifacts[a].path;
    }
  }

  /** The cap is met by the run's end when, at its start, the rows name different files
      inside the directory. */
  lemma CapIsMet(before: Disk, kept: Disk, capped: Disk, after: Disk, rows: seq<Artifact>, evicted: seq<string>,
                 opts: Options, now: int, mark: Mark)
    requires Retained(before, kept, opts, now, mark, [], false) && CapApplied(kept, opts, rows, evicted)
    requires Evicted(kept, capped, evicted) && Expunged(capped, after, opts, now)
    requires opts.artifactDir.Some? && OwnFiles(before, opts.artifactDir.value)
    ensures CapMet(kept, after, opts, evicted)
  {
    hide Retained, RowsOf, OwnFiles, Total, ExpiredShot, Under, RowsNotAt;
    if opts.artifactMaxBytes.Some? {
      var dir, max := opts.artifactDir.value, opts.artifactMaxBytes.value;
      StillOwnFiles(before, kept, dir, opts, now, mark);
      RowsApart(rows, kept, dir);
      EvictionMeetsCap(kept.files, dir, max, rows, evicted);
      if |evicted| == |rows| {
        assert rows[..|evicted|] == rows;
        AllEvicted(rows, kept, evicted);
      } else {
        TotalOfFewer(InDir(after.files, dir), InDir(capped.files, dir));
      }
    }
  }

  class Store {
    var events: map<string, Event>
    var artifacts: map<string, Artifact>
    var queue: map<string, Job>
    var episodes: map<string, Episode>
    var mark: Mark
    var files: map<string, File>
    const now: int

    /** The events the retention deletes. */
    function DoomedEvents(days: nat): set<string>
      reads this
    {
      set e | e in events && Doomed(events[e], now, days, mark)
    }

    method DeleteFile(p: string) returns (deleted: nat, bytes: nat)
      modifies this`files
      ensures files == old(files) - {p}
      ensures Freed(old(files), files, bytes) && deleted == |old(files)| - |files|
    {
      deleted, bytes := 0, 0;
      if p in files {
        FreedMore(files, files, 0, p);
        deleted, bytes := 1, files[p].size;
        assert (files - {p}).Keys == files.Keys - {p};
        files := files - {p};
      } else {
        assert files - {p} == files;
      }
    }

    /** Delete each path; missing files are skipped. */
    method DeleteFiles(paths: seq<string>) returns (deleted: nat, bytes: nat)
      modifies this`files
      ensures files == WithoutPaths(old(files), paths)
      ensures Freed(old(files), files, bytes)
      ensures deleted == |old(files)| - |files|
    {
      hide Total, PathSet;
      deleted, bytes := 0, 0;
      MinusNone(files);
      for i := 0 to |paths|
        invariant files == old(files) - PathSet(paths[..i])
        invariant Freed(old(files), files, bytes)
        invariant deleted == |old(files)| - |files|
      {
        ghost var middle := files;
        var d, b := DeleteFile(paths[i]);
        FreedThen(old(files), middle, files, bytes, b);
        MinusMore(old(files), middle, paths, i);
        deleted, bytes := deleted + d, bytes + b;
      }
      assert paths[..|paths|] == paths;
    }

    /** The paths of the rows a query returns, in some order. */
    method SelectPaths(rows: map<string, Artifact>) returns (paths: seq<string>)
      ensures PathSet(paths) == PathsIn(rows)
      ensures paths == [] <==> rows == map[]
    {
      paths := [];
      var rest := rows.Keys;
      while rest != {}
        invariant rest <= rows.Keys
        invariant forall p :: p in paths <==> exists a :: a in rows && a !in rest && rows[a].path == p
        invariant paths == [] <==> rest == rows.Keys
      {
        var a :| a in rest;
        rest := rest - {a};
        paths := paths + [rows[a].path];
      }
    }

    method ListPaths(ps: set<string>) returns (paths: seq<string>)
      ensures PathSet(paths) == ps
    {
      paths := [];
      var rest := ps;
      while rest != {}
        invariant rest <= ps && PathSet(paths) == ps - rest
      {
        var p :| p in rest;
        rest := rest - {p};
        PathSetSnoc(paths, p);
        paths := paths + [p];
      }
    }

    /** The artifact files no row references. */
    method SweepUnreferenced(dir: string) returns (deleted: nat, bytes: nat)
      modifies this`files
      ensures files == WithoutUnreferenced(old(files), artifacts, dir)
      ensures Freed(old(files), files, bytes) && deleted == |old(files)| - |files|
    {
      hide Total, Freed, PathSet, WithoutUnreferenced, Strays;
      WithoutUnreferencedIs(files, artifacts, dir);
      var unreferenced := ListPaths(Strays(files, artifacts, dir));
      deleted, bytes := DeleteFiles(unreferenced);
    }

    /** Rows whose event is gone, and their files. */
    method DropOrphanRows() returns (deleted: nat, bytes: nat)
      modifies this`artifacts, this`files
      ensures artifacts == RowsOn(old(artifacts), events.Keys)
      ensures files == WithoutRowFiles(old(files), old(artifacts), artifacts)
      ensures Freed(old(files), files, bytes) && deleted == |old(files)| - |files|
    {
      hide Freed, PathsIn, PathSet;
      var orphans := map a | a in artifacts && artifacts[a].eventId !in events :: artifacts[a];
      var orphanPaths := SelectPaths(orphans);
      artifacts := RowsOn(artifacts, events.Keys);
      assert orphans == old(artifacts) - artifacts.Keys;
      deleted, bytes := DeleteFiles(orphanPaths);
    }

    static lemma SweptFiles(before: map<string, File>, middle: map<string, File>, after: map<string, File>,
                            rows: map<string, Artifact>, kept: map<string, Artifact>, dir: string)
      requires middle == WithoutRowFiles(before, rows, kept)
      requires after == WithoutUnreferenced(middle, kept, dir)
      ensures SweptFrom(before, after, rows, kept, dir)
    {
      hide PathsIn, Under, IsArtifactFile;
    }

    /** Rows whose event is gone, and artifact files no row references. */
    method SweepOrphanArtifacts(dir: string) returns (deleted: nat, bytes: nat)
      modifies this`artifacts, this`files
      ensures artifacts == RowsOn(old(artifacts), events.Keys)
      ensures Freed(old(files), files, bytes) && deleted == |old(files)| - |files|
      ensures SweptFrom(old(files), files, old(artifacts), artifacts, dir)
    {
      hide Freed, SweptFrom, WithoutUnreferenced, WithoutRowFiles, PathsIn, RowsOn, Total, Under, IsArtifactFile, AllReferenced;
      deleted, bytes := DropOrphanRows();
      ghost var middle := files;
      var d, b := SweepUnreferenced(dir);
      FreedThen(old(files), middle, files, bytes, b);
      SweptFiles(old(files), middle, files, old(artifacts), artifacts, dir);
      deleted, bytes := deleted + d, bytes + b;
    }

    /** Rows of doomed events; joins on events, so it runs before they are purged. */
    method PurgeOldArtifacts(days: nat) returns (paths: seq<string>)
      modifies this`artifacts
      ensures artifacts == RowsOff(old(artifacts), DoomedEvents(days))
      ensures PathSet(paths) == PathsIn(old(artifacts) - artifacts.Keys)
    {
      var doomed := DoomedEvents(days);
      var expired := map a | a in artifacts && artifacts[a].eventId in doomed :: artifacts[a];
      paths := SelectPaths(expired);
      artifacts := RowsOff(artifacts, doomed);
      assert expired == old(artifacts) - artifacts.Keys;
    }

    /** Doomed events and their jobs, in one transaction: it fails, and changes
        nothing, exactly when an artifact row still references a doomed event. */
    method PurgeOldEvents(days: nat) returns (outcome: Outcome<nat>)
      modifies this`events, this`queue
      ensures outcome.ForeignKeyFailure? <==> exists a :: a in artifacts && artifacts[a].eventId in old(DoomedEvents(days))
      ensures outcome.ForeignKeyFailure? ==> events == old(events) && queue == old(queue)
      ensures outcome.Done? ==>
                && events == old(events) - old(DoomedEvents(days))
                && queue == JobsOff(old(queue), old(DoomedEvents(days)))
                && outcome.value == |old(DoomedEvents(days))|
    {
      var doomed := DoomedEvents(days);
      if exists a :: a in artifacts && artifacts[a].eventId in doomed {
        return ForeignKeyFailure;
      }
      queue := JobsOff(queue, doomed);
      events := events - doomed;
      outcome := Done(|doomed|);
    }

    /** `dir_size`: the bytes of the files under `dir`. */
    method DirSize(dir: string) returns (size: nat)
      ensures size == Total(InDir(files, dir))
    {
      size := 0;
      var inside := InDir(files, dir);
      var rest := inside;
      while rest != map[]
        invariant Total(inside) == size + Total(rest)
        decreases |rest|
      {
        var p :| p in rest;
        TotalWithout(rest, p);
        size := size + rest[p].size;
        rest := rest - {p};
      }
    }

    /** Where a row goes among those already in order. */
    method Position(ids: seq<string>, a: string) returns (at: nat)
      requires a in artifacts && (forall x | x in ids :: x in artifacts) && InOrder(ids, artifacts, events)
      ensures at <= |ids|
      ensures forall k | 0 <= k < at :: AgeOf(artifacts[ids[k]], events) <= AgeOf(artifacts[a], events)
      ensures forall k | at <= k < |ids| :: AgeOf(artifacts[ids[k]], events) > AgeOf(artifacts[a], events)
    {
      at := |ids|;
      while at > 0 && AgeOf(artifacts[ids[at - 1]], events) > AgeOf(artifacts[a], events)
        invariant at <= |ids|
        invariant forall k | at <= k < |ids| :: AgeOf(artifacts[ids[k]], events) > AgeOf(artifacts[a], events)
      {
        at := at - 1;
      }
    }

    /** The artifact rows, oldest first. */
    method SelectOldestFirst() returns (ids: seq<string>)
      ensures Selects(ids, artifacts.Keys) && InOrder(ids, artifacts, events)
    {
      ids := [];
      var rest := artifacts.Keys;
      while rest != {}
        invariant rest <= artifacts.Keys
        invariant Selects(ids, artifacts.Keys - rest) && InOrder(ids, artifacts, events)
      {
        var a :| a in rest;
        var at := Position(ids, a);
        SelectOneMore(ids, at, a, artifacts.Keys - rest);
        assert artifacts.Keys - rest + {a} == artifacts.Keys - (rest - {a});
        InsertInOrder(ids, at, a, artifacts, events);
        ids := ids[..at] + [a] + ids[at..];
        rest := rest - {a};
      }
      assert artifacts.Keys - {} == artifacts.Keys;
    }

    /** How many of the rows to evict: until what they free covers the excess. */
    method CountToEvict(rows: seq<Artifact>, excess: nat) returns (n: nat)
      ensures n <= |rows| && (n == |rows| || SizesOf(files, rows[..n]) >= excess)
      ensures n > 0 ==> SizesOf(files, rows[..n - 1]) < excess
    {
      n := 0;
      var freed := 0;
      while n < |rows| && freed < excess
        invariant n <= |rows| && freed == SizesOf(files, rows[..n])
        invariant n > 0 ==> SizesOf(files, rows[..n - 1]) < excess
      {
        assert rows[..n + 1][..n] == rows[..n];
        freed := freed + SizeOf(files, rows[n].path);
        n := n + 1;
      }
    }

    method SelectRows() returns (rows: seq<Artifact>)
      ensures RowsOf(rows, artifacts, events)
    {
      hide RowsOf, InOrder;
      var ids := SelectOldestFirst();
      var table := artifacts;
      assert forall i | 0 <= i < |ids| :: ids[i] in ids && ids[i] in table;
      rows := seq(|ids|, i requires 0 <= i < |ids| => table[ids[i]]);
      SelectedAll(rows, ids, artifacts, events);
    }

    method ChooseEvicted(rows: seq<Artifact>, dir: string, maxBytes: nat) returns (paths: seq<string>)
      ensures Evicts(files, dir, maxBytes, rows, paths)
    {
      hide Total, SizesOf, InDir;
      var size := DirSize(dir);
      paths := [];
      if size > maxBytes {
        var n := CountToEvict(rows, size - maxBytes);
        paths := Paths(rows[..n]);
      } else {
        assert rows[..0] == [];
      }
    }

    /** Evict the oldest rows until what they free covers the excess over the cap. */
    method EvictArtifactsBySize(dir: string, maxBytes: nat) returns (paths: seq<string>, ghost rows: seq<Artifact>)
      modifies this`artifacts
      ensures RowsOf(rows, old(artifacts), events)
      ensures artifacts == RowsNotAt(old(artifacts), paths)
      ensures Evicts(files, dir, maxBytes, rows, paths)
    {
      hide RowsOf, Evicts;
      var all := SelectRows();
      rows := all;
      paths := ChooseEvicted(all, dir, maxBytes);
      artifacts := RowsNotAt(artifacts, paths);
    }

    method SweepExpiredScreenshots(dir: string, ttlDays: nat) returns (deleted: nat, bytes: nat)
      modifies this`files
      ensures files == WithoutShots(old(files), dir, now - ttlDays * DAY)
      ensures Freed(old(files), files, bytes) && deleted == |old(files)| - |files|
    {
      hide Total, Freed, PathSet, WithoutShots, ExpiredShot;
      var cutoff := now - ttlDays * DAY;
      WithoutShotsIs(files, dir, cutoff);
      var expired := ListPaths(Shots(files, dir, cutoff));
      deleted, bytes := DeleteFiles(expired);
    }

    method PurgeOldEpisodes(days: nat) returns (deleted: nat)
      modifies this`episodes
      ensures episodes == EpisodesLeft(old(episodes), now, days)
      ensures deleted == |old(episodes)| - |episodes|
    {
      var gone := set e | e in episodes && EpisodeExpired(episodes[e], now, days);
      deleted := |gone|;
      episodes := episodes - gone;
      CountMinus(old(episodes), gone);
    }

    static lemma CountMinus<V>(m: map<string, V>, gone: set<string>)
      requires gone <= m.Keys
      ensures |m - gone| == |m| - |gone|
    {
      assert (m - gone).Keys == m.Keys - gone;
      assert m.Keys == (m.Keys - gone) + gone;
    }

    method PurgeExpiredJobs() returns (deleted: nat)
      modifies this`queue
      ensures queue == JobsFresh(old(queue), now)
      ensures deleted == |old(queue)| - |queue|
    {
      var gone := set j | j in queue && JobExpired(queue[j], now);
      deleted := |gone|;
      queue := queue - gone;
      CountMinus(old(queue), gone);
    }

    ghost function View(): Disk
      reads this
    {
      Disk(events, artifacts, queue, files)
    }

    method SweepIfDir(dir: Option<string>) returns (deleted: nat, bytes: nat)
      modifies this`artifacts, this`files
      ensures Swept(old(View()), View(), dir)
      ensures Freed(old(files), files, bytes) && deleted == |old(files)| - |files|
    {
      hide Total, PathsIn;
      FreedNothing(files);
      SweptNothing(View(), dir);
      deleted, bytes := 0, 0;
      if dir.Some? {
        deleted, bytes := SweepOrphanArtifacts(dir.value);
      }
    }

    /** The rows of doomed events are gone before the events are, so no foreign key is violated. */
    method PurgeExpired(days: nat) returns (outcome: Outcome<nat>, deleted: nat, bytes: nat)
      modifies this`events, this`artifacts, this`queue, this`files
      ensures outcome.Done? && outcome.value == |old(DoomedEvents(days))|
      ensures Purged(old(View()), View(), old(DoomedEvents(days)))
      ensures Freed(old(files), files, bytes) && deleted == |old(files)| - |files|
    {
      hide Total, PathsIn, PathSet, Doomed;
      var expired := PurgeOldArtifacts(days);
      deleted, bytes := DeleteFiles(expired);
      assert DoomedEvents(days) == old(DoomedEvents(days));
      outcome := PurgeOldEvents(days);
    }

    method ApplyRetention(opts: Options) returns (outcome: Outcome<Report>)
      modifies this`events, this`artifacts, this`queue, this`files
      ensures outcome.Done? && Retained(old(View()), View(), opts, now, mark, [], false)
      ensures Freed(old(files), files, outcome.value.bytesFreed)
      ensures outcome.value.artifactsPurged == |old(files)| - |files|
      ensures outcome.value.eventsPurged == |old(DoomedEvents(opts.retentionDays))|
    {
      hide Total, PathsIn, Doomed, Retained;
      var deleted, bytes := SweepIfDir(opts.artifactDir);
      ghost var swept, doomed := View(), DoomedEvents(opts.retentionDays);
      var purged, d, b := PurgeExpired(opts.retentionDays);
      FreedThen(old(files), swept.files, files, bytes, b);
      RetentionHolds(old(View()), swept, View(), doomed, opts, now, mark);
      outcome := Done(Report(purged.value, deleted + d, 0, 0, bytes + b, 0, 0));
    }

    /** Evict by size and delete the files. */
    method EvictAndDelete(dir: string, maxBytes: nat)
      returns (deleted: nat, bytes: nat, paths: seq<string>, ghost rows: seq<Artifact>)
      modifies this`artifacts, this`files
      ensures Evicted(old(View()), View(), paths)
      ensures Freed(old(files), files, bytes) && deleted == |old(files)| - |files|
      ensures RowsOf(rows, old(artifacts), events) && Evicts(old(files), dir, maxBytes, rows, paths)
    {
      hide Total, PathSet, PathsIn, RowsOf, Evicts, Freed, InDir, SizesOf, WithoutPaths;
      paths, rows := EvictArtifactsBySize(dir, maxBytes);
      EvictedPathsAreRows(files, dir, maxBytes, rows, paths, old(artifacts), events);
      deleted, bytes := DeleteFiles(paths);
    }

    /** The size cap, when there is a directory and a cap. */
    method ApplyCap(opts: Options) returns (deleted: nat, bytes: nat, paths: seq<string>, ghost rows: seq<Artifact>)
      modifies this`artifacts, this`files
      ensures Evicted(old(View()), View(), paths) && CapApplied(old(View()), opts, rows, paths)
      ensures Freed(old(files), files, bytes) && deleted == |old(files)| - |files|
    {
      hide Total, Evicts, RowsOf;
      deleted, bytes, paths, rows := 0, 0, [], [];
      if opts.artifactDir.Some? && opts.artifactMaxBytes.Some? {
        deleted, bytes, paths, rows := EvictAndDelete(opts.artifactDir.value, opts.artifactMaxBytes.value);
      } else {
        FreedNothing(files);
        MinusNone(files);
      }
    }

    lemma EvictedPathsAreRows(files: map<string, File>, dir: string, maxBytes: nat, rows: seq<Artifact>, paths: seq<string>,
                              artifacts: map<string, Artifact>, events: map<string, Event>)
      requires RowsOf(rows, artifacts, events) && Evicts(files, dir, maxBytes, rows, paths)
      ensures forall p | p in paths :: p in PathsIn(artifacts)
    {
      hide Lists, OldestFirst, SizesOf, InDir, Total;
      forall p | p in paths
        ensures p in PathsIn(artifacts)
      {
        var i :| 0 <= i < |paths| && paths[i] == p;
        assert rows[i] in rows && rows[i].path == p;
      }
    }

    method ApplyShots(opts: Options) returns (deleted: nat, bytes: nat)
      modifies this`files
      ensures files == match opts.screenshotsDir
                       case None => old(files)
                       case Some(dir) => WithoutShots(old(files), dir, now - opts.screenshotTtlDays * DAY)
      ensures Freed(old(files), files, bytes) && deleted == |old(files)| - |files|
    {
      FreedNothing(files);
      deleted, bytes := 0, 0;
      if opts.screenshotsDir.Some? {
        deleted, bytes := SweepExpiredScreenshots(opts.screenshotsDir.value, opts.screenshotTtlDays);
      }
    }

    /** The stages that touch artifacts: retention, then the cap. */
    method MaintainArtifacts(opts: Options)
      returns (outcome: Outcome<Report>, ghost kept: Disk, ghost rows: seq<Artifact>, ghost evicted: seq<string>)
      modifies this`events, this`artifacts, this`queue, this`files
      ensures Retained(old(View()), kept, opts, now, mark, [], false) && CapApplied(kept, opts, rows, evicted)
      ensures outcome.Done? && Evicted(kept, View(), evicted) && Retained(old(View()), View(), opts, now, mark, evicted, false)
      ensures Freed(old(files), files, outcome.value.bytesFreed)
      ensures outcome.value.artifactsPurged == |old(files)| - |files| && outcome.value.sizeEvicted == |evicted|
      ensures outcome.value.eventsPurged == |old(DoomedEvents(opts.retentionDays))| && queue == kept.queue
    {
      hide Total, Retained, Doomed, Freed, Evicted, CapApplied;
      var retention := ApplyRetention(opts);
      kept := View();
      var report := retention.value;
      var d, b, paths;
      d, b, paths, rows := ApplyCap(opts);
      evicted := paths;
      EvictionRetains(old(View()), kept, View(), paths, opts, now, mark);
      FreedThen(old(files), kept.files, files, report.bytesFreed, b);
      outcome := Done(report.(artifactsPurged := report.artifactsPurged + d, sizeEvicted := |paths|, bytesFreed := report.bytesFreed + b));
    }

    /** The stages that do not: screenshots, episodes, expired jobs. */
    method ExpungeOld(opts: Options) returns (shots: nat, bytes: nat, episodesPurged: nat, jobsPurged: nat)
      modifies this`queue, this`files, this`episodes
      ensures Expunged(old(View()), View(), opts, now) && EpisodesRetained(old(episodes), episodes, opts.retentionDaysEpisodes, now)
      ensures Freed(old(files), files, bytes) && shots == |old(files)| - |files|
      ensures episodesPurged == |old(episodes)| - |episodes| && jobsPurged == |old(queue)| - |queue|
    {
      hide Total, WithoutShots, JobsFresh, Freed;
      shots, bytes := ApplyShots(opts);
      episodesPurged := PurgeOldEpisodes(opts.retentionDaysEpisodes);
      jobsPurged := PurgeExpiredJobs();
    }

    /** The daily maintenance.  It never fails on a foreign key.  Exactly the doomed
        events go, with exactly their jobs and the expired ones; of the rows exactly
        those of doomed events, the orphaned ones and those at the evicted paths; of
        the files exactly those such rows name, unreferenced artifact files and
        expired screenshots.  The evicted paths are the oldest of the rows retention
        left (`kept`), as many as bring the directory within the cap and no more.  The
        bytes reported are those of the files that went. */
    method RunFullMaintenance(opts: Options)
      returns (outcome: Outcome<Report>, ghost kept: Disk, ghost rows: seq<Artifact>, ghost evicted: seq<string>)
      modifies this`events, this`artifacts, this`queue, this`files, this`episodes
      ensures outcome.Done? && Retained(old(View()), View(), opts, now, mark, evicted, true)
      ensures Retained(old(View()), kept, opts, now, mark, [], false) && CapApplied(kept, opts, rows, evicted)
      ensures opts.artifactDir.Some? && OwnFiles(old(View()), opts.artifactDir.value) ==> CapMet(kept, View(), opts, evicted)
      ensures EpisodesRetained(old(episodes), episodes, opts.retentionDaysEpisodes, now)
      ensures OldestGo(kept, evicted)
      ensures Freed(old(files), files, outcome.value.bytesFreed)
      ensures outcome.value.eventsPurged == |old(DoomedEvents(opts.retentionDays))| && outcome.value.sizeEvicted == |evicted|
      ensures outcome.value.artifactsPurged + outcome.value.screenshotsPurged == |old(files)| - |files|
      ensures outcome.value.episodesPurged == |old(episodes)| - |episodes| && outcome.value.jobsPurged == |kept.queue| - |queue|
    {
      hide Total, Retained, Doomed, Freed, Expunged, Evicted, CapApplied, CapMet, OwnFiles, EpisodesRetained, OldestGo;
      var artifactStages;
      artifactStages, kept, rows, evicted := MaintainArtifacts(opts);
      ghost var capped := View();
      var report := artifactStages.value;
      var shots, bytes, episodesPurged, jobsPurged := ExpungeOld(opts);
      FreedThen(old(files), capped.files, files, report.bytesFreed, bytes);
      ExpungeRetains(old(View()), capped, View(), evicted, opts, now, mark);
      EvictedAreOldest(kept, opts, rows, evicted);
      if opts.artifactDir.Some? && OwnFiles(old(View()), opts.artifactDir.value) {
        CapIsMet(old(View()), kept, capped, View(), rows, evicted, opts, now, mark);
      }
      outcome := Done(report.(screenshotsPurged := shots, bytesFreed := report.bytesFreed + bytes,
                              episodesPurged := episodesPurged, jobsPurged := jobsPurged));
    }
  }
}
