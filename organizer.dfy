/** The plan/collision/move loop of `organizeFiles` (main.go:328-422) and the
    file operations it uses (main.go:428-445). The library's filesystem is a
    `Library` object whose two fields are updated in place: the regular files
    by path and the directories. Which operating-system calls fail is an input
    (`Faults`), and so is the clock (`now`). */
module Organizer {
  import opened Options
  import opened Text
  import opened Paths
  import opened Calendar
  import opened DateResolver
  import opened Planner

  /** A regular file: its size in bytes, its modification time, the EXIF
      capture date its content carries (None when none can be decoded) and
      the hash of its content. */
  datatype FileData = FileData(size: nat, mtime: Instant, exif: Option<Instant>, hash: string)

  /** One record of the `organized` result. */
  datatype FileInfo = FileInfo(srcPath: string, destPath: string, size: nat, modTime: Instant,
                               captureDate: Instant, hash: string)

  /** The paths for which `os.MkdirAll`, `os.Rename` (by source), `copyFile`
      (by source) and `os.Remove` fail for reasons outside the model:
      permissions, a full disk, a move across devices. */
  datatype Faults = Faults(mkdir: set<string>, rename: set<string>, copy: set<string>, remove: set<string>)

  /** The library layout under the root: `Incoming/` and `Originals/`. */
  function Incoming(root: string): string { Join(root, "Incoming") }
  function Originals(root: string): string { Join(root, "Originals") }

  /** Nothing is inside both `Incoming/` and `Originals/`. */
  lemma IncomingOriginalsDisjoint(root: string, p: string)
    ensures !(Within(Incoming(root), p) && Within(Originals(root), p))
  {
    if Within(Incoming(root), p) {
      assert p[|root| + 1] == Incoming(root)[|root| + 1] == 'I';
      assert Originals(root)[|root| + 1] == 'O';
    }
  }

  /** `os.MkdirAll(d)` creates `d` and every ancestor of it. */
  function DirChain(d: string): (r: set<string>)
    ensures d != "" ==> d in r
    ensures forall p :: p in r ==> |p| <= |d|
  {
    var r := set i | 0 < i <= |d| && (i == |d| || d[i] == Separator) :: d[..i];
    assert d[..|d|] == d;
    assert d != "" ==> d[..|d|] in r;
    r
  }

  /** `getFileDate` of a file found by the walk: its stat succeeds, so the
      clock is never used for it. */
  function SourceDate(path: string, data: FileData, now: Instant): Instant {
    GetFileDate(path, data.exif, Some(data.mtime), now)
  }

  /** What the collision check decides for one source. */
  datatype Decision = Duplicate | MoveTo(dest: string)

  /** The collision block: a file or directory at `dest` (the destination
      before suffixing) that is a file of the same size makes the source a
      duplicate; any other occupant sends it to the first free `base_N.ext`;
      a free `dest` is taken as it is. A directory at `dest` counts as a
      different size. */
  function Decide(files: map<string, FileData>, dirs: set<string>, dest: string, size: nat): (d: Decision)
    ensures d.Duplicate? <==> dest in files && files[dest].size == size
    ensures d.MoveTo? ==> d.dest !in files && d.dest !in dirs
    ensures d.MoveTo? && dest !in files && dest !in dirs ==> d.dest == dest
  {
    if dest in files && files[dest].size == size then Duplicate
    else if dest in files || dest in dirs then MoveTo(FreeName(files.Keys + dirs, dest))
    else MoveTo(dest)
  }

  /** A taken destination of a different size is replaced by `base_N.ext`
      with the smallest N >= 1 naming nothing that exists. */
  lemma CollisionPicksSmallestFree(files: map<string, FileData>, dirs: set<string>, dest: string, size: nat)
    requires dest in files || dest in dirs
    requires !(dest in files && files[dest].size == size)
    ensures exists n: nat :: (1 <= n && Decide(files, dirs, dest, size) == MoveTo(ProbePath(dest, n))
      && (forall k: nat :: 1 <= k < n ==> ProbePath(dest, k) in files || ProbePath(dest, k) in dirs))
  {
    FreeNameIsSmallest(files.Keys + dirs, dest);
  }

  /** The decision for source `src` in the state `files`/`dirs`. */
  function Planned(files: map<string, FileData>, dirs: set<string>, root: string, src: string, now: Instant): Decision
    requires src in files
  {
    var data := files[src];
    Decide(files, dirs, Destination(Originals(root), src, SourceDate(src, data, now)), data.size)
  }

  /** Suffixing keeps a destination inside the directory it was in. */
  lemma ProbeWithin(dir: string, dest: string, n: nat)
    requires Within(dir, dest)
    ensures Within(dir, ProbePath(dest, n))
  {
    var ext := Ext(dest);
    var stem := TrimSuffix(dest, ext);
    var mid := "_" + Itoa(n);
    assert ProbePath(dest, n) == stem + mid + ext;
    StemAndExt(dest);
    InsertKeepsWithin(dir, stem, mid, ext);
  }

  lemma InsertKeepsWithin(dir: string, stem: string, mid: string, ext: string)
    requires Separator !in ext
    requires Within(dir, stem + ext)
    ensures Within(dir, stem + mid + ext)
  {
    SeparatorInStem(stem, ext, |dir|);
    PrefixOfAppend(stem, ext, |dir| + 1);
    PrefixOfAppend(stem, mid + ext, |dir| + 1);
    assert stem + mid + ext == stem + (mid + ext);
  }

  /** A separator of `stem + ext` lies in `stem` when `ext` has none. */
  lemma SeparatorInStem(stem: string, ext: string, i: nat)
    requires Separator !in ext
    requires i < |stem + ext| && (stem + ext)[i] == Separator
    ensures i < |stem|
  {
  }

  lemma PrefixOfAppend(a: string, b: string, n: nat)
    requires n <= |a|
    ensures (a + b)[..n] == a[..n]
  {
  }

  /** Every decided destination lies under `Originals/`. */
  lemma PlannedWithin(files: map<string, FileData>, dirs: set<string>, root: string, src: string, now: Instant)
    requires src in files
    requires Planned(files, dirs, root, src, now).MoveTo?
    ensures Within(Originals(root), Planned(files, dirs, root, src, now).dest)
  {
    var data := files[src];
    var date := SourceDate(src, data, now);
    DestinationWithin(Originals(root), src, date);
    DecideWithin(Originals(root), files, dirs, Destination(Originals(root), src, date), data.size);
  }

  lemma DestinationWithin(originals: string, src: string, date: Instant)
    ensures Within(originals, Destination(originals, src, date))
  {
    var dd := DateDir(originals, date);
    DateDirWithin(originals, date);
    PrefixOfJoin(dd, Base(src), |originals| + 1);
  }

  lemma DecideWithin(dir: string, files: map<string, FileData>, dirs: set<string>, dest: string, size: nat)
    requires Within(dir, dest)
    requires Decide(files, dirs, dest, size).MoveTo?
    ensures Within(dir, Decide(files, dirs, dest, size).dest)
  {
    if dest in files || dest in dirs {
      FreeNameIsSmallest(files.Keys + dirs, dest);
      var n: nat :| FreeName(files.Keys + dirs, dest) == ProbePath(dest, n);
      ProbeWithin(dir, dest, n);
    }
  }

  /** Every decided destination lies directly in the source's date folder:
      the `base_N.ext` probe only changes the final name. */
  lemma PlannedDir(files: map<string, FileData>, dirs: set<string>, root: string, src: string, now: Instant)
    requires src in files && Within(Incoming(root), src)
    requires Planned(files, dirs, root, src, now).MoveTo?
    ensures Dir(Planned(files, dirs, root, src, now).dest)
            == DateDir(Originals(root), SourceDate(src, files[src], now))
  {
    var data := files[src];
    var dd := DateDir(Originals(root), SourceDate(src, data, now));
    IncomingBaseIsEntryName(root, src);
    DecideDir(files, dirs, dd, Base(src), data.size);
  }

  /** A file under `Incoming/` has a base name without separators. */
  lemma IncomingBaseIsEntryName(root: string, p: string)
    requires Within(Incoming(root), p)
    ensures Separator !in Base(p)
  {
    var i := |root| + 8;
    assert p[i] == Incoming(root)[i] == 'g';
    BaseIsEntryName(p, i);
  }

  /** The decision for `dir/name` lies directly in `dir`. */
  lemma DecideDir(files: map<string, FileData>, dirs: set<string>, dir: string, name: EntryName, size: nat)
    requires dir != ""
    requires Decide(files, dirs, Join(dir, name), size).MoveTo?
    ensures Dir(Decide(files, dirs, Join(dir, name), size).dest) == dir
  {
    var dest := Join(dir, name);
    DirOfJoin(dir, name);
    if dest in files || dest in dirs {
      FreeNameIsSmallest(files.Keys + dirs, dest);
      var n: nat :| FreeName(files.Keys + dirs, dest) == ProbePath(dest, n);
      ProbeDir(dir, name, n);
    }
  }

  /** The number of sources the collision check calls duplicates in the
      state `files`/`dirs`: what a dry run reports as skipped. */
  function DuplicateCount(files: map<string, FileData>, dirs: set<string>, root: string,
                          sources: seq<string>, now: Instant): (n: nat)
    requires forall s :: s in sources ==> s in files
  {
    if sources == [] then 0
    else
      var last := sources[|sources| - 1];
      var prefix := sources[..|sources| - 1];
      assert sources == prefix + [last];
      DuplicateCount(files, dirs, root, prefix, now)
        + (if Planned(files, dirs, root, last, now).Duplicate? then 1 else 0)
  }

  /** At most one duplicate per source, and none exactly when every source
      gets a destination. */
  lemma {:induction false} DuplicateCountBounds(files: map<string, FileData>, dirs: set<string>, root: string,
                                                sources: seq<string>, now: Instant)
    requires forall s :: s in sources ==> s in files
    ensures DuplicateCount(files, dirs, root, sources, now) <= |sources|
    ensures DuplicateCount(files, dirs, root, sources, now) == 0
            <==> forall s :: s in sources ==> Planned(files, dirs, root, s, now).MoveTo?
  {
    if sources != [] {
      var last := sources[|sources| - 1];
      var prefix := sources[..|sources| - 1];
      assert sources == prefix + [last];
      assert forall s :: s in sources <==> s in prefix || s == last;
      DuplicateCountBounds(files, dirs, root, prefix, now);
      var d := Planned(files, dirs, root, last, now);
      assert DuplicateCount(files, dirs, root, sources, now)
             == DuplicateCount(files, dirs, root, prefix, now) + (if d.Duplicate? then 1 else 0);
    }
  }

  /** The prefix of distinct sources grows by the next one, which it does
      not already hold. */
  lemma NextPrefix(sources: seq<string>, i: nat)
    requires i < |sources|
    requires forall i, j :: 0 <= i < j < |sources| ==> sources[i] != sources[j]
    ensures sources[..i + 1] == sources[..i] + [sources[i]]
    ensures sources[i] !in sources[..i]
  {
    assert sources[..i + 1] == sources[..i] + [sources[i]];
  }

  /** Counting one more source adds one exactly when it is a duplicate. */
  lemma DuplicateCountStep(files: map<string, FileData>, dirs: set<string>, root: string,
                           sources: seq<string>, i: nat, now: Instant)
    requires i < |sources|
    requires forall s :: s in sources ==> s in files
    ensures DuplicateCount(files, dirs, root, sources[..i + 1], now)
            == DuplicateCount(files, dirs, root, sources[..i], now)
               + (if Planned(files, dirs, root, sources[i], now).Duplicate? then 1 else 0)
  {
    assert sources[..i + 1][..i] == sources[..i];
  }

  /** What a record of `organized` promises: its source was one of the
      files to organize, and its destination is a new file under
      `Originals/` holding the source's content. */
  ghost predicate Recorded(before: map<string, FileData>, after: map<string, FileData>, root: string,
                           sources: seq<string>, fi: FileInfo) {
    && fi.srcPath in sources && fi.srcPath in before
    && Within(Originals(root), fi.destPath)
    && fi.destPath !in before && fi.destPath in after
    && after[fi.destPath] == before[fi.srcPath].(mtime := fi.modTime)
    && fi.size == before[fi.srcPath].size && fi.hash == before[fi.srcPath].hash
  }

  /** `os.MkdirAll(d)` succeeds: no fault and no file in the way. */
  predicate MkdirOk(files: map<string, FileData>, d: string, faults: Faults) {
    d !in faults.mkdir && DirChain(d) !! files.Keys
  }

  /** The record `fi` describes the move of `src` to `dest`: the content
      is at `dest`, the source is gone or unchanged, and nothing else
      changed. */
  ghost predicate MoveRecorded(before: map<string, FileData>, after: map<string, FileData>,
                               src: string, dest: string, fi: FileInfo)
    requires src in before
  {
    && fi.srcPath == src && fi.destPath == dest
    && dest in after && after[dest] == before[src].(mtime := fi.modTime)
    && fi.size == before[src].size && fi.hash == before[src].hash
    && (src in after ==> after[src] == before[src])
    && forall p :: p != src && p != dest ==> (p in after <==> p in before) && (p in after ==> after[p] == before[p])
  }

  /** The invariant of the loop of `organizeFiles` after the sources `done`
      were handled, starting from the files `files0`. */
  ghost predicate Progress(files0: map<string, FileData>, files: map<string, FileData>, root: string,
                           done: seq<string>, organized: seq<FileInfo>) {
    && (forall p :: p in files0 && p !in done ==> p in files && files[p] == files0[p])
    && (forall p :: p in files0 && p !in files ==>
          exists k :: 0 <= k < |organized| && organized[k].srcPath == p)
    && (forall p :: p in files && p !in files0 ==>
          exists k :: 0 <= k < |organized| && organized[k].destPath == p)
    && (forall k :: 0 <= k < |organized| ==> Recorded(files0, files, root, done, organized[k]))
    && (forall j, k :: 0 <= j < k < |organized| ==>
          organized[j].srcPath != organized[k].srcPath && organized[j].destPath != organized[k].destPath)
  }

  /** A move keeps the invariant: the source was still in place, and the
      destination was free, not a source, and under `Originals/`. */
  lemma ProgressStep(files0: map<string, FileData>, files: map<string, FileData>, files': map<string, FileData>,
                     root: string, done: seq<string>, organized: seq<FileInfo>,
                     src: string, dest: string, fi: FileInfo)
    requires Progress(files0, files, root, done, organized)
    requires src in files0 && src !in done && Within(Incoming(root), src)
    requires src in files && files[src] == files0[src]
    requires Within(Originals(root), dest) && dest !in files && dest !in done
    requires MoveRecorded(files, files', src, dest, fi)
    ensures Progress(files0, files', root, done + [src], organized + [fi])
  {
    IncomingOriginalsDisjoint(root, src);
    var organized' := organized + [fi];
    assert organized'[|organized|] == fi;
    KeptStep(files0, files, files', done, src, dest, fi);
    RecordedStep(files0, files, files', root, done, organized, src, dest, fi);
    RemovedStep(files0, files, files', organized, src, dest, fi);
    AddedStep(files0, files, files', organized, src, dest, fi);
    DistinctStep(files0, files, root, done, organized, src, dest, fi);
  }

  /** Handling a source without moving it keeps the invariant. */
  lemma ProgressSkip(files0: map<string, FileData>, files: map<string, FileData>, root: string,
                     done: seq<string>, organized: seq<FileInfo>, src: string)
    requires Progress(files0, files, root, done, organized)
    ensures Progress(files0, files, root, done + [src], organized)
  {
    forall k | 0 <= k < |organized|
      ensures Recorded(files0, files, root, done + [src], organized[k])
    {
      assert organized[k].srcPath in done + [src];
    }
  }

  lemma KeptStep(files0: map<string, FileData>, files: map<string, FileData>, files': map<string, FileData>,
                 done: seq<string>, src: string, dest: string, fi: FileInfo)
    requires forall p :: p in files0 && p !in done ==> p in files && files[p] == files0[p]
    requires src in files && dest !in files
    requires MoveRecorded(files, files', src, dest, fi)
    ensures forall p :: p in files0 && p !in done + [src] ==> p in files' && files'[p] == files0[p]
  {
  }

  lemma RecordedStep(files0: map<string, FileData>, files: map<string, FileData>, files': map<string, FileData>,
                     root: string, done: seq<string>, organized: seq<FileInfo>,
                     src: string, dest: string, fi: FileInfo)
    requires forall p :: p in files0 && p !in done ==> p in files && files[p] == files0[p]
    requires forall k :: 0 <= k < |organized| ==> Recorded(files0, files, root, done, organized[k])
    requires src in files0 && src in files && files[src] == files0[src] && !Within(Originals(root), src)
    requires Within(Originals(root), dest) && dest !in files && dest !in done
    requires MoveRecorded(files, files', src, dest, fi)
    ensures forall k :: 0 <= k < |organized + [fi]| ==> Recorded(files0, files', root, done + [src], (organized + [fi])[k])
  {
    forall k | 0 <= k < |organized + [fi]|
      ensures Recorded(files0, files', root, done + [src], (organized + [fi])[k])
    {
      if k < |organized| {
        var r := organized[k];
        assert (organized + [fi])[k] == r;
        assert r.destPath in files && r.destPath != src && r.destPath != dest;
      } else {
        assert (organized + [fi])[k] == fi;
      }
    }
  }

  lemma RemovedStep(files0: map<string, FileData>, files: map<string, FileData>, files': map<string, FileData>,
                    organized: seq<FileInfo>, src: string, dest: string, fi: FileInfo)
    requires forall p :: p in files0 && p !in files ==> exists k :: 0 <= k < |organized| && organized[k].srcPath == p
    requires src in files && dest !in files
    requires MoveRecorded(files, files', src, dest, fi)
    ensures forall p :: p in files0 && p !in files' ==>
      exists k :: 0 <= k < |organized + [fi]| && (organized + [fi])[k].srcPath == p
  {
    var organized' := organized + [fi];
    forall p | p in files0 && p !in files'
      ensures exists k :: 0 <= k < |organized'| && organized'[k].srcPath == p
    {
      if p in files {
        assert organized'[|organized|].srcPath == p;
      } else {
        var k :| 0 <= k < |organized| && organized[k].srcPath == p;
        assert organized'[k].srcPath == p;
      }
    }
  }

  lemma AddedStep(files0: map<string, FileData>, files: map<string, FileData>, files': map<string, FileData>,
                  organized: seq<FileInfo>, src: string, dest: string, fi: FileInfo)
    requires forall p :: p in files && p !in files0 ==> exists k :: 0 <= k < |organized| && organized[k].destPath == p
    requires src in files && dest !in files
    requires MoveRecorded(files, files', src, dest, fi)
    ensures forall p :: p in files' && p !in files0 ==>
      exists k :: 0 <= k < |organized + [fi]| && (organized + [fi])[k].destPath == p
  {
    var organized' := organized + [fi];
    forall p | p in files' && p !in files0
      ensures exists k :: 0 <= k < |organized'| && organized'[k].destPath == p
    {
      if p == dest {
        assert organized'[|organized|].destPath == p;
      } else {
        var k :| 0 <= k < |organized| && organized[k].destPath == p;
        assert organized'[k].destPath == p;
      }
    }
  }

  lemma DistinctStep(files0: map<string, FileData>, files: map<string, FileData>, root: string,
                     done: seq<string>, organized: seq<FileInfo>, src: string, dest: string, fi: FileInfo)
    requires forall k :: 0 <= k < |organized| ==> Recorded(files0, files, root, done, organized[k])
    requires forall j, k :: 0 <= j < k < |organized| ==>
      organized[j].srcPath != organized[k].srcPath && organized[j].destPath != organized[k].destPath
    requires src !in done && dest !in files
    requires fi.srcPath == src && fi.destPath == dest
    ensures forall j, k :: 0 <= j < k < |organized + [fi]| ==>
      (organized + [fi])[j].srcPath != (organized + [fi])[k].srcPath
      && (organized + [fi])[j].destPath != (organized + [fi])[k].destPath
  {
    var organized' := organized + [fi];
    forall j, k | 0 <= j < k < |organized'|
      ensures organized'[j].srcPath != organized'[k].srcPath && organized'[j].destPath != organized'[k].destPath
    {
      assert organized'[j] == organized[j];
      if k == |organized| {
        assert Recorded(files0, files, root, done, organized[j]);
      }
    }
  }

  /** A record lies directly in the date folder of its source's date. */
  ghost predicate InDateFolder(files0: map<string, FileData>, root: string, now: Instant, fi: FileInfo) {
    fi.srcPath in files0
    && Dir(fi.destPath) == DateDir(Originals(root), SourceDate(fi.srcPath, files0[fi.srcPath], now))
  }

  /** Every record lies directly in the date folder of its source's date. */
  ghost predicate AllInDateFolder(files0: map<string, FileData>, root: string, now: Instant, organized: seq<FileInfo>) {
    forall k :: 0 <= k < |organized| ==> InDateFolder(files0, root, now, organized[k])
  }

  // ---------------------------------------------------------------------------
  // One iteration, as a function of the state
  // ---------------------------------------------------------------------------

  /** What one iteration leaves behind: the files and directories, the
      record of a move, and whether the source was skipped as a duplicate. */
  datatype Step = Step(files: map<string, FileData>, dirs: set<string>, info: Option<FileInfo>, duplicate: bool)

  /** The files after moving `src` to the free path `dest`: a rename moves
      the data unchanged; when it fails a copy modified now is written and
      the source removed unless that fails too; when the copy fails as well
      nothing changes. */
  function Moved(files: map<string, FileData>, src: string, dest: string, now: Instant, faults: Faults)
    : (after: map<string, FileData>)
    requires src in files && src != dest
    ensures (src !in faults.rename || src !in faults.copy) ==>
              dest in after && after[dest] == files[src].(mtime := after[dest].mtime)
    ensures src in faults.rename && src in faults.copy ==> after == files
  {
    if src !in faults.rename then (files - {src})[dest := files[src]]
    else if src in faults.copy then files
    else if src in faults.remove then files[dest := files[src].(mtime := now)]
    else files[dest := files[src].(mtime := now)] - {src}
  }

  /** The record appended for a file moved to `dest`, read back from there. */
  function Record(after: map<string, FileData>, src: string, dest: string, now: Instant): FileInfo
    requires dest in after
  {
    var stat := after[dest];
    FileInfo(src, dest, stat.size, stat.mtime, GetFileDate(dest, stat.exif, Some(stat.mtime), now), stat.hash)
  }

  /** `os.MkdirAll` of the destination's folder, then the move: nothing
      happens when the folder cannot be made, and only the folders change
      when neither the rename nor the copy succeeds. */
  function Transferred(files: map<string, FileData>, dirs: set<string>, src: string, dest: string,
                       now: Instant, faults: Faults): Step
    requires src in files && src != dest
  {
    if !MkdirOk(files, Dir(dest), faults) then Step(files, dirs, None, false)
    else if src in faults.rename && src in faults.copy then Step(files, dirs + DirChain(Dir(dest)), None, false)
    else
      var after := Moved(files, src, dest, now, faults);
      Step(after, dirs + DirChain(Dir(dest)), Some(Record(after, src, dest, now)), false)
  }

  /** What a transfer does: the folder chain is made unless `os.MkdirAll`
      fails, a record exists exactly when the folder was made and the rename
      or the copy succeeded, and then the record describes the move of the
      source's content to `dest`, with the modification time of the file
      written and the capture date read back from it; a copied source is
      left behind only when its removal fails. */
  lemma TransferredEffect(files: map<string, FileData>, dirs: set<string>, src: string, dest: string,
                          now: Instant, faults: Faults)
    requires src in files && src != dest
    ensures var t := Transferred(files, dirs, src, dest, now, faults);
      && !t.duplicate
      && t.dirs == (if MkdirOk(files, Dir(dest), faults) then dirs + DirChain(Dir(dest)) else dirs)
      && (t.info.Some? <==> MkdirOk(files, Dir(dest), faults) && (src !in faults.rename || src !in faults.copy))
      && (t.info.None? ==> t.files == files)
      && (t.info.Some? ==> var fi := t.info.value; var data := files[src];
          && MoveRecorded(files, t.files, src, dest, fi)
          && fi.modTime == (if src !in faults.rename then data.mtime else now)
          && fi.captureDate == GetFileDate(dest, data.exif, Some(fi.modTime), now)
          && (src in t.files <==> src in faults.rename && src in faults.remove))
  {
    if MkdirOk(files, Dir(dest), faults) && (src !in faults.rename || src !in faults.copy) {
      MovedRecorded(files, src, dest, now, faults);
    }
  }

  /** The record of a move that went through describes it. */
  lemma MovedRecorded(files: map<string, FileData>, src: string, dest: string, now: Instant, faults: Faults)
    requires src in files && src != dest
    requires src !in faults.rename || src !in faults.copy
    ensures var after := Moved(files, src, dest, now, faults);
      var fi := Record(after, src, dest, now); var data := files[src];
      && MoveRecorded(files, after, src, dest, fi)
      && fi.modTime == (if src !in faults.rename then data.mtime else now)
      && fi.captureDate == GetFileDate(dest, data.exif, Some(fi.modTime), now)
      && (src in after <==> src in faults.rename && src in faults.remove)
  {
    var after := Moved(files, src, dest, now, faults);
    if src !in faults.rename {
      assert after == (files - {src})[dest := files[src]];
    } else if src in faults.remove {
      assert after == files[dest := files[src].(mtime := now)];
    } else {
      assert after == files[dest := files[src].(mtime := now)] - {src};
    }
    RecordOfMove(files, after, src, dest, now);
  }

  /** Read back from `dest`, the record of a move that left every other
      path alone describes it. */
  lemma RecordOfMove(files: map<string, FileData>, after: map<string, FileData>, src: string, dest: string, now: Instant)
    requires src in files && src != dest
    requires dest in after && after[dest] == files[src].(mtime := after[dest].mtime)
    requires src in after ==> after[src] == files[src]
    requires forall p :: p != src && p != dest ==> (p in after <==> p in files) && (p in after ==> after[p] == files[p])
    ensures var fi := Record(after, src, dest, now);
      && MoveRecorded(files, after, src, dest, fi)
      && fi.modTime == after[dest].mtime
      && fi.captureDate == GetFileDate(dest, files[src].exif, Some(fi.modTime), now)
  {
  }

  /** One iteration of the loop of `organizeFiles` for `src`: a duplicate is
      skipped, a dry run changes nothing, and any other file is moved to its
      planned destination. */
  function Handle(files: map<string, FileData>, dirs: set<string>, root: string, src: string,
                  dryRun: bool, now: Instant, faults: Faults): Step
    requires src in files && Within(Incoming(root), src)
  {
    var d := Planned(files, dirs, root, src, now);
    if d.Duplicate? then Step(files, dirs, None, true)
    else if dryRun then Step(files, dirs, None, false)
    else
      PlannedWithin(files, dirs, root, src, now);
      IncomingOriginalsDisjoint(root, src);
      Transferred(files, dirs, src, d.dest, now, faults)
  }

  /** Appending a record in its date folder keeps every record in its own. */
  lemma DateFolderStep(files0: map<string, FileData>, root: string, now: Instant,
                       organized: seq<FileInfo>, fi: FileInfo)
    requires AllInDateFolder(files0, root, now, organized)
    requires InDateFolder(files0, root, now, fi)
    ensures AllInDateFolder(files0, root, now, organized + [fi])
  {
    forall k | 0 <= k < |organized + [fi]|
      ensures InDateFolder(files0, root, now, (organized + [fi])[k])
    {
      if k < |organized| {
        assert (organized + [fi])[k] == organized[k];
      }
    }
  }

  // ---------------------------------------------------------------------------
  // The whole loop, as a chain of iterations
  // ---------------------------------------------------------------------------

  /** The state the iterations `steps` leave: the initial files and
      folders when there were none, or what the last one left. */
  function Current(files0: map<string, FileData>, dirs0: set<string>, steps: seq<Step>): Step {
    if steps == [] then Step(files0, dirs0, None, false) else steps[|steps| - 1]
  }

  /** `after` is what one iteration for `src` makes of `files` and `dirs`. */
  ghost predicate Handles(files: map<string, FileData>, dirs: set<string>, root: string, src: string,
                          dryRun: bool, now: Instant, faults: Faults, after: Step) {
    && src in files && Within(Incoming(root), src)
    && after == Handle(files, dirs, root, src, dryRun, now, faults)
  }

  /** `steps` are the iterations of the loop over the first `|steps|`
      sources, each applied to the state the ones before it left. */
  ghost predicate Chained(files0: map<string, FileData>, dirs0: set<string>, root: string, sources: seq<string>,
                          dryRun: bool, now: Instant, faults: Faults, steps: seq<Step>)
    decreases |steps|
  {
    && |steps| <= |sources|
    && (steps != [] ==>
          var prev := steps[..|steps| - 1];
          && Chained(files0, dirs0, root, sources, dryRun, now, faults, prev)
          && Handles(Current(files0, dirs0, prev).files, Current(files0, dirs0, prev).dirs,
                     root, sources[|prev|], dryRun, now, faults, steps[|steps| - 1]))
  }

  /** The records the iterations appended, in order. */
  function Records(steps: seq<Step>): (r: seq<FileInfo>)
    ensures |r| <= |steps|
  {
    if steps == [] then []
    else
      var last := steps[|steps| - 1];
      Records(steps[..|steps| - 1]) + (if last.info.Some? then [last.info.value] else [])
  }

  /** The number of iterations that skipped a duplicate. */
  function Skips(steps: seq<Step>): (n: nat)
    ensures n <= |steps|
  {
    if steps == [] then 0
    else
      var last := steps[|steps| - 1];
      Skips(steps[..|steps| - 1]) + (if last.duplicate then 1 else 0)
  }

  /** A sequence is its prefix followed by its last element. */
  lemma SplitLast(steps: seq<Step>)
    requires steps != []
    ensures steps == steps[..|steps| - 1] + [steps[|steps| - 1]]
  {
  }

  /** Appending keeps the prefix. */
  lemma AppendPrefix(steps: seq<Step>, step: Step)
    ensures (steps + [step])[..|steps|] == steps
  {
  }

  /** One more iteration becomes the current state, and appends its record
      and counts its duplicate. */
  lemma AppendStep(files0: map<string, FileData>, dirs0: set<string>, steps: seq<Step>, step: Step,
                    organized: seq<FileInfo>, skipped: nat)
    requires organized == Records(steps) && skipped == Skips(steps)
    ensures (steps + [step])[..|steps|] == steps
    ensures Current(files0, dirs0, steps + [step]) == step
    ensures Records(steps + [step]) == if step.info.Some? then organized + [step.info.value] else organized
    ensures Skips(steps + [step]) == if step.duplicate then skipped + 1 else skipped
  {
    AppendPrefix(steps, step);
  }

  /** Handling the next source in the state the chain left extends it. */
  lemma ChainStep(files0: map<string, FileData>, dirs0: set<string>, root: string, sources: seq<string>,
                  dryRun: bool, now: Instant, faults: Faults, files: map<string, FileData>, dirs: set<string>,
                  steps: seq<Step>, step: Step)
    requires Chained(files0, dirs0, root, sources, dryRun, now, faults, steps)
    requires |steps| < |sources|
    requires files == Current(files0, dirs0, steps).files && dirs == Current(files0, dirs0, steps).dirs
    requires Handles(files, dirs, root, sources[|steps|], dryRun, now, faults, step)
    ensures Chained(files0, dirs0, root, sources, dryRun, now, faults, steps + [step])
  {
    AppendPrefix(steps, step);
  }

  /** The loop is deterministic: from the same files and folders, two runs
      over the same sources make the same iterations, so they end in the
      same state with the same records and the same count of duplicates. */
  lemma {:induction false} ChainUnique(files0: map<string, FileData>, dirs0: set<string>, root: string,
                                       sources: seq<string>, dryRun: bool, now: Instant, faults: Faults,
                                       steps1: seq<Step>, steps2: seq<Step>)
    requires Chained(files0, dirs0, root, sources, dryRun, now, faults, steps1)
    requires Chained(files0, dirs0, root, sources, dryRun, now, faults, steps2)
    requires |steps1| == |steps2|
    ensures steps1 == steps2
  {
    if steps1 != [] {
      var n := |steps1| - 1;
      ChainUnique(files0, dirs0, root, sources, dryRun, now, faults, steps1[..n], steps2[..n]);
      SplitLast(steps1);
      SplitLast(steps2);
    }
  }

  /** What one iteration does: a duplicate is skipped and a dry run stops
      short, both changing nothing; otherwise a record exists exactly when
      the destination's folder could be made and the rename or the copy
      succeeded, and it describes the move of the source to its planned
      destination, directly in the folder of its date. Folders are only
      ever added. */
  lemma HandleEffect(files: map<string, FileData>, dirs: set<string>, root: string, src: string,
                     dryRun: bool, now: Instant, faults: Faults)
    requires src in files && Within(Incoming(root), src)
    ensures var h := Handle(files, dirs, root, src, dryRun, now, faults);
      var d := Planned(files, dirs, root, src, now);
      && h.duplicate == d.Duplicate?
      && ((dryRun || d.Duplicate?) ==> h.files == files && h.dirs == dirs && h.info.None?)
      && (!dryRun && !d.Duplicate? ==>
            (h.info.Some? <==> MkdirOk(files, Dir(d.dest), faults) && (src !in faults.rename || src !in faults.copy)))
      && (h.info.None? ==> h.files == files)
      && (h.info.Some? ==>
            && d.MoveTo? && MoveRecorded(files, h.files, src, d.dest, h.info.value)
            && Dir(d.dest) == DateDir(Originals(root), SourceDate(src, files[src], now)))
      && dirs <= h.dirs
  {
    var d := Planned(files, dirs, root, src, now);
    if !d.Duplicate? && !dryRun {
      PlannedWithin(files, dirs, root, src, now);
      PlannedDir(files, dirs, root, src, now);
      IncomingOriginalsDisjoint(root, src);
      TransferredEffect(files, dirs, src, d.dest, now, faults);
    }
  }

  /** What the loop has accounted for after the first `n` sources: the
      records keep `Progress` and lie in their date folders, folders are
      only added, and a dry run changed nothing and counted the duplicates
      of the initial state. */
  ghost predicate Tallied(files0: map<string, FileData>, dirs0: set<string>, root: string, sources: seq<string>,
                          dryRun: bool, now: Instant, files: map<string, FileData>, dirs: set<string>,
                          n: nat, organized: seq<FileInfo>, skipped: nat)
  {
    && n <= |sources|
    && (forall s :: s in sources ==> s in files0)
    && Progress(files0, files, root, sources[..n], organized)
    && AllInDateFolder(files0, root, now, organized)
    && dirs0 <= dirs
    && |organized| + skipped <= n
    && (dryRun ==> files == files0 && dirs == dirs0 && organized == []
                   && skipped == DuplicateCount(files0, dirs0, root, sources[..n], now))
  }

  /** An iteration that changes nothing but a duplicate's count or adds
      folders, or moves the source to a free destination in its date
      folder under `Originals/` and records it, keeps `Tallied`. */
  lemma TallyStep(files0: map<string, FileData>, dirs0: set<string>, root: string, sources: seq<string>,
                  dryRun: bool, now: Instant, files: map<string, FileData>, dirs: set<string>,
                  n: nat, n': nat, organized: seq<FileInfo>, skipped: nat, after: Step, dest: string)
    requires n' == n + 1
    requires forall i, j :: 0 <= i < j < |sources| ==> sources[i] != sources[j]
    requires forall s :: s in sources ==> Within(Incoming(root), s)
    requires n < |sources| && sources[n] in files
    requires Tallied(files0, dirs0, root, sources, dryRun, now, files, dirs, n, organized, skipped)
    requires dirs <= after.dirs
    requires after.info.None? ==> after.files == files
    requires !(after.info.Some? && after.duplicate)
    requires dryRun ==> && after.files == files && after.dirs == dirs && after.info.None?
                        && (after.duplicate <==> Planned(files, dirs, root, sources[n], now).Duplicate?)
    requires after.info.Some? ==>
               && MoveRecorded(files, after.files, sources[n], dest, after.info.value)
               && Within(Originals(root), dest) && dest !in files
               && Dir(dest) == DateDir(Originals(root), SourceDate(sources[n], files[sources[n]], now))
    ensures Tallied(files0, dirs0, root, sources, dryRun, now, after.files, after.dirs, n',
                    if after.info.Some? then organized + [after.info.value] else organized,
                    if after.duplicate then skipped + 1 else skipped)
  {
    var src := sources[n];
    NextPrefix(sources, n);
    assert src in files0 && files[src] == files0[src];
    if dryRun {
      DuplicateCountStep(files0, dirs0, root, sources, n, now);
    }
    if after.info.Some? {
      IncomingOriginalsDisjoint(root, dest);
      ProgressStep(files0, files, after.files, root, sources[..n], organized, src, dest, after.info.value);
      DateFolderStep(files0, root, now, organized, after.info.value);
    } else {
      ProgressSkip(files0, files, root, sources[..n], organized, src);
    }
  }

  /** The iteration `Handle` makes for the next source keeps `Tallied`. */
  lemma TallyHandled(files0: map<string, FileData>, dirs0: set<string>, root: string, sources: seq<string>,
                     dryRun: bool, now: Instant, faults: Faults, files: map<string, FileData>, dirs: set<string>,
                     n: nat, n': nat, organized: seq<FileInfo>, skipped: nat, step: Step)
    requires n' == n + 1
    requires forall i, j :: 0 <= i < j < |sources| ==> sources[i] != sources[j]
    requires forall s :: s in sources ==> Within(Incoming(root), s)
    requires n < |sources|
    requires Tallied(files0, dirs0, root, sources, dryRun, now, files, dirs, n, organized, skipped)
    requires Handles(files, dirs, root, sources[n], dryRun, now, faults, step)
    ensures Tallied(files0, dirs0, root, sources, dryRun, now, step.files, step.dirs, n',
                    if step.info.Some? then organized + [step.info.value] else organized,
                    if step.duplicate then skipped + 1 else skipped)
  {
    var src := sources[n];
    HandleEffect(files, dirs, root, src, dryRun, now, faults);
    var d := Planned(files, dirs, root, src, now);
    var dest := if d.MoveTo? then d.dest else src;
    if d.MoveTo? {
      PlannedWithin(files, dirs, root, src, now);
    }
    TallyStep(files0, dirs0, root, sources, dryRun, now, files, dirs, n, n', organized, skipped, step, dest);
  }

  /** The invariant of the loop of `organizeFiles` after `|steps|`
      iterations: they form the chain from the initial state, the library
      is in the state the last one left, `organized` and `skipped` are its
      records and its duplicates, and `Tallied` holds. */
  ghost predicate Organizing(files0: map<string, FileData>, dirs0: set<string>, root: string, sources: seq<string>,
                             dryRun: bool, now: Instant, faults: Faults,
                             files: map<string, FileData>, dirs: set<string>, steps: seq<Step>,
                             organized: seq<FileInfo>, skipped: nat)
  {
    && Chained(files0, dirs0, root, sources, dryRun, now, faults, steps)
    && files == Current(files0, dirs0, steps).files && dirs == Current(files0, dirs0, steps).dirs
    && organized == Records(steps) && skipped == Skips(steps)
    && Tallied(files0, dirs0, root, sources, dryRun, now, files, dirs, |steps|, organized, skipped)
  }

  /** Nothing handled yet: the initial state satisfies the invariant. */
  lemma OrganizingStart(files0: map<string, FileData>, dirs0: set<string>, root: string, sources: seq<string>,
                        dryRun: bool, now: Instant, faults: Faults)
    requires forall s :: s in sources ==> s in files0
    ensures Organizing(files0, dirs0, root, sources, dryRun, now, faults, files0, dirs0, [], [], 0)
  {
    assert sources[..0] == [];
  }

  /** One more iteration keeps the invariant, with its record appended
      and its duplicate counted. */
  lemma OrganizingStep(files0: map<string, FileData>, dirs0: set<string>, root: string, sources: seq<string>,
                       dryRun: bool, now: Instant, faults: Faults,
                       files: map<string, FileData>, dirs: set<string>, steps: seq<Step>,
                       organized: seq<FileInfo>, skipped: nat, step: Step)
    requires forall i, j :: 0 <= i < j < |sources| ==> sources[i] != sources[j]
    requires forall s :: s in sources ==> Within(Incoming(root), s)
    requires |steps| < |sources|
    requires Organizing(files0, dirs0, root, sources, dryRun, now, faults, files, dirs, steps, organized, skipped)
    requires Handles(files, dirs, root, sources[|steps|], dryRun, now, faults, step)
    ensures Organizing(files0, dirs0, root, sources, dryRun, now, faults, step.files, step.dirs, steps + [step],
                       if step.info.Some? then organized + [step.info.value] else organized,
                       if step.duplicate then skipped + 1 else skipped)
  {
    ChainStep(files0, dirs0, root, sources, dryRun, now, faults, files, dirs, steps, step);
    AppendStep(files0, dirs0, steps, step, organized, skipped);
    TallyHandled(files0, dirs0, root, sources, dryRun, now, faults, files, dirs, |steps|, |steps + [step]|,
                 organized, skipped, step);
  }

  /** After the last source, the invariant is the outcome of the loop. */
  lemma OrganizingDone(files0: map<string, FileData>, dirs0: set<string>, root: string, sources: seq<string>,
                       dryRun: bool, now: Instant, faults: Faults,
                       files: map<string, FileData>, dirs: set<string>, steps: seq<Step>,
                       organized: seq<FileInfo>, skipped: nat)
    requires |steps| == |sources|
    requires Organizing(files0, dirs0, root, sources, dryRun, now, faults, files, dirs, steps, organized, skipped)
    ensures Chained(files0, dirs0, root, sources, dryRun, now, faults, steps)
    ensures files == Current(files0, dirs0, steps).files && dirs == Current(files0, dirs0, steps).dirs
    ensures organized == Records(steps) && skipped == Skips(steps)
    ensures dryRun ==> files == files0 && dirs == dirs0 && organized == []
    ensures dryRun ==> skipped == DuplicateCount(files0, dirs0, root, sources, now)
    ensures |organized| + skipped <= |sources|
    ensures dirs0 <= dirs
    ensures Progress(files0, files, root, sources, organized)
    ensures AllInDateFolder(files0, root, now, organized)
  {
    assert sources[..|steps|] == sources;
  }

  class Library {
    var files: map<string, FileData>
    var dirs: set<string>

    constructor (files0: map<string, FileData>, dirs0: set<string>)
      ensures files == files0 && dirs == dirs0
    {
      files := files0;
      dirs := dirs0;
    }

    /** `os.MkdirAll`: fails when the call faults or a file sits where one
        of the directories should be. */
    method MkdirAll(d: string, faults: Faults) returns (ok: bool)
      modifies this
      ensures ok <==> MkdirOk(files, d, faults)
      ensures files == old(files)
      ensures dirs == if ok then old(dirs) + DirChain(d) else old(dirs)
    {
      ok := MkdirOk(files, d, faults);
      if ok {
        dirs := dirs + DirChain(d);
      }
    }

    /** `os.Rename`: the file's data moves to the new name unchanged. */
    method Rename(src: string, dst: string, faults: Faults) returns (ok: bool)
      modifies this
      ensures ok <==> src in old(files) && src !in faults.rename
      ensures ok ==> files == (old(files) - {src})[dst := old(files)[src]]
      ensures !ok ==> files == old(files)
      ensures dirs == old(dirs)
    {
      ok := src in files && src !in faults.rename;
      if ok {
        files := (files - {src})[dst := files[src]];
      }
    }

    /** `copyFile`: a new file with the same content, modified now. */
    method CopyFile(src: string, dst: string, now: Instant, faults: Faults) returns (ok: bool)
      requires src != dst
      modifies this
      ensures ok <==> src in old(files) && src !in faults.copy
      ensures ok ==> files == old(files)[dst := old(files)[src].(mtime := now)]
      ensures !ok ==> files == old(files)
      ensures dirs == old(dirs)
    {
      ok := src in files && src !in faults.copy;
      if ok {
        files := files[dst := files[src].(mtime := now)];
      }
    }

    /** `os.Remove` of a file, best effort. */
    method Remove(p: string, faults: Faults)
      modifies this
      ensures files == if p in faults.remove then old(files) else old(files) - {p}
      ensures dirs == old(dirs)
    {
      if p !in faults.remove {
        files := files - {p};
      }
    }

    /** `getDestination` and the collision block. */
    method ChooseDestination(root: string, src: string, now: Instant) returns (d: Decision)
      requires src in files
      ensures d == Planned(files, dirs, root, src, now)
    {
      var data := files[src];
      var dest := Destination(Originals(root), src, SourceDate(src, data, now));
      if dest !in files && dest !in dirs {
        d := MoveTo(dest);
      } else if dest in files && files[dest].size == data.size {
        d := Duplicate;
      } else {
        var path := Probe(dest);
        d := MoveTo(path);
      }
    }

    /** The probe loop: tries `base_1.ext`, `base_2.ext`, ... until one
        names nothing that exists. */
    method Probe(dest: string) returns (path: string)
      ensures path == FreeName(files.Keys + dirs, dest)
      ensures path !in files && path !in dirs
    {
      ghost var existing := files.Keys + dirs;
      var counter := 1;
      path := ProbePath(dest, counter);
      while path in files || path in dirs
        invariant 1 <= counter
        invariant path == ProbePath(dest, counter)
        invariant forall k: nat :: 1 <= k < counter ==> ProbePath(dest, k) in existing
        decreases |existing| - counter
      {
        ProbeBound(existing, dest, counter + 1);
        counter := counter + 1;
        path := ProbePath(dest, counter);
      }
      ghost var free := FreeCounter(existing, dest, 1);
      assert free == counter;
    }

    /** The move of one file that the collision check sent to the free name
        `dest`: create its directory, rename, and on failure copy and remove
        the source. `info` is the record of a file that was moved. */
    method Transfer(src: string, dest: string, now: Instant, faults: Faults) returns (info: Option<FileInfo>)
      requires src in files && src != dest
      modifies this
      ensures Step(files, dirs, info, false) == Transferred(old(files), old(dirs), src, dest, now, faults)
    {
      info := None;
      var made := MkdirAll(Dir(dest), faults);
      if !made {
        return;
      }
      var moved := Rename(src, dest, faults);
      if !moved {
        var copied := CopyFile(src, dest, now, faults);
        if !copied {
          return;
        }
        Remove(src, faults);
      }
      var stat := files[dest];
      info := Some(FileInfo(src, dest, stat.size, stat.mtime,
                            GetFileDate(dest, stat.exif, Some(stat.mtime), now), stat.hash));
    }

    /** One iteration of the loop of `organizeFiles`, for `sources[i]`: plan
        its destination, skip it as a duplicate, stop there in a dry run, or
        move it and append its record. The chain of iterations grows by
        this one, which is what `Handle` makes of the state before it, and
        the invariant `Organizing` is kept. */
    method OrganizeOne(root: string, sources: seq<string>, i: nat, dryRun: bool, now: Instant, faults: Faults,
                       organized: seq<FileInfo>, skipped: nat,
                       ghost files0: map<string, FileData>, ghost dirs0: set<string>, ghost steps: seq<Step>)
      returns (organized': seq<FileInfo>, skipped': nat, ghost steps': seq<Step>)
      requires i == |steps| < |sources|
      requires forall i, j :: 0 <= i < j < |sources| ==> sources[i] != sources[j]
      requires forall s :: s in sources ==> Within(Incoming(root), s)
      requires Organizing(files0, dirs0, root, sources, dryRun, now, faults, files, dirs, steps, organized, skipped)
      modifies this
      ensures |steps'| == |steps| + 1 && steps'[..|steps|] == steps
      ensures Organizing(files0, dirs0, root, sources, dryRun, now, faults, files, dirs, steps', organized', skipped')
    {
      var src := sources[i];
      assert src in sources;
      ghost var before, beforeDirs := files, dirs;
      var info: Option<FileInfo> := None;
      var d := ChooseDestination(root, src, now);
      var duplicate := d.Duplicate?;
      if !duplicate && !dryRun {
        IncomingOriginalsDisjoint(root, src);
        PlannedWithin(before, beforeDirs, root, src, now);
        IncomingOriginalsDisjoint(root, d.dest);
        info := Transfer(src, d.dest, now, faults);
      }
      ghost var step := Step(files, dirs, info, duplicate);
      assert Handles(before, beforeDirs, root, src, dryRun, now, faults, step);
      OrganizingStep(files0, dirs0, root, sources, dryRun, now, faults, before, beforeDirs, steps,
                     organized, skipped, step);
      skipped' := if duplicate then skipped + 1 else skipped;
      organized' := if info.Some? then organized + [info.value] else organized;
      steps' := steps + [step];
      AppendPrefix(steps, step);
    }

    /** `organizeFiles` over the files the walk found, in walk order. The
        iterations form the unique chain `Handle` makes from the initial
        state, and the records and the count of duplicates are theirs. A
        dry run changes nothing, records nothing and counts the duplicates
        of the initial state. Otherwise files already in place are never
        overwritten or lost, every file that appears is the destination of
        a record, every file that disappears is the source of one, and each
        record describes a file now in the date folder under `Originals/`
        with its source's content. */
    method OrganizeFiles(root: string, sources: seq<string>, dryRun: bool, now: Instant, faults: Faults)
      returns (organized: seq<FileInfo>, skipped: nat, ghost steps: seq<Step>)
      requires forall i, j :: 0 <= i < j < |sources| ==> sources[i] != sources[j]
      requires forall s :: s in sources ==> s in files && Within(Incoming(root), s)
      modifies this
      ensures |steps| == |sources| && Chained(old(files), old(dirs), root, sources, dryRun, now, faults, steps)
      ensures files == Current(old(files), old(dirs), steps).files
      ensures dirs == Current(old(files), old(dirs), steps).dirs
      ensures organized == Records(steps) && skipped == Skips(steps)
      ensures dryRun ==> files == old(files) && dirs == old(dirs) && organized == []
      ensures dryRun ==> skipped == DuplicateCount(old(files), old(dirs), root, sources, now)
      ensures |organized| + skipped <= |sources|
      ensures old(dirs) <= dirs
      ensures Progress(old(files), files, root, sources, organized)
      ensures AllInDateFolder(old(files), root, now, organized)
    {
      organized := [];
      skipped := 0;
      steps := [];
      OrganizingStart(files, dirs, root, sources, dryRun, now, faults);
      var i := 0;
      while i < |sources|
        invariant i == |steps| <= |sources|
        invariant Organizing(old(files), old(dirs), root, sources, dryRun, now, faults, files, dirs, steps, organized, skipped)
      {
        organized, skipped, steps := OrganizeOne(root, sources, i, dryRun, now, faults, organized, skipped,
                                                 old(files), old(dirs), steps);
        i := i + 1;
      }
      OrganizingDone(old(files), old(dirs), root, sources, dryRun, now, faults, files, dirs, steps, organized, skipped);
    }
  }
}
