/** What the first phase records about files, and that it is true of the file system when what the
    walk reports and what opening a file finds are. */
module Survey {
  import opened Types
  import opened RelativePaths
  import opened FileSystem
  import opened Twins
  import opened Visiting
  import opened Protocol
  import opened Exactness
  import opened ProtocolGroups
  import opened PhaseTwo
  import opened SecondRun

  // ----- What is true of a file -----

  /** fts_read(3) reports a regular file that is not empty, as it is. */
  predicate TrueEntry(fs: Fs, e: FileEntry) {
    IsFilePath(e.path) && Regular(fs, e.path)
    && var ino, inode := fs.names[e.path].ino, At(fs, e.path);
       inode.content != [] && e.device == inode.device && e.inode == inode.number && e.nlink == |Links(fs, ino)|
       && e.flags == inode.flags && e.size == |inode.content|
  }

  /** Opening the file finds its first and last byte and its clone id. */
  predicate TrueProbe(fs: Fs, p: Path, probe: Probe) {
    Regular(fs, p)
    && var inode := At(fs, p);
       inode.content != [] && probe.first == inode.content[0] && probe.last == inode.content[|inode.content| - 1]
       && probe.cloneId == inode.cloneId
  }

  /** A walk that reports every file truly, and none twice. */
  predicate Walked(fs: Fs, probes: Probes, entries: seq<FileEntry>) {
    (forall i :: 0 <= i < |entries| ==> TrueEntry(fs, entries[i]))
    && (forall i :: 0 <= i < |entries| && entries[i].path in probes ==>
                      TrueProbe(fs, entries[i].path, probes[entries[i].path]))
    && forall i, j :: 0 <= i < j < |entries| ==> entries[i].path != entries[j].path
  }

  /** The bytes of the regular files. */
  function Contents(fs: Fs): Disk {
    map p | p in fs.names && Regular(fs, p) :: At(fs, p).content
  }

  /** All that is recorded of a file, read off the file system. */
  function Record(fs: Fs, p: Path): FileMetadata
    requires Regular(fs, p) && At(fs, p).content != []
  {
    var ino, inode := fs.names[p].ino, At(fs, p);
    FileMetadata(inode.device, inode.number, |Links(fs, ino)|, inode.flags, inode.cloneId, |inode.content|, p, 0,
                 inode.content[0], inode.content[|inode.content| - 1])
  }

  predicate Recorded(fs: Fs, fm: FileMetadata) {
    IsFilePath(fm.path) && Regular(fs, fm.path) && At(fs, fm.path).content != [] && fm == Record(fs, fm.path)
  }

  // ----- The records -----

  /** The paths of the entries that can be opened, in order. */
  function OpenedPaths(probes: Probes, entries: seq<FileEntry>): seq<Path> {
    if entries == [] then []
    else
      var n := |entries| - 1;
      OpenedPaths(probes, entries[..n]) + if entries[n].path in probes then [entries[n].path] else []
  }

  function PathsOf(files: seq<FileMetadata>): (paths: seq<Path>)
    ensures |paths| == |files|
  {
    seq(|files|, i requires 0 <= i < |files| => files[i].path)
  }

  lemma WalkedFront(fs: Fs, probes: Probes, entries: seq<FileEntry>)
    requires Walked(fs, probes, entries) && entries != []
    ensures Walked(fs, probes, entries[..|entries| - 1])
  {
    hide TrueEntry, TrueProbe;
  }

  /** The first phase records of every file that it can open what the file system holds. */
  lemma {:induction false} OpenedIsRecorded(fs: Fs, probes: Probes, entries: seq<FileEntry>)
    requires Walked(fs, probes, entries)
    ensures forall i :: 0 <= i < |Opened(probes, entries)| ==> Recorded(fs, Opened(probes, entries)[i])
    ensures PathsOf(Opened(probes, entries)) == OpenedPaths(probes, entries)
    ensures forall p :: p in OpenedPaths(probes, entries) ==> exists i :: 0 <= i < |entries| && entries[i].path == p
  {
    if entries != [] {
      var n := |entries| - 1;
      WalkedFront(fs, probes, entries);
      OpenedIsRecorded(fs, probes, entries[..n]);
      assert TrueEntry(fs, entries[n]) && (entries[n].path in probes ==>
                                             TrueProbe(fs, entries[n].path, probes[entries[n].path]));
      assert forall i :: 0 <= i < n ==> entries[..n][i] == entries[i];
      hide Links;
    }
  }

  lemma {:induction false} OpenedOnce(fs: Fs, probes: Probes, entries: seq<FileEntry>)
    requires Walked(fs, probes, entries)
    ensures forall i, j :: 0 <= i < j < |OpenedPaths(probes, entries)| ==>
                             OpenedPaths(probes, entries)[i] != OpenedPaths(probes, entries)[j]
  {
    if entries != [] {
      var n := |entries| - 1;
      WalkedFront(fs, probes, entries);
      OpenedOnce(fs, probes, entries[..n]);
      OpenedIsRecorded(fs, probes, entries[..n]);
      hide TrueEntry, TrueProbe, Recorded;
      assert forall i :: 0 <= i < n ==> entries[..n][i] == entries[i];
      var earlier := OpenedPaths(probes, entries[..n]);
      forall i | 0 <= i < |earlier|
        ensures earlier[i] != entries[n].path
      {
        assert earlier[i] in earlier;
      }
    }
  }

  // ----- Truthful records -----

  /** The files are where the records say, on those devices, with the bytes that were hashed. */
  predicate Mounted(fs: Fs, disk: Disk, files: seq<FileMetadata>) {
    forall j :: 0 <= j < |files| ==>
                  InPlace(fs, files[j])
                  && files[j].path in disk && At(fs, files[j].path).content == disk[files[j].path]
                  && files[j].nlink == |Links(fs, fs.names[files[j].path].ino)|
  }

  /** Records that tell the truth about files under different names, whose digests do not collide. */
  ghost predicate Surveyed(fs: Fs, disk: Disk, hashes: Hashes, files: seq<FileMetadata>) {
    Described(disk, hashes, files) && Mounted(fs, disk, files) && Current(fs, files)
  }

  lemma SurveyedApart(fs: Fs, disk: Disk, hashes: Hashes, files: seq<FileMetadata>)
    requires Surveyed(fs, disk, hashes, files)
    ensures DistinctPaths(files)
  {
  }

  lemma RecordedIsTrue(fs: Fs, fm: FileMetadata)
    requires Recorded(fs, fm)
    ensures Describes(Contents(fs), fm) && Mounted(fs, Contents(fs), [fm]) && Refresh(fs, fm) == fm
  {
    hide Links;
  }

  lemma MountedEach(fs: Fs, disk: Disk, files: seq<FileMetadata>)
    requires forall j :: 0 <= j < |files| ==> Mounted(fs, disk, [files[j]])
    ensures Mounted(fs, disk, files)
  {
    hide InPlace, Links;
    forall j | 0 <= j < |files|
      ensures Mounted(fs, disk, [files[j]]) && [files[j]][0] == files[j]
    {
    }
  }

  /** The records of a walk are a truthful survey of the bytes on the file system. */
  lemma WalkIsSurveyed(fs: Fs, probes: Probes, hashes: Hashes, entries: seq<FileEntry>)
    requires Walked(fs, probes, entries) && CollisionFree(Contents(fs), hashes)
    ensures Surveyed(fs, Contents(fs), hashes, Opened(probes, entries))
  {
    var files, disk := Opened(probes, entries), Contents(fs);
    OpenedIsRecorded(fs, probes, entries);
    OpenedOnce(fs, probes, entries);
    hide Opened, OpenedPaths, Walked, CollisionFree, Contents, Describes, Refresh;
    forall j | 0 <= j < |files|
      ensures Describes(disk, files[j]) && Mounted(fs, disk, [files[j]])
      ensures Refresh(fs, files[j]) == files[j] && Regular(fs, files[j].path)
    {
      RecordedIsTrue(fs, files[j]);
    }
    hide Recorded, Mounted, Regular;
    MountedEach(fs, disk, files);
    forall i, j | 0 <= i < j < |files|
      ensures files[i].path != files[j].path
    {
      assert PathsOf(files)[i] != PathsOf(files)[j];
    }
  }

  /** In terms of the walk: for every schedule, the files equal to a readable file are listed as
      comparing bytes would list them if and only if they are all on its device. */
  lemma WalkedFilesAreGrouped(fs: Fs, cfg: Config, entries: seq<FileEntry>, n: nat, schedule: seq<nat>, i: nat)
    requires Walked(fs, cfg.probes, entries) && CollisionFree(Contents(fs), cfg.hashes)
    requires AllVisited(entries, Run(cfg, entries, n, schedule))
    requires i < |Opened(cfg.probes, entries)| && Hashable(cfg.hashes, Opened(cfg.probes, entries)[i].path)
    ensures var files, lists := Opened(cfg.probes, entries), Run(cfg, entries, n, schedule).phase.lists;
            RightlyListed(Contents(fs), cfg.hashes, files, lists, i) <==>
            OneDevice(Contents(fs), cfg.hashes, files, files[i])
  {
    WalkIsSurveyed(fs, cfg.probes, cfg.hashes, entries);
    assert Described(Contents(fs), cfg.hashes, Opened(cfg.probes, entries));
    hide *;
    EqualFilesAreGrouped(Contents(fs), cfg, entries, n, schedule, i);
  }

  // ----- A walk for every order -----

  /** Every file that is not empty can be opened. */
  function AllProbes(fs: Fs): Probes {
    map p | p in fs.names && Regular(fs, p) && At(fs, p).content != [] ::
      Probe(At(fs, p).content[0], At(fs, p).content[|At(fs, p).content| - 1], At(fs, p).cloneId)
  }

  function EntryFor(fm: FileMetadata): FileEntry {
    FileEntry(fm.path, fm.device, fm.inode, fm.nlink, fm.flags, fm.size, 0)
  }

  function EntriesFor(files: seq<FileMetadata>): seq<FileEntry> {
    if files == [] then [] else EntriesFor(files[..|files| - 1]) + [EntryFor(files[|files| - 1])]
  }

  /** The entry tells the truth about the file of the record. */
  predicate Tells(fs: Fs, e: FileEntry, fm: FileMetadata) {
    e.path == fm.path && TrueEntry(fs, e) && e.path in AllProbes(fs) && TrueProbe(fs, e.path, AllProbes(fs)[e.path])
  }

  lemma EntryTells(fs: Fs, fm: FileMetadata)
    requires Recorded(fs, fm)
    ensures Tells(fs, EntryFor(fm), fm) && EntryFor(fm).path == fm.path
    ensures MetadataFromEntry(AllProbes(fs), EntryFor(fm)) == Some(fm)
  {
    hide Links;
  }

  lemma {:induction false} EntriesTell(fs: Fs, files: seq<FileMetadata>)
    requires forall i :: 0 <= i < |files| ==> Recorded(fs, files[i])
    ensures |EntriesFor(files)| == |files|
    ensures forall i :: 0 <= i < |files| ==> Tells(fs, EntriesFor(files)[i], files[i])
  {
    if files != [] {
      var n := |files| - 1;
      EntriesTell(fs, files[..n]);
      EntryTells(fs, files[n]);
      hide Recorded, Tells, EntryFor;
      forall i | 0 <= i < |files|
        ensures Tells(fs, EntriesFor(files)[i], files[i])
      {
        assert i < n ==> files[..n][i] == files[i];
      }
    }
  }

  /** Opening these entries gives the files back. */
  lemma {:induction false} EntriesOpen(fs: Fs, files: seq<FileMetadata>)
    requires forall i :: 0 <= i < |files| ==> Recorded(fs, files[i])
    ensures Opened(AllProbes(fs), EntriesFor(files)) == files
    ensures OpenedPaths(AllProbes(fs), EntriesFor(files)) == PathsOf(files)
  {
    if files != [] {
      var front, fm := files[..|files| - 1], files[|files| - 1];
      assert files == front + [fm];
      EntriesOpen(fs, front);
      EntryTells(fs, fm);
      assert EntryFor(fm).path in AllProbes(fs);
      OpenedSnoc(AllProbes(fs), EntriesFor(front), EntryFor(fm));
      OpenedPathsSnoc(AllProbes(fs), EntriesFor(front), EntryFor(fm));
      hide Recorded, Tells, EntryFor, AllProbes, MetadataFromEntry, Opened, OpenedPaths;
      assert EntriesFor(files) == EntriesFor(front) + [EntryFor(fm)];
      PathsSnoc(front, fm);
    }
  }

  lemma OpenedPathsSnoc(probes: Probes, entries: seq<FileEntry>, e: FileEntry)
    ensures OpenedPaths(probes, entries + [e]) ==
            OpenedPaths(probes, entries) + if e.path in probes then [e.path] else []
  {
    assert (entries + [e])[..|entries|] == entries;
  }

  lemma PathsSnoc(files: seq<FileMetadata>, fm: FileMetadata)
    ensures PathsOf(files + [fm]) == PathsOf(files) + [fm.path]
  {
  }

  lemma TellingIsWalked(fs: Fs, entries: seq<FileEntry>, files: seq<FileMetadata>)
    requires DistinctPaths(files) && |entries| == |files|
    requires forall i :: 0 <= i < |files| ==> Tells(fs, entries[i], files[i])
    ensures Walked(fs, AllProbes(fs), entries)
  {
    hide AllProbes, TrueEntry, TrueProbe;
    forall i, j | 0 <= i < j < |entries|
      ensures entries[i].path != entries[j].path
    {
      assert Tells(fs, entries[i], files[i]) && Tells(fs, entries[j], files[j]);
    }
  }

  /** Files in any order are what some walk finds. */
  lemma EveryOrderIsWalked(fs: Fs, files: seq<FileMetadata>)
    requires DistinctPaths(files) && forall i :: 0 <= i < |files| ==> Recorded(fs, files[i])
    ensures Walked(fs, AllProbes(fs), EntriesFor(files))
    ensures Opened(AllProbes(fs), EntriesFor(files)) == files
    ensures OpenedPaths(AllProbes(fs), EntriesFor(files)) == PathsOf(files)
  {
    EntriesTell(fs, files);
    EntriesOpen(fs, files);
    hide *;
    TellingIsWalked(fs, EntriesFor(files), files);
  }
}
