/** Both phases together: the lists that the workers leave behind, whatever their schedule and on
    any number of devices, are groups that the second phase can work on. */
module WholeRun {
  import opened Types
  import opened RelativePaths
  import opened FileSystem
  import opened Replacing
  import opened Twins
  import opened Duplicates
  import opened Visiting
  import opened Grouping
  import opened Groups
  import opened Exactness
  import opened Protocol
  import opened ProtocolGroups
  import opened Origins
  import opened Deduplication
  import opened PhaseTwo
  import opened Survey

  /** The second phase takes the lists in some order. */
  ghost predicate Takes(jobs: seq<Job>, digests: seq<nat>, lists: Lists): (yes: bool)
    ensures yes ==> AllReady(jobs)
  {
    |jobs| == |digests| && (forall i, j :: 0 <= i < j < |digests| ==> digests[i] != digests[j])
    && AllReady(jobs) && forall i :: 0 <= i < |jobs| ==> digests[i] in lists && jobs[i].group == lists[digests[i]]
  }

  lemma GroupsAreCopies(fs: Fs, disk: Disk, hashes: Hashes, files: seq<FileMetadata>, group: Origins.Group, k: nat)
    requires CollisionFree(disk, hashes) && Mounted(fs, disk, files)
    requires DistinctPaths(group) && forall x :: x in group ==> FromFile(hashes, files, k, x)
    ensures Copies(fs, group) && LinkCounts(fs, group)
  {
    forall i | 0 <= i < |group|
      ensures InPlace(fs, group[i]) && Hashable(hashes, group[i].path)
      ensures hashes[group[i].path] == k && group[i].path in disk
      ensures At(fs, group[i].path).content == disk[group[i].path]
      ensures group[i].nlink == |Links(fs, fs.names[group[i].path].ino)|
    {
      assert group[i] in group;
      assert FromFile(hashes, files, k, group[i]);
    }
    forall i | 0 <= i < |group|
      ensures At(fs, group[i].path).content == At(fs, group[0].path).content
    {
      assert hashes[group[i].path] == hashes[group[0].path];
    }
  }

  lemma DigestsKeepGroupsApart(hashes: Hashes, files: seq<FileMetadata>, a: Origins.Group, b: Origins.Group,
                               k: nat, l: nat)
    requires k != l
    requires forall x :: x in a ==> FromFile(hashes, files, k, x)
    requires forall x :: x in b ==> FromFile(hashes, files, l, x)
    ensures forall i, j :: 0 <= i < |a| && 0 <= j < |b| ==> a[i].path != b[j].path
  {
    forall i, j | 0 <= i < |a| && 0 <= j < |b|
      ensures a[i].path != b[j].path
    {
      assert FromFile(hashes, files, k, a[i]) && FromFile(hashes, files, l, b[j]);
    }
  }

  /** Lists at rest, on any number of devices, are groups of different files with equal bytes, and
      no file is in two. */
  lemma ListsAreSound(fs: Fs, disk: Disk, hashes: Hashes, history: seq<FileMetadata>, lists: Lists,
                      digests: seq<nat>, jobs: seq<Job>)
    requires CollisionFree(disk, hashes) && DistinctPaths(history) && Mounted(fs, disk, history)
    requires Grouped(hashes, history, lists, multiset{}) && Takes(jobs, digests, lists)
    ensures Sound(fs, jobs) && forall i :: 0 <= i < |jobs| ==> LinkCounts(fs, jobs[i].group)
  {
    hide Ready, Copies, LinkCounts, FromFile, DistinctPaths, Mounted, Grouped, CollisionFree;
    forall i | 0 <= i < |jobs|
      ensures forall x :: x in jobs[i].group ==> FromFile(hashes, history, digests[i], x)
      ensures Copies(fs, jobs[i].group) && LinkCounts(fs, jobs[i].group)
    {
      ListHasDistinctFiles(hashes, history, lists, digests[i]);
      GroupsAreCopies(fs, disk, hashes, history, jobs[i].group, digests[i]);
    }
    forall i, j | 0 <= i < j < |jobs|
      ensures forall k, l :: 0 <= k < |jobs[i].group| && 0 <= l < |jobs[j].group| ==>
                               jobs[i].group[k].path != jobs[j].group[l].path
    {
      DigestsKeepGroupsApart(hashes, history, jobs[i].group, jobs[j].group, digests[i], digests[j]);
    }
  }

  /** What a run of the second phase owes: every name reads what it read before exactly when the
      calls for every file attempted are harmless, as they are in clone mode, and as with hard
      links they are on one device when nothing else fails; no name ever reads other bytes than
      before; and, unless forced, names that shared an inode still share one. */
  ghost predicate Promise(fs: Fs, jobs: seq<Job>, opts: Options)
    requires AllReady(jobs)
  {
    var fs' := AllGroups(fs, jobs, opts).fs;
    (KeepsBytes(fs, fs') <==> forall i :: 0 <= i < |jobs| ==> SparedBy(jobs[i], opts))
    && (opts.mode == ByClone || opts.dryRun ==> KeepsBytes(fs, fs'))
    && (opts.mode == ByLink && LinksWork(jobs) ==> (KeepsBytes(fs, fs') <==> OnOriginsDevice(jobs, opts)))
    && ReadsNothingElse(fs, fs')
    && (!opts.force ==> forall p, q :: p != q && SameInode(fs, p, q) ==> SameInode(fs', p, q))
  }

  lemma SoundKeepsPromise(fs: Fs, jobs: seq<Job>, opts: Options)
    requires Sound(fs, jobs) && forall i :: 0 <= i < |jobs| ==> LinkCounts(fs, jobs[i].group)
    ensures Promise(fs, jobs, opts)
  {
    PhaseKeepsBytesIff(fs, jobs, opts);
    PhaseReadsNothingElse(fs, jobs, opts);
    if opts.mode == ByLink && LinksWork(jobs) {
      LinksNeedOneDevice(fs, jobs, opts);
    }
    hide LinkCounts, Copies, Disjoint, Ready, AllGroups, SparedBy, KeepsBytes, ReadsNothingElse, SameInode;
    hide LinksWork, OnOriginsDevice;
    if !opts.force {
      PhaseKeepsAllLinks(fs, jobs, opts);
    }
  }

  lemma ListsKeepPromise(fs: Fs, disk: Disk, hashes: Hashes, history: seq<FileMetadata>, lists: Lists,
                         digests: seq<nat>, jobs: seq<Job>, opts: Options)
    requires CollisionFree(disk, hashes) && DistinctPaths(history) && Mounted(fs, disk, history)
    requires Grouped(hashes, history, lists, multiset{}) && Takes(jobs, digests, lists)
    ensures Promise(fs, jobs, opts)
  {
    hide *;
    ListsAreSound(fs, disk, hashes, history, lists, digests, jobs);
    SoundKeepsPromise(fs, jobs, opts);
  }

  lemma PartIsMounted(fs: Fs, disk: Disk, files: seq<FileMetadata>, some: seq<FileMetadata>, others: seq<FileMetadata>)
    requires DistinctPaths(files) && Mounted(fs, disk, files) && multiset(some + others) == multiset(files)
    ensures DistinctPaths(some) && Mounted(fs, disk, some)
  {
    hide Regular, Links, IsFilePath;
    OrderDoesNotRepeat(some + others, files);
    forall i, j | 0 <= i < j < |some|
      ensures some[i].path != some[j].path
    {
      assert (some + others)[i].path != (some + others)[j].path;
    }
    forall i | 0 <= i < |some|
      ensures some[i] in files
    {
      assert (some + others)[i] in multiset(files);
    }
  }

  /** The promise of the program. However the workers were scheduled when the producer has joined
      them all, even if an entry was left behind, on any number of devices, and in whatever order the
      lists are then taken: in clone mode every name that could be read before reads the same bytes
      afterwards, whichever system calls fail; with links it does exactly when no file was
      unlinked without its link being made; and, unless forced, names that shared an inode still
      share one. */
  lemma ProgramKeepsBytes(fs: Fs, cfg: Config, entries: seq<FileEntry>, n: nat, schedule: seq<nat>,
                          digests: seq<nat>, jobs: seq<Job>, opts: Options)
    requires Run(cfg, entries, n, schedule).producer == Returned
    requires Walked(fs, cfg.probes, entries) && CollisionFree(Contents(fs), cfg.hashes)
    requires Takes(jobs, digests, Run(cfg, entries, n, schedule).phase.lists)
    ensures Promise(fs, jobs, opts)
  {
    var s := Run(cfg, entries, n, schedule);
    var rest := JoinedIsAtRest(cfg, entries, n, schedule);
    WalkIsSurveyed(fs, cfg.probes, cfg.hashes, entries);
    hide Walked, Contents, Run, Mounted, Takes, AllGroups, Grouped, Opened, Promise, CollisionFree, DistinctPaths;
    OpenedConcat(cfg.probes, s.seen, rest);
    OpenedOfPermutation(cfg.probes, s.seen + rest, entries);
    PartIsMounted(fs, Contents(fs), Opened(cfg.probes, entries), s.phase.history, Opened(cfg.probes, rest));
    ListsKeepPromise(fs, Contents(fs), cfg.hashes, s.phase.history, s.phase.lists, digests, jobs, opts);
  }

  /** The same with a thread count of zero. */
  lemma SerialProgramKeepsBytes(fs: Fs, probes: Probes, hashes: Hashes, entries: seq<FileEntry>,
                                digests: seq<nat>, jobs: seq<Job>, opts: Options)
    requires Walked(fs, probes, entries) && CollisionFree(Contents(fs), hashes)
    requires Takes(jobs, digests, Serial(hashes, Opened(probes, entries)).lists)
    ensures Promise(fs, jobs, opts)
  {
    var files := Opened(probes, entries);
    WalkIsSurveyed(fs, probes, hashes, entries);
    SerialIsGrouped(hashes, files);
    hide Walked, Contents, Mounted, Takes, Grouped, Promise, CollisionFree;
    ListsKeepPromise(fs, Contents(fs), hashes, files, Serial(hashes, files).lists, digests, jobs, opts);
  }

  /** Two equal files on each of two devices, none linked or cloned. */
  predicate PairsOnTwoDevices(hashes: Hashes, a: FileMetadata, a': FileMetadata,
                              b: FileMetadata, b': FileMetadata, k: nat)
  {
    k != 0 && HasDigest(hashes, a, k) && HasDigest(hashes, a', k) && HasDigest(hashes, b, k) && HasDigest(hashes, b', k)
    && a.Key() == a'.Key() && b.Key() == b'.Key() && a.device != b.device
    && a.nlink <= 1 && a'.nlink <= 1 && b'.nlink <= 1
    && a.cloneId != a'.cloneId && a.cloneId != b'.cloneId && a'.cloneId != b'.cloneId
  }

  /** A run that loses a file although every call works that can: of two equal files on each of
      two devices, the last comes on the list of those on the first device, and is unlinked
      before link(2) finds that the origin is on another device. */
  lemma SecondDeviceLosesAFile(fs: Fs, probes: Probes, hashes: Hashes, entries: seq<FileEntry>, a: FileMetadata,
                               a': FileMetadata, b: FileMetadata, b': FileMetadata, k: nat, job: Job, opts: Options)
    requires PairsOnTwoDevices(hashes, a, a', b, b', k)
    requires a.inode != b'.inode && !Compressed(a) && !Immutable(b')
    requires Walked(fs, probes, entries) && CollisionFree(Contents(fs), hashes)
    requires Opened(probes, entries) == [a, a', b, b']
    requires Takes([job], [k], Serial(hashes, [a, a', b, b']).lists)
    requires opts.mode == ByLink && !opts.dryRun && LinksWork([job])
    ensures b'.path in fs.names && b'.path !in AllGroups(fs, [job], opts).fs.names
    ensures !KeepsBytes(fs, AllGroups(fs, [job], opts).fs)
  {
    var files := [a, a', b, b'];
    WalkIsSurveyed(fs, probes, hashes, entries);
    MountedApart(fs, Contents(fs), hashes, files);
    assert InPlace(fs, files[3]);
    LastIsHarmed(hashes, a, a', b, b', k, job, opts);
    SerialIsGrouped(hashes, files);
    assert [job][0] == job;
    hide *;
    ListsAreSound(fs, Contents(fs), hashes, files, Serial(hashes, files).lists, [k], [job]);
    PhaseLoses(fs, [job], opts, 0, 2);
    GoneIsLost(fs, AllGroups(fs, [job], opts).fs, b'.path);
  }

  lemma MountedApart(fs: Fs, disk: Disk, hashes: Hashes, files: seq<FileMetadata>)
    requires Surveyed(fs, disk, hashes, files)
    ensures DistinctPaths(files) && Mounted(fs, disk, files)
    ensures forall i :: 0 <= i < |files| ==> InPlace(fs, files[i])
  {
  }

  lemma LastIsHarmed(hashes: Hashes, a: FileMetadata, a': FileMetadata, b: FileMetadata, b': FileMetadata, k: nat,
                     job: Job, opts: Options)
    requires PairsOnTwoDevices(hashes, a, a', b, b', k)
    requires a.inode != b'.inode && !Compressed(a) && !Immutable(b')
    requires Takes([job], [k], Serial(hashes, [a, a', b, b']).lists)
    requires opts.mode == ByLink && !opts.dryRun && LinksWork([job])
    ensures Ready(job) && job.decision == From(0) && |job.group| == 3 && job.group[2].path == b'.path
    ensures !Spared(opts, job.group, 0, job.calls, 2)
  {
    SecondDeviceLosesItsFirst(hashes, a, a', b, b', k);
    assert [job][0] == job && [k][0] == k && Ready(job);
    assert job.group == [Hashed(hashes, a), Hashed(hashes, a'), Hashed(hashes, b')];
    assert [job][0].calls[2].linkOk;
    hide Serial, Takes, Chosen, Compressed, Immutable, HasDigest;
    FirstFileIsOriginIff(job.group);
    OneChoice(job.group, job.decision, From(0));
  }
}
