/** What the first phase finds on the file system that a run in clone mode has left. */
module Resurvey {
  import opened Types
  import opened FileSystem
  import opened Replacing
  import opened Twins
  import opened Duplicates
  import opened Visiting
  import opened Grouping
  import opened Groups
  import opened Exactness
  import opened ProtocolGroups
  import opened Origins
  import opened Deduplication
  import opened Accounting
  import opened PhaseTwo
  import opened SecondRun
  import opened SecondPhase
  import opened Survey
  import opened WholeRun

  // ----- What cloning keeps -----

  /** Regular files stay regular, with the same bytes, on the same device. */
  ghost predicate KeepsFiles(fs: Fs, fs': Fs) {
    forall p :: Regular(fs, p) ==>
                  Regular(fs', p) && At(fs', p).content == At(fs, p).content && At(fs', p).device == At(fs, p).device
  }

  lemma KeepsFilesChain(a: Fs, b: Fs, c: Fs)
    requires KeepsFiles(a, b) && KeepsFiles(b, c)
    ensures KeepsFiles(a, c)
  {
  }

  lemma ReplacedKeepsFiles(fs: Fs, s: Fs, src: Path, dst: Path)
    requires Replaced(fs, s, src, dst) && At(fs, src).content == At(fs, dst).content
    ensures KeepsFiles(fs, s)
  {
    hide Links;
  }

  lemma CloneKeepsFiles(fs: Fs, origin: FileMetadata, fm: FileMetadata, preserve: bool, sc: CloneScript)
    requires Interchangeable(fs, origin, fm)
    ensures KeepsFiles(fs, Last(CloneRun(fs, origin.path, fm.path, preserve, sc)))
  {
    var r, stage := CloneRun(fs, origin.path, fm.path, preserve, sc), Staging(fm.path);
    StagedSafety(fs, origin.path, fm.path, preserve, sc);
    hide CloneRun, Staging, Exists, Untouched, Links;
    if r.code == 0 {
      ReplacedKeepsFiles(fs, Last(r), origin.path, fm.path);
    } else if r.states != [fs] {
      UntouchedStays(fs, Last(r), stage);
    }
    hide Replaced;
  }

  lemma {:induction false} ThroughKeepsFiles(fs: Fs, group: Origins.Group, o: nat, opts: Options,
                                             calls: seq<Calls>, n: nat)
    requires o < |group| == |calls| && n <= |group| && Named(group) && Copies(fs, group) && opts.mode == ByClone
    ensures KeepsFiles(fs, Through(fs, group, o, opts, calls, n).fs)
  {
    if n > 0 {
      var m := n - 1;
      ThroughKeepsFiles(fs, group, o, opts, calls, m);
      OneMoreFile(fs, group, o, opts, calls, m);
      var before, after := Through(fs, group, o, opts, calls, m).fs, Through(fs, group, o, opts, calls, n).fs;
      if Attempted(opts, group, o, m) {
        StaysInterchangeable(fs, group, o, opts, calls, m);
        hide Through, Copies, KeepsFiles, Interchangeable, CloneRun, Judge;
        CloneKeepsFiles(before, group[o], group[m], opts.preserveParentMtime, calls[m].clone);
        KeepsFilesChain(fs, before, after);
      }
    }
  }

  lemma GroupKeepsFiles(fs: Fs, job: Job, opts: Options)
    requires Ready(job) && Copies(fs, job.group) && opts.mode == ByClone
    ensures KeepsFiles(fs, GroupRun(fs, job, opts).fs)
  {
    hide Chosen, Through, Copies;
    if job.decision.From? {
      ThroughKeepsFiles(fs, job.group, job.decision.origin, opts, job.calls, |job.group|);
    }
  }

  /** In clone mode, whatever fails, the second phase keeps every regular file as it was, but for
      its clone id and what else a copy of an inode may change. */
  lemma {:induction false} PhaseKeepsFiles(fs: Fs, jobs: seq<Job>, opts: Options)
    requires Sound(fs, jobs) && opts.mode == ByClone
    ensures KeepsFiles(fs, AllGroups(fs, jobs, opts).fs)
  {
    if jobs != [] {
      var n := |jobs| - 1;
      PhaseKeepsFiles(fs, jobs[..n], opts);
      CopiesStay(fs, jobs, opts);
      LastGroup(fs, jobs, opts);
      var before := AllGroups(fs, jobs[..n], opts).fs;
      assert Ready(jobs[n]);
      hide Ready, Copies, Disjoint, KeepsFiles, AllGroups, GroupRun;
      GroupKeepsFiles(before, jobs[n], opts);
      KeepsFilesChain(fs, before, GroupRun(before, jobs[n], opts).fs);
    }
  }

  // ----- Metadata taken anew -----

  predicate SameKeys(fs: Fs, files: seq<FileMetadata>) {
    forall j :: 0 <= j < |files| ==> Refresh(fs, files[j]).Key() == files[j].Key()
  }

  /** The files keep their places in the visited tree. */
  lemma KeptFilesKeepKeys(fs: Fs, fs': Fs, files: seq<FileMetadata>)
    requires Current(fs, files) && KeepsFiles(fs, fs')
    ensures SameKeys(fs', files)
  {
    forall j | 0 <= j < |files|
      ensures Refresh(fs', files[j]).Key() == files[j].Key()
    {
      assert Refresh(fs, files[j]) == files[j];
    }
  }

  lemma RefreshedSnoc(fs: Fs, files: seq<FileMetadata>, fm: FileMetadata)
    ensures Refreshed(fs, files + [fm]) == Refreshed(fs, files) + [Refresh(fs, fm)]
  {
    hide Refresh;
  }

  lemma RefreshedFront(fs: Fs, files: seq<FileMetadata>)
    requires files != []
    ensures Refreshed(fs, files) == Refreshed(fs, files[..|files| - 1]) + [Refresh(fs, files[|files| - 1])]
  {
    RefreshedSnoc(fs, files[..|files| - 1], files[|files| - 1]);
    assert files == files[..|files| - 1] + [files[|files| - 1]];
  }

  lemma RefreshHashed(fs: Fs, hashes: Hashes, fm: FileMetadata)
    requires Hashable(hashes, fm.path)
    ensures Refresh(fs, fm).path == fm.path && Refresh(fs, Hashed(hashes, fm)) == Hashed(hashes, Refresh(fs, fm))
  {
  }

  // ----- The same order -----

  /** The twin of a file is the twin it had, with its metadata taken anew. */
  lemma {:induction false} EarliestRefreshed(fs: Fs, hashes: Hashes, history: seq<FileMetadata>, b: Bucket, digest: nat)
    requires SameKeys(fs, history)
    ensures var e := Earliest(hashes, history, b, digest);
            Earliest(hashes, Refreshed(fs, history), b, digest) == if e.Some? then Some(Refresh(fs, e.value)) else None
  {
    if history != [] {
      var earlier, fm := history[..|history| - 1], history[|history| - 1];
      EarliestRefreshed(fs, hashes, earlier, b, digest);
      RefreshedFront(fs, history);
      EarliestSnoc(hashes, Refreshed(fs, earlier), Refresh(fs, fm), b, digest);
      assert Refresh(fs, fm).path == fm.path;
      if Hashable(hashes, fm.path) {
        RefreshHashed(fs, hashes, fm);
      }
      hide Refresh, Refreshed, Hashed, Hashable;
    }
  }

  function RefreshedLists(fs: Fs, lists: Lists): Lists {
    map k | k in lists :: Refreshed(fs, lists[k])
  }

  lemma HeadRefreshed(fs: Fs, lists: Lists, fm: FileMetadata, twin: FileMetadata)
    ensures WithHead(RefreshedLists(fs, lists), Refresh(fs, fm), Refresh(fs, twin)) ==
            RefreshedLists(fs, WithHead(lists, fm, twin))
  {
    assert Refresh(fs, fm).sha256 == fm.sha256;
    assert Refreshed(fs, [twin]) == [Refresh(fs, twin)];
    hide Refresh;
  }

  lemma TailRefreshed(fs: Fs, lists: Lists, fm: FileMetadata)
    ensures WithTail(RefreshedLists(fs, lists), Refresh(fs, fm)) == RefreshedLists(fs, WithTail(lists, fm))
  {
    assert Refresh(fs, fm).sha256 == fm.sha256;
    var list := if fm.sha256 in lists then lists[fm.sha256] else [];
    RefreshedSnoc(fs, list, fm);
    hide Refresh;
    assert fm.sha256 !in lists ==> Refreshed(fs, list) == [];
  }

  lemma {:induction false} SerialRefreshed(fs: Fs, hashes: Hashes, files: seq<FileMetadata>)
    requires SameKeys(fs, files)
    ensures Serial(hashes, Refreshed(fs, files)).lists == RefreshedLists(fs, Serial(hashes, files).lists)
  {
    if files != [] {
      var earlier, fm := files[..|files| - 1], files[|files| - 1];
      assert files == earlier + [fm];
      SerialRefreshed(fs, hashes, earlier);
      RefreshedFront(fs, files);
      SerialHistory(hashes, earlier);
      SerialHistory(hashes, Refreshed(fs, earlier));
      SerialSnoc(hashes, earlier, fm);
      SerialSnoc(hashes, Refreshed(fs, earlier), Refresh(fs, fm));
      assert Refresh(fs, fm).path == fm.path && Refresh(fs, fm).Key() == fm.Key();
      if Hashable(hashes, fm.path) {
        EarliestRefreshed(fs, hashes, earlier, fm.Key(), hashes[fm.path]);
        RefreshHashed(fs, hashes, fm);
      }
      hide Refresh, Refreshed, RefreshedLists, Earliest, Serial, Hashed;
      var twin := Twin(hashes, earlier, fm);
      if twin.Some? {
        var lists, filled := Serial(hashes, earlier).lists, Hashed(hashes, fm);
        HeadRefreshed(fs, lists, filled, twin.value);
        TailRefreshed(fs, WithHead(lists, filled, twin.value), filled);
      }
    }
  }

  // ----- The first run -----

  ghost predicate AllTaken(fs: Fs, jobs: seq<Job>, opts: Options)
    requires AllReady(jobs)
  {
    forall i :: 0 <= i < |jobs| ==> AllTake(GroupRun(Upto(fs, jobs, opts, i).fs, jobs[i], opts).outcomes)
  }

  lemma GroupIsSurveyed(fs: Fs, disk: Disk, hashes: Hashes, files: seq<FileMetadata>, group: Origins.Group, k: nat)
    requires Surveyed(fs, disk, hashes, files) && forall x :: x in group ==> FromFile(hashes, files, k, x)
    ensures Current(fs, group) && Uniform(group, FirstSize(group))
  {
    forall i | 0 <= i < |group|
      ensures Regular(fs, group[i].path) && Refresh(fs, group[i]) == group[i]
      ensures Hashable(hashes, group[i].path) && hashes[group[i].path] == k && Describes(disk, group[i])
    {
      assert group[i] in group;
      var j :| 0 <= j < |files| && HasDigest(hashes, files[j], k) && group[i] == Hashed(hashes, files[j]);
      RefreshHashed(fs, hashes, files[j]);
      assert Refresh(fs, files[j]) == files[j] && Describes(disk, files[j]);
    }
    hide Refresh, Regular;
    forall i | 0 <= i < |group|
      ensures group[i].size == group[0].size
    {
      assert hashes[group[i].path] == hashes[group[0].path];
    }
  }

  /** The first phase of a truthful survey prepares the second. */
  lemma ListsArePrepared(fs: Fs, disk: Disk, hashes: Hashes, history: seq<FileMetadata>, lists: Lists,
                         digests: seq<nat>, jobs: seq<Job>, opts: Options)
    requires Surveyed(fs, disk, hashes, history) && Grouped(hashes, history, lists, multiset{})
    requires Takes(jobs, digests, lists) && AllTaken(fs, jobs, opts)
    ensures Prepared(fs, jobs, opts) && Sound(fs, jobs) && EqualSizes(jobs)
  {
    ListsAreSound(fs, disk, hashes, history, lists, digests, jobs);
    hide Surveyed, Grouped, FromFile, Copies, Ready, Current, Uniform, FirstSize, AllTake, GroupRun, Upto;
    forall i | 0 <= i < |jobs|
      ensures Current(fs, jobs[i].group) && Apart(jobs[i].group)
      ensures Uniform(jobs[i].group, FirstSize(jobs[i].group))
    {
      assert DistinctPaths(history) by { SurveyedApart(fs, disk, hashes, history); }
      ListHasDistinctFiles(hashes, history, lists, digests[i]);
      GroupIsSurveyed(fs, disk, hashes, history, jobs[i].group, digests[i]);
    }
  }

  /** A survey after the first run is of the same bytes, so the digests are the same. */
  lemma SurveyedAgain(fs: Fs, fs': Fs, disk: Disk, hashes: Hashes, files: seq<FileMetadata>)
    requires Surveyed(fs, disk, hashes, files) && KeepsFiles(fs, fs')
    ensures Surveyed(fs', disk, hashes, Refreshed(fs', files))
  {
    hide CollisionFree, Links;
    forall j | 0 <= j < |files|
      ensures var again := Refresh(fs', files[j]);
              Describes(disk, again) && Mounted(fs', disk, [again]) && Refresh(fs', again) == again
              && Regular(fs', again.path) && again.path == files[j].path
    {
      assert Refresh(fs, files[j]) == files[j];
    }
    hide Refresh, Describes, Regular;
    forall j | 0 <= j < |files|
      ensures Mounted(fs', disk, [Refreshed(fs', files)[j]])
    {
    }
    MountedEach(fs', disk, Refreshed(fs', files));
  }

  // ----- Walking again -----

  lemma RecordAgain(fs: Fs, fs': Fs, fm: FileMetadata)
    requires Recorded(fs, fm) && KeepsFiles(fs, fs')
    ensures Recorded(fs', Refresh(fs', fm)) && Refresh(fs', fm).path == fm.path
  {
    hide Links;
  }

  lemma FoundAgain(fs: Fs, a: seq<FileMetadata>, b: seq<FileMetadata>)
    requires forall i :: 0 <= i < |a| ==> Recorded(fs, a[i])
    requires forall i :: 0 <= i < |b| ==> Recorded(fs, b[i])
    requires forall p :: p in PathsOf(a) ==> p in PathsOf(b)
    ensures forall x :: x in a ==> x in b
  {
    hide Regular, Links, Record;
    forall x | x in a
      ensures x in b
    {
      var i :| 0 <= i < |a| && a[i] == x;
      assert PathsOf(a)[i] in PathsOf(b);
      var j :| 0 <= j < |b| && PathsOf(b)[j] == x.path;
      assert Recorded(fs, a[i]) && Recorded(fs, b[j]);
    }
  }

  /** Files recorded under the same paths are the same, in the order of the paths. */
  lemma SameRecords(fs: Fs, a: seq<FileMetadata>, b: seq<FileMetadata>)
    requires forall i :: 0 <= i < |a| ==> Recorded(fs, a[i])
    requires forall i :: 0 <= i < |b| ==> Recorded(fs, b[i])
    requires DistinctPaths(a) && DistinctPaths(b) && multiset(PathsOf(a)) == multiset(PathsOf(b))
    ensures multiset(a) == multiset(b) && (PathsOf(a) == PathsOf(b) ==> a == b)
  {
    hide Recorded;
    assert forall p :: (p in PathsOf(a) <==> p in multiset(PathsOf(a)))
                       && (p in PathsOf(b) <==> p in multiset(PathsOf(b)));
    FoundAgain(fs, a, b);
    FoundAgain(fs, b, a);
    SameFiles(a, b);
    if PathsOf(a) == PathsOf(b) {
      forall i | 0 <= i < |a|
        ensures a[i] == b[i]
      {
        assert Recorded(fs, a[i]) && Recorded(fs, b[i]) && PathsOf(a)[i] == PathsOf(b)[i];
        RecordIsOne(fs, a[i], b[i]);
      }
    }
  }

  lemma RecordIsOne(fs: Fs, x: FileMetadata, y: FileMetadata)
    requires Recorded(fs, x) && Recorded(fs, y) && x.path == y.path
    ensures x == y
  {
  }

  /** A walk after the run that finds the same files finds the records of the first, taken anew. */
  lemma WalkedAgain(fs: Fs, fs': Fs, probes: Probes, entries: seq<FileEntry>, probes': Probes, entries': seq<FileEntry>)
    requires Walked(fs, probes, entries) && Walked(fs', probes', entries') && KeepsFiles(fs, fs')
    requires multiset(OpenedPaths(probes', entries')) == multiset(OpenedPaths(probes, entries))
    ensures var files, files' := Opened(probes, entries), Opened(probes', entries');
            multiset(Refreshed(fs', files)) == multiset(files')
            && (OpenedPaths(probes', entries') == OpenedPaths(probes, entries) ==> Refreshed(fs', files) == files')
  {
    var files, files' := Opened(probes, entries), Opened(probes', entries');
    OpenedIsRecorded(fs, probes, entries);
    OpenedIsRecorded(fs', probes', entries');
    OpenedOnce(fs, probes, entries);
    OpenedOnce(fs', probes', entries');
    hide Walked, Opened, OpenedPaths, Recorded, KeepsFiles, Refresh;
    forall i | 0 <= i < |files|
      ensures Recorded(fs', Refreshed(fs', files)[i]) && Refreshed(fs', files)[i].path == files[i].path
    {
      RecordAgain(fs, fs', files[i]);
    }
    assert PathsOf(Refreshed(fs', files)) == PathsOf(files);
    PathsAreDistinct(files');
    PathsAreDistinct(Refreshed(fs', files));
    SameRecords(fs', Refreshed(fs', files), files');
  }

  lemma PathsAreDistinct(files: seq<FileMetadata>)
    requires forall i, j :: 0 <= i < j < |PathsOf(files)| ==> PathsOf(files)[i] != PathsOf(files)[j]
    ensures DistinctPaths(files)
  {
    forall i, j | 0 <= i < j < |files|
      ensures files[i].path != files[j].path
    {
      assert PathsOf(files)[i] != PathsOf(files)[j];
    }
  }

  /** The digest is a function of the bytes, and the same files can be read. */
  ghost predicate SameDigests(fs: Fs, hashes: Hashes, fs': Fs, hashes': Hashes) {
    hashes'.Keys == hashes.Keys
    && forall p, q ::
         p in hashes && q in hashes' && Regular(fs, p) && Regular(fs', q)
         && At(fs, p).content == At(fs', q).content ==>
           hashes'[q] == hashes[p]
  }

  /** So it gives every file the digest that it had. */
  lemma DigestsStay(fs: Fs, hashes: Hashes, fs': Fs, hashes': Hashes)
    requires CollisionFree(Contents(fs), hashes) && KeepsFiles(fs, fs') && SameDigests(fs, hashes, fs', hashes')
    ensures hashes' == hashes
  {
    forall p | p in hashes
      ensures hashes'[p] == hashes[p]
    {
      assert p in Contents(fs);
    }
  }
}
