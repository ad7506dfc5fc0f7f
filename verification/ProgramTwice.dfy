/** The whole program, run twice in clone mode: exactly when the second run replaces nothing. */
module ProgramTwice {
  import opened Types
  import opened FileSystem
  import opened Twins
  import opened Duplicates
  import opened Visiting
  import opened Grouping
  import opened Groups
  import opened Exactness
  import opened Protocol
  import opened ProtocolGroups
  import opened Origins
  import opened Deduplication
  import opened Accounting
  import opened PhaseTwo
  import opened SecondRun
  import opened SecondPhase
  import opened AnyOrder
  import opened SteadyGroups
  import opened Survey
  import opened WholeRun
  import opened Resurvey

  // ----- The serial program -----

  /** With a thread count of zero, the program run again, the second walk reporting the same files in
      the same order, on any number of devices: nothing is replaced or saved, and all that the
      first run saved or found already saved is found already saved. */
  lemma SerialProgramTwice(fs: Fs, probes: Probes, hashes: Hashes, entries: seq<FileEntry>,
                           digests: seq<nat>, jobs: seq<Job>, opts: Options,
                           probes': Probes, hashes': Hashes, entries': seq<FileEntry>, jobs': seq<Job>)
    requires Walked(fs, probes, entries) && CollisionFree(Contents(fs), hashes) && ByCloneForReal(opts)
    requires Takes(jobs, digests, Serial(hashes, Opened(probes, entries)).lists) && AllTaken(fs, jobs, opts)
    requires Walked(AllGroups(fs, jobs, opts).fs, probes', entries')
    requires SameDigests(fs, hashes, AllGroups(fs, jobs, opts).fs, hashes')
    requires OpenedPaths(probes', entries') == OpenedPaths(probes, entries)
    requires Takes(jobs', digests, Serial(hashes', Opened(probes', entries')).lists)
    ensures var first := AllGroups(fs, jobs, opts);
            var second := AllGroups(first.fs, jobs', opts);
            second.fs == first.fs && second.saved == 0 && second.already == first.saved + first.already
  {
    var first, files := AllGroups(fs, jobs, opts), Opened(probes, entries);
    var lists := Serial(hashes, files).lists;
    hide *;
    WalkIsSurveyed(fs, probes, hashes, entries);
    SerialIsGrouped(hashes, files);
    ListsArePrepared(fs, Contents(fs), hashes, files, lists, digests, jobs, opts);
    KeptByPhase(fs, jobs, opts);
    WalkedAgain(fs, first.fs, probes, entries, probes', entries');
    DigestsStay(fs, hashes, first.fs, hashes');
    SurveyIsCurrent(fs, Contents(fs), hashes, files);
    KeptFilesKeepKeys(fs, first.fs, files);
    SerialRefreshed(first.fs, hashes, files);
    SameListsRetaken(fs, jobs, opts, lists, digests, jobs');
    RunningAgainReplacesNothing(fs, jobs, opts, jobs');
  }

  lemma KeptByPhase(fs: Fs, jobs: seq<Job>, opts: Options)
    requires Sound(fs, jobs) && ByCloneForReal(opts)
    ensures KeepsFiles(fs, AllGroups(fs, jobs, opts).fs)
  {
    PhaseKeepsFiles(fs, jobs, opts);
  }

  lemma SurveyIsCurrent(fs: Fs, disk: Disk, hashes: Hashes, files: seq<FileMetadata>)
    requires Surveyed(fs, disk, hashes, files)
    ensures Current(fs, files)
  {
  }

  lemma SameListsRetaken(fs: Fs, jobs: seq<Job>, opts: Options, lists: Lists, digests: seq<nat>, jobs': seq<Job>)
    requires Takes(jobs, digests, lists) && Takes(jobs', digests, RefreshedLists(AllGroups(fs, jobs, opts).fs, lists))
    ensures Retaken(fs, jobs, opts, jobs')
  {
    hide AllGroups, Ready, Refreshed;
  }

  // ----- The program with threads -----

  lemma {:induction false} RefreshedReordered(fs: Fs, a: seq<FileMetadata>, b: seq<FileMetadata>)
    requires Reordered(a, b)
    ensures Reordered(Refreshed(fs, a), Refreshed(fs, b))
    decreases |a|
  {
    if a == [] {
      assert b == [];
    } else {
      assert a[0] in multiset(b);
      var i :| 0 <= i < |b| && b[i] == a[0];
      WithoutOne(a, 0);
      WithoutOne(b, i);
      RefreshedReordered(fs, Without(a, 0), Without(b, i));
      RefreshedWithout(fs, a, 0);
      RefreshedWithout(fs, b, i);
      hide Refresh, Without;
      ReorderedWith(Refreshed(fs, a), Refreshed(fs, b), 0, i);
    }
  }

  lemma RefreshedWithout(fs: Fs, a: seq<FileMetadata>, i: nat)
    requires i < |a|
    ensures Refreshed(fs, Without(a, i)) == Without(Refreshed(fs, a), i)
  {
    hide Refresh;
    assert Refreshed(fs, a)[..i] == Refreshed(fs, a[..i]);
    assert Refreshed(fs, a)[i + 1..] == Refreshed(fs, a[i + 1..]);
    assert Refreshed(fs, a[..i] + a[i + 1..]) == Refreshed(fs, a[..i]) + Refreshed(fs, a[i + 1..]);
  }

  lemma ReorderedWith(a: seq<FileMetadata>, b: seq<FileMetadata>, i: nat, j: nat)
    requires i < |a| && j < |b| && a[i] == b[j] && Reordered(Without(a, i), Without(b, j))
    ensures Reordered(a, b)
  {
    WithoutOne(a, i);
    WithoutOne(b, j);
    assert multiset(a) == multiset(Without(a, i)) + multiset{a[i]};
    assert multiset(b) == multiset(Without(b, j)) + multiset{b[j]};
  }

  /** The group of a digest, with metadata taken anew. */
  lemma {:induction false} GroupRefreshed(fs: Fs, hashes: Hashes, files: seq<FileMetadata>, k: nat)
    ensures Groups.Group(hashes, Refreshed(fs, files), k) == Refreshed(fs, Groups.Group(hashes, files, k))
  {
    if files != [] {
      var earlier, fm := files[..|files| - 1], files[|files| - 1];
      GroupRefreshed(fs, hashes, earlier, k);
      RefreshedFront(fs, files);
      GroupSnoc(hashes, Refreshed(fs, earlier), Refresh(fs, fm), k);
      assert Refresh(fs, fm).path == fm.path;
      if HasDigest(hashes, fm, k) {
        RefreshHashed(fs, hashes, fm);
        RefreshedSnoc(fs, Groups.Group(hashes, earlier, k), Hashed(hashes, fm));
      }
      hide Refresh, Refreshed, Hashed;
    }
  }

  lemma BucketRefreshed(fs: Fs, hashes: Hashes, files: seq<FileMetadata>, k: nat)
    requires SameKeys(fs, files) && OneBucket(hashes, files, k)
    ensures OneBucket(hashes, Refreshed(fs, files), k)
  {
    assert forall j :: 0 <= j < |files| ==> Refresh(fs, files[j]).path == files[j].path;
    hide Refresh;
  }

  /** On one device a list of the second run has the files of the list of the first, in any order,
      with metadata taken anew. */
  lemma ListAgain(fs: Fs, hashes: Hashes, files: seq<FileMetadata>, again: seq<FileMetadata>,
                  lists: Lists, lists': Lists, k: nat)
    requires SameKeys(fs, files) && OneBucket(hashes, files, k) && Reordered(Refreshed(fs, files), again)
    requires Exact(hashes, files, lists, k) && (OneBucket(hashes, again, k) ==> Exact(hashes, again, lists', k))
    ensures k in lists' <==> k in lists
    ensures k in lists ==> Reordered(Refreshed(fs, lists[k]), lists'[k])
  {
    BucketRefreshed(fs, hashes, files, k);
    OneBucketOfPermutation(hashes, Refreshed(fs, files), again, k);
    GroupOfPermutation(hashes, Refreshed(fs, files), again, k);
    GroupRefreshed(fs, hashes, files, k);
    var g, g' := Groups.Group(hashes, files, k), Groups.Group(hashes, again, k);
    hide OneBucket, SameKeys, Refresh, Groups.Group;
    SameFilesReordered(Refreshed(fs, g), g');
    if k in lists {
      SameFilesReordered(lists[k], g);
      SameFilesReordered(g', lists'[k]);
      RefreshedReordered(fs, lists[k], g);
    }
  }

  /** A group of the second run, whose files are those of a steady group of the first. */
  lemma {:induction false} TurnsAreIdle(end: Fs, jobs': seq<Job>, opts: Options)
    requires AllReady(jobs')
    requires forall j :: 0 <= j < |jobs'| ==> ReplacesNothing(opts, jobs'[j].group, jobs'[j].decision)
    ensures AllGroups(end, jobs', opts).fs == end && AllGroups(end, jobs', opts).saved == 0
  {
    if jobs' != [] {
      var n := |jobs'| - 1;
      assert Ready(jobs'[n]);
      LastGroup(end, jobs', opts);
      hide Ready, ReplacesNothing;
      TurnsAreIdle(end, jobs'[..n], opts);
      assert Ready(jobs'[n]) && ReplacesNothing(opts, jobs'[n].group, jobs'[n].decision);
      TurnIsIdle(end, jobs'[n], opts);
    }
  }

  lemma TurnIsIdle(fs: Fs, job: Job, opts: Options)
    requires Ready(job) && ReplacesNothing(opts, job.group, job.decision)
    ensures GroupRun(fs, job, opts).fs == fs && GroupRun(fs, job, opts).saved == 0
  {
    hide Chosen;
    IdleIff(fs, job.group, job.decision, opts, job.calls);
  }

  /** All groups were found steady by the run. */
  ghost predicate AllSteady(jobs: seq<Job>, opts: Options)
    requires AllReady(jobs)
  {
    forall i :: 0 <= i < |jobs| ==> SteadyFor(opts, jobs[i].group, jobs[i].decision)
  }

  /** A run: the files that were found, the lists made of them, and the groups as they are then taken. */
  datatype Pass = Pass(files: seq<FileMetadata>, lists: Lists, digests: seq<nat>, jobs: seq<Job>)

  /** A first run, with files of equal bytes on one device, all lists dealt with, and every
      replacement taken. */
  ghost predicate Dealt(fs: Fs, disk: Disk, hashes: Hashes, run: Pass, opts: Options) {
    OnOneDeviceEach(disk, hashes, run.files)
    && Takes(run.jobs, run.digests, run.lists) && (forall k :: k in run.lists ==> k in run.digests)
    && ByCloneForReal(opts) && AllTaken(fs, run.jobs, opts)
  }

  ghost predicate FirstRun(fs: Fs, disk: Disk, hashes: Hashes, run: Pass, opts: Options) {
    Surveyed(fs, disk, hashes, run.files) && Dealt(fs, disk, hashes, run, opts)
  }

  /** Equal files are on one device. */
  predicate OnOneDeviceEach(disk: Disk, hashes: Hashes, files: seq<FileMetadata>) {
    forall i :: 0 <= i < |files| && Hashable(hashes, files[i].path) ==> OneDevice(disk, hashes, files, files[i])
  }

  lemma BucketOfDigest(disk: Disk, hashes: Hashes, files: seq<FileMetadata>, k: nat)
    requires Described(disk, hashes, files) && OnOneDeviceEach(disk, hashes, files)
    ensures OneBucket(hashes, files, k)
  {
    if i :| 0 <= i < |files| && HasDigest(hashes, files[i], k) {
      OneBucketIffOneDevice(disk, hashes, files, i);
    }
  }

  /** A group is quiet once the first run is over, and not only once its turn is. */
  lemma QuietAtTheEnd(fs: Fs, jobs: seq<Job>, opts: Options, i: nat)
    requires Prepared(fs, jobs, opts) && ByCloneForReal(opts) && i < |jobs| && Ready(jobs[i])
    ensures QuietInAnyOrder(opts, Refreshed(AllGroups(fs, jobs, opts).fs, jobs[i].group)) <==>
            SteadyFor(opts, jobs[i].group, jobs[i].decision)
  {
    var before, job := Upto(fs, jobs, opts, i).fs, jobs[i];
    StaysCurrent(fs, jobs, opts, i);
    RefreshedLater(fs, jobs, opts, i);
    hide Upto, AllGroups, Deduplicated, Current, Refreshed, AllTake, QuietInAnyOrder, SteadyFor;
    FirstRunIsSteadyIff(before, job.group, job.decision, opts, job.calls);
  }

  /** Every list of the second run is one of the first, reordered. */
  lemma ListsAgain(fs: Fs, disk: Disk, hashes: Hashes, run: Pass, opts: Options,
                   again: seq<FileMetadata>, history: seq<FileMetadata>, lists': Lists, k: nat)
    requires FirstRun(fs, disk, hashes, run, opts) && Exact(hashes, run.files, run.lists, k)
    requires KeepsFiles(fs, AllGroups(fs, run.jobs, opts).fs)
    requires Reordered(Refreshed(AllGroups(fs, run.jobs, opts).fs, run.files), again)
    requires Grouped(hashes, history, lists', multiset{}) && multiset(history) == multiset(again) && k in lists'
    ensures k in run.lists && Reordered(Refreshed(AllGroups(fs, run.jobs, opts).fs, run.lists[k]), lists'[k])
  {
    var end := AllGroups(fs, run.jobs, opts).fs;
    KeptFilesKeepKeys(fs, end, run.files);
    BucketOfDigest(disk, hashes, run.files, k);
    hide OneBucket, Exact, Grouped, SameKeys, Reordered, Refreshed, AllGroups, Groups.Group;
    ExactForFiles(hashes, history, again, lists', k);
    ListAgain(end, hashes, run.files, again, run.lists, lists', k);
  }

  lemma SurveyedInAnyOrder(fs: Fs, disk: Disk, hashes: Hashes, files: seq<FileMetadata>, history: seq<FileMetadata>)
    requires Surveyed(fs, disk, hashes, files) && multiset(history) == multiset(files)
    ensures Surveyed(fs, disk, hashes, history)
  {
    OrderDoesNotRepeat(history, files);
    hide CollisionFree, Describes, Links, InPlace, Refresh, Regular;
    forall i | 0 <= i < |history|
      ensures history[i] in files
    {
      assert history[i] in multiset(files);
    }
  }

  /** The second phase would replace nothing, whatever it decides for the lists. */
  ghost predicate QuietRun(opts: Options, lists: Lists) {
    forall k, d :: k in lists && Chosen(lists[k], d) ==> ReplacesNothing(opts, lists[k], d)
  }

  lemma ListIsQuiet(fs: Fs, jobs: seq<Job>, opts: Options, i: nat, group: Origins.Group, d: Decision)
    requires Prepared(fs, jobs, opts) && ByCloneForReal(opts) && i < |jobs| && AllSteady(jobs, opts)
    requires Reordered(Refreshed(AllGroups(fs, jobs, opts).fs, jobs[i].group), group) && Chosen(group, d)
    ensures ReplacesNothing(opts, group, d)
  {
    assert Ready(jobs[i]) && SteadyFor(opts, jobs[i].group, jobs[i].decision);
    hide AllGroups, Prepared, Refreshed, Reordered, Chosen, SteadyFor, ReplacesNothing;
    QuietAtTheEnd(fs, jobs, opts, i);
  }

  /** What the first run leaves, with the lists at rest after `history`. */
  lemma FirstRunIsPrepared(fs: Fs, disk: Disk, hashes: Hashes, run: Pass, opts: Options, history: seq<FileMetadata>)
    requires FirstRun(fs, disk, hashes, run, opts)
    requires Grouped(hashes, history, run.lists, multiset{}) && multiset(history) == multiset(run.files)
    ensures Prepared(fs, run.jobs, opts) && KeepsFiles(fs, AllGroups(fs, run.jobs, opts).fs)
    ensures forall k :: Exact(hashes, run.files, run.lists, k)
  {
    SurveyedInAnyOrder(fs, disk, hashes, run.files, history);
    assert Described(disk, hashes, run.files);
    hide Surveyed, Grouped, AllGroups, KeepsFiles, Takes, AllTaken, OnOneDeviceEach, Exact, Described;
    ListsArePrepared(fs, disk, hashes, history, run.lists, run.digests, run.jobs, opts);
    PhaseKeepsFiles(fs, run.jobs, opts);
    forall k
      ensures Exact(hashes, run.files, run.lists, k)
    {
      BucketOfDigest(disk, hashes, run.files, k);
      ExactForFiles(hashes, history, run.files, run.lists, k);
    }
  }

  /** A second run finds nothing to replace, on lists at rest of the files in any order. */
  lemma FindsNothing(fs: Fs, disk: Disk, hashes: Hashes, run: Pass, opts: Options, history: seq<FileMetadata>,
                     again: seq<FileMetadata>, history': seq<FileMetadata>, lists': Lists)
    requires FirstRun(fs, disk, hashes, run, opts) && AllSteady(run.jobs, opts)
    requires Grouped(hashes, history, run.lists, multiset{}) && multiset(history) == multiset(run.files)
    requires Reordered(Refreshed(AllGroups(fs, run.jobs, opts).fs, run.files), again)
    requires Grouped(hashes, history', lists', multiset{}) && multiset(history') == multiset(again)
    ensures QuietRun(opts, lists')
  {
    FirstRunIsPrepared(fs, disk, hashes, run, opts, history);
    hide Surveyed, Grouped, Prepared, AllGroups, AllSteady, ReplacesNothing, Reordered, Refreshed, KeepsFiles, Chosen;
    hide AllTaken, OnOneDeviceEach, Exact;
    forall k, d | k in lists' && Chosen(lists'[k], d)
      ensures ReplacesNothing(opts, lists'[k], d)
    {
      ListsAgain(fs, disk, hashes, run, opts, again, history', lists', k);
      var i :| 0 <= i < |run.digests| && run.digests[i] == k;
      ListIsQuiet(fs, run.jobs, opts, i, lists'[k], d);
    }
  }

  lemma QuietRunIsIdle(end: Fs, lists: Lists, digests: seq<nat>, jobs: seq<Job>, opts: Options)
    requires QuietRun(opts, lists) && Takes(jobs, digests, lists)
    ensures AllGroups(end, jobs, opts).fs == end && AllGroups(end, jobs, opts).saved == 0
  {
    hide ReplacesNothing, AllGroups, Chosen;
    forall j | 0 <= j < |jobs|
      ensures Ready(jobs[j]) && ReplacesNothing(opts, jobs[j].group, jobs[j].decision)
    {
      assert Ready(jobs[j]) && digests[j] in lists;
    }
    TurnsAreIdle(end, jobs, opts);
  }

  /** A first phase: its input, the number of workers, and how they are scheduled. */
  datatype Scan = Scan(cfg: Config, entries: seq<FileEntry>, workers: nat, schedule: seq<nat>)

  function Ended(scan: Scan): State {
    Run(scan.cfg, scan.entries, scan.workers, scan.schedule)
  }

  function Found(scan: Scan): seq<FileMetadata> {
    Opened(scan.cfg.probes, scan.entries)
  }

  /** The scan has visited every entry, and the run goes on from it. */
  predicate Scanned(scan: Scan, run: Pass) {
    AllVisited(scan.entries, Ended(scan)) && run.files == Found(scan) && run.lists == Ended(scan).phase.lists
  }

  lemma ScanIsGrouped(scan: Scan, run: Pass)
    requires Scanned(scan, run)
    ensures Grouped(scan.cfg.hashes, Ended(scan).phase.history, run.lists, multiset{})
    ensures multiset(Ended(scan).phase.history) == multiset(run.files)
  {
    AtRest(scan.cfg, scan.entries, scan.workers, scan.schedule);
    OpenedOfPermutation(scan.cfg.probes, Ended(scan).seen, scan.entries);
    hide Run, Opened, Grouped;
  }

  /** The walk was truthful, and the scan has gone over all of it. */
  predicate Observed(fs: Fs, scan: Scan, run: Pass) {
    Scanned(scan, run) && Walked(fs, scan.cfg.probes, scan.entries)
  }

  /** A second scan, of what the first run left: the walk reports the same files, in any order. */
  ghost predicate ObservedAgain(fs: Fs, scan: Scan, end: Fs, scan': Scan, run': Pass) {
    Observed(end, scan', run')
    && SameDigests(fs, scan.cfg.hashes, end, scan'.cfg.hashes)
    && multiset(OpenedPaths(scan'.cfg.probes, scan'.entries)) == multiset(OpenedPaths(scan.cfg.probes, scan.entries))
  }

  lemma ObservedIsFirst(fs: Fs, scan: Scan, run: Pass, opts: Options)
    requires Observed(fs, scan, run) && CollisionFree(Contents(fs), scan.cfg.hashes)
    requires Dealt(fs, Contents(fs), scan.cfg.hashes, run, opts)
    ensures FirstRun(fs, Contents(fs), scan.cfg.hashes, run, opts)
    ensures Grouped(scan.cfg.hashes, Ended(scan).phase.history, run.lists, multiset{})
    ensures multiset(Ended(scan).phase.history) == multiset(run.files)
    ensures Prepared(fs, run.jobs, opts) && KeepsFiles(fs, AllGroups(fs, run.jobs, opts).fs)
  {
    WalkIsSurveyed(fs, scan.cfg.probes, scan.cfg.hashes, scan.entries);
    ScanIsGrouped(scan, run);
    hide Walked, Contents, Surveyed, Dealt, Ended, Grouped, AllVisited, KeepsFiles, AllGroups, CollisionFree, Opened;
    FirstRunIsPrepared(fs, Contents(fs), scan.cfg.hashes, run, opts, Ended(scan).phase.history);
  }

  lemma AgainIsReordered(fs: Fs, scan: Scan, run: Pass, end: Fs, scan': Scan, run': Pass)
    requires Observed(fs, scan, run) && CollisionFree(Contents(fs), scan.cfg.hashes) && KeepsFiles(fs, end)
    requires ObservedAgain(fs, scan, end, scan', run')
    ensures scan'.cfg.hashes == scan.cfg.hashes && Reordered(Refreshed(end, run.files), run'.files)
  {
    DigestsStay(fs, scan.cfg.hashes, end, scan'.cfg.hashes);
    WalkedAgain(fs, end, scan.cfg.probes, scan.entries, scan'.cfg.probes, scan'.entries);
    hide Walked, Contents, KeepsFiles, AllVisited, Opened, OpenedPaths, SameDigests, Ended, Refreshed, CollisionFree;
    SameFilesReordered(Refreshed(end, run.files), run'.files);
  }

  /** The program run twice, whatever the schedules of both runs and in whatever order the second
      meets the files and takes the lists, if files of equal bytes are on one device and every
      group was steady in the first run: the second run replaces nothing and saves nothing. */
  lemma ProgramTwiceReplacesNothing(fs: Fs, scan: Scan, run: Pass, opts: Options, scan': Scan, run': Pass)
    requires Observed(fs, scan, run) && CollisionFree(Contents(fs), scan.cfg.hashes)
    requires Dealt(fs, Contents(fs), scan.cfg.hashes, run, opts) && AllSteady(run.jobs, opts)
    requires ObservedAgain(fs, scan, AllGroups(fs, run.jobs, opts).fs, scan', run')
    requires Takes(run'.jobs, run'.digests, run'.lists)
    ensures var end := AllGroups(fs, run.jobs, opts).fs;
            AllGroups(end, run'.jobs, opts).fs == end && AllGroups(end, run'.jobs, opts).saved == 0
  {
    var end := AllGroups(fs, run.jobs, opts).fs;
    ObservedIsFirst(fs, scan, run, opts);
    AgainIsReordered(fs, scan, run, end, scan', run');
    assert Scanned(scan', run');
    hide *;
    ScanIsGrouped(scan', run');
    FindsNothing(fs, Contents(fs), scan.cfg.hashes, run, opts, Ended(scan).phase.history,
                 run'.files, Ended(scan').phase.history, run'.lists);
    QuietRunIsIdle(end, run'.lists, run'.digests, run'.jobs, opts);
  }

  /** Files with one name each that may be changed are steady in any group. */
  lemma SingleAndMutableIsAllSteady(jobs: seq<Job>, opts: Options)
    requires AllReady(jobs) && forall i :: 0 <= i < |jobs| ==> SingleAndMutable(jobs[i].group)
    ensures AllSteady(jobs, opts)
  {
    hide Chosen, SingleAndMutable, Steady;
    forall i | 0 <= i < |jobs|
      ensures Ready(jobs[i]) && SteadyFor(opts, jobs[i].group, jobs[i].decision)
    {
      assert Ready(jobs[i]);
      if jobs[i].decision.From? {
        SingleAndMutableIsSteady(opts, jobs[i].group, jobs[i].decision.origin);
      }
    }
  }

  // ----- Every order arises -----

  lemma {:induction false} EarliestOfBucket(hashes: Hashes, files: seq<FileMetadata>, b: Bucket, k: nat)
    requires forall i :: 0 <= i < |files| && HasDigest(hashes, files[i], k) ==> files[i].Key() == b
    ensures var g := Groups.Group(hashes, files, k);
            Earliest(hashes, files, b, k) == if g == [] then None else Some(g[0])
  {
    if files != [] {
      var earlier, fm := files[..|files| - 1], files[|files| - 1];
      EarliestOfBucket(hashes, earlier, b, k);
      assert HasDigest(hashes, fm, k) ==> Matches(hashes, fm, b, k);
    }
  }

  lemma VisitListsGroup(hashes: Hashes, s: Phase, fm: FileMetadata, k: nat, g: seq<FileMetadata>)
    requires (k in s.lists <==> |g| >= 2) && (k in s.lists ==> s.lists[k] == g)
    requires HasDigest(hashes, fm, k) ==> Twin(hashes, s.history, fm) == if g == [] then None else Some(g[0])
    ensures var lists, g' := Visit(hashes, s, fm).lists, g + Groups.Part(hashes, fm, k);
            (k in lists <==> |g'| >= 2) && (k in lists ==> lists[k] == g')
  {
    hide Earliest;
    if HasDigest(hashes, fm, k) && |g| == 1 {
      assert g == [g[0]];
    }
  }

  /** With files of one bucket, the serial list is the group in the order of the files. */
  lemma {:induction false} SerialListIsGroup(hashes: Hashes, files: seq<FileMetadata>, k: nat)
    requires OneBucket(hashes, files, k)
    ensures var lists, g := Serial(hashes, files).lists, Groups.Group(hashes, files, k);
            (k in lists <==> |g| >= 2) && (k in lists ==> lists[k] == g)
  {
    if files != [] {
      var earlier, fm := files[..|files| - 1], files[|files| - 1];
      assert files == earlier + [fm];
      BucketOfEarlier(hashes, files, k);
      hide Serial, Groups.Group, Earliest, OneBucket, Groups.Part, Visit;
      SerialListIsGroup(hashes, earlier, k);
      SerialHistory(hashes, earlier);
      SerialSnoc(hashes, earlier, fm);
      GroupSnoc(hashes, earlier, fm, k);
      VisitListsGroup(hashes, Serial(hashes, earlier), fm, k, Groups.Group(hashes, earlier, k));
    }
  }

  lemma BucketOfEarlier(hashes: Hashes, files: seq<FileMetadata>, k: nat)
    requires OneBucket(hashes, files, k) && files != []
    ensures var earlier, fm := files[..|files| - 1], files[|files| - 1];
            OneBucket(hashes, earlier, k)
            && var g := Groups.Group(hashes, earlier, k);
               HasDigest(hashes, fm, k) ==> Twin(hashes, earlier, fm) == if g == [] then None else Some(g[0])
  {
    var earlier, fm := files[..|files| - 1], files[|files| - 1];
    assert forall i :: 0 <= i < |earlier| ==> earlier[i] == files[i];
    hide Groups.Group, Earliest;
    if HasDigest(hashes, fm, k) {
      EarliestOfBucket(hashes, earlier, fm.Key(), k);
    }
  }

  lemma TakeOut(hashes: Hashes, files: seq<FileMetadata>, k: nat, x: FileMetadata)
    returns (fm: FileMetadata, rest: seq<FileMetadata>)
    requires x in Groups.Group(hashes, files, k)
    ensures Groups.Part(hashes, fm, k) == [x] && multiset(files) == multiset(rest) + multiset{fm}
    ensures multiset(Groups.Group(hashes, files, k)) == multiset(Groups.Group(hashes, rest, k)) + multiset{x}
  {
    GroupMembers(hashes, files, k);
    hide Groups.Group;
    var i :| 0 <= i < |files| && Hashable(hashes, files[i].path)
             && hashes[files[i].path] == k && x == Hashed(hashes, files[i]);
    fm := files[i];
    rest := Extract(hashes, files, i, k);
    assert fm in multiset(files);
  }

  lemma FrontReordered(whole: seq<FileMetadata>, rest: seq<FileMetadata>, front: seq<FileMetadata>, x: FileMetadata)
    requires Reordered(whole, front + [x]) && multiset(whole) == multiset(rest) + multiset{x}
    ensures Reordered(rest, front)
  {
    assert multiset(front + [x]) == multiset(front) + multiset{x};
    assert multiset(front) == multiset(whole) - multiset{x};
  }

  lemma LastReordered(files: seq<FileMetadata>, rest: seq<FileMetadata>, arranged: seq<FileMetadata>, fm: FileMetadata)
    requires Reordered(rest, arranged) && multiset(files) == multiset(rest) + multiset{fm}
    ensures Reordered(files, arranged + [fm])
  {
  }

  /** Any order of a group is that of some order of the files. */
  lemma {:induction false} Arrange(hashes: Hashes, files: seq<FileMetadata>, k: nat, group: seq<FileMetadata>)
    returns (arranged: seq<FileMetadata>)
    requires Reordered(Groups.Group(hashes, files, k), group)
    ensures Reordered(files, arranged) && Groups.Group(hashes, arranged, k) == group
    decreases |group|
  {
    SameMembers(Groups.Group(hashes, files, k), group);
    if group == [] {
      arranged := files;
    } else {
      var front, x := group[..|group| - 1], group[|group| - 1];
      assert group == front + [x];
      hide *;
      var fm, rest := TakeOut(hashes, files, k, x);
      FrontReordered(Groups.Group(hashes, files, k), Groups.Group(hashes, rest, k), front, x);
      var before := Arrange(hashes, rest, k, front);
      LastReordered(files, rest, before, fm);
      arranged := before + [fm];
      GroupSnoc(hashes, before, fm, k);
    }
  }

  /** What is not steady is replaced by a second run that meets the files in some order. */
  lemma UnsteadyIsReplaced(fs: Fs, disk: Disk, hashes: Hashes, run: Pass, opts: Options, i: nat)
    returns (again: seq<FileMetadata>)
    requires FirstRun(fs, disk, hashes, run, opts) && Prepared(fs, run.jobs, opts)
    requires KeepsFiles(fs, AllGroups(fs, run.jobs, opts).fs)
    requires i < |run.jobs| && Ready(run.jobs[i]) && !SteadyFor(opts, run.jobs[i].group, run.jobs[i].decision)
    requires Exact(hashes, run.files, run.lists, run.digests[i])
    ensures Reordered(Refreshed(AllGroups(fs, run.jobs, opts).fs, run.files), again)
    ensures !QuietRun(opts, Serial(hashes, again).lists)
  {
    var end, list, k := AllGroups(fs, run.jobs, opts).fs, run.jobs[i].group, run.digests[i];
    KeptFilesKeepKeys(fs, end, run.files);
    BucketOfDigest(disk, hashes, run.files, k);
    QuietAtTheEnd(fs, run.jobs, opts, i);
    var group, d :| Reordered(Refreshed(end, list), group) && Chosen(group, d) && !ReplacesNothing(opts, group, d);
    hide OneBucket, AllGroups, Refresh, Chosen, ReplacesNothing, SameKeys, Serial, FirstRun, Prepared, KeepsFiles;
    again := ArrangedAgain(end, hashes, run.files, list, k, group);
    assert Serial(hashes, again).lists[k] == group;
  }

  /** The files in an order in which the second run lists the group so. */
  lemma ArrangedAgain(end: Fs, hashes: Hashes, files: seq<FileMetadata>, list: seq<FileMetadata>, k: nat,
                      group: seq<FileMetadata>)
    returns (again: seq<FileMetadata>)
    requires SameKeys(end, files) && OneBucket(hashes, files, k) && |list| >= 2
    requires Reordered(Groups.Group(hashes, files, k), list) && Reordered(Refreshed(end, list), group)
    ensures Reordered(Refreshed(end, files), again)
    ensures k in Serial(hashes, again).lists && Serial(hashes, again).lists[k] == group
  {
    var renewed := Refreshed(end, files);
    BucketRefreshed(end, hashes, files, k);
    GroupRefreshed(end, hashes, files, k);
    RefreshedReordered(end, Groups.Group(hashes, files, k), list);
    assert Reordered(Groups.Group(hashes, renewed, k), group);
    again := Arrange(hashes, renewed, k, group);
    assert multiset(renewed) == multiset(again);
    hide *;
    OneBucketOfPermutation(hashes, renewed, again, k);
    SerialListIsGroup(hashes, again, k);
  }

  /** The second walk, if any, of the files that a first found: truthful, in any order. */
  predicate WalkedOver(fs: Fs, files: seq<FileMetadata>, probes: Probes, entries: seq<FileEntry>) {
    Walked(fs, probes, entries) && multiset(OpenedPaths(probes, entries)) == multiset(PathsOf(files))
  }

  /** The files refreshed, in any order, are what some such walk finds. */
  lemma OrderIsWalked(fs: Fs, end: Fs, scan: Scan, run: Pass, again: seq<FileMetadata>)
    requires Observed(fs, scan, run) && KeepsFiles(fs, end) && Reordered(Refreshed(end, run.files), again)
    ensures WalkedOver(end, run.files, AllProbes(end), EntriesFor(again))
    ensures Opened(AllProbes(end), EntriesFor(again)) == again
  {
    var renewed := Refreshed(end, run.files);
    FilesAreRecorded(fs, end, scan, run);
    hide Observed, KeepsFiles, Recorded, Refreshed, Walked, AllProbes, EntriesFor, OpenedPaths, Opened, PathsOf;
    SameMembers(renewed, again);
    OrderDoesNotRepeat(again, renewed);
    forall i | 0 <= i < |again|
      ensures Recorded(end, again[i])
    {
      assert again[i] in renewed;
    }
    EveryOrderIsWalked(end, again);
    PathsReordered(renewed, again);
  }

  lemma FilesAreRecorded(fs: Fs, end: Fs, scan: Scan, run: Pass)
    requires Observed(fs, scan, run) && KeepsFiles(fs, end)
    ensures var renewed := Refreshed(end, run.files);
            (forall i :: 0 <= i < |renewed| ==> Recorded(end, renewed[i])) && DistinctPaths(renewed)
            && PathsOf(renewed) == PathsOf(run.files)
  {
    OpenedIsRecorded(fs, scan.cfg.probes, scan.entries);
    OpenedOnce(fs, scan.cfg.probes, scan.entries);
    PathsAreDistinct(run.files);
    hide Walked, AllVisited, Ended, Opened, OpenedPaths, Recorded, KeepsFiles, Refresh;
    forall i | 0 <= i < |run.files|
      ensures Recorded(end, Refresh(end, run.files[i])) && Refresh(end, run.files[i]).path == run.files[i].path
    {
      RecordAgain(fs, end, run.files[i]);
    }
  }

  lemma {:induction false} PathsReordered(a: seq<FileMetadata>, b: seq<FileMetadata>)
    requires Reordered(a, b)
    ensures multiset(PathsOf(a)) == multiset(PathsOf(b))
    decreases |a|
  {
    if a != [] {
      assert a[0] in multiset(b);
      var i :| 0 <= i < |b| && b[i] == a[0];
      WithoutOne(a, 0);
      WithoutOne(b, i);
      PathsReordered(Without(a, 0), Without(b, i));
      PathsWithout(a, 0);
      PathsWithout(b, i);
    }
  }

  lemma PathsWithout(a: seq<FileMetadata>, i: nat)
    requires i < |a|
    ensures multiset(PathsOf(a)) == multiset(PathsOf(Without(a, i))) + multiset{a[i].path}
  {
    assert PathsOf(Without(a, i)) == PathsOf(a)[..i] + PathsOf(a)[i + 1..];
    assert PathsOf(a) == PathsOf(a)[..i] + [a[i].path] + PathsOf(a)[i + 1..];
  }

  /** After a first run with any schedule, a second run finds nothing to replace, in whatever order
      its walk reports the files, if and only if the first run found every group steady. The second
      run is the serial one; by `ProgramTwiceReplacesNothing` it may as well be any other. */
  lemma QuietTwiceIff(fs: Fs, scan: Scan, run: Pass, opts: Options)
    requires Observed(fs, scan, run) && CollisionFree(Contents(fs), scan.cfg.hashes)
    requires Dealt(fs, Contents(fs), scan.cfg.hashes, run, opts)
    ensures AllSteady(run.jobs, opts) <==>
            forall probes', entries' ::
              WalkedOver(AllGroups(fs, run.jobs, opts).fs, run.files, probes', entries') ==>
                QuietRun(opts, Serial(scan.cfg.hashes, Opened(probes', entries')).lists)
  {
    var end := AllGroups(fs, run.jobs, opts).fs;
    ObservedIsFirst(fs, scan, run, opts);
    if AllSteady(run.jobs, opts) {
      forall probes', entries' | WalkedOver(end, run.files, probes', entries')
        ensures QuietRun(opts, Serial(scan.cfg.hashes, Opened(probes', entries')).lists)
      {
        SteadyIsQuiet(fs, scan, run, opts, probes', entries');
      }
    } else {
      var again := SomeOrderIsNot(fs, scan, run, opts);
      OrderIsWalked(fs, end, scan, run, again);
    }
  }

  lemma SteadyIsQuiet(fs: Fs, scan: Scan, run: Pass, opts: Options, probes': Probes, entries': seq<FileEntry>)
    requires Observed(fs, scan, run) && FirstRun(fs, Contents(fs), scan.cfg.hashes, run, opts)
    requires Grouped(scan.cfg.hashes, Ended(scan).phase.history, run.lists, multiset{})
    requires multiset(Ended(scan).phase.history) == multiset(run.files)
    requires KeepsFiles(fs, AllGroups(fs, run.jobs, opts).fs) && AllSteady(run.jobs, opts)
    requires WalkedOver(AllGroups(fs, run.jobs, opts).fs, run.files, probes', entries')
    ensures QuietRun(opts, Serial(scan.cfg.hashes, Opened(probes', entries')).lists)
  {
    var end, again := AllGroups(fs, run.jobs, opts).fs, Opened(probes', entries');
    OpenedIsRecorded(fs, scan.cfg.probes, scan.entries);
    WalkedAgain(fs, end, scan.cfg.probes, scan.entries, probes', entries');
    assert multiset(Refreshed(end, run.files)) == multiset(again);
    hide *;
    SameFilesReordered(Refreshed(end, run.files), again);
    SerialIsGrouped(scan.cfg.hashes, again);
    FindsNothing(fs, Contents(fs), scan.cfg.hashes, run, opts, Ended(scan).phase.history,
                 again, again, Serial(scan.cfg.hashes, again).lists);
  }

  lemma SomeUnsteady(jobs: seq<Job>, opts: Options) returns (i: nat)
    requires AllReady(jobs) && !AllSteady(jobs, opts)
    ensures i < |jobs| && Ready(jobs[i]) && !SteadyFor(opts, jobs[i].group, jobs[i].decision)
  {
    hide Chosen, SteadyFor;
    i :| 0 <= i < |jobs| && Ready(jobs[i]) && !SteadyFor(opts, jobs[i].group, jobs[i].decision);
  }

  lemma SomeOrderIsNot(fs: Fs, scan: Scan, run: Pass, opts: Options) returns (again: seq<FileMetadata>)
    requires FirstRun(fs, Contents(fs), scan.cfg.hashes, run, opts)
    requires Grouped(scan.cfg.hashes, Ended(scan).phase.history, run.lists, multiset{})
    requires multiset(Ended(scan).phase.history) == multiset(run.files) && !AllSteady(run.jobs, opts)
    ensures Reordered(Refreshed(AllGroups(fs, run.jobs, opts).fs, run.files), again)
    ensures !QuietRun(opts, Serial(scan.cfg.hashes, again).lists)
  {
    var i := SomeUnsteady(run.jobs, opts);
    assert i < |run.digests|;
    hide *;
    FirstRunIsPrepared(fs, Contents(fs), scan.cfg.hashes, run, opts, Ended(scan).phase.history);
    again := UnsteadyIsReplaced(fs, Contents(fs), scan.cfg.hashes, run, opts, i);
  }
}
