/** Whatever the schedule, the duplicate lists end up holding exactly the groups of equal files. */
module ProtocolGroups {
  import opened Types
  import opened Twins
  import opened Duplicates
  import opened Visiting
  import opened Grouping
  import opened Groups
  import opened Exactness
  import opened Protocol
  import opened ProtocolQueue
  import opened ProtocolJoin
  import opened ProtocolFlight

  // ----- The end of the first phase -----

  /** Every entry has been visited. */
  predicate AllVisited(entries: seq<FileEntry>, s: State) {
    multiset(s.finished) == multiset(entries)
  }

  lemma {:induction false} TotalSize<T>(ws: seq<Worker>, f: Worker -> multiset<T>, w: nat)
    requires w < |ws|
    requires Total(ws, f) == multiset{}
    ensures f(ws[w]) == multiset{}
  {
    TotalContains(ws, f, w);
    assert f(ws[w]) <= multiset{};
  }

  lemma {:induction false} TotalShrinks(ws: seq<Worker>)
    requires Total(ws, Carries) == multiset{}
    ensures Total(ws, Unseen) == multiset{} && Total(ws, Flies) == multiset{}
  {
    forall w | 0 <= w < |ws|
      ensures Unseen(ws[w]) == multiset{} && Flies(ws[w]) == multiset{}
    {
      TotalSize(ws, Carries, w);
    }
    TotalOfNothing(ws, Unseen);
    TotalOfNothing(ws, Flies);
  }

  /** Once every entry is visited, nothing is in flight, and the history is a permutation of
      the entries that could be opened. */
  lemma AtRest(cfg: Config, entries: seq<FileEntry>, n: nat, schedule: seq<nat>)
    requires AllVisited(entries, Run(cfg, entries, n, schedule))
    ensures var s := Run(cfg, entries, n, schedule);
            multiset(s.seen) == multiset(entries)
            && s.phase.history == Opened(cfg.probes, s.seen)
            && Grouped(cfg.hashes, s.phase.history, s.phase.lists, multiset{})
  {
    var s := Run(cfg, entries, n, schedule);
    AlwaysConserved(cfg, entries, n, schedule);
    AlwaysConsistent(cfg, entries, n, schedule);
    hide Run, Grouped, AllOk;
    assert multiset(s.popped + s.queue + s.pending) ==
           multiset(s.popped) + multiset(s.queue) + multiset(s.pending);
    assert |Total(s.workers, Carries)| == 0 by {
      assert |multiset(entries)| == |entries| && |multiset(s.popped)| == |s.popped|;
      assert |multiset(s.finished) + Total(s.workers, Carries)| ==
             |multiset(s.finished)| + |Total(s.workers, Carries)|;
    }
    assert |s.queue| == 0 && |s.pending| == 0;
    TotalShrinks(s.workers);
    assert multiset(s.seen) + multiset{} == multiset(s.seen);
  }

  /** Once the producer has joined every worker, nothing is in flight, even if entries were left
      behind: those visited and the `rest` make up all entries. */
  lemma JoinedIsAtRest(cfg: Config, entries: seq<FileEntry>, n: nat, schedule: seq<nat>) returns (rest: seq<FileEntry>)
    requires Run(cfg, entries, n, schedule).producer == Returned
    ensures var s := Run(cfg, entries, n, schedule);
            multiset(s.seen + rest) == multiset(entries)
            && s.phase.history == Opened(cfg.probes, s.seen)
            && Grouped(cfg.hashes, s.phase.history, s.phase.lists, multiset{})
  {
    var s := Run(cfg, entries, n, schedule);
    AlwaysJoinable(cfg, entries, n, schedule);
    AlwaysConserved(cfg, entries, n, schedule);
    AlwaysConsistent(cfg, entries, n, schedule);
    ExitedHoldNothing(s.workers);
    hide Run, Grouped, AllOk, Opened, Total;
    rest := s.queue + s.pending;
    SameTogether(s.popped, s.seen, rest);
    assert entries == s.popped + rest;
  }

  lemma ExitedHoldNothing(ws: seq<Worker>)
    requires forall w :: 0 <= w < |ws| ==> ws[w] == Exited
    ensures Total(ws, Unseen) == multiset{} && Total(ws, Flies) == multiset{}
  {
    TotalOfNothing(ws, Unseen);
    TotalOfNothing(ws, Flies);
  }

  lemma SameTogether<T>(a: seq<T>, b: seq<T>, rest: seq<T>)
    requires multiset(a) == multiset(b) + multiset{}
    ensures multiset(a + rest) == multiset(b + rest)
  {
  }

  lemma ExtractEntry(probes: Probes, entries: seq<FileEntry>, i: nat) returns (rest: seq<FileEntry>)
    requires i < |entries|
    ensures |rest| == |entries| - 1 && multiset(rest) == multiset(entries) - multiset{entries[i]}
    ensures multiset(Opened(probes, entries)) ==
            multiset(Opened(probes, rest)) + Bag(MetadataFromEntry(probes, entries[i]))
  {
    var left, right := entries[..i], entries[i + 1..];
    rest := left + right;
    assert entries == (left + [entries[i]]) + right;
    OpenedConcat(probes, left + [entries[i]], right);
    OpenedSnoc(probes, left, entries[i]);
    OpenedConcat(probes, left, right);
  }

  lemma {:induction false} OpenedConcat(probes: Probes, a: seq<FileEntry>, b: seq<FileEntry>)
    ensures Opened(probes, a + b) == Opened(probes, a) + Opened(probes, b)
  {
    if b == [] {
      assert a + b == a;
    } else {
      var most, last := b[..|b| - 1], b[|b| - 1];
      assert a + b == (a + most) + [last];
      OpenedSnoc(probes, a + most, last);
      OpenedConcat(probes, a, most);
    }
  }

  lemma {:induction false} OpenedOfPermutation(probes: Probes, a: seq<FileEntry>, b: seq<FileEntry>)
    requires multiset(a) == multiset(b)
    ensures multiset(Opened(probes, a)) == multiset(Opened(probes, b))
    decreases |a|
  {
    if a == [] {
      assert |multiset(a)| == 0 && |multiset(b)| == |b|;
      return;
    }
    hide Opened;
    assert a[0] in multiset(b);
    var i :| 0 <= i < |b| && b[i] == a[0];
    var a' := ExtractEntry(probes, a, 0);
    var b' := ExtractEntry(probes, b, i);
    OpenedOfPermutation(probes, a', b');
  }

  /** Files that match are matched by the same files in any order. */
  lemma OneBucketOfPermutation(hashes: Hashes, a: seq<FileMetadata>, b: seq<FileMetadata>, k: nat)
    requires multiset(a) == multiset(b) && OneBucket(hashes, a, k)
    ensures OneBucket(hashes, b, k)
  {
    forall i, j | 0 <= i < |b| && 0 <= j < |b| && HasDigest(hashes, b[i], k) && HasDigest(hashes, b[j], k)
      ensures b[i].Key() == b[j].Key()
    {
      assert b[i] in multiset(a) && b[j] in multiset(a);
      var i' :| 0 <= i' < |a| && a[i'] == b[i];
      var j' :| 0 <= j' < |a| && a[j'] == b[j];
    }
  }

  /** The lists at rest are right for any order of the files inserted. */
  lemma ExactForFiles(hashes: Hashes, history: seq<FileMetadata>, files: seq<FileMetadata>, lists: Lists, k: nat)
    requires Grouped(hashes, history, lists, multiset{}) && multiset(history) == multiset(files)
    ensures Exact(hashes, files, lists, k) <==> OneBucket(hashes, files, k)
    ensures OneBucket(hashes, files, k) && k in lists ==> lists[k] != [] && [lists[k][0]] <= Group(hashes, history, k)
  {
    GroupOfPermutation(hashes, history, files, k);
    if OneBucket(hashes, history, k) {
      OneBucketOfPermutation(hashes, history, files, k);
      ListsAtRest(hashes, history, lists, k);
    } else if OneBucket(hashes, files, k) {
      OneBucketOfPermutation(hashes, files, history, k);
    }
    ExactIffOneBucket(hashes, history, lists, k);
    hide Grouped, OneBucket, Group;
    SizeOfBag(Group(hashes, history, k), Group(hashes, files, k));
  }

  /** The result of the first phase, for every schedule that visits all entries. The list of a
      digest is exactly the group of its files, which means that it exists when there are two of
      them and holds each once, if and only if all of them belong to one bucket; and then it starts
      with the one inserted first. */
  lemma {:induction false} GroupsForEverySchedule(cfg: Config, entries: seq<FileEntry>, n: nat,
                                                  schedule: seq<nat>, k: nat)
    requires AllVisited(entries, Run(cfg, entries, n, schedule))
    ensures var s, files := Run(cfg, entries, n, schedule), Opened(cfg.probes, entries);
            (Exact(cfg.hashes, files, s.phase.lists, k) <==> OneBucket(cfg.hashes, files, k))
            && (OneBucket(cfg.hashes, files, k) && k in s.phase.lists ==>
                  s.phase.lists[k] != [] && [s.phase.lists[k][0]] <= Group(cfg.hashes, s.phase.history, k))
  {
    var s := Run(cfg, entries, n, schedule);
    AtRest(cfg, entries, n, schedule);
    OpenedOfPermutation(cfg.probes, s.seen, entries);
    hide Run, Grouped, OneBucket, Group, Opened;
    ExactForFiles(cfg.hashes, s.phase.history, Opened(cfg.probes, entries), s.phase.lists, k);
  }

  /** Once the producer has joined every worker, the same holds of the entries that were seen, even
      if others were left behind. */
  lemma GroupsAtJoin(cfg: Config, entries: seq<FileEntry>, n: nat, schedule: seq<nat>, k: nat)
    requires Run(cfg, entries, n, schedule).producer == Returned
    ensures var s := Run(cfg, entries, n, schedule);
            var files := Opened(cfg.probes, s.seen);
            Exact(cfg.hashes, files, s.phase.lists, k) <==> OneBucket(cfg.hashes, files, k)
  {
    var s := Run(cfg, entries, n, schedule);
    var _ := JoinedIsAtRest(cfg, entries, n, schedule);
    hide Run, Grouped, OneBucket, Group, Opened;
    ExactIffOneBucket(cfg.hashes, s.phase.history, s.phase.lists, k);
  }

  /** Any two schedules that visit every entry, and the serial run, find the same groups. */
  lemma {:induction false} SchedulesAgree(cfg: Config, entries: seq<FileEntry>, n: nat, schedule: seq<nat>, k: nat)
    requires AllVisited(entries, Run(cfg, entries, n, schedule))
    requires OneBucket(cfg.hashes, Opened(cfg.probes, entries), k)
    ensures var lists := Run(cfg, entries, n, schedule).phase.lists;
            var serial := Serial(cfg.hashes, Opened(cfg.probes, entries)).lists;
            (k in lists <==> k in serial) && (k in lists ==> multiset(lists[k]) == multiset(serial[k]))
  {
    var files := Opened(cfg.probes, entries);
    hide Run, Grouped, OneBucket, Serial, Group, Opened;
    GroupsForEverySchedule(cfg, entries, n, schedule, k);
    SerialIsGrouped(cfg.hashes, files);
    ListsAtRest(cfg.hashes, files, Serial(cfg.hashes, files).lists, k);
  }

  /** On any number of buckets, a list exists exactly when one of them has two files of the digest,
      and it misses one file of every bucket but the one it starts with. */
  lemma ListMissesOnePerBucket(cfg: Config, entries: seq<FileEntry>, n: nat, schedule: seq<nat>, k: nat)
    requires AllVisited(entries, Run(cfg, entries, n, schedule))
    ensures var s := Run(cfg, entries, n, schedule);
            var group, buckets := Group(cfg.hashes, s.phase.history, k), Buckets(cfg.hashes, s.phase.history, k);
            (k in s.phase.lists <==> |group| > |buckets|)
            && (k in s.phase.lists ==> |s.phase.lists[k]| == |group| - |buckets| + 1)
  {
    var s := Run(cfg, entries, n, schedule);
    AtRest(cfg, entries, n, schedule);
    hide Run, Group, Buckets, LosersOf;
    ListSize(cfg.hashes, s.phase.history, s.phase.lists, k);
    CountsAddUp(cfg.hashes, s.phase.history, k);
    if k in s.phase.lists {
      ListHasTwo(cfg.hashes, s.phase.history, s.phase.lists, k);
    }
  }

  // ----- In terms of bytes -----

  /** Another readable file has the bytes of the file at `i`. */
  predicate HasEqual(disk: Disk, hashes: Hashes, files: seq<FileMetadata>, i: nat)
    requires i < |files|
  {
    exists j :: 0 <= j < |files| && j != i && EqualTo(disk, hashes, files[j], files[i])
  }

  /** The list is what comparing bytes would give: it exists when another readable file is equal to
      the one at `i`, and then holds exactly the readable files equal to it, each once. */
  ghost predicate RightlyListed(disk: Disk, hashes: Hashes, files: seq<FileMetadata>, lists: Lists, i: nat)
    requires i < |files| && Hashable(hashes, files[i].path)
  {
    var k := hashes[files[i].path];
    (k in lists <==> HasEqual(disk, hashes, files, i))
    && (k in lists ==>
          DistinctPaths(lists[k])
          && forall x :: x in lists[k] <==>
                         exists j :: 0 <= j < |files| && EqualTo(disk, hashes, files[j], files[i])
                                     && x == Hashed(hashes, files[j]))
  }

  ghost predicate Described(disk: Disk, hashes: Hashes, files: seq<FileMetadata>) {
    CollisionFree(disk, hashes) && DistinctPaths(files) && forall j :: 0 <= j < |files| ==> Describes(disk, files[j])
  }

  /** The promise of the first phase. Take entries with distinct paths, whose sizes, first and last
      bytes are those of the files, and a collision-free digest. After any schedule that visits them
      all, the files equal to a readable file are listed exactly as comparing bytes would list them
      if and only if they are all on its device. */
  lemma EqualFilesAreGrouped(disk: Disk, cfg: Config, entries: seq<FileEntry>, n: nat, schedule: seq<nat>, i: nat)
    requires AllVisited(entries, Run(cfg, entries, n, schedule))
    requires Described(disk, cfg.hashes, Opened(cfg.probes, entries))
    requires i < |Opened(cfg.probes, entries)| && Hashable(cfg.hashes, Opened(cfg.probes, entries)[i].path)
    ensures var files, lists := Opened(cfg.probes, entries), Run(cfg, entries, n, schedule).phase.lists;
            RightlyListed(disk, cfg.hashes, files, lists, i) <==> OneDevice(disk, cfg.hashes, files, files[i])
  {
    var files, lists := Opened(cfg.probes, entries), Run(cfg, entries, n, schedule).phase.lists;
    var k := cfg.hashes[files[i].path];
    GroupsForEverySchedule(cfg, entries, n, schedule, k);
    OneBucketIffOneDevice(disk, cfg.hashes, files, i);
    hide Run, Opened, OneBucket, OneDevice, Group, RightlyListed, Exact;
    ExactIsRightlyListed(disk, cfg.hashes, files, lists, i);
  }

  lemma ExactIsRightlyListed(disk: Disk, hashes: Hashes, files: seq<FileMetadata>, lists: Lists, i: nat)
    requires Described(disk, hashes, files) && i < |files| && Hashable(hashes, files[i].path)
    ensures Exact(hashes, files, lists, hashes[files[i].path]) <==> RightlyListed(disk, hashes, files, lists, i)
  {
    var k := hashes[files[i].path];
    var g := Group(hashes, files, k);
    GroupPaths(hashes, files, k);
    GroupIsEqualFiles(disk, hashes, files, i);
    hide Group, EqualTo, HasEqual, CollisionFree, Describes;
    if k in lists {
      SameFiles(lists[k], g);
    }
  }

  /** For files with distinct paths, the same members are the same multiset. */
  lemma SameFiles(a: seq<FileMetadata>, b: seq<FileMetadata>)
    requires DistinctPaths(b)
    ensures multiset(a) == multiset(b) <==> DistinctPaths(a) && forall x :: x in a <==> x in b
  {
    if multiset(a) == multiset(b) {
      OrderDoesNotRepeat(a, b);
      forall x
        ensures x in a <==> x in b
      {
        assert x in multiset(a) <==> x in multiset(b);
      }
    }
    if DistinctPaths(a) && forall x :: x in a <==> x in b {
      forall x
        ensures multiset(a)[x] == multiset(b)[x]
      {
        DistinctMeansOnce(a, x);
        DistinctMeansOnce(b, x);
        assert (x in multiset(a) <==> x in a) && (x in multiset(b) <==> x in b);
      }
    }
  }

  lemma GroupIsEqualFiles(disk: Disk, hashes: Hashes, files: seq<FileMetadata>, i: nat)
    requires CollisionFree(disk, hashes) && DistinctPaths(files)
    requires i < |files| && Hashable(hashes, files[i].path)
    ensures var g := Group(hashes, files, hashes[files[i].path]);
            (forall x :: x in g <==> exists j :: 0 <= j < |files| && EqualTo(disk, hashes, files[j], files[i])
                                                 && x == Hashed(hashes, files[j]))
            && (|g| >= 2 <==> HasEqual(disk, hashes, files, i))
  {
    var g := Group(hashes, files, hashes[files[i].path]);
    GroupMeansContent(disk, hashes, files, files[i]);
    GroupPaths(hashes, files, hashes[files[i].path]);
    hide Group, CollisionFree;
    forall x
      ensures x in g <==> exists j :: 0 <= j < |files| && EqualTo(disk, hashes, files[j], files[i])
                                      && x == Hashed(hashes, files[j])
    {
      if x in g {
        var j :| 0 <= j < |files| && Hashable(hashes, files[j].path)
                 && disk[files[j].path] == disk[files[i].path] && x == Hashed(hashes, files[j]);
        assert EqualTo(disk, hashes, files[j], files[i]);
      }
    }
    assert EqualTo(disk, hashes, files[i], files[i]);
    hide EqualTo, Hashable;
    TwoMembers(disk, hashes, files, i, g);
  }

  lemma TwoMembers(disk: Disk, hashes: Hashes, files: seq<FileMetadata>, i: nat, g: seq<FileMetadata>)
    requires DistinctPaths(files) && DistinctPaths(g)
    requires i < |files| && EqualTo(disk, hashes, files[i], files[i])
    requires forall x :: x in g <==> exists j :: 0 <= j < |files| && EqualTo(disk, hashes, files[j], files[i])
                                                 && x == Hashed(hashes, files[j])
    ensures |g| >= 2 <==> HasEqual(disk, hashes, files, i)
  {
    if |g| >= 2 {
      var x := if g[0].path == files[i].path then g[1] else g[0];
      assert x in g;
      var j :| 0 <= j < |files| && EqualTo(disk, hashes, files[j], files[i]) && x == Hashed(hashes, files[j]);
      assert j != i;
    }
    if HasEqual(disk, hashes, files, i) {
      var j :| 0 <= j < |files| && j != i && EqualTo(disk, hashes, files[j], files[i]);
      var x, y := Hashed(hashes, files[i]), Hashed(hashes, files[j]);
      assert x in g && y in g && x.path != y.path;
      var p :| 0 <= p < |g| && g[p] == x;
      var q :| 0 <= q < |g| && g[q] == y;
    }
  }

  // ----- Several devices -----

  lemma {:induction false} LosersAreHashed(hashes: Hashes, history: seq<FileMetadata>, x: FileMetadata)
    requires x in Losers(hashes, history)
    ensures Hashable(hashes, x.path) && hashes[x.path] == x.sha256
  {
    var earlier, fm := history[..|history| - 1], history[|history| - 1];
    if x in Losers(hashes, earlier) {
      LosersAreHashed(hashes, earlier, x);
    }
  }

  lemma {:induction false} LosersHaveTwins(hashes: Hashes, history: seq<FileMetadata>, i: nat)
    requires i < |history| && Twin(hashes, history[..i], history[i]).Some?
    ensures Hashed(hashes, history[i]) in Losers(hashes, history)
  {
    if i < |history| - 1 {
      assert history[..|history| - 1][..i] == history[..i];
      LosersHaveTwins(hashes, history[..|history| - 1], i);
    }
  }

  lemma ListedAreHashed(hashes: Hashes, history: seq<FileMetadata>, lists: Lists, k: nat, x: FileMetadata)
    requires Grouped(hashes, history, lists, multiset{}) && k in lists && x in lists[k]
    ensures Hashable(hashes, x.path) && hashes[x.path] == k
  {
    assert WellFiled(hashes, history, k, lists[k]);
    hide Earliest;
    assert lists[k] == [lists[k][0]] + lists[k][1..];
    if x == lists[k][0] {
      EarliestIsHashed(hashes, history, x.Key(), k);
    } else {
      assert x in lists[k][1..];
      assert TailCount(lists, x) == Losers(hashes, history)[x];
      LosersAreHashed(hashes, history, x);
    }
  }

  lemma TwinsAreListed(hashes: Hashes, history: seq<FileMetadata>, lists: Lists, i: nat)
    requires Grouped(hashes, history, lists, multiset{})
    requires i < |history| && Twin(hashes, history[..i], history[i]).Some?
    ensures var x := Hashed(hashes, history[i]); x.sha256 in lists && x in lists[x.sha256]
  {
    LosersHaveTwins(hashes, history, i);
    var x := Hashed(hashes, history[i]);
    hide Earliest, Losers;
    assert TailCount(lists, x) == Losers(hashes, history)[x];
  }

  /** On any number of devices, after any schedule that visits every entry: every file on a list
      has the list's digest, and every file that had an earlier readable twin on its own device
      is on the list of its digest. */
  lemma SoundOnSeveralDevices(cfg: Config, entries: seq<FileEntry>, n: nat, schedule: seq<nat>)
    requires AllVisited(entries, Run(cfg, entries, n, schedule))
    ensures var s := Run(cfg, entries, n, schedule);
            (forall k: nat, x: FileMetadata :: k in s.phase.lists && x in s.phase.lists[k] ==>
                              Hashable(cfg.hashes, x.path) && cfg.hashes[x.path] == k)
            && forall i :: 0 <= i < |s.phase.history|
                           && Twin(cfg.hashes, s.phase.history[..i], s.phase.history[i]).Some? ==>
                             var x := Hashed(cfg.hashes, s.phase.history[i]);
                             x.sha256 in s.phase.lists && x in s.phase.lists[x.sha256]
  {
    var s := Run(cfg, entries, n, schedule);
    AtRest(cfg, entries, n, schedule);
    hide Run, Grouped, Earliest;
    var history, lists := s.phase.history, s.phase.lists;
    forall k: nat, x: FileMetadata | k in lists && x in lists[k]
      ensures Hashable(cfg.hashes, x.path) && cfg.hashes[x.path] == k
    {
      ListedAreHashed(cfg.hashes, history, lists, k, x);
    }
    forall i | 0 <= i < |history| && Twin(cfg.hashes, history[..i], history[i]).Some?
      ensures var x := Hashed(cfg.hashes, history[i]); x.sha256 in lists && x in lists[x.sha256]
    {
      TwinsAreListed(cfg.hashes, history, lists, i);
    }
  }

  /** The same in bytes: two files on a list are equal, and every readable file for which an
      earlier one on its own device is equal is listed. */
  lemma EqualOnSeveralDevices(disk: Disk, cfg: Config, entries: seq<FileEntry>, n: nat, schedule: seq<nat>)
    requires AllVisited(entries, Run(cfg, entries, n, schedule))
    requires CollisionFree(disk, cfg.hashes)
    requires forall j :: 0 <= j < |Opened(cfg.probes, entries)| ==> Describes(disk, Opened(cfg.probes, entries)[j])
    ensures var s := Run(cfg, entries, n, schedule);
            (forall k: nat, x: FileMetadata, y: FileMetadata ::
               k in s.phase.lists && x in s.phase.lists[k] && y in s.phase.lists[k] ==> EqualTo(disk, cfg.hashes, x, y))
            && forall i, j :: 0 <= j < i < |s.phase.history| && Hashable(cfg.hashes, s.phase.history[i].path)
                              && SameFile(disk, cfg.hashes, s.phase.history[j], s.phase.history[i]) ==>
                                var x := Hashed(cfg.hashes, s.phase.history[i]);
                                x.sha256 in s.phase.lists && x in s.phase.lists[x.sha256]
  {
    var s := Run(cfg, entries, n, schedule);
    var history, lists := s.phase.history, s.phase.lists;
    SoundOnSeveralDevices(cfg, entries, n, schedule);
    AtRest(cfg, entries, n, schedule);
    OpenedOfPermutation(cfg.probes, s.seen, entries);
    hide Run, Opened, Grouped, Describes, AllVisited;
    forall i | 0 <= i < |history|
      ensures Describes(disk, history[i])
    {
      assert history[i] in multiset(Opened(cfg.probes, entries));
    }
    forall k: nat, x: FileMetadata, y: FileMetadata | k in lists && x in lists[k] && y in lists[k]
      ensures EqualTo(disk, cfg.hashes, x, y)
    {
      assert Hashable(cfg.hashes, x.path) && Hashable(cfg.hashes, y.path);
    }
    forall i, j | 0 <= j < i < |history| && Hashable(cfg.hashes, history[i].path)
                  && SameFile(disk, cfg.hashes, history[j], history[i])
      ensures var x := Hashed(cfg.hashes, history[i]); x.sha256 in lists && x in lists[x.sha256]
    {
      EqualIsTwin(disk, cfg.hashes, history, i, j);
    }
  }

  lemma EqualIsTwin(disk: Disk, hashes: Hashes, history: seq<FileMetadata>, i: nat, j: nat)
    requires CollisionFree(disk, hashes) && forall m :: 0 <= m < |history| ==> Describes(disk, history[m])
    requires j < i < |history| && Hashable(hashes, history[i].path) && SameFile(disk, hashes, history[j], history[i])
    ensures Twin(hashes, history[..i], history[i]).Some?
  {
    assert history[..i][j] == history[j];
    TwinIsEarliestEqualFile(disk, hashes, history[..i], history[i]);
  }

  /** Exact groups do need one device: with two equal files on each of two devices the list
      misses the third file, because its device has no twin for it yet, although the list is
      keyed by the digest alone. */
  lemma SecondDeviceLosesItsFirst(hashes: Hashes, a: FileMetadata, a': FileMetadata,
                                  b: FileMetadata, b': FileMetadata, k: nat)
    requires k != 0 && Hashable(hashes, a.path) && hashes[a.path] == k
    requires Hashable(hashes, a'.path) && hashes[a'.path] == k
    requires Hashable(hashes, b.path) && hashes[b.path] == k
    requires Hashable(hashes, b'.path) && hashes[b'.path] == k
    requires a.Key() == a'.Key() && b.Key() == b'.Key() && a.device != b.device
    ensures var lists := Serial(hashes, [a, a', b, b']).lists;
            k in lists && lists[k] == [Hashed(hashes, a), Hashed(hashes, a'), Hashed(hashes, b')]
  {
    PairOnOneDevice(hashes, a, a', k);
    EarliestSnoc(hashes, [], a, b.Key(), k);
    EarliestSnoc(hashes, [a], a', b.Key(), k);
    EarliestSnoc(hashes, [a, a'], b, b.Key(), k);
    assert [] + [a] == [a] && [a] + [a'] == [a, a'] && [a, a'] + [b] == [a, a', b]
           && [a, a', b] + [b'] == [a, a', b, b'];
    hide Earliest, Serial;
    SerialSnoc(hashes, [a, a'], b);
    SerialSnoc(hashes, [a, a', b], b');
    SerialHistory(hashes, [a, a']);
    SerialHistory(hashes, [a, a', b]);
    assert Serial(hashes, [a, a', b]).lists == Serial(hashes, [a, a']).lists;
  }

  lemma PairOnOneDevice(hashes: Hashes, a: FileMetadata, a': FileMetadata, k: nat)
    requires k != 0 && HasDigest(hashes, a, k) && HasDigest(hashes, a', k) && a.Key() == a'.Key()
    ensures Serial(hashes, [a, a']).lists == map[k := [Hashed(hashes, a), Hashed(hashes, a')]]
  {
    EarliestSnoc(hashes, [], a, a.Key(), k);
    assert [] + [a] == [a] && [a] + [a'] == [a, a'];
    SerialSnoc(hashes, [], a);
    SerialSnoc(hashes, [a], a');
    assert Serial(hashes, [a]) == Phase([a], map[], 0);
    assert Twin(hashes, [a], a') == Some(Hashed(hashes, a));
    assert [Hashed(hashes, a)] + [Hashed(hashes, a')] == [Hashed(hashes, a), Hashed(hashes, a')];
  }
}
