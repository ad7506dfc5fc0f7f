/** The second phase over all groups: exactly when no name reads other bytes than before. */
module PhaseTwo {
  import opened Types
  import opened RelativePaths
  import opened PathChars
  import opened FileSystem
  import opened Replacing
  import opened Origins
  import opened Deduplication

  /** Every regular name outside `touched` leads to the same, unchanged inode. */
  ghost predicate Stays(fs: Fs, fs': Fs, touched: set<Path>) {
    forall p :: Regular(fs, p) && p !in touched ==>
                  Regular(fs', p) && fs'.names[p] == fs.names[p] && At(fs', p) == At(fs, p)
  }

  lemma StaysChain(a: Fs, b: Fs, c: Fs, s: set<Path>, t: set<Path>)
    requires Stays(a, b, s) && Stays(b, c, t)
    ensures Stays(a, c, s + t)
  {
  }

  // ----- One file -----

  /** Calls that do not lose the file: cloning stages it, while a link is made after the unlink,
      and a hard link only on one device. */
  predicate Harmless(opts: Options, origin: FileMetadata, fm: FileMetadata, calls: Calls)
    requires origin.path != [] && fm.path != []
  {
    match opts.mode
    case ByClone => true
    case ByLink => calls.unlinkOk ==> calls.linkOk && origin.device == fm.device
    case BySymlink => calls.unlinkOk ==> calls.realOk && Fits(fm.path, origin.path) && calls.symlinkOk
  }

  /** A regular file, on the device that its record names. */
  predicate InPlace(fs: Fs, fm: FileMetadata) {
    IsFilePath(fm.path) && Regular(fs, fm.path) && At(fs, fm.path).device == fm.device
  }

  /** Two regular files with equal bytes under different names. */
  predicate Interchangeable(fs: Fs, origin: FileMetadata, fm: FileMetadata) {
    InPlace(fs, origin) && InPlace(fs, fm) && origin.path != fm.path
    && At(fs, origin.path).content == At(fs, fm.path).content
  }

  lemma UntouchedStays(fs: Fs, s: Fs, stage: Path)
    requires Untouched(fs, s, stage) && !Exists(fs, stage)
    ensures Stays(fs, s, {})
  {
    if Regular(fs, stage) {
      RegularExists(fs, stage);
    }
    hide Exists;
  }

  lemma ReplacedStays(fs: Fs, s: Fs, src: Path, dst: Path)
    requires Replaced(fs, s, src, dst)
    ensures Stays(fs, s, {dst})
  {
  }

  lemma CloneTouchesOne(fs: Fs, src: Path, dst: Path, preserve: bool, sc: CloneScript)
    requires src != [] && dst != []
    ensures Stays(fs, Last(CloneRun(fs, src, dst, preserve, sc)), {dst})
  {
    var r, stage := CloneRun(fs, src, dst, preserve, sc), Staging(dst);
    StagedSafety(fs, src, dst, preserve, sc);
    hide CloneRun, Staging, Exists, Untouched, Replaced;
    if r.code == 0 {
      ReplacedStays(fs, Last(r), src, dst);
    } else if r.states != [fs] {
      UntouchedStays(fs, Last(r), stage);
    }
  }

  /** Whatever fails, one attempt changes no other regular file. */
  lemma AttemptTouchesOne(fs: Fs, src: Path, dst: Path, opts: Options, calls: Calls)
    requires src != [] && dst != []
    ensures Stays(fs, Last(Attempt(fs, src, dst, opts, calls)), {dst})
  {
    if opts.mode == ByClone {
      CloneTouchesOne(fs, src, dst, opts.preserveParentMtime, calls.clone);
    }
    hide CloneRun;
  }

  /** One attempt keeps what every name reads exactly when its calls are harmless. */
  lemma AttemptKeepsBytes(fs: Fs, origin: FileMetadata, fm: FileMetadata, opts: Options, calls: Calls)
    requires Interchangeable(fs, origin, fm)
    ensures KeepsBytes(fs, Last(Attempt(fs, origin.path, fm.path, opts, calls))) <==> Harmless(opts, origin, fm, calls)
  {
    var src, dst := origin.path, fm.path;
    match opts.mode
    case ByClone =>
      var sc := calls.clone;
      CloneKeepsBytes(fs, src, dst, opts.preserveParentMtime, sc,
                      |CloneRun(fs, src, dst, opts.preserveParentMtime, sc).states| - 1);
    case ByLink => LinkKeepsBytesIff(fs, src, dst, calls.unlinkOk, calls.linkOk);
    case BySymlink => SymlinkKeepsBytesIff(fs, src, dst, calls.realOk, calls.unlinkOk, calls.symlinkOk);
  }

  /** With links, names only ever go, and the one that a harmful attempt removes stays away. */
  lemma LinksAddNoName(fs: Fs, origin: FileMetadata, fm: FileMetadata, opts: Options, calls: Calls)
    requires origin.path != [] && fm.path != [] && opts.mode != ByClone
    ensures var s := Last(Attempt(fs, origin.path, fm.path, opts, calls));
            s.names.Keys <= fs.names.Keys
            && (Interchangeable(fs, origin, fm) && !Harmless(opts, origin, fm, calls) ==> fm.path !in s.names)
  {
    hide Relative, Joined;
  }

  /** With links, no name comes to read what it did not, whatever fails. */
  lemma LinksReadNothingNew(fs: Fs, origin: FileMetadata, fm: FileMetadata, opts: Options, calls: Calls)
    requires Interchangeable(fs, origin, fm) && opts.mode != ByClone
    ensures KeepsBytes(Last(Attempt(fs, origin.path, fm.path, opts, calls)), fs)
  {
    var src, dst := origin.path, fm.path;
    var r := Attempt(fs, src, dst, opts, calls);
    var s := Last(r);
    if r.code == 0 && opts.mode == BySymlink {
      SymlinkReplaces(fs, src, dst);
      LessReadsAlike(fs, s, dst);
    } else if r.code == 1 {
      KeepsBytesSelf(fs);
    } else {
      LessReadsAlike(fs, s, dst);
    }
  }

  // ----- One group -----

  /** Regular files with the same bytes, all under different names and where their records say. */
  predicate Copies(fs: Fs, group: Group) {
    (forall i :: 0 <= i < |group| ==> InPlace(fs, group[i]))
    && (forall i :: 0 <= i < |group| ==> At(fs, group[i].path).content == At(fs, group[0].path).content)
    && forall i, j :: 0 <= i < j < |group| ==> group[i].path != group[j].path
  }

  predicate Attempted(opts: Options, group: Group, o: nat, i: nat)
    requires o < |group| && i < |group|
  {
    i != o && Judge(opts, group[o], group[i]) == Replaceable && !opts.dryRun
  }

  /** The paths of the files that are replaced among the first `n`. */
  function Touched(opts: Options, group: Group, o: nat, n: nat): set<Path>
    requires o < |group| && n <= |group|
  {
    set i | 0 <= i < n && Attempted(opts, group, o, i) :: group[i].path
  }

  predicate Spared(opts: Options, group: Group, o: nat, calls: seq<Calls>, i: nat)
    requires o < |group| == |calls| && i < |group| && Named(group)
  {
    Attempted(opts, group, o, i) ==> Harmless(opts, group[o], group[i], calls[i])
  }

  lemma TouchedGrows(opts: Options, group: Group, o: nat, n: nat)
    requires o < |group| && n < |group|
    ensures Touched(opts, group, o, n + 1) ==
            Touched(opts, group, o, n) + if Attempted(opts, group, o, n) then {group[n].path} else {}
  {
    hide Attempted;
  }

  /** What one more file does to the file system. */
  lemma OneMoreFile(fs: Fs, group: Group, o: nat, opts: Options, calls: seq<Calls>, n: nat)
    requires o < |group| == |calls| && n < |group| && Named(group)
    ensures var before := Through(fs, group, o, opts, calls, n).fs;
            Through(fs, group, o, opts, calls, n + 1).fs ==
            if Attempted(opts, group, o, n) then Last(Attempt(before, group[o].path, group[n].path, opts, calls[n]))
            else before
  {
    hide Judge, Attempt;
  }

  /** Whatever fails, no regular file but those attempted is touched. */
  lemma {:induction false} ThroughTouches(fs: Fs, group: Group, o: nat, opts: Options, calls: seq<Calls>, n: nat)
    requires o < |group| == |calls| && n <= |group| && Named(group)
    ensures Stays(fs, Through(fs, group, o, opts, calls, n).fs, Touched(opts, group, o, n))
  {
    if n > 0 {
      var m := n - 1;
      ThroughTouches(fs, group, o, opts, calls, m);
      OneMoreFile(fs, group, o, opts, calls, m);
      TouchedGrows(opts, group, o, m);
      var before := Through(fs, group, o, opts, calls, m).fs;
      hide Through, Attempted, Attempt, Stays, Touched;
      if Attempted(opts, group, o, m) {
        var after := Last(Attempt(before, group[o].path, group[m].path, opts, calls[m]));
        AttemptTouchesOne(before, group[o].path, group[m].path, opts, calls[m]);
        StaysChain(fs, before, after, Touched(opts, group, o, m), {group[m].path});
      }
    }
  }

  /** When its turn comes a file is still what it was, and so is the origin. */
  lemma StaysInterchangeable(fs: Fs, group: Group, o: nat, opts: Options, calls: seq<Calls>, n: nat)
    requires o < |group| == |calls| && n < |group| && n != o && Named(group) && Copies(fs, group)
    ensures Interchangeable(Through(fs, group, o, opts, calls, n).fs, group[o], group[n])
  {
    ThroughTouches(fs, group, o, opts, calls, n);
    hide Attempted, Through;
    assert group[o].path !in Touched(opts, group, o, n) by {
      assert forall i :: 0 <= i < n && Attempted(opts, group, o, i) ==> i != o by {
        OriginIsNotAttempted(opts, group, o);
      }
    }
    assert group[n].path !in Touched(opts, group, o, n);
  }

  lemma OriginIsNotAttempted(opts: Options, group: Group, o: nat)
    requires o < |group|
    ensures !Attempted(opts, group, o, o)
  {
  }

  /** One group keeps what every name reads exactly when the calls for every file attempted are
      harmless: in clone mode, always. */
  lemma {:induction false} ThroughKeepsBytes(fs: Fs, group: Group, o: nat, opts: Options, calls: seq<Calls>, n: nat)
    requires o < |group| == |calls| && n <= |group| && Named(group) && Copies(fs, group)
    requires forall i :: 0 <= i < n ==> Spared(opts, group, o, calls, i)
    ensures KeepsBytes(fs, Through(fs, group, o, opts, calls, n).fs)
  {
    KeepsBytesSelf(fs);
    if n > 0 {
      var m := n - 1;
      ThroughKeepsBytes(fs, group, o, opts, calls, m);
      OneMoreFile(fs, group, o, opts, calls, m);
      assert Spared(opts, group, o, calls, m);
      var before, after := Through(fs, group, o, opts, calls, m).fs, Through(fs, group, o, opts, calls, n).fs;
      if Attempted(opts, group, o, m) {
        StaysInterchangeable(fs, group, o, opts, calls, m);
        hide Through, Copies, KeepsBytes, Harmless, Interchangeable, Attempt, Judge;
        AttemptKeepsBytes(before, group[o], group[m], opts, calls[m]);
        KeepsBytesChain(fs, before, after);
      }
    }
  }

  lemma {:induction false} ThroughReadsNothingNew(fs: Fs, group: Group, o: nat, opts: Options,
                                                  calls: seq<Calls>, n: nat)
    requires o < |group| == |calls| && n <= |group| && Named(group) && Copies(fs, group) && opts.mode != ByClone
    ensures KeepsBytes(Through(fs, group, o, opts, calls, n).fs, fs)
  {
    KeepsBytesSelf(fs);
    if n > 0 {
      var m := n - 1;
      ThroughReadsNothingNew(fs, group, o, opts, calls, m);
      OneMoreFile(fs, group, o, opts, calls, m);
      var before, after := Through(fs, group, o, opts, calls, m).fs, Through(fs, group, o, opts, calls, n).fs;
      if Attempted(opts, group, o, m) {
        StaysInterchangeable(fs, group, o, opts, calls, m);
        hide Through, Copies, KeepsBytes, Interchangeable, Attempt, Judge;
        LinksReadNothingNew(before, group[o], group[m], opts, calls[m]);
        KeepsBytesChain(after, before, fs);
      }
    }
  }

  /** With links, what goes stays away, and a file that is not spared goes. */
  lemma {:induction false} ThroughAddsNoName(fs: Fs, group: Group, o: nat, opts: Options, calls: seq<Calls>, n: nat)
    requires o < |group| == |calls| && n <= |group| && Named(group) && opts.mode != ByClone
    ensures Through(fs, group, o, opts, calls, n).fs.names.Keys <= fs.names.Keys
  {
    if n > 0 {
      var m := n - 1;
      ThroughAddsNoName(fs, group, o, opts, calls, m);
      OneMoreFile(fs, group, o, opts, calls, m);
      hide Attempted, Attempt, Through;
      if Attempted(opts, group, o, m) {
        LinksAddNoName(Through(fs, group, o, opts, calls, m).fs, group[o], group[m], opts, calls[m]);
      }
    }
  }

  lemma {:induction false} ThroughLoses(fs: Fs, group: Group, o: nat, opts: Options, calls: seq<Calls>, n: nat, i: nat)
    requires o < |group| == |calls| && i < n <= |group| && Named(group) && Copies(fs, group)
    requires !Spared(opts, group, o, calls, i)
    ensures group[i].path !in Through(fs, group, o, opts, calls, n).fs.names
  {
    var m := n - 1;
    OneMoreFile(fs, group, o, opts, calls, m);
    var before := Through(fs, group, o, opts, calls, m).fs;
    if i < m {
      ThroughLoses(fs, group, o, opts, calls, m, i);
    } else {
      StaysInterchangeable(fs, group, o, opts, calls, m);
    }
    hide Attempt, Through, Copies, Judge;
    LinksAddNoName(before, group[o], group[m], opts, calls[m]);
  }

  // ----- All groups -----

  /** No path is in two groups. */
  predicate Disjoint(jobs: seq<Job>) {
    forall i, j, k, l :: 0 <= i < j < |jobs| && 0 <= k < |jobs[i].group| && 0 <= l < |jobs[j].group| ==>
                           jobs[i].group[k].path != jobs[j].group[l].path
  }

  /** The groups are right about the file system. */
  ghost predicate Sound(fs: Fs, jobs: seq<Job>): (yes: bool)
    ensures yes ==> AllReady(jobs)
  {
    Disjoint(jobs) && AllReady(jobs) && forall i :: 0 <= i < |jobs| ==> Copies(fs, jobs[i].group)
  }

  /** The calls for every file attempted in the group are harmless. */
  ghost predicate SparedBy(job: Job, opts: Options)
    requires Ready(job)
  {
    job.decision.From? ==>
      forall i :: 0 <= i < |job.group| ==> Spared(opts, job.group, job.decision.origin, job.calls, i)
  }

  ghost function TouchedBy(job: Job, opts: Options): set<Path>
    requires Ready(job)
  {
    if job.decision.From? then Touched(opts, job.group, job.decision.origin, |job.group|) else {}
  }

  ghost function TouchedByAll(jobs: seq<Job>, opts: Options): set<Path>
    requires AllReady(jobs)
  {
    if jobs == [] then {}
    else
      assert Ready(jobs[|jobs| - 1]);
      TouchedByAll(jobs[..|jobs| - 1], opts) + TouchedBy(jobs[|jobs| - 1], opts)
  }

  ghost function GroupRun(fs: Fs, job: Job, opts: Options): Progress
    requires Ready(job)
  {
    Deduplicated(fs, job.group, job.decision, opts, job.calls)
  }

  lemma LastGroup(fs: Fs, jobs: seq<Job>, opts: Options)
    requires AllReady(jobs) && jobs != []
    ensures var before, job := AllGroups(fs, jobs[..|jobs| - 1], opts), jobs[|jobs| - 1];
            AllGroups(fs, jobs, opts) ==
            var p := GroupRun(before.fs, job, opts); Sum(p.fs, before.saved + p.saved, before.already + p.already)
  {
    hide Deduplicated, Ready;
  }

  /** What one group does: it touches no regular file but those attempted, it keeps what every
      name reads exactly when they are spared, and with links it adds no name. */
  lemma GroupTouches(fs: Fs, job: Job, opts: Options)
    requires Ready(job)
    ensures Stays(fs, GroupRun(fs, job, opts).fs, TouchedBy(job, opts))
    ensures opts.mode != ByClone ==> GroupRun(fs, job, opts).fs.names.Keys <= fs.names.Keys
  {
    hide Chosen, Through, Touched, Named;
    if job.decision.From? {
      ThroughTouches(fs, job.group, job.decision.origin, opts, job.calls, |job.group|);
      if opts.mode != ByClone {
        ThroughAddsNoName(fs, job.group, job.decision.origin, opts, job.calls, |job.group|);
      }
    }
  }

  lemma GroupKeepsBytes(fs: Fs, job: Job, opts: Options)
    requires Ready(job) && Copies(fs, job.group) && SparedBy(job, opts)
    ensures KeepsBytes(fs, GroupRun(fs, job, opts).fs)
  {
    KeepsBytesSelf(fs);
    hide Chosen, KeepsBytes, Through, Copies, Spared;
    if job.decision.From? {
      ThroughKeepsBytes(fs, job.group, job.decision.origin, opts, job.calls, |job.group|);
    }
  }

  lemma {:induction false} PhaseTouches(fs: Fs, jobs: seq<Job>, opts: Options)
    requires AllReady(jobs)
    ensures Stays(fs, AllGroups(fs, jobs, opts).fs, TouchedByAll(jobs, opts))
  {
    if jobs != [] {
      var n := |jobs| - 1;
      PhaseTouches(fs, jobs[..n], opts);
      LastGroup(fs, jobs, opts);
      var before := AllGroups(fs, jobs[..n], opts).fs;
      assert Ready(jobs[n]);
      assert TouchedByAll(jobs, opts) == TouchedByAll(jobs[..n], opts) + TouchedBy(jobs[n], opts);
      hide Ready, Stays, AllGroups, TouchedBy, TouchedByAll, GroupRun;
      GroupTouches(before, jobs[n], opts);
      StaysChain(fs, before, GroupRun(before, jobs[n], opts).fs,
                 TouchedByAll(jobs[..n], opts), TouchedBy(jobs[n], opts));
    }
  }

  /** Only members are touched, only those that are not immutable, and only those of single-link
      metadata unless forced. */
  lemma {:induction false} TouchedIsMember(jobs: seq<Job>, opts: Options, p: Path)
    requires AllReady(jobs) && p in TouchedByAll(jobs, opts)
    ensures exists i, k :: 0 <= i < |jobs| && 0 <= k < |jobs[i].group| && jobs[i].group[k].path == p
                           && (opts.force || jobs[i].group[k].nlink <= 1) && !Immutable(jobs[i].group[k])
  {
    hide Ready, Chosen, Immutable;
    var n := |jobs| - 1;
    if p in TouchedByAll(jobs[..n], opts) {
      TouchedIsMember(jobs[..n], opts, p);
      var i, k :| 0 <= i < n && 0 <= k < |jobs[..n][i].group| && jobs[..n][i].group[k].path == p
                  && (opts.force || jobs[..n][i].group[k].nlink <= 1) && !Immutable(jobs[..n][i].group[k]);
      assert jobs[i].group[k].path == p;
    } else {
      assert Ready(jobs[n]) && p in TouchedBy(jobs[n], opts);
      var k :| 0 <= k < |jobs[n].group| && jobs[n].group[k].path == p
               && (opts.force || jobs[n].group[k].nlink <= 1) && !Immutable(jobs[n].group[k]);
    }
  }

  /** A group is still what it was when its turn comes, whatever failed before. */
  lemma CopiesStay(fs: Fs, jobs: seq<Job>, opts: Options)
    requires jobs != [] && Sound(fs, jobs)
    ensures Copies(AllGroups(fs, jobs[..|jobs| - 1], opts).fs, jobs[|jobs| - 1].group)
  {
    var n := |jobs| - 1;
    PhaseTouches(fs, jobs[..n], opts);
    hide Ready, AllGroups;
    assert Copies(fs, jobs[n].group);
    forall k | 0 <= k < |jobs[n].group|
      ensures jobs[n].group[k].path !in TouchedByAll(jobs[..n], opts)
    {
      var p := jobs[n].group[k].path;
      if p in TouchedByAll(jobs[..n], opts) {
        TouchedIsMember(jobs[..n], opts, p);
        assert false;
      }
    }
    hide TouchedByAll;
  }

  lemma {:induction false} SparedKeepsBytes(fs: Fs, jobs: seq<Job>, opts: Options)
    requires Sound(fs, jobs) && forall i :: 0 <= i < |jobs| ==> SparedBy(jobs[i], opts)
    ensures KeepsBytes(fs, AllGroups(fs, jobs, opts).fs)
  {
    KeepsBytesSelf(fs);
    if jobs != [] {
      var n := |jobs| - 1;
      SparedKeepsBytes(fs, jobs[..n], opts);
      CopiesStay(fs, jobs, opts);
      LastGroup(fs, jobs, opts);
      var before := AllGroups(fs, jobs[..n], opts).fs;
      assert Ready(jobs[n]) && SparedBy(jobs[n], opts);
      hide Ready, Copies, Disjoint, SparedBy, KeepsBytes, AllGroups, GroupRun;
      GroupKeepsBytes(before, jobs[n], opts);
      KeepsBytesChain(fs, before, GroupRun(before, jobs[n], opts).fs);
    }
  }

  /** A file that is not spared is gone, and stays away, whatever comes later. */
  lemma {:induction false} PhaseLoses(fs: Fs, jobs: seq<Job>, opts: Options, i: nat, k: nat)
    requires Sound(fs, jobs) && i < |jobs| && Ready(jobs[i]) && jobs[i].decision.From? && k < |jobs[i].group|
    requires !Spared(opts, jobs[i].group, jobs[i].decision.origin, jobs[i].calls, k)
    ensures jobs[i].group[k].path !in AllGroups(fs, jobs, opts).fs.names
  {
    var n := |jobs| - 1;
    assert Ready(jobs[n]);
    hide *;
    PrefixIsSound(fs, jobs, n);
    LastGroup(fs, jobs, opts);
    var before := AllGroups(fs, jobs[..n], opts).fs;
    NotSparedIsLinked(jobs[i], opts, k);
    if i < n {
      PhaseLoses(fs, jobs[..n], opts, i, k);
      GroupTouches(before, jobs[n], opts);
    } else {
      CopiesStay(fs, jobs, opts);
      GroupLoses(before, jobs[n], opts, k);
    }
  }

  lemma NotSparedIsLinked(job: Job, opts: Options, k: nat)
    requires Ready(job) && job.decision.From? && k < |job.group|
    requires !Spared(opts, job.group, job.decision.origin, job.calls, k)
    ensures opts.mode != ByClone
  {
  }

  lemma GroupLoses(fs: Fs, job: Job, opts: Options, k: nat)
    requires Ready(job) && job.decision.From? && k < |job.group| && Copies(fs, job.group)
    requires !Spared(opts, job.group, job.decision.origin, job.calls, k)
    ensures job.group[k].path !in GroupRun(fs, job, opts).fs.names
  {
    hide Chosen, Copies, Spared;
    ThroughLoses(fs, job.group, job.decision.origin, opts, job.calls, |job.group|, k);
  }

  /** Over all groups and any order of them, the second phase keeps what every name reads exactly
      when the calls for every file attempted are harmless. In clone mode they always are. */
  lemma PhaseKeepsBytesIff(fs: Fs, jobs: seq<Job>, opts: Options)
    requires Sound(fs, jobs)
    ensures KeepsBytes(fs, AllGroups(fs, jobs, opts).fs) <==> forall i :: 0 <= i < |jobs| ==> SparedBy(jobs[i], opts)
    ensures opts.mode == ByClone || opts.dryRun ==> KeepsBytes(fs, AllGroups(fs, jobs, opts).fs)
  {
    if forall i :: 0 <= i < |jobs| ==> SparedBy(jobs[i], opts) {
      SparedKeepsBytes(fs, jobs, opts);
    } else {
      var i :| 0 <= i < |jobs| && !SparedBy(jobs[i], opts);
      assert Ready(jobs[i]) && Copies(fs, jobs[i].group);
      var k :| 0 <= k < |jobs[i].group| && !Spared(opts, jobs[i].group, jobs[i].decision.origin, jobs[i].calls, k);
      PhaseLoses(fs, jobs, opts, i, k);
      GoneIsLost(fs, AllGroups(fs, jobs, opts).fs, jobs[i].group[k].path);
    }
  }

  lemma GroupReadsNothingNew(fs: Fs, job: Job, opts: Options)
    requires Ready(job) && Copies(fs, job.group) && opts.mode != ByClone
    ensures KeepsBytes(GroupRun(fs, job, opts).fs, fs)
  {
    KeepsBytesSelf(fs);
    hide Chosen, KeepsBytes, Through, Copies;
    if job.decision.From? {
      ThroughReadsNothingNew(fs, job.group, job.decision.origin, opts, job.calls, |job.group|);
    }
  }

  lemma {:induction false} LinkingReadsNothingNew(fs: Fs, jobs: seq<Job>, opts: Options)
    requires Sound(fs, jobs) && opts.mode != ByClone
    ensures KeepsBytes(AllGroups(fs, jobs, opts).fs, fs)
  {
    KeepsBytesSelf(fs);
    if jobs != [] {
      var n := |jobs| - 1;
      LinkingReadsNothingNew(fs, jobs[..n], opts);
      CopiesStay(fs, jobs, opts);
      LastGroup(fs, jobs, opts);
      var before := AllGroups(fs, jobs[..n], opts).fs;
      assert Ready(jobs[n]);
      hide Ready, Copies, Disjoint, KeepsBytes, AllGroups, GroupRun;
      GroupReadsNothingNew(before, jobs[n], opts);
      KeepsBytesChain(GroupRun(before, jobs[n], opts).fs, before, fs);
    }
  }

  /** In every mode and whatever fails, a name that can be read afterwards does not read other
      bytes than before: what is lost is missing, never wrong. */
  lemma PhaseReadsNothingElse(fs: Fs, jobs: seq<Job>, opts: Options)
    requires Sound(fs, jobs)
    ensures ReadsNothingElse(fs, AllGroups(fs, jobs, opts).fs)
  {
    if opts.mode == ByClone {
      PhaseKeepsBytesIff(fs, jobs, opts);
    } else {
      LinkingReadsNothingNew(fs, jobs, opts);
    }
    hide *;
    KeepingReadsNothingElse(fs, AllGroups(fs, jobs, opts).fs);
  }

  /** Every unlink(2) and every link(2) that can work does. */
  predicate LinksWork(jobs: seq<Job>) {
    forall i, k :: 0 <= i < |jobs| && 0 <= k < |jobs[i].calls| ==>
                     jobs[i].calls[k].unlinkOk && jobs[i].calls[k].linkOk
  }

  /** Every file attempted is on the device of its origin. */
  ghost predicate OnOriginsDevice(jobs: seq<Job>, opts: Options)
    requires AllReady(jobs)
  {
    forall i :: 0 <= i < |jobs| ==> GroupOnOriginsDevice(jobs[i], opts)
  }

  ghost predicate GroupOnOriginsDevice(job: Job, opts: Options)
    requires Ready(job)
  {
    job.decision.From? ==>
      forall k :: 0 <= k < |job.group| && Attempted(opts, job.group, job.decision.origin, k) ==>
                    job.group[k].device == job.group[job.decision.origin].device
  }

  lemma SparedOnOneDevice(job: Job, opts: Options)
    requires Ready(job) && opts.mode == ByLink
    requires forall k :: 0 <= k < |job.calls| ==> job.calls[k].unlinkOk && job.calls[k].linkOk
    ensures SparedBy(job, opts) <==> GroupOnOriginsDevice(job, opts)
  {
    hide Chosen, Attempted;
    if job.decision.From? {
      forall k | 0 <= k < |job.group|
        ensures Spared(opts, job.group, job.decision.origin, job.calls, k) <==>
                (Attempted(opts, job.group, job.decision.origin, k) ==>
                   job.group[k].device == job.group[job.decision.origin].device)
      {
      }
    }
  }

  /** Hard links between devices are what loses files: when every call works that can, all bytes
      are kept exactly when every file attempted is on the device of its origin. */
  lemma LinksNeedOneDevice(fs: Fs, jobs: seq<Job>, opts: Options)
    requires Sound(fs, jobs) && opts.mode == ByLink && LinksWork(jobs)
    ensures KeepsBytes(fs, AllGroups(fs, jobs, opts).fs) <==> OnOriginsDevice(jobs, opts)
  {
    PhaseKeepsBytesIff(fs, jobs, opts);
    hide Ready, Copies, Disjoint, SparedBy, GroupOnOriginsDevice, KeepsBytes, AllGroups;
    forall i | 0 <= i < |jobs|
      ensures SparedBy(jobs[i], opts) <==> GroupOnOriginsDevice(jobs[i], opts)
    {
      assert |jobs[i].calls| == |jobs[i].calls|;
      SparedOnOneDevice(jobs[i], opts);
    }
  }

  /** In clone mode, nothing has changed for any name when the turn of a file comes. */
  lemma TurnKeepsBytes(fs: Fs, start: Fs, job: Job, opts: Options, k: nat)
    requires KeepsBytes(fs, start) && Copies(start, job.group) && opts.mode == ByClone
    requires Ready(job) && job.decision.From? && k < |job.group| && k != job.decision.origin
    ensures var before := Through(start, job.group, job.decision.origin, opts, job.calls, k).fs;
            KeepsBytes(fs, before) && Interchangeable(before, job.group[job.decision.origin], job.group[k])
  {
    hide KeepsBytes, Chosen, Copies, Through, Judge;
    ThroughKeepsBytes(start, job.group, job.decision.origin, opts, job.calls, k);
    StaysInterchangeable(start, job.group, job.decision.origin, opts, job.calls, k);
    KeepsBytesChain(fs, start, Through(start, job.group, job.decision.origin, opts, job.calls, k).fs);
  }

  lemma PrefixIsSound(fs: Fs, jobs: seq<Job>, n: nat)
    requires Sound(fs, jobs) && n <= |jobs|
    ensures Sound(fs, jobs[..n])
  {
    hide Ready, Copies;
  }

  lemma CloningSpares(jobs: seq<Job>, opts: Options)
    requires AllReady(jobs) && opts.mode == ByClone
    ensures forall i :: 0 <= i < |jobs| ==> SparedBy(jobs[i], opts)
  {
    hide Ready, Judge;
  }

  lemma UntilKeepsBytes(fs: Fs, jobs: seq<Job>, opts: Options, i: nat)
    requires Sound(fs, jobs) && opts.mode == ByClone && i < |jobs|
    ensures var start := AllGroups(fs, jobs[..i], opts).fs;
            KeepsBytes(fs, start) && Copies(start, jobs[i].group)
  {
    PrefixIsSound(fs, jobs, i);
    PrefixIsSound(fs, jobs, i + 1);
    CloningSpares(jobs[..i], opts);
    assert jobs[..i + 1][..i] == jobs[..i];
    hide *;
    SparedKeepsBytes(fs, jobs[..i], opts);
    CopiesStay(fs, jobs[..i + 1], opts);
  }

  /** The states that the replacement of file `k` of group `i` goes through. */
  ghost function Within(fs: Fs, jobs: seq<Job>, opts: Options, i: nat, k: nat): (states: seq<Fs>)
    requires AllReady(jobs) && i < |jobs| && Ready(jobs[i]) && jobs[i].decision.From? && k < |jobs[i].group|
    ensures states != []
  {
    var job, start := jobs[i], AllGroups(fs, jobs[..i], opts).fs;
    var o := job.decision.origin;
    var before := Through(start, job.group, o, opts, job.calls, k).fs;
    Attempt(before, job.group[o].path, job.group[k].path, opts, job.calls[k]).states
  }

  /** In clone mode every state in between keeps what every name reads, too: those within the
      replacement of file `k` of group `i` are `states`. */
  lemma EveryStepKeepsBytes(fs: Fs, jobs: seq<Job>, opts: Options, i: nat, k: nat, step: nat)
    requires Sound(fs, jobs) && opts.mode == ByClone
    requires i < |jobs| && Ready(jobs[i]) && jobs[i].decision.From?
    requires k < |jobs[i].group| && k != jobs[i].decision.origin
    requires step < |Within(fs, jobs, opts, i, k)|
    ensures KeepsBytes(fs, Within(fs, jobs, opts, i, k)[step])
  {
    var job, start := jobs[i], AllGroups(fs, jobs[..i], opts).fs;
    var before := Through(start, job.group, job.decision.origin, opts, job.calls, k).fs;
    UntilKeepsBytes(fs, jobs, opts, i);
    TurnKeepsBytes(fs, start, job, opts, k);
    var src, dst := job.group[job.decision.origin].path, job.group[k].path;
    assert Within(fs, jobs, opts, i, k) ==
           CloneRun(before, src, dst, opts.preserveParentMtime, job.calls[k].clone).states;
    assert src != [] && dst != [] && At(before, src).content == At(before, dst).content;
    hide *;
    CloneKeepsBytes(before, src, dst, opts.preserveParentMtime, job.calls[k].clone, step);
    KeepsBytesChain(fs, before, Within(fs, jobs, opts, i, k)[step]);
  }

  // ----- Immutable files -----

  /** An immutable file is left as it is, in every mode, even by force, and whatever fails. */
  lemma ImmutableIsLeft(fs: Fs, jobs: seq<Job>, opts: Options, i: nat, k: nat)
    requires Sound(fs, jobs) && i < |jobs| && k < |jobs[i].group| && jobs[i].group[k].flags & 0x0002_0002 != 0
    ensures var p, fs' := jobs[i].group[k].path, AllGroups(fs, jobs, opts).fs;
            Regular(fs', p) && fs'.names[p] == fs.names[p] && At(fs', p) == At(fs, p)
  {
    var p := jobs[i].group[k].path;
    FlagsAreBits(jobs[i].group[k]);
    PhaseTouches(fs, jobs, opts);
    assert Copies(fs, jobs[i].group) && InPlace(fs, jobs[i].group[k]);
    hide AllGroups, Ready, Immutable, TouchedByAll;
    if p in TouchedByAll(jobs, opts) {
      TouchedIsMember(jobs, opts, p);
      assert false;
    }
  }

  // ----- Hard links -----

  predicate LinkCounts(fs: Fs, group: Group) {
    forall i :: 0 <= i < |group| && Regular(fs, group[i].path) ==>
                  group[i].nlink == |Links(fs, fs.names[group[i].path].ino)|
  }

  lemma TwoNamesAreTwo(a: Path, b: Path, s: set<Path>)
    requires a != b && a in s && b in s
    ensures |s| >= 2
  {
    SubsetSize({a, b}, s);
  }

  /** Names that share an inode share it afterwards, since a file is only replaced when its link
      count is one: in every mode, whatever fails. */
  lemma PhaseKeepsLinks(fs: Fs, jobs: seq<Job>, opts: Options, p: Path, q: Path)
    requires Sound(fs, jobs) && !opts.force
    requires forall i :: 0 <= i < |jobs| ==> LinkCounts(fs, jobs[i].group)
    requires p != q && SameInode(fs, p, q)
    ensures SameInode(AllGroups(fs, jobs, opts).fs, p, q)
  {
    PhaseTouches(fs, jobs, opts);
    SharedIsUntouched(fs, jobs, opts, p, q);
    SharedIsUntouched(fs, jobs, opts, q, p);
    hide AllGroups, TouchedByAll, Sound;
  }

  lemma PhaseKeepsAllLinks(fs: Fs, jobs: seq<Job>, opts: Options)
    requires Sound(fs, jobs) && !opts.force
    requires forall i :: 0 <= i < |jobs| ==> LinkCounts(fs, jobs[i].group)
    ensures forall p, q :: p != q && SameInode(fs, p, q) ==> SameInode(AllGroups(fs, jobs, opts).fs, p, q)
  {
    hide Disjoint, Copies, Ready, LinkCounts, AllGroups;
    forall p, q | p != q && SameInode(fs, p, q)
      ensures SameInode(AllGroups(fs, jobs, opts).fs, p, q)
    {
      PhaseKeepsLinks(fs, jobs, opts, p, q);
    }
  }

  lemma SharedIsUntouched(fs: Fs, jobs: seq<Job>, opts: Options, p: Path, q: Path)
    requires Sound(fs, jobs) && !opts.force
    requires forall i :: 0 <= i < |jobs| ==> LinkCounts(fs, jobs[i].group)
    requires p != q && SameInode(fs, p, q)
    ensures p !in TouchedByAll(jobs, opts)
  {
    hide Ready, TouchedByAll;
    if p in TouchedByAll(jobs, opts) {
      TouchedIsMember(jobs, opts, p);
      var i, k :| 0 <= i < |jobs| && 0 <= k < |jobs[i].group|
                  && jobs[i].group[k].path == p && jobs[i].group[k].nlink <= 1;
      assert LinkCounts(fs, jobs[i].group);
      TwoNamesAreTwo(p, q, Links(fs, fs.names[p].ino));
      assert false;
    }
  }
}
