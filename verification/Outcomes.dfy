/** What the outcome of a file tells about what happened to it, and what the byte counters add up. */
module Outcomes {
  import opened Types
  import opened RelativePaths
  import opened PathChars
  import opened FileSystem
  import opened Replacing
  import opened Origins
  import opened Deduplication
  import opened Accounting
  import opened PhaseTwo
  import opened SecondRun

  // ----- One file -----

  /** The calls that replace the file all work. */
  predicate Works(fs: Fs, origin: FileMetadata, fm: FileMetadata, opts: Options, calls: Calls)
    requires origin.path != [] && fm.path != []
  {
    match opts.mode
    case ByClone => CloneWorks(fs, origin.path, fm.path, opts.preserveParentMtime, calls.clone)
    case ByLink => calls.unlinkOk && calls.linkOk && origin.device == fm.device
    case BySymlink => calls.realOk && Fits(fm.path, origin.path) && calls.unlinkOk && calls.symlinkOk
  }

  /** The clone has the clone id of the origin, as it should. */
  predicate IdTaken(opts: Options, originId: nat, calls: Calls) {
    opts.mode == ByClone ==> calls.clone.takes || calls.clone.otherId == originId
  }

  /** The file shares the bytes of the origin as the mode has it: it is a clone, another name of the
      same inode, or a symbolic link. */
  predicate Shares(fs: Fs, origin: FileMetadata, fm: FileMetadata, opts: Options, originId: nat)
    requires IsFilePath(origin.path) && IsFilePath(fm.path)
  {
    match opts.mode
    case ByClone => Regular(fs, fm.path) && At(fs, fm.path).cloneId == originId
    case ByLink => SameInode(fs, origin.path, fm.path)
    case BySymlink => fm.path in fs.names && fs.names[fm.path] == Symlink(Relative(fm.path, origin.path))
  }

  /** The file has come to share with the origin; a clone is otherwise the file that it was. */
  ghost predicate Became(fs: Fs, s: Fs, origin: FileMetadata, fm: FileMetadata, opts: Options)
    requires IsFilePath(origin.path) && IsFilePath(fm.path)
  {
    Shares(s, origin, fm, opts, CloneId(fs, origin.path))
    && (opts.mode == ByClone ==> Replaced(fs, s, origin.path, fm.path))
  }

  lemma CloneTells(fs: Fs, origin: FileMetadata, fm: FileMetadata, opts: Options, calls: Calls)
    requires Interchangeable(fs, origin, fm) && opts.mode == ByClone
    ensures var r, sc := Attempt(fs, origin.path, fm.path, opts, calls), calls.clone;
            (r.code == 0 <==> Works(fs, origin, fm, opts, calls))
            && (r.code == 0 ==>
                  Replaced(fs, Last(r), origin.path, fm.path) && Regular(Last(r), fm.path)
                  && AsScripted(fs, origin.path, sc, At(Last(r), fm.path)))
  {
    var src, dst, preserve, sc := origin.path, fm.path, opts.preserveParentMtime, calls.clone;
    CloneSucceeds(fs, src, dst, preserve, sc);
    StagedSafety(fs, src, dst, preserve, sc);
    hide Replaced, CloneWorks, CloneRun, AllUntouched, OnlyChanges;
  }

  lemma LinkTells(fs: Fs, origin: FileMetadata, fm: FileMetadata, opts: Options, calls: Calls)
    requires Interchangeable(fs, origin, fm) && opts.mode != ByClone
    ensures var r := Attempt(fs, origin.path, fm.path, opts, calls);
            (r.code == 0 <==> Works(fs, origin, fm, opts, calls))
            && (r.code == 0 ==> Became(fs, Last(r), origin, fm, opts))
  {
    hide Relative, Fits;
    if opts.mode == ByLink {
      LinkSucceeds(fs, origin.path, fm.path, calls.unlinkOk, calls.linkOk);
    } else {
      SymlinkSucceeds(fs, origin.path, fm.path, calls.realOk, calls.unlinkOk, calls.symlinkOk);
    }
  }

  /** The outcome of a file to be replaced tells what happened: it failed exactly when some call
      did; it is done exactly when all calls worked and, in clone mode, the id was taken; a clone
      with another id is shared exactly when it has no bytes of its own; and a file that is done
      is what the mode makes of it. */
  lemma OutcomeTells(fs: Fs, origin: FileMetadata, fm: FileMetadata, originId: nat, opts: Options, calls: Calls)
    requires Interchangeable(fs, origin, fm) && originId == CloneId(fs, origin.path)
    requires Judge(opts, origin, fm) == Replaceable && !opts.dryRun
    ensures var t, works := Treated(fs, origin, fm, originId, opts, calls), Works(fs, origin, fm, opts, calls);
            (t.outcome == Failed <==> !works)
            && (t.outcome == Done <==> works && IdTaken(opts, originId, calls))
            && (t.outcome == SharedAnyway <==>
                  works && !IdTaken(opts, originId, calls) && calls.clone.privateSize == 0)
            && (t.outcome == Done ==> Became(fs, t.fs, origin, fm, opts))
  {
    hide Judge, Attempt, Works, Replaced, Relative;
    if opts.mode == ByClone {
      CloneTells(fs, origin, fm, opts, calls);
    } else {
      LinkTells(fs, origin, fm, opts, calls);
    }
  }

  // ----- One group -----

  /** Nothing is to be gained: in clone mode the files are clones already, and in link mode they have
      the same inode number, for which the device is not asked. */
  predicate SharesAlready(opts: Options, origin: FileMetadata, fm: FileMetadata) {
    (opts.mode == ByClone && fm.cloneId == origin.cloneId) || (opts.mode == ByLink && fm.inode == origin.inode)
  }

  /** The file at `i` counts as saved: it may be replaced, it shares nothing yet, and the
      replacement works when its turn comes, or would be tried if it were not for a dry run. */
  predicate CountsSaved(fs: Fs, group: Group, o: nat, opts: Options, calls: seq<Calls>, i: nat)
    requires o < |group| == |calls| && i < |group| && Named(group)
  {
    var before := Through(fs, group, o, opts, calls, i).fs;
    i != o && Eligible(opts, group[i]) && !SharesAlready(opts, group[o], group[i])
    && (opts.dryRun
        || (Works(before, group[o], group[i], opts, calls[i]) && IdTaken(opts, CloneId(fs, group[o].path), calls[i])))
  }

  /** The file at `i` counts as saved before: it has other links and is not forced, it shares
      already, immutable or not, or it became a clone that has another id and no bytes of its own. */
  predicate CountsShared(fs: Fs, group: Group, o: nat, opts: Options, calls: seq<Calls>, i: nat)
    requires o < |group| == |calls| && i < |group| && Named(group)
  {
    var before := Through(fs, group, o, opts, calls, i).fs;
    i != o
    && ((!opts.force && group[i].nlink > 1) || SharesAlready(opts, group[o], group[i])
        || (Eligible(opts, group[i]) && !opts.dryRun && Works(before, group[o], group[i], opts, calls[i])
            && !IdTaken(opts, CloneId(fs, group[o].path), calls[i]) && calls[i].clone.privateSize == 0))
  }

  /** The sizes of the files among the first `n` that count. */
  function SavedBytes(fs: Fs, group: Group, o: nat, opts: Options, calls: seq<Calls>, n: nat): nat
    requires o < |group| == |calls| && n <= |group| && Named(group)
  {
    if n == 0 then 0
    else
      SavedBytes(fs, group, o, opts, calls, n - 1)
      + if CountsSaved(fs, group, o, opts, calls, n - 1) then group[n - 1].size else 0
  }

  function SharedBytes(fs: Fs, group: Group, o: nat, opts: Options, calls: seq<Calls>, n: nat): nat
    requires o < |group| == |calls| && n <= |group| && Named(group)
  {
    if n == 0 then 0
    else
      SharedBytes(fs, group, o, opts, calls, n - 1)
      + if CountsShared(fs, group, o, opts, calls, n - 1) then group[n - 1].size else 0
  }

  lemma JudgedBy(opts: Options, origin: FileMetadata, fm: FileMetadata)
    ensures Judge(opts, origin, fm) == Replaceable <==> Eligible(opts, fm) && !SharesAlready(opts, origin, fm)
    ensures Judge(opts, origin, fm) in {HardLinked, AlreadyCloned} <==>
            (!opts.force && fm.nlink > 1) || SharesAlready(opts, origin, fm)
  {
    hide Immutable;
  }

  /** The origin is what it was when the turn of a file comes. */
  lemma OriginKeepsId(fs: Fs, group: Group, o: nat, opts: Options, calls: seq<Calls>, n: nat)
    requires o < |group| == |calls| && n < |group| && n != o && Named(group) && Copies(fs, group)
    ensures CloneId(Through(fs, group, o, opts, calls, n).fs, group[o].path) == CloneId(fs, group[o].path)
  {
    ThroughTouches(fs, group, o, opts, calls, n);
    hide Through, Attempted;
    assert InPlace(fs, group[o]);
    assert group[o].path !in Touched(opts, group, o, n) by {
      OriginIsNotAttempted(opts, group, o);
    }
  }

  /** A file that is not attempted. */
  lemma UntriedTells(fs: Fs, origin: FileMetadata, fm: FileMetadata, originId: nat, opts: Options, calls: Calls)
    requires origin.path != [] && fm.path != [] && (Judge(opts, origin, fm) != Replaceable || opts.dryRun)
    ensures var outcome := Treated(fs, origin, fm, originId, opts, calls).outcome;
            (outcome in Savings <==> Judge(opts, origin, fm) == Replaceable)
            && (outcome in Shared <==> Judge(opts, origin, fm) in {HardLinked, AlreadyCloned})
  {
    hide Judge, Attempt;
  }

  /** A file that is. */
  lemma TriedTells(fs: Fs, origin: FileMetadata, fm: FileMetadata, originId: nat, opts: Options, calls: Calls)
    requires Interchangeable(fs, origin, fm) && originId == CloneId(fs, origin.path)
    requires Judge(opts, origin, fm) == Replaceable && !opts.dryRun
    ensures var outcome := Treated(fs, origin, fm, originId, opts, calls).outcome;
            (outcome in Savings <==> Works(fs, origin, fm, opts, calls) && IdTaken(opts, originId, calls))
            && (outcome in Shared <==>
                  Works(fs, origin, fm, opts, calls) && !IdTaken(opts, originId, calls)
                  && calls.clone.privateSize == 0)
  {
    OutcomeTells(fs, origin, fm, originId, opts, calls);
    TreatedKinds(fs, origin, fm, originId, opts, calls);
    hide Treated, Judge, Works, IdTaken, Became;
  }

  lemma TurnTells(fs: Fs, group: Group, o: nat, opts: Options, calls: seq<Calls>, i: nat)
    requires o < |group| == |calls| && i < |group| && i != o && Named(group) && Copies(fs, group)
    ensures var before, originId := Through(fs, group, o, opts, calls, i).fs, CloneId(fs, group[o].path);
            var outcome := Treated(before, group[o], group[i], originId, opts, calls[i]).outcome;
            (outcome in Savings <==> CountsSaved(fs, group, o, opts, calls, i))
            && (outcome in Shared <==> CountsShared(fs, group, o, opts, calls, i))
  {
    var before, originId := Through(fs, group, o, opts, calls, i).fs, CloneId(fs, group[o].path);
    JudgedBy(opts, group[o], group[i]);
    OriginKeepsId(fs, group, o, opts, calls, i);
    StaysInterchangeable(fs, group, o, opts, calls, i);
    hide Through, Copies, Interchangeable, Judge, Eligible, SharesAlready, Treated, Works, IdTaken, CloneId;
    if Judge(opts, group[o], group[i]) == Replaceable && !opts.dryRun {
      TriedTells(before, group[o], group[i], originId, opts, calls[i]);
    } else {
      UntriedTells(before, group[o], group[i], originId, opts, calls[i]);
    }
  }

  lemma TreatedKinds(fs: Fs, origin: FileMetadata, fm: FileMetadata, originId: nat, opts: Options, calls: Calls)
    requires origin.path != [] && fm.path != [] && Judge(opts, origin, fm) == Replaceable && !opts.dryRun
    ensures Treated(fs, origin, fm, originId, opts, calls).outcome in {Failed, Done, SharedAnyway, NotCloned}
  {
    hide Judge, Attempt;
  }

  lemma TurnCounts(fs: Fs, group: Group, o: nat, opts: Options, calls: seq<Calls>, i: nat)
    requires o < |group| == |calls| && i < |group| && Named(group)
    ensures var p, q := Through(fs, group, o, opts, calls, i), Through(fs, group, o, opts, calls, i + 1);
            if i == o then q.saved == p.saved && q.already == p.already
            else
              var t := Treated(p.fs, group[o], group[i], CloneId(fs, group[o].path), opts, calls[i]);
              q.saved == p.saved + (if t.outcome in Savings then group[i].size else 0)
              && q.already == p.already + if t.outcome in Shared then group[i].size else 0
  {
    hide Treated;
  }

  lemma TurnAdds(fs: Fs, group: Group, o: nat, opts: Options, calls: seq<Calls>, i: nat)
    requires o < |group| == |calls| && i < |group| && Named(group) && Copies(fs, group)
    ensures var p, q := Through(fs, group, o, opts, calls, i), Through(fs, group, o, opts, calls, i + 1);
            q.saved == p.saved + (if CountsSaved(fs, group, o, opts, calls, i) then group[i].size else 0)
            && q.already == p.already + if CountsShared(fs, group, o, opts, calls, i) then group[i].size else 0
  {
    TurnCounts(fs, group, o, opts, calls, i);
    hide Through, Treated, CountsSaved, CountsShared, Copies;
    if i != o {
      TurnTells(fs, group, o, opts, calls, i);
    } else {
      OriginCountsNothing(fs, group, o, opts, calls);
    }
  }

  /** What the loop counts, in terms of the files and of the calls that worked. */
  lemma {:induction false} LoopCounts(fs: Fs, group: Group, o: nat, opts: Options, calls: seq<Calls>, n: nat)
    requires o < |group| == |calls| && n <= |group| && Named(group) && Copies(fs, group)
    ensures var p := Through(fs, group, o, opts, calls, n);
            p.saved == SavedBytes(fs, group, o, opts, calls, n)
            && p.already == SharedBytes(fs, group, o, opts, calls, n)
  {
    hide Treated, CountsSaved, CountsShared, Copies;
    if n > 0 {
      LoopCounts(fs, group, o, opts, calls, n - 1);
      TurnAdds(fs, group, o, opts, calls, n - 1);
      hide Through;
    }
  }

  lemma OriginCountsNothing(fs: Fs, group: Group, o: nat, opts: Options, calls: seq<Calls>)
    requires o < |group| == |calls| && Named(group)
    ensures !CountsSaved(fs, group, o, opts, calls, o) && !CountsShared(fs, group, o, opts, calls, o)
  {
  }

  // ----- What was counted as saved stays so -----

  lemma DoneShares(fs: Fs, origin: FileMetadata, fm: FileMetadata, originId: nat, opts: Options, calls: Calls)
    requires Interchangeable(fs, origin, fm) && originId == CloneId(fs, origin.path)
    requires Judge(opts, origin, fm) == Replaceable && !opts.dryRun
    requires Treated(fs, origin, fm, originId, opts, calls).outcome == Done
    ensures Shares(Treated(fs, origin, fm, originId, opts, calls).fs, origin, fm, opts, originId)
  {
    OutcomeTells(fs, origin, fm, originId, opts, calls);
    hide Treated, Judge, Works, Relative, OnlyChanges, Links;
  }

  /** Replacing another file changes nothing about it. */
  lemma OthersShare(fs: Fs, src: Path, dst: Path, origin: FileMetadata, fm: FileMetadata, originId: nat,
                    opts: Options, calls: Calls)
    requires IsFilePath(origin.path) && IsFilePath(fm.path) && src != [] && dst != []
    requires dst != origin.path && dst != fm.path && Shares(fs, origin, fm, opts, originId)
    ensures Shares(Last(Attempt(fs, src, dst, opts, calls)), origin, fm, opts, originId)
  {
    AttemptTouchesOne(fs, src, dst, opts, calls);
    hide CloneRun, LinkRun, Relative;
  }

  /** A file that is done shares with the origin until the end of the loop, whatever fails later. */
  lemma {:induction false} DoneStays(fs: Fs, group: Group, o: nat, opts: Options, calls: seq<Calls>, n: nat, i: nat)
    requires o < |group| == |calls| && i < n <= |group| && Named(group) && Copies(fs, group)
    requires Through(fs, group, o, opts, calls, n).outcomes[i] == Done
    ensures Shares(Through(fs, group, o, opts, calls, n).fs, group[o], group[i], opts, CloneId(fs, group[o].path))
  {
    var m := n - 1;
    OneMoreOutcome(fs, group, o, opts, calls, m);
    hide Through, Treated, Copies, Shares;
    assert Through(fs, group, o, opts, calls, n).outcomes[..m] == Through(fs, group, o, opts, calls, m).outcomes;
    if i < m {
      DoneStays(fs, group, o, opts, calls, m, i);
      ApartInGroup(fs, group, o, m);
      ApartInGroup(fs, group, i, m);
      OneMoreShares(fs, group, o, opts, calls, m, i);
    } else {
      DoneTurn(fs, group, o, opts, calls, m);
    }
  }

  lemma ApartInGroup(fs: Fs, group: Group, i: nat, j: nat)
    requires Copies(fs, group) && i < |group| && j < |group|
    ensures i != j ==> group[i].path != group[j].path
  {
  }

  lemma OneMoreShares(fs: Fs, group: Group, o: nat, opts: Options, calls: seq<Calls>, m: nat, i: nat)
    requires o < |group| == |calls| && i < m < |group| && Named(group)
    requires (o != m ==> group[o].path != group[m].path) && group[i].path != group[m].path
    requires Shares(Through(fs, group, o, opts, calls, m).fs, group[o], group[i], opts, CloneId(fs, group[o].path))
    ensures Shares(Through(fs, group, o, opts, calls, m + 1).fs, group[o], group[i], opts, CloneId(fs, group[o].path))
  {
    OneMoreFile(fs, group, o, opts, calls, m);
    hide Through, Judge, Attempt, Shares;
    if Attempted(opts, group, o, m) {
      OthersShare(Through(fs, group, o, opts, calls, m).fs, group[o].path, group[m].path, group[o], group[i],
                  CloneId(fs, group[o].path), opts, calls[m]);
    }
  }

  lemma DoneTurn(fs: Fs, group: Group, o: nat, opts: Options, calls: seq<Calls>, m: nat)
    requires o < |group| == |calls| && m < |group| && Named(group) && Copies(fs, group)
    requires Through(fs, group, o, opts, calls, m + 1).outcomes[m] == Done
    ensures Shares(Through(fs, group, o, opts, calls, m + 1).fs, group[o], group[m], opts, CloneId(fs, group[o].path))
  {
    var before, originId := Through(fs, group, o, opts, calls, m).fs, CloneId(fs, group[o].path);
    OneMoreOutcome(fs, group, o, opts, calls, m);
    hide *;
    OriginKeepsId(fs, group, o, opts, calls, m);
    StaysInterchangeable(fs, group, o, opts, calls, m);
    DoneIsReplaced(before, group[o], group[m], originId, opts, calls[m]);
    DoneShares(before, group[o], group[m], originId, opts, calls[m]);
  }

  lemma DoneIsReplaced(fs: Fs, origin: FileMetadata, fm: FileMetadata, originId: nat, opts: Options, calls: Calls)
    requires origin.path != [] && fm.path != []
    requires Treated(fs, origin, fm, originId, opts, calls).outcome == Done
    ensures Judge(opts, origin, fm) == Replaceable && !opts.dryRun
  {
    hide Judge, Attempt;
  }

  lemma OneMoreOutcome(fs: Fs, group: Group, o: nat, opts: Options, calls: seq<Calls>, m: nat)
    requires o < |group| == |calls| && m < |group| && Named(group)
    ensures var p, q := Through(fs, group, o, opts, calls, m), Through(fs, group, o, opts, calls, m + 1);
            q.outcomes[..m] == p.outcomes
            && if m == o then q.outcomes[m] == Origin && q.fs == p.fs
            else
              Treatment(q.fs, q.outcomes[m]) ==
              Treated(p.fs, group[o], group[m], CloneId(fs, group[o].path), opts, calls[m])
  {
    hide Treated;
  }

  /** The origin is regular at the end of the loop, and has its id. */
  lemma OriginStays(fs: Fs, group: Group, o: nat, opts: Options, calls: seq<Calls>)
    requires o < |group| == |calls| && Named(group) && Copies(fs, group)
    ensures var s := Through(fs, group, o, opts, calls, |group|).fs;
            Regular(s, group[o].path) && CloneId(s, group[o].path) == CloneId(fs, group[o].path)
  {
    ThroughTouches(fs, group, o, opts, calls, |group|);
    hide Through, Attempted;
    assert InPlace(fs, group[o]);
    assert group[o].path !in Touched(opts, group, o, |group|) by {
      OriginIsNotAttempted(opts, group, o);
    }
  }

  /** What is saved is saved once: with metadata taken anew, a file that was done is no regular file
      any more, or it is skipped as one that shares already, even by force. */
  lemma SavedOnce(fs: Fs, group: Group, o: nat, opts: Options, calls: seq<Calls>, i: nat)
    requires o < |group| == |calls| && i < |group| && Named(group) && Copies(fs, group)
    requires Through(fs, group, o, opts, calls, |group|).outcomes[i] == Done
    ensures var s := Through(fs, group, o, opts, calls, |group|).fs;
            !Regular(s, group[i].path)
            || Judge(opts, Refresh(s, group[o]), Refresh(s, group[i])) in {HardLinked, AlreadyCloned}
  {
    DoneStays(fs, group, o, opts, calls, |group|, i);
    OriginStays(fs, group, o, opts, calls);
    JudgedBy(opts, Refresh(Through(fs, group, o, opts, calls, |group|).fs, group[o]),
             Refresh(Through(fs, group, o, opts, calls, |group|).fs, group[i]));
    hide Through, Copies, Judge, Links, Relative;
  }

  // ----- All groups -----

  /** A group without an origin is left as it is: nothing is saved, and what clones of each other
      share is counted as saved already; a group of compressed files counts nothing. */
  lemma UndecidedIsLeft(fs: Fs, group: Group, d: Decision, opts: Options, calls: seq<Calls>)
    requires |group| == |calls| && Named(group) && Chosen(group, d) && !SomeLinked(group)
    requires AllAlike(group) || (AllDistinct(group) && forall i :: 0 <= i < |group| ==> Compressed(group[i]))
    ensures var p := Deduplicated(fs, group, d, opts, calls);
            p.fs == fs && p.saved == 0
            && p.already == if AllAlike(group) then group[0].size * (|group| - 1) else 0
  {
    hide Through, Compressed;
  }

  ghost function GroupSaved(fs: Fs, job: Job, opts: Options): nat
    requires Ready(job)
  {
    if job.decision.From? then SavedBytes(fs, job.group, job.decision.origin, opts, job.calls, |job.group|) else 0
  }

  ghost function GroupShared(fs: Fs, job: Job, opts: Options): nat
    requires Ready(job)
  {
    match job.decision
    case From(o) => SharedBytes(fs, job.group, o, opts, job.calls, |job.group|)
    case AllCloned => job.group[0].size * (|job.group| - 1)
    case AllCompressed => 0
  }

  /** What all groups count, each from where the one before it left the file system. */
  ghost function PhaseSaved(fs: Fs, jobs: seq<Job>, opts: Options): nat
    requires AllReady(jobs)
  {
    if jobs == [] then 0
    else
      var n := |jobs| - 1;
      assert Ready(jobs[n]);
      PhaseSaved(fs, jobs[..n], opts) + GroupSaved(AllGroups(fs, jobs[..n], opts).fs, jobs[n], opts)
  }

  ghost function PhaseShared(fs: Fs, jobs: seq<Job>, opts: Options): nat
    requires AllReady(jobs)
  {
    if jobs == [] then 0
    else
      var n := |jobs| - 1;
      assert Ready(jobs[n]);
      PhaseShared(fs, jobs[..n], opts) + GroupShared(AllGroups(fs, jobs[..n], opts).fs, jobs[n], opts)
  }

  lemma GroupCounts(fs: Fs, job: Job, opts: Options)
    requires Ready(job) && Copies(fs, job.group)
    ensures GroupRun(fs, job, opts).saved == GroupSaved(fs, job, opts)
    ensures GroupRun(fs, job, opts).already == GroupShared(fs, job, opts)
  {
    hide Chosen, Through, Copies, SavedBytes, SharedBytes;
    if job.decision.From? {
      LoopCounts(fs, job.group, job.decision.origin, opts, job.calls, |job.group|);
    }
  }

  /** The two numbers that the program prints are the bytes of the files that count, over all
      groups, whatever fails. */
  lemma {:induction false} PhaseCounts(fs: Fs, jobs: seq<Job>, opts: Options)
    requires Sound(fs, jobs)
    ensures var all := AllGroups(fs, jobs, opts);
            all.saved == PhaseSaved(fs, jobs, opts) && all.already == PhaseShared(fs, jobs, opts)
  {
    if jobs != [] {
      var n := |jobs| - 1;
      PhaseCounts(fs, jobs[..n], opts);
      CopiesStay(fs, jobs, opts);
      LastGroup(fs, jobs, opts);
      assert Ready(jobs[n]);
      hide Ready, Copies, Disjoint, AllGroups, GroupRun, GroupSaved, GroupShared;
      GroupCounts(AllGroups(fs, jobs[..n], opts).fs, jobs[n], opts);
    }
  }
}
