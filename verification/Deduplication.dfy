/** The second phase of dedup.c for one group: what becomes of every file, and what is counted. */
module Deduplication {
  import opened Types
  import opened ALists
  import opened RelativePaths
  import opened FileSystem
  import opened Replacing
  import opened Volumes
  import opened Origins

  datatype Mode = ByClone | ByLink | BySymlink

  datatype Options = Options(mode: Mode, force: bool, dryRun: bool, preserveParentMtime: bool)

  datatype Verdict = HardLinked | AlreadyCloned | Locked | Replaceable

  /** From the metadata taken in the first phase alone. */
  function Judge(opts: Options, origin: FileMetadata, fm: FileMetadata): Verdict {
    if !opts.force && fm.nlink > 1 then HardLinked
    else if (opts.mode == ByClone && fm.cloneId == origin.cloneId)
            || (opts.mode == ByLink && fm.inode == origin.inode) then AlreadyCloned
    else if Immutable(fm) then Locked
    else Replaceable
  }

  /** How the system calls go that replace one file. */
  datatype Calls = Calls(clone: CloneScript, realOk: bool, unlinkOk: bool, linkOk: bool, symlinkOk: bool)

  function Attempt(fs: Fs, src: Path, dst: Path, opts: Options, calls: Calls): (r: Replacement)
    requires src != [] && dst != []
    ensures r.states != []
  {
    match opts.mode
    case ByClone => CloneRun(fs, src, dst, opts.preserveParentMtime, calls.clone)
    case ByLink => LinkRun(fs, src, dst, calls.unlinkOk, calls.linkOk)
    case BySymlink => SymlinkRun(fs, src, dst, calls.realOk, calls.unlinkOk, calls.symlinkOk)
  }

  /** get_clone_id and private_size answer 0 for a file they cannot read. */
  function CloneId(fs: Fs, p: Path): nat {
    if Regular(fs, p) then At(fs, p).cloneId else 0
  }

  function PrivateSize(fs: Fs, p: Path): nat {
    if Regular(fs, p) then At(fs, p).privateSize else 0
  }

  /** What becomes of a file. `SharedAnyway` and `NotCloned` are replacements that reported
      success and yet did not give the file the clone id of the origin. */
  datatype Outcome = Origin | Skipped(why: Verdict) | Planned | Failed | Done | SharedAnyway | NotCloned

  const Savings: set<Outcome> := {Done, Planned}
  const Shared: set<Outcome> := {Skipped(HardLinked), Skipped(AlreadyCloned), SharedAnyway}
  const Lost: set<Outcome> := {Skipped(Locked), Failed, NotCloned}

  /** What the replacement of a file did, from its result and the state after it. */
  function Achieved(fs: Fs, code: int, dst: Path, originId: nat, opts: Options): Outcome {
    if code != 0 then Failed
    else if opts.mode == ByClone && originId != CloneId(fs, dst) then
      if PrivateSize(fs, dst) == 0 then SharedAnyway else NotCloned
    else Done
  }

  datatype Treatment = Treatment(fs: Fs, outcome: Outcome)

  /** One file that is not the origin. */
  function Treated(fs: Fs, origin: FileMetadata, fm: FileMetadata, originId: nat, opts: Options,
                   calls: Calls): Treatment
    requires origin.path != [] && fm.path != []
  {
    var verdict := Judge(opts, origin, fm);
    if verdict != Replaceable then Treatment(fs, Skipped(verdict))
    else if opts.dryRun then Treatment(fs, Planned)
    else
      var r := Attempt(fs, origin.path, fm.path, opts, calls);
      Treatment(Last(r), Achieved(Last(r), r.code, fm.path, originId, opts))
  }

  datatype Progress = Progress(fs: Fs, saved: nat, already: nat, outcomes: seq<Outcome>)

  function Part(size: nat, outcome: Outcome, kinds: set<Outcome>): nat {
    if outcome in kinds then size else 0
  }

  function Noted(p: Progress, t: Treatment, size: nat): Progress {
    Progress(t.fs, p.saved + Part(size, t.outcome, Savings), p.already + Part(size, t.outcome, Shared),
             p.outcomes + [t.outcome])
  }

  /** The paths are canonical. */
  predicate Named(group: Group) {
    forall i :: 0 <= i < |group| ==> IsFilePath(group[i].path)
  }

  /** The first `n` files of a group, with one script of calls for each. */
  function Through(fs: Fs, group: Group, o: nat, opts: Options, calls: seq<Calls>, n: nat): (p: Progress)
    requires o < |group| == |calls| && n <= |group| && Named(group)
    ensures |p.outcomes| == n
  {
    if n == 0 then Progress(fs, 0, 0, [])
    else
      var p := Through(fs, group, o, opts, calls, n - 1);
      if n - 1 == o then p.(outcomes := p.outcomes + [Origin])
      else
        var t := Treated(p.fs, group[o], group[n - 1], CloneId(fs, group[o].path), opts, calls[n - 1]);
        Noted(p, t, group[n - 1].size)
  }

  /** A whole call of `deduplicate`. */
  function Deduplicated(fs: Fs, group: Group, d: Decision, opts: Options, calls: seq<Calls>): Progress
    requires |group| == |calls| && Named(group) && Chosen(group, d)
  {
    match d
    case AllCloned => Progress(fs, 0, group[0].size * (|group| - 1), [])
    case AllCompressed => Progress(fs, 0, 0, [])
    case From(o) => Through(fs, group, o, opts, calls, |group|)
  }

  // ----- All groups -----

  datatype Job = Job(group: Group, decision: Decision, calls: seq<Calls>)

  ghost predicate Ready(job: Job) {
    |job.group| == |job.calls| && Named(job.group) && Chosen(job.group, job.decision)
  }

  ghost predicate AllReady(jobs: seq<Job>) {
    forall i :: 0 <= i < |jobs| ==> Ready(jobs[i])
  }

  datatype Sum = Sum(fs: Fs, saved: nat, already: nat)

  /** One group after the other. */
  ghost function AllGroups(fs: Fs, jobs: seq<Job>, opts: Options): Sum
    requires AllReady(jobs)
  {
    if jobs == [] then Sum(fs, 0, 0)
    else
      var n := |jobs| - 1;
      var before, job := AllGroups(fs, jobs[..n], opts), jobs[n];
      assert Ready(job);
      var p := Deduplicated(before.fs, job.group, job.decision, opts, job.calls);
      Sum(p.fs, before.saved + p.saved, before.already + p.already)
  }

  lemma AllGroupsSnoc(fs: Fs, jobs: seq<Job>, job: Job, opts: Options)
    requires AllReady(jobs) && Ready(job)
    ensures AllReady(jobs + [job])
    ensures var before := AllGroups(fs, jobs, opts);
            var p := Deduplicated(before.fs, job.group, job.decision, opts, job.calls);
            AllGroups(fs, jobs + [job], opts) == Sum(p.fs, before.saved + p.saved, before.already + p.already)
  {
    assert (jobs + [job])[..|jobs|] == jobs;
    hide Deduplicated, Ready;
  }

  /** There is a script for every file, and the paths are canonical. */
  predicate Scripted(groups: seq<Group>, calls: seq<seq<Calls>>): (yes: bool)
    ensures yes ==> |groups| == |calls|
  {
    |groups| == |calls| && forall i :: 0 <= i < |groups| ==> |groups[i]| == |calls[i]| && Named(groups[i])
  }

  /** The first `n` groups, with the decision for each. */
  ghost predicate JobsFor(jobs: seq<Job>, groups: seq<Group>, calls: seq<seq<Calls>>, n: nat): (yes: bool)
    requires n <= |groups| == |calls|
    ensures yes ==> |jobs| == n && AllReady(jobs)
  {
    |jobs| == n
    && forall i :: 0 <= i < n ==> Ready(jobs[i]) && jobs[i].group == groups[i] && jobs[i].calls == calls[i]
  }

  // ----- As it runs -----

  /** What the lists hold. */
  ghost predicate Hold(lists: seq<AList<FileMetadata>>, groups: seq<Group>)
    reads lists, set list | list in lists :: list.elements
  {
    |lists| == |groups| && forall i :: 0 <= i < |lists| ==> lists[i].Valid() && lists[i].Contents() == groups[i]
  }

  lemma HoldAt(lists: seq<AList<FileMetadata>>, groups: seq<Group>, calls: seq<seq<Calls>>, i: nat)
    requires Hold(lists, groups) && Scripted(groups, calls) && i < |lists|
    ensures |lists| == |groups| == |calls| && lists[i].Valid() && lists[i].Contents() == groups[i]
    ensures |calls[i]| == lists[i].Size() && Named(groups[i])
  {
  }

  lemma JobsForSnoc(jobs: seq<Job>, groups: seq<Group>, calls: seq<seq<Calls>>, n: nat, job: Job)
    requires n < |groups| == |calls| && JobsFor(jobs, groups, calls, n)
    requires Ready(job) && job.group == groups[n] && job.calls == calls[n]
    ensures JobsFor(jobs + [job], groups, calls, n + 1)
  {
    hide Ready;
  }

  /** The part of the context that the second phase uses. */
  class Totals {
    const opts: Options
    const volume: Volume
    var saved: nat
    var alreadySaved: nat

    constructor (opts: Options, volume: Volume)
      ensures this.opts == opts && this.volume == volume && saved == 0 && alreadySaved == 0
    {
      this.opts, this.volume := opts, volume;
      saved, alreadySaved := 0, 0;
    }

    method Replace(src: Path, dst: Path, calls: Calls) returns (result: int)
      requires IsFilePath(src) && IsFilePath(dst)
      modifies volume
      ensures var r := Attempt(old(volume.Value()), src, dst, opts, calls);
              volume.Value() == Last(r) && result == r.code
    {
      hide CloneRun, LinkRun, SymlinkRun;
      match opts.mode
      case ByClone => result := volume.ReplaceWithClone(src, dst, opts.preserveParentMtime, calls.clone);
      case ByLink => result := volume.ReplaceWithLink(src, dst, calls.unlinkOk, calls.linkOk);
      case BySymlink => result := volume.ReplaceWithSymlink(src, dst, calls.realOk, calls.unlinkOk, calls.symlinkOk);
    }

    method Treat(origin: FileMetadata, fm: FileMetadata, originId: nat, calls: Calls) returns (outcome: Outcome)
      requires IsFilePath(origin.path) && IsFilePath(fm.path)
      modifies this, volume
      ensures Treatment(volume.Value(), outcome) == Treated(old(volume.Value()), origin, fm, originId, opts, calls)
      ensures saved == old(saved) + Part(fm.size, outcome, Savings)
      ensures alreadySaved == old(alreadySaved) + Part(fm.size, outcome, Shared)
    {
      hide Attempt, Immutable, Volume.Value;
      if !opts.force && fm.nlink > 1 {
        alreadySaved := alreadySaved + fm.size;
        return Skipped(HardLinked);
      }
      if (opts.mode == ByClone && fm.cloneId == origin.cloneId) || (opts.mode == ByLink && fm.inode == origin.inode) {
        alreadySaved := alreadySaved + fm.size;
        return Skipped(AlreadyCloned);
      }
      if Immutable(fm) {
        return Skipped(Locked);
      }
      if opts.dryRun {
        saved := saved + fm.size;
        return Planned;
      }
      var result := Replace(origin.path, fm.path, calls);
      if result != 0 {
        return Failed;
      }
      if opts.mode == ByClone && originId != CloneId(volume.Value(), fm.path) {
        if PrivateSize(volume.Value(), fm.path) == 0 {
          alreadySaved := alreadySaved + fm.size;
          return SharedAnyway;
        }
        return NotCloned;
      }
      saved := saved + fm.size;
      return Done;
    }

    method Deduplicate(members: AList<FileMetadata>, calls: seq<Calls>) returns (result: nat, ghost decision: Decision)
      requires members.Valid() && |calls| == members.Size() && Named(members.Contents())
      modifies this, volume
      ensures result == 0 && Chosen(members.Contents(), decision)
      ensures var p := Deduplicated(old(volume.Value()), members.Contents(), decision, opts, calls);
              volume.Value() == p.fs && saved == old(saved) + p.saved && alreadySaved == old(alreadySaved) + p.already
    {
      hide Through, Chosen, Volume.Value;
      var choice := SelectOrigin(members);
      decision := choice;
      match choice {
      case AllCloned =>
        alreadySaved := alreadySaved + members.Get(0).value.size * (members.Size() - 1);
      case AllCompressed =>
      case From(o) =>
        ReplaceAll(members, o, calls);
      }
      return 0, decision;
    }

    /** The loop over the duplicate tree at the end of `main`. */
    method DeduplicateAll(lists: seq<AList<FileMetadata>>, calls: seq<seq<Calls>>, ghost groups: seq<Group>)
      returns (ghost jobs: seq<Job>)
      requires Hold(lists, groups) && Scripted(groups, calls)
      modifies this, volume
      ensures Hold(lists, groups) && JobsFor(jobs, groups, calls, |groups|)
      ensures var all := AllGroups(old(volume.Value()), jobs, opts);
              volume.Value() == all.fs
              && saved == old(saved) + all.saved && alreadySaved == old(alreadySaved) + all.already
    {
      jobs := [];
      assert |lists| == |groups|;
      assert AllGroups(volume.Value(), jobs, opts) == Sum(volume.Value(), 0, 0);
      hide Deduplicated, AllGroups, Chosen, Named, Hold, JobsFor, Scripted, AList.Valid, AList.Contents, Volume.Value;
      for i := 0 to |lists|
        invariant Hold(lists, groups) && JobsFor(jobs, groups, calls, i)
        invariant var all := AllGroups(old(volume.Value()), jobs, opts);
                  volume.Value() == all.fs && saved == old(saved) + all.saved
                  && alreadySaved == old(alreadySaved) + all.already
      {
        HoldAt(lists, groups, calls, i);
        var _, decision := Deduplicate(lists[i], calls[i]);
        ghost var job := Job(groups[i], decision, calls[i]);
        AllGroupsSnoc(old(volume.Value()), jobs, job, opts);
        JobsForSnoc(jobs, groups, calls, i, job);
        jobs := jobs + [job];
      }
    }

    /** The loop over all files but the origin. */
    method ReplaceAll(members: AList<FileMetadata>, o: nat, calls: seq<Calls>)
      requires members.Valid() && o < members.Size() == |calls| && Named(members.Contents())
      modifies this, volume
      ensures var p := Through(old(volume.Value()), members.Contents(), o, opts, calls, |calls|);
              volume.Value() == p.fs && saved == old(saved) + p.saved && alreadySaved == old(alreadySaved) + p.already
    {
      hide Treated, Volume.Value;
      ghost var fs, group := volume.Value(), members.Contents();
      var origin := members.Get(o).value;
      var originId := CloneId(volume.Value(), origin.path);
      for i := 0 to members.Size()
        invariant members.Contents() == group && members.Valid()
        invariant var p := Through(fs, group, o, opts, calls, i);
                  volume.Value() == p.fs
                  && saved == old(saved) + p.saved && alreadySaved == old(alreadySaved) + p.already
      {
        var fm := members.Get(i).value;
        if i == o {
          continue;
        }
        var _ := Treat(origin, fm, originId, calls[i]);
      }
    }
  }
}
