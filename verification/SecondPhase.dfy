/** The whole second phase, run twice in clone mode: the second time it replaces nothing. */
module SecondPhase {
  import opened Types
  import opened FileSystem
  import opened Replacing
  import opened Origins
  import opened Deduplication
  import opened Accounting
  import opened Idempotence
  import opened PhaseTwo
  import opened SecondRun

  predicate Outside(group: Group, p: Path) {
    forall i :: 0 <= i < |group| ==> group[i].path != p
  }

  /** A file that is there, and looks the same as before. */
  predicate Unmoved(fs: Fs, s: Fs, fm: FileMetadata) {
    Regular(s, fm.path) && Refresh(s, fm) == Refresh(fs, fm)
  }

  lemma {:induction false} ThroughKeepsOthers(fs: Fs, group: Group, o: nat, opts: Options, calls: seq<Calls>,
                                              n: nat, fm: FileMetadata)
    requires o < |group| == |calls| && n <= |group| && Named(group) && ByCloneForReal(opts)
    requires Current(fs, group) && Apart(group) && Regular(fs, fm.path) && Outside(group, fm.path)
    requires AllTake(Through(fs, group, o, opts, calls, n).outcomes)
    ensures Unmoved(fs, Through(fs, group, o, opts, calls, n).fs, fm)
  {
    hide Treated, Refresh;
    if n > 0 {
      var m := n - 1;
      var before, after := Through(fs, group, o, opts, calls, m), Through(fs, group, o, opts, calls, n);
      assert before.outcomes == after.outcomes[..m] && after.outcomes[m] !in Missed;
      ThroughKeepsOthers(fs, group, o, opts, calls, m, fm);
      if m != o {
        var originId := CloneId(fs, group[o].path);
        if Changes(opts, group, o, m) {
          ThroughIsAfter(fs, group, o, opts, calls, m);
          TreatedKeepsOthers(opts, group, o, m, before.fs, originId, calls[m], fm);
        } else {
          SkippedIsUntreated(before.fs, group[o], group[m], originId, opts, calls[m]);
        }
      }
    }
  }

  lemma TreatedKeepsOthers(opts: Options, group: Group, o: nat, n: nat, fs: Fs, originId: nat, calls: Calls,
                           fm: FileMetadata)
    requires o < |group| && n < |group| && Changes(opts, group, o, n) && ByCloneForReal(opts) && Named(group)
    requires AllAfter(opts, group, o, n, fs) && Regular(fs, fm.path) && group[n].path != fm.path
    requires Treated(fs, group[o], group[n], originId, opts, calls).outcome !in Missed
    ensures Unmoved(fs, Treated(fs, group[o], group[n], originId, opts, calls).fs, fm)
  {
    TreatedReplaces(fs, group[o], group[n], originId, opts, calls);
    var s := Treated(fs, group[o], group[n], originId, opts, calls).fs;
    hide Treated, Immutable, Replaced;
    assert After(opts, group, o, n, n, fs);
    assert |Links(fs, fs.names[group[n].path].ino)| == group[n].nlink;
    OthersRefreshAlike(fs, s, group[o].path, group[n].path, fm);
  }

  lemma GroupKeepsOthers(fs: Fs, job: Job, opts: Options, fm: FileMetadata)
    requires Ready(job) && ByCloneForReal(opts) && Current(fs, job.group) && Apart(job.group)
    requires Regular(fs, fm.path) && Outside(job.group, fm.path)
    requires AllTake(Deduplicated(fs, job.group, job.decision, opts, job.calls).outcomes)
    ensures Unmoved(fs, Deduplicated(fs, job.group, job.decision, opts, job.calls).fs, fm)
  {
    hide Chosen, Through;
    if job.decision.From? {
      ThroughKeepsOthers(fs, job.group, job.decision.origin, opts, job.calls, |job.group|, fm);
    }
  }

  // ----- All groups -----

  /** The run after the first `n` groups. */
  ghost function Upto(fs: Fs, jobs: seq<Job>, opts: Options, n: nat): Sum
    requires AllReady(jobs) && n <= |jobs|
  {
    AllGroups(fs, jobs[..n], opts)
  }

  lemma OneMoreGroup(fs: Fs, jobs: seq<Job>, opts: Options, n: nat)
    requires AllReady(jobs) && n < |jobs|
    ensures var before, p := Upto(fs, jobs, opts, n), GroupRun(Upto(fs, jobs, opts, n).fs, jobs[n], opts);
            Upto(fs, jobs, opts, n + 1) == Sum(p.fs, before.saved + p.saved, before.already + p.already)
  {
    assert jobs[..n + 1][..n] == jobs[..n];
    hide Deduplicated, Ready;
  }

  /** The metadata is current, no path is met twice, and every replacement takes. */
  ghost predicate Prepared(fs: Fs, jobs: seq<Job>, opts: Options): (yes: bool)
    ensures yes ==> AllReady(jobs)
  {
    AllReady(jobs) && Disjoint(jobs)
    && (forall i :: 0 <= i < |jobs| ==> Current(fs, jobs[i].group) && Apart(jobs[i].group))
    && forall i :: 0 <= i < |jobs| ==> AllTake(GroupRun(Upto(fs, jobs, opts, i).fs, jobs[i], opts).outcomes)
  }

  /** A file outside the first `n` groups is left alone by them. */
  lemma {:induction false} GroupsKeepOthers(fs: Fs, jobs: seq<Job>, opts: Options, n: nat, fm: FileMetadata)
    requires Prepared(fs, jobs, opts) && ByCloneForReal(opts) && n <= |jobs|
    requires Regular(fs, fm.path) && forall i :: 0 <= i < n ==> Outside(jobs[i].group, fm.path)
    ensures Unmoved(fs, Upto(fs, jobs, opts, n).fs, fm)
    decreases n, 0
  {
    if n > 0 {
      var m := n - 1;
      GroupsKeepOthers(fs, jobs, opts, m, fm);
      StaysCurrent(fs, jobs, opts, m);
      OneMoreGroup(fs, jobs, opts, m);
      hide Upto, Ready, Current, Apart, Refresh, AllTake, Outside, Disjoint;
      GroupKeepsOthers(Upto(fs, jobs, opts, m).fs, jobs[m], opts, fm);
    }
  }

  /** The metadata of a group is still current when its turn comes. */
  lemma {:induction false} StaysCurrent(fs: Fs, jobs: seq<Job>, opts: Options, n: nat)
    requires Prepared(fs, jobs, opts) && ByCloneForReal(opts) && n < |jobs|
    ensures Current(Upto(fs, jobs, opts, n).fs, jobs[n].group)
    decreases n, 1
  {
    hide Ready, AllTake, Refresh, Upto, GroupRun;
    forall k | 0 <= k < |jobs[n].group|
      ensures Unmoved(fs, Upto(fs, jobs, opts, n).fs, jobs[n].group[k])
    {
      GroupsKeepOthers(fs, jobs, opts, n, jobs[n].group[k]);
    }
  }

  lemma MembersStayRegular(fs: Fs, job: Job, opts: Options, k: nat)
    requires Ready(job) && ByCloneForReal(opts) && Current(fs, job.group) && Apart(job.group) && k < |job.group|
    requires AllTake(GroupRun(fs, job, opts).outcomes)
    ensures Regular(GroupRun(fs, job, opts).fs, job.group[k].path)
  {
    hide Chosen, Through, Refresh;
    if job.decision.From? {
      var o := job.decision.origin;
      ThroughIsAfter(fs, job.group, o, opts, job.calls, |job.group|);
      assert After(opts, job.group, o, |job.group|, k, Through(fs, job.group, o, opts, job.calls, |job.group|).fs);
    }
  }

  lemma DisjointGroups(fs: Fs, jobs: seq<Job>, opts: Options, i: nat, j: nat, k: nat)
    requires Prepared(fs, jobs, opts) && i < |jobs| && j < |jobs| && k < |jobs[i].group|
    ensures i != j ==> Outside(jobs[j].group, jobs[i].group[k].path)
  {
  }

  lemma OneMoreKeepsOthers(fs: Fs, jobs: seq<Job>, opts: Options, n: nat, from: Fs, fm: FileMetadata)
    requires Prepared(fs, jobs, opts) && ByCloneForReal(opts) && n < |jobs|
    requires Unmoved(from, Upto(fs, jobs, opts, n).fs, fm) && Outside(jobs[n].group, fm.path)
    ensures Unmoved(from, Upto(fs, jobs, opts, n + 1).fs, fm)
  {
    StaysCurrent(fs, jobs, opts, n);
    OneMoreGroup(fs, jobs, opts, n);
    hide Upto, Ready, Current, Apart, Refresh, AllTake, Disjoint, Outside;
    GroupKeepsOthers(Upto(fs, jobs, opts, n).fs, jobs[n], opts, fm);
  }

  lemma TurnIsUnmoved(fs: Fs, jobs: seq<Job>, opts: Options, n: nat, k: nat)
    requires Prepared(fs, jobs, opts) && ByCloneForReal(opts) && n < |jobs| && k < |jobs[n].group|
    ensures var s := Upto(fs, jobs, opts, n + 1).fs; Unmoved(s, s, jobs[n].group[k])
  {
    StaysCurrent(fs, jobs, opts, n);
    OneMoreGroup(fs, jobs, opts, n);
    hide Upto, Ready, Current, Apart, Refresh, AllTake, Disjoint;
    MembersStayRegular(Upto(fs, jobs, opts, n).fs, jobs[n], opts, k);
  }

  /** What a group looks like after its turn, it looks like when the phase is over. */
  lemma {:induction false} StaysAsItIs(fs: Fs, jobs: seq<Job>, opts: Options, i: nat, n: nat, k: nat)
    requires Prepared(fs, jobs, opts) && ByCloneForReal(opts) && i < n <= |jobs| && k < |jobs[i].group|
    ensures Unmoved(Upto(fs, jobs, opts, i + 1).fs, Upto(fs, jobs, opts, n).fs, jobs[i].group[k])
    decreases n
  {
    hide *;
    if n == i + 1 {
      TurnIsUnmoved(fs, jobs, opts, i, k);
    } else {
      StaysAsItIs(fs, jobs, opts, i, n - 1, k);
      DisjointGroups(fs, jobs, opts, i, n - 1, k);
      OneMoreKeepsOthers(fs, jobs, opts, n - 1, Upto(fs, jobs, opts, i + 1).fs, jobs[i].group[k]);
    }
  }

  lemma RefreshedLater(fs: Fs, jobs: seq<Job>, opts: Options, i: nat)
    requires Prepared(fs, jobs, opts) && ByCloneForReal(opts) && i < |jobs|
    ensures Refreshed(AllGroups(fs, jobs, opts).fs, jobs[i].group) ==
            Refreshed(GroupRun(Upto(fs, jobs, opts, i).fs, jobs[i], opts).fs, jobs[i].group)
  {
    OneMoreGroup(fs, jobs, opts, i);
    assert jobs[..|jobs|] == jobs;
    assert AllGroups(fs, jobs, opts) == Upto(fs, jobs, opts, |jobs|);
    hide Upto, Refresh, GroupRun, Prepared, AllGroups;
    var after, end := Upto(fs, jobs, opts, i + 1).fs, Upto(fs, jobs, opts, |jobs|).fs;
    forall k | 0 <= k < |jobs[i].group|
      ensures Refresh(end, jobs[i].group[k]) == Refresh(after, jobs[i].group[k])
    {
      StaysAsItIs(fs, jobs, opts, i, |jobs|, k);
    }
  }

  /** The same groups, with metadata taken anew after the first run. */
  ghost predicate Retaken(fs: Fs, jobs: seq<Job>, opts: Options, jobs': seq<Job>) {
    AllReady(jobs) && AllReady(jobs') && |jobs'| == |jobs|
    && forall i :: 0 <= i < |jobs| ==> jobs'[i].group == Refreshed(AllGroups(fs, jobs, opts).fs, jobs[i].group)
  }

  function FirstSize(group: Group): nat {
    if group == [] then 0 else group[0].size
  }

  predicate EqualSizes(jobs: seq<Job>) {
    forall i :: 0 <= i < |jobs| ==> Uniform(jobs[i].group, FirstSize(jobs[i].group))
  }

  lemma {:induction false} SecondPhaseUpto(fs: Fs, jobs: seq<Job>, opts: Options, jobs': seq<Job>, n: nat)
    requires Prepared(fs, jobs, opts) && ByCloneForReal(opts) && Retaken(fs, jobs, opts, jobs') && n <= |jobs|
    ensures var end := AllGroups(fs, jobs, opts).fs;
            var first, second := Upto(fs, jobs, opts, n), Upto(end, jobs', opts, n);
            second.fs == end && second.saved == 0
            && (EqualSizes(jobs) ==> second.already == first.saved + first.already)
  {
    if n > 0 {
      var m := n - 1;
      SecondPhaseUpto(fs, jobs, opts, jobs', m);
      var end := AllGroups(fs, jobs, opts).fs;
      OneMoreGroup(fs, jobs, opts, m);
      OneMoreGroup(end, jobs', opts, m);
      SecondTurn(fs, jobs, opts, jobs', m);
    }
  }

  /** The turn of one group in the second run. */
  lemma SecondTurn(fs: Fs, jobs: seq<Job>, opts: Options, jobs': seq<Job>, i: nat)
    requires Prepared(fs, jobs, opts) && ByCloneForReal(opts) && Retaken(fs, jobs, opts, jobs') && i < |jobs|
    ensures var end := AllGroups(fs, jobs, opts).fs;
            var p, q := GroupRun(Upto(fs, jobs, opts, i).fs, jobs[i], opts), GroupRun(end, jobs'[i], opts);
            q.fs == end && q.saved == 0 && (EqualSizes(jobs) ==> q.already == p.saved + p.already)
            && forall j :: 0 <= j < |q.outcomes| ==> q.outcomes[j] !in Savings + Missed
  {
    var before, end := Upto(fs, jobs, opts, i).fs, AllGroups(fs, jobs, opts).fs;
    var job, job' := jobs[i], jobs'[i];
    StaysCurrent(fs, jobs, opts, i);
    RefreshedLater(fs, jobs, opts, i);
    hide Upto, AllGroups, Deduplicated, Current, Apart, Refreshed, AllTake, Uniform;
    assert Ready(job) && Ready(job');
    SecondRunReplacesNothing(before, job.group, job.decision, opts, job.calls, end, job'.decision, job'.calls);
    if EqualSizes(jobs) {
      BytesAreConserved(before, job.group, job.decision, opts, job.calls, end, job'.decision, job'.calls,
                        FirstSize(job.group));
    }
  }

  /** Running the second phase again, on metadata taken anew, replaces no file of any group and
      saves nothing; with equal sizes in every group it finds already saved all that the first
      run saved or found already saved. */
  lemma {:induction false} RunningAgainReplacesNothing(fs: Fs, jobs: seq<Job>, opts: Options, jobs': seq<Job>)
    requires Prepared(fs, jobs, opts) && ByCloneForReal(opts) && Retaken(fs, jobs, opts, jobs')
    ensures var first := AllGroups(fs, jobs, opts);
            var second := AllGroups(first.fs, jobs', opts);
            second.fs == first.fs && second.saved == 0
            && (EqualSizes(jobs) ==> second.already == first.saved + first.already)
  {
    SecondPhaseUpto(fs, jobs, opts, jobs', |jobs|);
    assert jobs[..|jobs|] == jobs && jobs'[..|jobs'|] == jobs';
  }
}
