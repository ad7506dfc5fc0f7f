/** Two runs over a group in clone mode, the second on the file system that the first left, with
    metadata taken anew. */
module SecondRun {
  import opened Types
  import opened FileSystem
  import opened Replacing
  import opened Origins
  import opened Deduplication
  import opened Accounting
  import opened Idempotence

  /** The metadata that the first phase would take now; the digest is that of the same bytes. */
  function Refresh(fs: Fs, fm: FileMetadata): FileMetadata {
    if Regular(fs, fm.path) then
      var ino := fs.names[fm.path].ino;
      var inode := fs.inodes[ino];
      fm.(device := inode.device, inode := inode.number, nlink := |Links(fs, ino)|, flags := inode.flags,
          cloneId := inode.cloneId, size := |inode.content|)
    else fm
  }

  function Refreshed(fs: Fs, group: Group): (group': Group)
    ensures |group'| == |group|
  {
    seq(|group|, i requires 0 <= i < |group| => Refresh(fs, group[i]))
  }

  /** The metadata tells the truth about the file system. */
  predicate Current(fs: Fs, group: Group) {
    forall i :: 0 <= i < |group| ==> Regular(fs, group[i].path) && Refresh(fs, group[i]) == group[i]
  }

  predicate Apart(group: Group) {
    forall i, j :: 0 <= i < j < |group| ==> group[i].path != group[j].path
  }

  // ----- One replacement -----

  lemma OthersLinkAlike(fs: Fs, s: Fs, src: Path, dst: Path, p: Path)
    requires Replaced(fs, s, src, dst) && Regular(fs, p) && p != dst
    requires |Links(fs, fs.names[dst].ino)| <= 1
    ensures Regular(s, p) && At(s, p) == At(fs, p) && s.names[p] == fs.names[p]
    ensures Links(s, s.names[p].ino) == Links(fs, fs.names[p].ino)
  {
    var ino := fs.names[p].ino;
    if fs.names[dst] == File(ino) {
      assert {p, dst} <= Links(fs, ino) && |{p, dst}| == 2;
      SubsetSize({p, dst}, Links(fs, ino));
    }
    assert s.names[dst] != File(ino) by {
      assert p !in Links(s, s.names[dst].ino);
    }
    forall q
      ensures q in Links(s, ino) <==> q in Links(fs, ino)
    {
    }
  }

  lemma OthersRefreshAlike(fs: Fs, s: Fs, src: Path, dst: Path, fm: FileMetadata)
    requires Replaced(fs, s, src, dst) && Regular(fs, fm.path) && fm.path != dst
    requires |Links(fs, fs.names[dst].ino)| <= 1
    ensures Regular(s, fm.path) && Refresh(s, fm) == Refresh(fs, fm)
  {
    OthersLinkAlike(fs, s, src, dst, fm.path);
  }

  /** A replacement that reported no trouble and took. */
  lemma TreatedReplaces(fs: Fs, origin: FileMetadata, fm: FileMetadata, originId: nat, opts: Options, calls: Calls)
    requires origin.path != [] && fm.path != [] && opts.mode == ByClone && !opts.dryRun
    requires Judge(opts, origin, fm) == Replaceable
    requires Treated(fs, origin, fm, originId, opts, calls).outcome !in Missed
    ensures var s := Treated(fs, origin, fm, originId, opts, calls).fs;
            Replaced(fs, s, origin.path, fm.path) && At(s, fm.path).cloneId == originId
  {
    hide CloneRun, Immutable, OnlyChanges;
    StagedSafety(fs, origin.path, fm.path, opts.preserveParentMtime, calls.clone);
    assert Replaced(fs, Last(CloneRun(fs, origin.path, fm.path, opts.preserveParentMtime, calls.clone)),
                    origin.path, fm.path);
  }

  // ----- The loop -----

  predicate AllTake(outcomes: seq<Outcome>) {
    forall i :: 0 <= i < |outcomes| ==> outcomes[i] !in Missed
  }

  /** The metadata of a file once the first `n` have been dealt with. */
  predicate After(opts: Options, group: Group, o: nat, n: nat, i: nat, fs: Fs)
    requires o < |group| && i < |group|
  {
    Regular(fs, group[i].path) && Alike(group[i], Refresh(fs, group[i]))
    && var source := if i < n && Changes(opts, group, o, i) then group[o] else group[i];
       Refresh(fs, group[i]).cloneId == source.cloneId && Refresh(fs, group[i]).size == source.size
  }

  predicate ByCloneForReal(opts: Options) {
    opts.mode == ByClone && !opts.force && !opts.dryRun
  }

  lemma ReplacedIsAfter(opts: Options, group: Group, o: nat, n: nat, fs: Fs, s: Fs)
    requires o < |group| && n < |group| && Changes(opts, group, o, n) && ByCloneForReal(opts)
    requires After(opts, group, o, n, o, fs) && After(opts, group, o, n, n, fs)
    requires Replaced(fs, s, group[o].path, group[n].path) && At(s, group[n].path).cloneId == group[o].cloneId
    ensures |Links(fs, fs.names[group[n].path].ino)| == 1
    ensures After(opts, group, o, n + 1, n, s)
  {
    var p := group[n].path;
    var ino := fs.names[p].ino;
    hide Immutable;
    assert p in Links(fs, ino);
    assert group[n].nlink == |Links(fs, ino)| == 1 by {
      SubsetSize({p}, Links(fs, ino));
    }
  }

  ghost predicate AllAfter(opts: Options, group: Group, o: nat, n: nat, fs: Fs)
    requires o < |group|
  {
    forall i :: 0 <= i < |group| ==> After(opts, group, o, n, i, fs)
  }

  lemma UnchangedIsAfter(opts: Options, group: Group, o: nat, n: nat, fs: Fs)
    requires o < |group| && n < |group| && !Changes(opts, group, o, n) && AllAfter(opts, group, o, n, fs)
    ensures AllAfter(opts, group, o, n + 1, fs)
  {
    hide Changes, Alike, Refresh;
    var m := n + 1;
    forall i | 0 <= i < |group|
      ensures After(opts, group, o, m, i, fs)
    {
      assert After(opts, group, o, n, i, fs);
    }
  }

  lemma TreatedIsAfter(opts: Options, group: Group, o: nat, n: nat, fs: Fs, calls: Calls)
    requires o < |group| && n < |group| && Changes(opts, group, o, n) && ByCloneForReal(opts) && Named(group)
    requires Apart(group) && AllAfter(opts, group, o, n, fs)
    requires Treated(fs, group[o], group[n], group[o].cloneId, opts, calls).outcome !in Missed
    ensures AllAfter(opts, group, o, n + 1, Treated(fs, group[o], group[n], group[o].cloneId, opts, calls).fs)
  {
    TreatedReplaces(fs, group[o], group[n], group[o].cloneId, opts, calls);
    var s := Treated(fs, group[o], group[n], group[o].cloneId, opts, calls).fs;
    hide Treated;
    assert After(opts, group, o, n, o, fs) && After(opts, group, o, n, n, fs);
    ReplacedIsAfter(opts, group, o, n, fs, s);
    hide Changes, Alike, Refresh, Replaced;
    var m := n + 1;
    forall i | 0 <= i < |group|
      ensures After(opts, group, o, m, i, s)
    {
      if i != n {
        assert After(opts, group, o, n, i, fs);
        assert group[i].path != group[n].path;
        OthersRefreshAlike(fs, s, group[o].path, group[n].path, group[i]);
      }
    }
  }

  lemma OriginIdIsKnown(fs: Fs, fm: FileMetadata)
    ensures CloneId(fs, fm.path) == if Regular(fs, fm.path) then Refresh(fs, fm).cloneId else 0
  {
  }

  lemma SkippedIsUntreated(fs: Fs, origin: FileMetadata, fm: FileMetadata, originId: nat, opts: Options, calls: Calls)
    requires origin.path != [] && fm.path != [] && Judge(opts, origin, fm) != Replaceable
    ensures Treated(fs, origin, fm, originId, opts, calls).fs == fs
  {
    hide Judge, Attempt;
  }

  lemma {:induction false} ThroughIsAfter(fs: Fs, group: Group, o: nat, opts: Options, calls: seq<Calls>, n: nat)
    requires o < |group| == |calls| && n <= |group| && Named(group) && ByCloneForReal(opts)
    requires Current(fs, group) && Apart(group)
    requires AllTake(Through(fs, group, o, opts, calls, n).outcomes)
    ensures AllAfter(opts, group, o, n, Through(fs, group, o, opts, calls, n).fs)
  {
    hide Treated, Refresh;
    if n > 0 {
      var m := n - 1;
      var before, after := Through(fs, group, o, opts, calls, m), Through(fs, group, o, opts, calls, n);
      assert before.outcomes == after.outcomes[..m] && after.outcomes[m] !in Missed;
      ThroughIsAfter(fs, group, o, opts, calls, m);
      assert CloneId(fs, group[o].path) == group[o].cloneId by {
        assert Refresh(fs, group[o]) == group[o];
        OriginIdIsKnown(fs, group[o]);
      }
      if Changes(opts, group, o, m) {
        TreatedIsAfter(opts, group, o, m, before.fs, calls[m]);
      } else {
        UnchangedIsAfter(opts, group, o, m, before.fs);
        if m != o {
          SkippedIsUntreated(before.fs, group[o], group[m], group[o].cloneId, opts, calls[m]);
        }
      }
    }
  }

  // ----- The second run -----

  lemma FirstRunRebuilds(fs: Fs, group: Group, o: nat, opts: Options, calls: seq<Calls>)
    requires o < |group| == |calls| && Named(group) && ByCloneForReal(opts)
    requires Current(fs, group) && Apart(group)
    requires AllTake(Through(fs, group, o, opts, calls, |group|).outcomes)
    ensures var group' := Refreshed(Through(fs, group, o, opts, calls, |group|).fs, group);
            Rebuilt(opts, group, o, group')
  {
    var s := Through(fs, group, o, opts, calls, |group|).fs;
    ThroughIsAfter(fs, group, o, opts, calls, |group|);
    hide Through, Changes, Refresh;
    var group' := Refreshed(s, group);
    forall i | 0 <= i < |group|
      ensures RebuiltAt(opts, group, o, group', i)
    {
      assert After(opts, group, o, |group|, i, s);
    }
  }

  lemma {:induction false} NothingToDo(fs: Fs, group: Group, o: nat, opts: Options, calls: seq<Calls>, n: nat)
    requires o < |group| == |calls| && n <= |group| && Named(group)
    requires forall i :: 0 <= i < |group| ==> !Changes(opts, group, o, i)
    ensures var p := Through(fs, group, o, opts, calls, n);
            p.fs == fs && p.saved == 0
            && forall i :: 0 <= i < n ==>
                             p.outcomes[i] == if i == o then Origin else Skipped(Judge(opts, group[o], group[i]))
  {
    hide Judge, Attempt;
    if n > 0 {
      NothingToDo(fs, group, o, opts, calls, n - 1);
      assert !Changes(opts, group, o, n - 1);
    }
  }

  lemma {:induction false} SameNumber(outcomes: seq<Outcome>, outcomes': seq<Outcome>, kinds: set<Outcome>)
    requires |outcomes| == |outcomes'|
    requires forall i :: 0 <= i < |outcomes| ==> (outcomes[i] in kinds <==> outcomes'[i] in kinds)
    ensures Number(outcomes, kinds) == Number(outcomes', kinds)
  {
    if outcomes != [] {
      SameNumber(outcomes[..|outcomes| - 1], outcomes'[..|outcomes| - 1], kinds);
    }
  }

  lemma {:induction false} NoNumber(outcomes: seq<Outcome>, kinds: set<Outcome>)
    requires forall i :: 0 <= i < |outcomes| ==> outcomes[i] !in kinds
    ensures Number(outcomes, kinds) == 0
  {
    if outcomes != [] {
      NoNumber(outcomes[..|outcomes| - 1], kinds);
    }
  }

  /** When every replacement takes, the files lost are those that are locked. */
  lemma LostAreLocked(fs: Fs, group: Group, o: nat, opts: Options, calls: seq<Calls>, i: nat)
    requires o < |group| == |calls| && Named(group) && i < |group|
    requires AllTake(Through(fs, group, o, opts, calls, |group|).outcomes)
    ensures Through(fs, group, o, opts, calls, |group|).outcomes[i] in Lost <==> Locks(opts, group, o, i)
  {
    OutcomesAreExplained(fs, group, o, opts, calls, |group|);
    hide Through, Judge;
    assert Explained(group, o, opts, i, Through(fs, group, o, opts, calls, |group|).outcomes[i]);
  }

  lemma SkippedIsSorted(opts: Options, group: Group, o: nat, i: nat, outcome: Outcome)
    requires o < |group| && i < |group| && !Changes(opts, group, o, i)
    requires outcome == if i == o then Origin else Skipped(Judge(opts, group[o], group[i]))
    ensures outcome !in Savings + Missed && (outcome in Lost <==> Locks(opts, group, o, i))
  {
    hide Judge;
  }

  /** In a settled group nothing is replaced, and as many files as before are lost. */
  lemma SettledSkips(fs: Fs, group: Group, o: nat, opts: Options, calls: seq<Calls>,
                     fs': Fs, group': Group, d': Decision, calls': seq<Calls>)
    requires o < |group| == |calls| == |group'| == |calls'| && Named(group) && Named(group')
    requires AllTake(Through(fs, group, o, opts, calls, |group|).outcomes)
    requires Chosen(group', d') && Settled(opts, group, o, group', d')
    ensures var q := Deduplicated(fs', group', d', opts, calls');
            q.fs == fs' && q.saved == 0
            && Number(q.outcomes, Lost) == Number(Through(fs, group, o, opts, calls, |group|).outcomes, Lost)
            && forall i :: 0 <= i < |q.outcomes| ==> q.outcomes[i] !in Savings + Missed
  {
    var outcomes := Through(fs, group, o, opts, calls, |group|).outcomes;
    forall i | 0 <= i < |group|
      ensures outcomes[i] in Lost <==> Locks(opts, group, o, i)
    {
      LostAreLocked(fs, group, o, opts, calls, i);
    }
    hide Chosen, Judge, Through, Locks, Changes;
    if d'.AllCloned? {
      NoNumber(outcomes, Lost);
    } else {
      var o' := d'.origin;
      NothingToDo(fs', group', o', opts, calls', |group|);
      var outcomes' := Through(fs', group', o', opts, calls', |group|).outcomes;
      forall i | 0 <= i < |group|
        ensures outcomes'[i] !in Savings + Missed && (outcomes'[i] in Lost <==> Locks(opts, group', o', i))
      {
        SkippedIsSorted(opts, group', o', i, outcomes'[i]);
      }
      SameNumber(outcomes, outcomes', Lost);
    }
  }

  lemma RefreshedIsNamed(fs: Fs, group: Group)
    requires Named(group)
    ensures Named(Refreshed(fs, group))
  {
  }

  /** In clone mode, after a run in which every replacement succeeds and takes, a second run
      replaces nothing and saves nothing. It may start later, when other groups have been dealt
      with in between. */
  lemma {:induction false} SecondRunReplacesNothing(fs: Fs, group: Group, d: Decision, opts: Options, calls: seq<Calls>,
                                 later: Fs, d': Decision, calls': seq<Calls>)
    requires |calls| == |group| == |calls'| && Named(group) && ByCloneForReal(opts)
    requires Current(fs, group) && Apart(group) && Chosen(group, d)
    requires AllTake(Deduplicated(fs, group, d, opts, calls).outcomes)
    requires Chosen(Refreshed(Deduplicated(fs, group, d, opts, calls).fs, group), d')
    ensures var p := Deduplicated(fs, group, d, opts, calls);
            var group' := Refreshed(p.fs, group);
            Named(group')
            && var q := Deduplicated(later, group', d', opts, calls');
               q.fs == later && q.saved == 0
               && forall i :: 0 <= i < |q.outcomes| ==> q.outcomes[i] !in Savings + Missed
  {
    var p := Deduplicated(fs, group, d, opts, calls);
    var group' := Refreshed(p.fs, group);
    hide Chosen, Refresh, Through;
    RefreshedIsNamed(p.fs, group);
    if d.From? {
      FirstRunRebuilds(fs, group, d.origin, opts, calls);
      SecondDecisionSettles(opts, group, d.origin, group', d');
      SettledSkips(fs, group, d.origin, opts, calls, later, group', d', calls');
    } else {
      assert group' == group;
      OneChoice(group, d, d');
    }
  }

  lemma SettledConserves(fs: Fs, group: Group, o: nat, opts: Options, calls: seq<Calls>,
                         later: Fs, group': Group, d': Decision, calls': seq<Calls>, size: nat)
    requires o < |group| == |calls| == |group'| == |calls'| && Named(group) && Named(group')
    requires Chosen(group, From(o)) && AllTake(Deduplicated(fs, group, From(o), opts, calls).outcomes)
    requires Chosen(group', d') && Settled(opts, group, o, group', d')
    requires Uniform(group, size) && Uniform(group', size)
    ensures var p, q := Deduplicated(fs, group, From(o), opts, calls), Deduplicated(later, group', d', opts, calls');
            q.saved == 0 && q.already == p.saved + p.already
  {
    assert !d'.AllCompressed?;
    assert Deduplicated(fs, group, From(o), opts, calls) == Through(fs, group, o, opts, calls, |group|);
    hide *;
    SettledSkips(fs, group, o, opts, calls, later, group', d', calls');
    GroupIsAccounted(fs, group, From(o), opts, calls, size);
    GroupIsAccounted(later, group', d', opts, calls', size);
  }

  /** In a group of equal sizes, all that the first run saved or found already saved is what the
      second run finds already saved. */
  lemma BytesAreConserved(fs: Fs, group: Group, d: Decision, opts: Options, calls: seq<Calls>,
                          later: Fs, d': Decision, calls': seq<Calls>, size: nat)
    requires |calls| == |group| == |calls'| && Named(group) && ByCloneForReal(opts)
    requires Current(fs, group) && Apart(group) && Uniform(group, size) && Chosen(group, d)
    requires AllTake(Deduplicated(fs, group, d, opts, calls).outcomes)
    requires Chosen(Refreshed(Deduplicated(fs, group, d, opts, calls).fs, group), d')
    ensures var p := Deduplicated(fs, group, d, opts, calls);
            var group' := Refreshed(p.fs, group);
            Named(group')
            && var q := Deduplicated(later, group', d', opts, calls');
               q.saved == 0 && q.already == p.saved + p.already
  {
    var p := Deduplicated(fs, group, d, opts, calls);
    var group' := Refreshed(p.fs, group);
    hide Chosen, Refresh, Through;
    RefreshedIsNamed(p.fs, group);
    if d.From? {
      FirstRunRebuilds(fs, group, d.origin, opts, calls);
      SecondDecisionSettles(opts, group, d.origin, group', d');
      RebuiltIsUniform(opts, group, d.origin, group', size);
      hide *;
      SettledConserves(fs, group, d.origin, opts, calls, later, group', d', calls', size);
    } else {
      assert group' == group;
      OneChoice(group, d, d');
    }
  }

  lemma RebuiltIsUniform(opts: Options, group: Group, o: nat, group': Group, size: nat)
    requires o < |group| && Rebuilt(opts, group, o, group') && Uniform(group, size)
    ensures Uniform(group', size)
  {
    RebuiltEach(opts, group, o, group');
  }
}
