/** The byte counters: every byte of a group is accounted for once, a dry run counts what a real
    run would, and no other origin leaves less to replace. */
module Accounting {
  import opened Types
  import opened FileSystem
  import opened Origins
  import opened Deduplication

  /** The sizes of the files with one of these outcomes, added up. */
  function Bytes(group: Group, outcomes: seq<Outcome>, kinds: set<Outcome>): (bytes: nat)
    requires |outcomes| <= |group|
    ensures outcomes == [] ==> bytes == 0
  {
    if outcomes == [] then 0
    else
      var n := |outcomes| - 1;
      Bytes(group, outcomes[..n], kinds) + Part(group[n].size, outcomes[n], kinds)
  }

  lemma BytesSnoc(group: Group, outcomes: seq<Outcome>, outcome: Outcome, kinds: set<Outcome>)
    requires |outcomes| < |group|
    ensures Bytes(group, outcomes + [outcome], kinds) ==
            Bytes(group, outcomes, kinds) + Part(group[|outcomes|].size, outcome, kinds)
  {
    assert (outcomes + [outcome])[..|outcomes|] == outcomes;
  }

  /** The counters are the sizes of the files with the outcomes that count. */
  lemma {:induction false} CountersAreBytes(fs: Fs, group: Group, o: nat, opts: Options, calls: seq<Calls>, n: nat)
    requires o < |group| == |calls| && n <= |group| && Named(group)
    ensures var p := Through(fs, group, o, opts, calls, n);
            p.saved == Bytes(group, p.outcomes, Savings) && p.already == Bytes(group, p.outcomes, Shared)
  {
    hide Treated, Bytes;
    if n > 0 {
      CountersAreBytes(fs, group, o, opts, calls, n - 1);
      var before, after := Through(fs, group, o, opts, calls, n - 1), Through(fs, group, o, opts, calls, n);
      BytesSnoc(group, before.outcomes, after.outcomes[n - 1], Savings);
      BytesSnoc(group, before.outcomes, after.outcomes[n - 1], Shared);
    }
  }

  lemma {:induction false} BytesSplit(group: Group, outcomes: seq<Outcome>, some: set<Outcome>, others: set<Outcome>)
    requires |outcomes| <= |group| && some !! others
    ensures Bytes(group, outcomes, some + others) == Bytes(group, outcomes, some) + Bytes(group, outcomes, others)
  {
    if outcomes != [] {
      BytesSplit(group, outcomes[..|outcomes| - 1], some, others);
    }
  }

  function TotalSize(group: Group): nat {
    if group == [] then 0 else TotalSize(group[..|group| - 1]) + group[|group| - 1].size
  }

  /** Every file has exactly one outcome: that of the origin is to be the origin, and that of any
      other follows from its verdict, which the file system has no part in. */
  ghost predicate Explained(group: Group, o: nat, opts: Options, i: nat, outcome: Outcome)
    requires o < |group| && i < |group|
  {
    if i == o then outcome == Origin
    else
      var verdict := Judge(opts, group[o], group[i]);
      if verdict != Replaceable then outcome == Skipped(verdict)
      else if opts.dryRun then outcome == Planned
      else outcome in {Failed, Done} || (opts.mode == ByClone && outcome in {SharedAnyway, NotCloned})
  }

  lemma {:induction false} OutcomesAreExplained(fs: Fs, group: Group, o: nat, opts: Options, calls: seq<Calls>, n: nat)
    requires o < |group| == |calls| && n <= |group| && Named(group)
    ensures forall i :: 0 <= i < n ==> Explained(group, o, opts, i, Through(fs, group, o, opts, calls, n).outcomes[i])
  {
    hide Attempt, Immutable;
    if n > 0 {
      OutcomesAreExplained(fs, group, o, opts, calls, n - 1);
      var before, after := Through(fs, group, o, opts, calls, n - 1), Through(fs, group, o, opts, calls, n);
      assert forall i :: 0 <= i < n - 1 ==> after.outcomes[i] == before.outcomes[i];
    }
  }

  lemma {:induction false} AllBytes(group: Group, outcomes: seq<Outcome>, kinds: set<Outcome>)
    requires |outcomes| <= |group| && forall i :: 0 <= i < |outcomes| ==> outcomes[i] in kinds
    ensures Bytes(group, outcomes, kinds) == TotalSize(group[..|outcomes|])
  {
    if outcomes != [] {
      var n := |outcomes| - 1;
      AllBytes(group, outcomes[..n], kinds);
      assert group[..n + 1][..n] == group[..n];
    }
  }

  // ----- Every byte once -----

  lemma {:induction false} OriginBytes(group: Group, outcomes: seq<Outcome>, o: nat)
    requires |outcomes| <= |group| && o < |group|
    requires forall i :: 0 <= i < |outcomes| ==> (outcomes[i] == Origin <==> i == o)
    ensures Bytes(group, outcomes, {Origin}) == if o < |outcomes| then group[o].size else 0
  {
    if outcomes != [] {
      OriginBytes(group, outcomes[..|outcomes| - 1], o);
    }
  }

  lemma ExplainedIsSorted(group: Group, o: nat, opts: Options, i: nat, outcome: Outcome)
    requires o < |group| && i < |group| && Explained(group, o, opts, i, outcome)
    ensures outcome in Savings + Shared + Lost + {Origin} && (outcome == Origin <==> i == o)
  {
    hide Immutable;
  }

  lemma BytesByKind(group: Group, outcomes: seq<Outcome>)
    requires |outcomes| <= |group|
    ensures Bytes(group, outcomes, Savings + Shared + Lost + {Origin}) ==
            Bytes(group, outcomes, Savings) + Bytes(group, outcomes, Shared)
            + Bytes(group, outcomes, Lost) + Bytes(group, outcomes, {Origin})
  {
    hide Bytes;
    BytesSplit(group, outcomes, Savings + Shared + Lost, {Origin});
    BytesSplit(group, outcomes, Savings + Shared, Lost);
    BytesSplit(group, outcomes, Savings, Shared);
  }

  /** The bytes saved, found shared, lost to immutable files and to failures, and those of the
      origin make up the group. */
  lemma EveryByteIsAccounted(fs: Fs, group: Group, o: nat, opts: Options, calls: seq<Calls>)
    requires o < |group| == |calls| && Named(group)
    ensures var p := Through(fs, group, o, opts, calls, |group|);
            p.saved + p.already + Bytes(group, p.outcomes, Lost) + group[o].size == TotalSize(group)
  {
    var outcomes := Through(fs, group, o, opts, calls, |group|).outcomes;
    CountersAreBytes(fs, group, o, opts, calls, |group|);
    OutcomesAreExplained(fs, group, o, opts, calls, |group|);
    hide Through, Explained, Bytes;
    forall i | 0 <= i < |group|
      ensures outcomes[i] in Savings + Shared + Lost + {Origin} && (outcomes[i] == Origin <==> i == o)
    {
      ExplainedIsSorted(group, o, opts, i, outcomes[i]);
    }
    AllBytes(group, outcomes, Savings + Shared + Lost + {Origin});
    BytesByKind(group, outcomes);
    OriginBytes(group, outcomes, o);
    assert group[..|group|] == group;
  }

  function Number(outcomes: seq<Outcome>, kinds: set<Outcome>): nat {
    if outcomes == [] then 0
    else Number(outcomes[..|outcomes| - 1], kinds) + Part(1, outcomes[|outcomes| - 1], kinds)
  }

  predicate Uniform(group: Group, size: nat) {
    forall i :: 0 <= i < |group| ==> group[i].size == size
  }

  lemma {:induction false} UniformBytes(group: Group, outcomes: seq<Outcome>, kinds: set<Outcome>, size: nat)
    requires |outcomes| <= |group| && Uniform(group, size)
    ensures Bytes(group, outcomes, kinds) == size * Number(outcomes, kinds)
  {
    if outcomes != [] {
      var n := |outcomes| - 1;
      UniformBytes(group, outcomes[..n], kinds, size);
      if outcomes[n] in kinds {
        assert size * (Number(outcomes[..n], kinds) + 1) == size * Number(outcomes[..n], kinds) + size;
      }
    }
  }

  lemma {:induction false} UniformTotal(group: Group, size: nat)
    requires Uniform(group, size)
    ensures TotalSize(group) == size * |group|
  {
    if group != [] {
      var n := |group| - 1;
      UniformTotal(group[..n], size);
      assert size * n + size == size * |group|;
    }
  }

  /** In a group of equal sizes, unless every file is compressed and none a clone of another,
      every file but one is saved, shared, immutable or failed. */
  lemma GroupIsAccounted(fs: Fs, group: Group, d: Decision, opts: Options, calls: seq<Calls>, size: nat)
    requires |group| == |calls| && Named(group) && Chosen(group, d) && Uniform(group, size) && !d.AllCompressed?
    ensures var p := Deduplicated(fs, group, d, opts, calls);
            p.saved + p.already + size * Number(p.outcomes, Lost) == size * (|group| - 1)
  {
    hide Through, Chosen;
    if d.From? {
      EveryByteIsAccounted(fs, group, d.origin, opts, calls);
      UniformBytes(group, Through(fs, group, d.origin, opts, calls, |group|).outcomes, Lost, size);
      UniformTotal(group, size);
      assert size * |group| == size * (|group| - 1) + size;
    }
  }

  // ----- Dry runs -----

  const Missed: set<Outcome> := {Failed, NotCloned, SharedAnyway}

  lemma DryTreated(fs: Fs, dryFs: Fs, origin: FileMetadata, fm: FileMetadata, originId: nat, opts: Options,
                   calls: Calls, dryCalls: Calls)
    requires origin.path != [] && fm.path != []
    ensures var run := Treated(fs, origin, fm, originId, opts.(dryRun := false), calls);
            var dry := Treated(dryFs, origin, fm, originId, opts.(dryRun := true), dryCalls);
            dry.fs == dryFs
            && Part(fm.size, dry.outcome, Savings) ==
               Part(fm.size, run.outcome, Savings) + Part(fm.size, run.outcome, Missed)
            && Part(fm.size, run.outcome, Shared) ==
               Part(fm.size, dry.outcome, Shared) + Part(fm.size, run.outcome, {SharedAnyway})
  {
    hide Attempt, Immutable;
  }

  lemma {:induction false} DryThrough(fs: Fs, group: Group, o: nat, opts: Options,
                                      calls: seq<Calls>, dryCalls: seq<Calls>, n: nat)
    requires o < |group| == |calls| == |dryCalls| && n <= |group| && Named(group)
    ensures var run := Through(fs, group, o, opts.(dryRun := false), calls, n);
            var dry := Through(fs, group, o, opts.(dryRun := true), dryCalls, n);
            dry.fs == fs && dry.saved == run.saved + Bytes(group, run.outcomes, Missed)
            && run.already == dry.already + Bytes(group, run.outcomes, {SharedAnyway})
  {
    hide Treated, Bytes;
    if n > 0 {
      DryThrough(fs, group, o, opts, calls, dryCalls, n - 1);
      var before := Through(fs, group, o, opts.(dryRun := false), calls, n - 1);
      var after := Through(fs, group, o, opts.(dryRun := false), calls, n);
      BytesSnoc(group, before.outcomes, after.outcomes[n - 1], Missed);
      BytesSnoc(group, before.outcomes, after.outcomes[n - 1], {SharedAnyway});
      if n - 1 != o {
        var originId := CloneId(fs, group[o].path);
        DryTreated(before.fs, fs, group[o], group[n - 1], originId, opts, calls[n - 1], dryCalls[n - 1]);
      }
    }
  }

  /** A dry run changes nothing, and it counts what a real run counts in which every replacement
      succeeds and takes; where one does not, the difference is the size of that file. */
  lemma {:induction false} DryRunPredicts(fs: Fs, group: Group, d: Decision, opts: Options,
                                          calls: seq<Calls>, dryCalls: seq<Calls>)
    requires |group| == |calls| == |dryCalls| && Named(group) && Chosen(group, d)
    ensures var run := Deduplicated(fs, group, d, opts.(dryRun := false), calls);
            var dry := Deduplicated(fs, group, d, opts.(dryRun := true), dryCalls);
            dry.fs == fs && dry.saved == run.saved + Bytes(group, run.outcomes, Missed)
            && run.already == dry.already + Bytes(group, run.outcomes, {SharedAnyway})
            && (Number(run.outcomes, Missed) == 0 ==> dry.saved == run.saved && dry.already == run.already)
  {
    hide Through, Chosen;
    var run := Deduplicated(fs, group, d, opts.(dryRun := false), calls);
    if d.From? {
      DryThrough(fs, group, d.origin, opts, calls, dryCalls, |group|);
      if Number(run.outcomes, Missed) == 0 {
        NumberNone(group, run.outcomes, Missed, Missed);
        NumberNone(group, run.outcomes, {SharedAnyway}, Missed);
      }
    }
  }

  lemma {:induction false} NumberNone(group: Group, outcomes: seq<Outcome>, kinds: set<Outcome>, more: set<Outcome>)
    requires |outcomes| <= |group| && kinds <= more && Number(outcomes, more) == 0
    ensures Bytes(group, outcomes, kinds) == 0
  {
    if outcomes != [] {
      NumberNone(group, outcomes[..|outcomes| - 1], kinds, more);
    }
  }

  // ----- The best origin -----

  /** The number of files, among the first `n`, that would be replaced. */
  function Todo(group: Group, o: nat, opts: Options, n: nat): nat
    requires o < |group| && n <= |group|
  {
    if n == 0 then 0
    else Todo(group, o, opts, n - 1) + if n - 1 != o && Judge(opts, group[o], group[n - 1]) == Replaceable then 1 else 0
  }

  /** A file that may be replaced, whichever the origin. */
  predicate Eligible(opts: Options, fm: FileMetadata) {
    (opts.force || fm.nlink <= 1) && !Immutable(fm)
  }

  function Eligibles(opts: Options, group: Group, n: nat): nat
    requires n <= |group|
  {
    if n == 0 then 0 else Eligibles(opts, group, n - 1) + if Eligible(opts, group[n - 1]) then 1 else 0
  }

  /** The eligible files among the first `n` that have a clone id. */
  function EligibleWith(opts: Options, group: Group, id: nat, n: nat): nat
    requires n <= |group|
  {
    if n == 0 then 0
    else
      EligibleWith(opts, group, id, n - 1) + if Eligible(opts, group[n - 1]) && group[n - 1].cloneId == id then 1 else 0
  }

  /** In clone mode an origin spares the eligible files that have its id, and no other. */
  lemma {:induction false} TodoCounts(group: Group, o: nat, opts: Options, n: nat)
    requires o < |group| && n <= |group| && opts.mode == ByClone
    ensures Todo(group, o, opts, n) + EligibleWith(opts, group, group[o].cloneId, n) == Eligibles(opts, group, n)
  {
    hide Immutable;
    if n > 0 {
      TodoCounts(group, o, opts, n - 1);
    }
  }

  /** No origin leaves fewer files to replace than this one. */
  predicate Optimal(group: Group, o: nat, opts: Options)
    requires o < |group|
  {
    forall p :: 0 <= p < |group| ==> Todo(group, o, opts, |group|) <= Todo(group, p, opts, |group|)
  }

  /** No clone id has more eligible files than that of this one. */
  predicate MostEligible(group: Group, o: nat, opts: Options)
    requires o < |group|
  {
    forall p :: 0 <= p < |group| ==>
                  EligibleWith(opts, group, group[p].cloneId, |group|)
                  <= EligibleWith(opts, group, group[o].cloneId, |group|)
  }

  /** In clone mode, for every group and every origin, in particular the one chosen: it is optimal if
      and only if no id in the group has more files that may be replaced than its own. */
  lemma OptimalIffMostEligible(group: Group, o: nat, opts: Options)
    requires o < |group| && opts.mode == ByClone
    ensures Optimal(group, o, opts) <==> MostEligible(group, o, opts)
  {
    hide Todo, EligibleWith, Eligibles;
    TodoCounts(group, o, opts, |group|);
    forall p | 0 <= p < |group|
      ensures Todo(group, o, opts, |group|) <= Todo(group, p, opts, |group|) <==>
              EligibleWith(opts, group, group[p].cloneId, |group|)
              <= EligibleWith(opts, group, group[o].cloneId, |group|)
    {
      TodoCounts(group, p, opts, |group|);
    }
  }

  predicate SingleAndMutable(group: Group) {
    forall i :: 0 <= i < |group| ==> group[i].nlink <= 1 && !Immutable(group[i])
  }

  lemma {:induction false} AllEligible(opts: Options, group: Group, id: nat, n: nat)
    requires n <= |group| && SingleAndMutable(group)
    ensures EligibleWith(opts, group, id, n) == Clones(group[..n], id)
  {
    hide Immutable;
    if n > 0 {
      AllEligible(opts, group, id, n - 1);
      assert group[..n][..n - 1] == group[..n - 1];
    }
  }

  /** So the origin chosen is optimal among single-link files that may be changed. */
  lemma OriginIsOptimal(group: Group, d: Decision, opts: Options)
    requires Chosen(group, d) && d.From? && SingleAndMutable(group) && opts.mode == ByClone
    ensures Optimal(group, d.origin, opts)
  {
    forall o | 0 <= o < |group|
      ensures EligibleWith(opts, group, group[o].cloneId, |group|) <=
              EligibleWith(opts, group, group[d.origin].cloneId, |group|)
    {
      AllEligible(opts, group, group[d.origin].cloneId, |group|);
      AllEligible(opts, group, group[o].cloneId, |group|);
      assert group[..|group|] == group;
      hide Immutable, Compressed, Clones, EligibleWith;
      if AllDistinct(group) {
        DistinctClones(group, d.origin);
        DistinctClones(group, o);
      } else {
        assert Surpasses(group, d.origin, o);
      }
    }
    OptimalIffMostEligible(group, d.origin, opts);
  }

  lemma {:induction false} DistinctClones(group: Group, o: nat)
    requires AllDistinct(group) && o < |group|
    ensures Clones(group, group[o].cloneId) == 1
  {
    var n := |group| - 1;
    if o == n {
      NoneCounted(group[..n], group[n].cloneId);
    } else {
      assert group[n].cloneId != group[o].cloneId;
      DistinctClones(group[..n], o);
    }
  }

  lemma ClonesOfThree(a: FileMetadata, b: FileMetadata, c: FileMetadata, id: nat)
    ensures Clones([a, b, c], id) ==
            (if a.cloneId == id then 1 else 0) + (if b.cloneId == id then 1 else 0) + if c.cloneId == id then 1 else 0
  {
    assert [] + [a] == [a] && [a] + [b] == [a, b] && [a, b] + [c] == [a, b, c];
    ClonesSnoc([], a, id);
    ClonesSnoc([a], b, id);
    hide Clones;
    ClonesSnoc([a, b], c, id);
  }

  lemma ThreeFiles(a: FileMetadata, b: FileMetadata, c: FileMetadata)
    requires a.cloneId == b.cloneId && a.cloneId != c.cloneId && a.nlink <= 1 && b.nlink <= 1 && c.nlink <= 1
    ensures Chosen([a, b, c], From(0))
  {
    hide Clones, Compressed;
    var group := [a, b, c];
    ClonesOfThree(a, b, c, a.cloneId);
    ClonesOfThree(a, b, c, c.cloneId);
    assert group[0].cloneId == group[1].cloneId && group[0].cloneId != group[2].cloneId;
    assert Surpasses(group, 0, 0) && Surpasses(group, 0, 1) && Surpasses(group, 0, 2);
  }

  lemma EligiblesOfThree(opts: Options, a: FileMetadata, b: FileMetadata, c: FileMetadata, id: nat)
    ensures EligibleWith(opts, [a, b, c], id, 3) ==
            (if Eligible(opts, a) && a.cloneId == id then 1 else 0)
            + (if Eligible(opts, b) && b.cloneId == id then 1 else 0)
            + if Eligible(opts, c) && c.cloneId == id then 1 else 0
  {
    hide Eligible;
    var group := [a, b, c];
    assert EligibleWith(opts, group, id, 1) == if Eligible(opts, a) && a.cloneId == id then 1 else 0;
    assert EligibleWith(opts, group, id, 2) ==
           EligibleWith(opts, group, id, 1) + if Eligible(opts, b) && b.cloneId == id then 1 else 0;
  }

  /** With immutable files it need not be: the id of two immutable files wins over that of a third,
      which is then replaced; with the third as the origin, none is. */
  lemma ImmutableFilesMislead(a: FileMetadata, b: FileMetadata, c: FileMetadata, opts: Options)
    requires a.cloneId == b.cloneId && a.cloneId != c.cloneId && a.nlink <= 1 && b.nlink <= 1 && c.nlink <= 1
    requires Immutable(a) && Immutable(b) && !Immutable(c) && opts.mode == ByClone
    ensures var group := [a, b, c];
            Chosen(group, From(0)) && !Optimal(group, 0, opts) && Optimal(group, 2, opts)
  {
    ThreeFiles(a, b, c);
    hide Chosen, Immutable;
    EligiblesOfThree(opts, a, b, c, a.cloneId);
    EligiblesOfThree(opts, a, b, c, c.cloneId);
    OptimalIffMostEligible([a, b, c], 0, opts);
    OptimalIffMostEligible([a, b, c], 2, opts);
  }

  /** Nor with hard links: a file with two links is preferred to two single-link clones of each
      other, which are then both replaced; with one of those as the origin, none is. */
  lemma HardLinksMislead(a: FileMetadata, b: FileMetadata, c: FileMetadata, opts: Options)
    requires a.nlink > 1 && b.nlink <= 1 && c.nlink <= 1 && a.cloneId != b.cloneId && b.cloneId == c.cloneId
    requires !Immutable(b) && !Immutable(c) && opts.mode == ByClone && !opts.force
    ensures var group := [a, b, c];
            Chosen(group, From(0)) && !Optimal(group, 0, opts) && Optimal(group, 1, opts)
  {
    var group := [a, b, c];
    assert group[0].nlink > 1 && SomeLinked(group) && MostLinked(group, 0);
    hide Chosen, Immutable;
    EligiblesOfThree(opts, a, b, c, a.cloneId);
    EligiblesOfThree(opts, a, b, c, c.cloneId);
    OptimalIffMostEligible(group, 0, opts);
    OptimalIffMostEligible(group, 1, opts);
  }
}
