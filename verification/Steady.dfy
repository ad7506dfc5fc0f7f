/** What the first run in clone mode can tell about a second: exactly when nothing is replaced,
    whatever the order of the group then. */
module SteadyGroups {
  import opened Types
  import opened RelativePaths
  import opened FileSystem
  import opened Origins
  import opened Deduplication
  import opened Accounting
  import opened Idempotence
  import opened SecondRun
  import opened AnyOrder

  /** Checked on the first run: with hard links, all the most linked files are clones of each
      other, if there is any file that may be replaced; and without, it is not the case that the
      origin alone may be replaced, in a group without clones, and another file is not compressed. */
  predicate Steady(opts: Options, group: Group, o: nat)
    requires o < |group|
  {
    if SomeLinked(group) then
      (exists i :: 0 <= i < |group| && Eligible(opts, group[i])) ==>
        forall i :: 0 <= i < |group| && group[i].nlink == group[o].nlink ==> group[i].cloneId == group[o].cloneId
    else
      !(AllDistinct(group) && OnlyOriginIsEligible(opts, group, o)
        && exists i :: 0 <= i < |group| && i != o && !Compressed(group[i]))
  }

  predicate OnlyOriginIsEligible(opts: Options, group: Group, o: nat)
    requires o < |group|
  {
    forall i :: 0 <= i < |group| ==> (Eligible(opts, group[i]) <==> i == o)
  }

  /** Every file that may be replaced has the id of the origin afterwards. */
  lemma EligibleShareId(opts: Options, group: Group, o: nat, group': Group)
    requires opts.mode == ByClone && o < |group| && Rebuilt(opts, group, o, group')
    ensures forall i :: 0 <= i < |group| ==> (Eligible(opts, group'[i]) <==> Eligible(opts, group[i]))
    ensures forall i :: 0 <= i < |group| && Eligible(opts, group[i]) ==> group'[i].cloneId == group[o].cloneId
    ensures forall i :: 0 <= i < |group| && !Eligible(opts, group[i]) ==> group'[i].cloneId == group[i].cloneId
    ensures group'[o].cloneId == group[o].cloneId
  {
    RebuiltEach(opts, group, o, group');
    hide Changes;
    forall i | 0 <= i < |group|
      ensures Eligible(opts, group'[i]) <==> Eligible(opts, group[i])
      ensures group'[i].cloneId == if Eligible(opts, group[i]) then group[o].cloneId else group[i].cloneId
    {
      ChangesIff(opts, group, o, i);
      assert RebuiltAt(opts, group, o, group', i);
    }
    assert RebuiltAt(opts, group, o, group', o);
    ChangesIff(opts, group, o, o);
  }

  predicate AgreesWith(opts: Options, group': Group, i: nat, id: nat)
    requires i < |group'|
  {
    Choosable(group', group'[i]) ==> group'[i].cloneId == id
  }

  /** As those that may be replaced agree already, only the choosable ones can disagree. */
  lemma UnanimousIff(opts: Options, group: Group, o: nat, group': Group)
    requires opts.mode == ByClone && o < |group| && Rebuilt(opts, group, o, group')
    ensures Unanimous(opts, group') <==>
            ((exists i :: 0 <= i < |group| && Eligible(opts, group[i])) ==>
               forall i :: 0 <= i < |group| ==> AgreesWith(opts, group', i, group[o].cloneId))
  {
    EligibleShareId(opts, group, o, group');
    hide Choosable, Rebuilt, Eligible;
    if Unanimous(opts, group') && exists i :: 0 <= i < |group| && Eligible(opts, group[i]) {
      var i :| 0 <= i < |group| && Eligible(opts, group[i]);
      assert group'[i] in group';
      forall j | 0 <= j < |group|
        ensures AgreesWith(opts, group', j, group[o].cloneId)
      {
        assert group'[j] in group';
      }
    }
    if (exists i :: 0 <= i < |group| && Eligible(opts, group[i])) ==>
        forall i :: 0 <= i < |group| ==> AgreesWith(opts, group', i, group[o].cloneId) {
      forall f, x | f in group' && x in group' && Choosable(group', f) && Eligible(opts, x)
        ensures x.cloneId == f.cloneId
      {
        var i :| 0 <= i < |group'| && group'[i] == f;
        var j :| 0 <= j < |group'| && group'[j] == x;
        assert AgreesWith(opts, group', i, group[o].cloneId);
      }
    }
  }

  lemma RebuiltLinks(opts: Options, group: Group, o: nat, group': Group)
    requires o < |group| && Rebuilt(opts, group, o, group')
    ensures SomeLinked(group') <==> SomeLinked(group)
  {
    RebuiltEach(opts, group, o, group');
  }

  lemma MostLinkedAreChoosable(group: Group, o: nat, i: nat)
    requires SomeLinked(group) && MostLinked(group, o) && i < |group|
    ensures Choosable(group, group[i]) <==> group[i].nlink == group[o].nlink
  {
    hide AllAlike, AllDistinct, Clones, Compressed, Outnumbers;
    assert group[o] in group;
    if group[i].nlink == group[o].nlink {
      forall x | x in group
        ensures x.nlink <= group[i].nlink
      {
        var j :| 0 <= j < |group| && group[j] == x;
      }
    }
  }

  /** With hard links, the most linked files are choosable, and keep their ids. */
  lemma LinkedAgree(opts: Options, group: Group, o: nat, group': Group, i: nat)
    requires !opts.force && MostLinked(group, o) && SomeLinked(group) && i < |group|
    requires Rebuilt(opts, group, o, group')
    ensures AgreesWith(opts, group', i, group[o].cloneId) <==>
            (group[i].nlink == group[o].nlink ==> group[i].cloneId == group[o].cloneId)
  {
    RebuiltLinks(opts, group, o, group');
    RebuiltEach(opts, group, o, group');
    var l :| 0 <= l < |group| && group[l].nlink > 1;
    assert group[o].nlink >= group[l].nlink;
    assert RebuiltAt(opts, group, o, group', i);
    hide Rebuilt, Immutable, Choosable;
    assert MostLinked(group', o);
    MostLinkedAreChoosable(group', o, i);
  }

  lemma LinkedSteadyIff(opts: Options, group: Group, o: nat, group': Group)
    requires opts.mode == ByClone && !opts.force && Chosen(group, From(o)) && SomeLinked(group)
    requires Rebuilt(opts, group, o, group')
    ensures Unanimous(opts, group') <==> Steady(opts, group, o)
  {
    UnanimousIff(opts, group, o, group');
    assert MostLinked(group, o);
    hide Chosen, Rebuilt, Unanimous, AgreesWith, MostLinked, Eligible;
    forall i | 0 <= i < |group|
      ensures AgreesWith(opts, group', i, group[o].cloneId) <==>
              (group[i].nlink == group[o].nlink ==> group[i].cloneId == group[o].cloneId)
    {
      LinkedAgree(opts, group, o, group', i);
    }
  }

  lemma OnlyOriginRebuildsNothing(opts: Options, group: Group, o: nat, group': Group)
    requires opts.mode == ByClone && o < |group| && Rebuilt(opts, group, o, group')
    requires OnlyOriginIsEligible(opts, group, o)
    ensures SameGroup(group, group')
  {
    EligibleShareId(opts, group, o, group');
    RebuiltEach(opts, group, o, group');
  }

  /** Without hard links but with clones, only files with the id of the origin are choosable. */
  lemma ClonesAgree(opts: Options, group: Group, o: nat, group': Group, i: nat)
    requires Chosen(group, From(o)) && !SomeLinked(group) && Rebuilt(opts, group, o, group')
    requires !AllAlike(group') && !AllDistinct(group') && i < |group'|
    ensures AgreesWith(opts, group', i, group[o].cloneId)
  {
    RebuiltLinks(opts, group, o, group');
    hide Rebuilt, SomeLinked, AllAlike, AllDistinct, Clones;
    if Choosable(group', group'[i]) {
      var o' := FirstAlike(group', i);
      forall j | 0 <= j < |group'|
        ensures Surpasses(group', o', j)
      {
        assert group'[j] in group';
      }
      hide Chosen;
      OriginIdWins(opts, group, o, group', o');
    }
  }

  /** The first file with the clone id of the one at `i`. */
  lemma {:induction false} FirstAlike(group: Group, i: nat) returns (o: nat)
    requires i < |group|
    ensures o <= i && group[o].cloneId == group[i].cloneId
    ensures forall j :: 0 <= j < o ==> group[j].cloneId != group[i].cloneId
  {
    o := i;
    if j: nat :| j < i && group[j].cloneId == group[i].cloneId {
      o := FirstAlike(group, j);
    }
  }

  lemma SingleSteadyIff(opts: Options, group: Group, o: nat, group': Group)
    requires opts.mode == ByClone && !opts.force && Chosen(group, From(o)) && !SomeLinked(group)
    requires Rebuilt(opts, group, o, group')
    ensures Unanimous(opts, group') <==> Steady(opts, group, o)
  {
    UnanimousIff(opts, group, o, group');
    RebuiltLinks(opts, group, o, group');
    if AllDistinct(group') && !AllAlike(group') {
      DistinctIsSame(opts, group, o, group');
      hide Unanimous;
      DistinctSteadyIff(opts, group, o, group');
    } else {
      hide Unanimous;
      forall i | 0 <= i < |group|
        ensures AgreesWith(opts, group', i, group[o].cloneId)
      {
        if !AllAlike(group') {
          ClonesAgree(opts, group, o, group', i);
        }
      }
      StillSteady(opts, group, o, group');
    }
  }

  lemma StillSteady(opts: Options, group: Group, o: nat, group': Group)
    requires opts.mode == ByClone && Chosen(group, From(o)) && !SomeLinked(group)
    requires Rebuilt(opts, group, o, group') && (AllAlike(group') || !AllDistinct(group'))
    ensures Steady(opts, group, o)
  {
    if OnlyOriginIsEligible(opts, group, o) {
      OnlyOriginRebuildsNothing(opts, group, o, group');
      hide Clones, Eligible;
      SameShape(group, group');
    }
  }

  lemma DistinctSteadyIff(opts: Options, group: Group, o: nat, group': Group)
    requires opts.mode == ByClone && !opts.force && o < |group| && !SomeLinked(group) && !SomeLinked(group')
    requires Rebuilt(opts, group, o, group') && SameGroup(group, group') && AllDistinct(group') && !AllAlike(group')
    ensures Steady(opts, group, o) <==>
            ((exists i :: 0 <= i < |group| && Eligible(opts, group[i])) ==>
               forall i :: 0 <= i < |group| ==> AgreesWith(opts, group', i, group[o].cloneId))
  {
    SameShape(group, group');
    EligibleShareId(opts, group, o, group');
    hide Immutable, AllAlike, SomeLinked, Clones;
    forall i | 0 <= i < |group| && i != o
      ensures !Eligible(opts, group[i]) && group'[i].cloneId != group[o].cloneId
      ensures Choosable(group', group'[i]) <==> !Compressed(group[i])
    {
      assert group'[i].cloneId != group'[o].cloneId;
      assert group'[i] in group';
    }
    if Eligible(opts, group[o]) {
      assert OnlyOriginIsEligible(opts, group, o);
      assert AgreesWith(opts, group', o, group[o].cloneId);
      forall i | 0 <= i < |group| && i != o
        ensures AgreesWith(opts, group', i, group[o].cloneId) <==> Compressed(group[i])
      {
      }
    } else {
      assert !OnlyOriginIsEligible(opts, group, o);
    }
  }

  /** After a first run in which every replacement took, nothing is replaced in any order of the
      group if and only if the group was steady. */
  lemma SteadyIff(opts: Options, group: Group, o: nat, group': Group)
    requires opts.mode == ByClone && !opts.force && Chosen(group, From(o)) && Rebuilt(opts, group, o, group')
    ensures QuietInAnyOrder(opts, group') <==> Steady(opts, group, o)
  {
    QuietInAnyOrderIff(opts, group');
    hide Unanimous, QuietInAnyOrder, Chosen, Rebuilt, Steady;
    if SomeLinked(group) {
      LinkedSteadyIff(opts, group, o, group');
    } else {
      SingleSteadyIff(opts, group, o, group');
    }
  }

  /** Files that have one name each and may be changed make a steady group. */
  lemma SingleAndMutableIsSteady(opts: Options, group: Group, o: nat)
    requires SingleAndMutable(group) && Chosen(group, From(o))
    ensures Steady(opts, group, o)
  {
    hide Immutable, Clones, Compressed;
    assert |group| >= 2 by {
      assert |group| == 1 ==> AllAlike(group);
    }
    var other := if o == 0 then 1 else 0;
    assert Eligible(opts, group[other]);
  }

  // ----- On the file system -----

  /** Every file is the origin or skipped. */
  predicate Idle(p: Progress) {
    forall i :: 0 <= i < |p.outcomes| ==> p.outcomes[i].Origin? || p.outcomes[i].Skipped?
  }

  lemma IdleIff(fs: Fs, group: Group, d: Decision, opts: Options, calls: seq<Calls>)
    requires |calls| == |group| && Named(group) && Chosen(group, d)
    ensures var p := Deduplicated(fs, group, d, opts, calls);
            (Idle(p) <==> ReplacesNothing(opts, group, d)) && (Idle(p) ==> p.fs == fs && p.saved == 0)
  {
    hide Chosen, Judge, Through;
    if d.From? {
      if ReplacesNothing(opts, group, d) {
        NothingToDo(fs, group, d.origin, opts, calls, |group|);
      } else {
        var i :| 0 <= i < |group| && Changes(opts, group, d.origin, i);
        OutcomesAreExplained(fs, group, d.origin, opts, calls, |group|);
        assert Explained(group, d.origin, opts, i, Through(fs, group, d.origin, opts, calls, |group|).outcomes[i]);
      }
    }
  }

  /** What the first run can tell about a later one. */
  ghost predicate SteadyFor(opts: Options, group: Group, d: Decision)
    requires Chosen(group, d)
  {
    d.From? ==> Steady(opts, group, d.origin)
  }

  /** A group that is left alone can be met in any order. */
  lemma UndecidedIsQuiet(opts: Options, group: Group, d: Decision)
    requires opts.mode == ByClone && Chosen(group, d) && !d.From?
    ensures QuietInAnyOrder(opts, group)
  {
    hide Clones, Compressed, Immutable;
    QuietInAnyOrderIff(opts, group);
  }

  /** The refreshed group is quiet exactly when the first run found it steady. */
  lemma FirstRunIsSteadyIff(fs: Fs, group: Group, d: Decision, opts: Options, calls: seq<Calls>)
    requires |calls| == |group| && Named(group) && ByCloneForReal(opts)
    requires Current(fs, group) && Apart(group) && Chosen(group, d)
    requires AllTake(Deduplicated(fs, group, d, opts, calls).outcomes)
    ensures QuietInAnyOrder(opts, Refreshed(Deduplicated(fs, group, d, opts, calls).fs, group)) <==>
            SteadyFor(opts, group, d)
  {
    var group' := Refreshed(Deduplicated(fs, group, d, opts, calls).fs, group);
    hide Chosen, Refresh, Through, Steady, QuietInAnyOrder;
    if d.From? {
      FirstRunRebuilds(fs, group, d.origin, opts, calls);
      SteadyIff(opts, group, d.origin, group');
    } else {
      assert group' == group;
      UndecidedIsQuiet(opts, group, d);
    }
  }

  lemma ReorderedIsNamed(group: Group, again: Group)
    requires Named(group) && Reordered(group, again)
    ensures Named(again)
  {
    SameMembers(group, again);
    hide IsFilePath, Reordered;
    forall i | 0 <= i < |again|
      ensures IsFilePath(again[i].path)
    {
      assert again[i] in group;
    }
  }

  /** In clone mode, after a run in which every replacement succeeds and takes: a second run
      replaces nothing, in whatever order it meets the files, if and only if the group was steady
      in the first run. */
  lemma SecondRunInAnyOrder(fs: Fs, group: Group, d: Decision, opts: Options, calls: seq<Calls>,
                            later: Fs, calls': seq<Calls>)
    requires |calls| == |group| == |calls'| && Named(group) && ByCloneForReal(opts)
    requires Current(fs, group) && Apart(group) && Chosen(group, d)
    requires AllTake(Deduplicated(fs, group, d, opts, calls).outcomes)
    ensures var group' := Refreshed(Deduplicated(fs, group, d, opts, calls).fs, group);
            (forall again, d' :: Reordered(group', again) && Chosen(again, d') ==>
                                   Named(again) && Idle(Deduplicated(later, again, d', opts, calls')))
            <==> SteadyFor(opts, group, d)
  {
    var group' := Refreshed(Deduplicated(fs, group, d, opts, calls).fs, group);
    RefreshedIsNamed(Deduplicated(fs, group, d, opts, calls).fs, group);
    FirstRunIsSteadyIff(fs, group, d, opts, calls);
    hide Chosen, Reordered, Deduplicated, ReplacesNothing, Refreshed, SteadyFor, Idle, Named, AllTake;
    forall again, d' | Reordered(group', again) && Chosen(again, d')
      ensures Named(again)
      ensures ReplacesNothing(opts, again, d') <==> Idle(Deduplicated(later, again, d', opts, calls'))
    {
      ReorderedIsNamed(group', again);
      IdleIff(later, again, d', opts, calls');
    }
  }

  // ----- Where the order matters -----

  /** Two files with as many hard links and different ids, and a third: the first run takes the first
      for the origin, and in another order a second run takes the second and replaces the third
      again. */
  lemma LinkedOrderMatters(a: FileMetadata, b: FileMetadata, c: FileMetadata, opts: Options)
    requires opts.mode == ByClone && !opts.force && a.nlink == b.nlink > 1 && c.nlink <= 1 && !Immutable(c)
    requires a.cloneId != b.cloneId && a.cloneId != c.cloneId && a.size == c.size
    ensures var c' := c.(cloneId := a.cloneId);
            Chosen([a, b, c], From(0)) && Rebuilt(opts, [a, b, c], 0, [a, b, c'])
            && Reordered([a, b, c'], [b, a, c']) && Chosen([b, a, c'], From(0)) && Changes(opts, [b, a, c'], 0, 2)
  {
    var c' := c.(cloneId := a.cloneId);
    assert !Immutable(c');
    hide Immutable, AllAlike, AllDistinct, Clones, Compressed;
    var group, group' := [a, b, c], [a, b, c'];
    assert Changes(opts, group, 0, 2) && !Changes(opts, group, 0, 1);
    forall i | 0 <= i < 3
      ensures RebuiltAt(opts, group, 0, group', i)
    {
      assert i == 0 || i == 1 || i == 2;
    }
  }

  /** Two files with different ids, of which one may not be changed: in the other order that one
      is the origin, and the other is replaced. */
  lemma ImmutableOrderMatters(a: FileMetadata, b: FileMetadata, opts: Options)
    requires opts.mode == ByClone && !opts.force && a.nlink <= 1 && b.nlink <= 1 && a.cloneId != b.cloneId
    requires !Immutable(a) && Immutable(b) && !Compressed(a) && !Compressed(b)
    ensures Chosen([a, b], From(0)) && Rebuilt(opts, [a, b], 0, [a, b])
    ensures Reordered([a, b], [b, a]) && Chosen([b, a], From(0)) && Changes(opts, [b, a], 0, 1)
  {
    hide Immutable, Clones, Compressed;
    FirstFileIsOriginIff([a, b]);
    FirstFileIsOriginIff([b, a]);
    assert [a, b][1] == b && [b, a][1] == a;
  }
}
