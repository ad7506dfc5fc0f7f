/** A second run in clone mode, on the files as the first run left them, replaces nothing. */
module Idempotence {
  import opened Types
  import opened Origins
  import opened Deduplication
  import opened Accounting

  // ----- What the second run decides -----

  /** Alike in all that decisions look at, in clone mode, but the clone id. */
  predicate Alike(fm: FileMetadata, fm': FileMetadata) {
    fm'.nlink == fm.nlink && fm'.flags == fm.flags
  }

  predicate Changes(opts: Options, group: Group, o: nat, i: nat)
    requires o < |group| && i < |group|
  {
    i != o && Judge(opts, group[o], group[i]) == Replaceable
  }

  /** The metadata after every file that was to be replaced has become a clone of the origin. */
  predicate Rebuilt(opts: Options, group: Group, o: nat, group': Group)
    requires o < |group|
  {
    |group'| == |group|
    && forall i :: 0 <= i < |group| ==> RebuiltAt(opts, group, o, group', i)
  }

  predicate RebuiltAt(opts: Options, group: Group, o: nat, group': Group, i: nat)
    requires o < |group| == |group'| && i < |group|
  {
    Alike(group[i], group'[i])
    && var source := if Changes(opts, group, o, i) then group[o] else group[i];
       group'[i].cloneId == source.cloneId && group'[i].size == source.size
  }

  lemma RebuiltEach(opts: Options, group: Group, o: nat, group': Group)
    requires o < |group| && Rebuilt(opts, group, o, group')
    ensures forall i {:trigger group[i]} {:trigger group'[i]} ::
              0 <= i < |group| ==> RebuiltAt(opts, group, o, group', i) && Alike(group[i], group'[i])
  {
    hide Judge;
    forall i {:trigger group[i]} {:trigger group'[i]} | 0 <= i < |group|
      ensures RebuiltAt(opts, group, o, group', i) && Alike(group[i], group'[i])
    {
    }
  }

  predicate Locks(opts: Options, group: Group, o: nat, i: nat)
    requires o < |group| && i < |group|
  {
    i != o && Judge(opts, group[o], group[i]) == Locked
  }

  /** The second decision leaves nothing to replace and finds the same files locked. */
  ghost predicate Settled(opts: Options, group: Group, o: nat, group': Group, d': Decision)
    requires o < |group| == |group'| && Chosen(group', d')
  {
    !d'.AllCompressed?
    && forall i :: 0 <= i < |group| ==>
                     if d'.AllCloned? then !Locks(opts, group, o, i)
                     else !Changes(opts, group', d'.origin, i)
                          && (Locks(opts, group', d'.origin, i) <==> Locks(opts, group, o, i))
  }

  predicate SameGroup(group: Group, group': Group) {
    |group'| == |group|
    && forall i :: 0 <= i < |group| ==> Alike(group[i], group'[i]) && group'[i].cloneId == group[i].cloneId
  }

  lemma {:induction false} SameClones(group: Group, group': Group, id: nat)
    requires SameGroup(group, group')
    ensures Clones(group', id) == Clones(group, id)
  {
    if group != [] {
      SameClones(group[..|group| - 1], group'[..|group| - 1], id);
    }
  }

  lemma SameShape(group: Group, group': Group)
    requires SameGroup(group, group')
    ensures SomeLinked(group') <==> SomeLinked(group)
    ensures AllAlike(group') <==> AllAlike(group)
    ensures AllDistinct(group') <==> AllDistinct(group)
  {
    assert forall i {:trigger group[i]} {:trigger group'[i]} ::
        0 <= i < |group| ==> Alike(group[i], group'[i]) && group'[i].cloneId == group[i].cloneId;
  }

  lemma SameChoice(group: Group, group': Group, d: Decision)
    requires SameGroup(group, group') && Chosen(group, d)
    ensures Chosen(group', d)
  {
    hide Clones;
    forall id {
      SameClones(group, group', id);
    }
    SameShape(group, group');
    if d.From? && MostCloned(group, d.origin) {
      forall i | 0 <= i < |group|
        ensures Surpasses(group', d.origin, i)
      {
        assert Surpasses(group, d.origin, i);
      }
    }
    hide Surpasses, SomeLinked, AllAlike, AllDistinct;
    assert forall i {:trigger group[i]} {:trigger group'[i]} ::
        0 <= i < |group| ==> Alike(group[i], group'[i]) && group'[i].cloneId == group[i].cloneId;
  }

  /** Clone ids only move to the origin. */
  lemma {:induction false} RebuiltClones(opts: Options, group: Group, o: nat, group': Group, n: nat, id: nat)
    requires o < |group| && n <= |group| && Rebuilt(opts, group, o, group')
    ensures if id == group[o].cloneId then Clones(group[..n], id) <= Clones(group'[..n], id)
            else Clones(group'[..n], id) <= Clones(group[..n], id)
  {
    hide Judge;
    if n > 0 {
      RebuiltClones(opts, group, o, group', n - 1, id);
      assert group[..n][..n - 1] == group[..n - 1] && group'[..n][..n - 1] == group'[..n - 1];
      assert RebuiltAt(opts, group, o, group', n - 1);
    }
  }

  lemma {:induction false} TwoClones(group: Group, i: nat, j: nat)
    requires i < j < |group| && group[i].cloneId == group[j].cloneId
    ensures Clones(group, group[i].cloneId) >= 2
  {
    var n := |group| - 1;
    if j < n {
      TwoClones(group[..n], i, j);
    } else {
      OneClone(group[..n], i);
    }
  }

  lemma {:induction false} OneClone(group: Group, i: nat)
    requires i < |group|
    ensures Clones(group, group[i].cloneId) >= 1
  {
    var n := |group| - 1;
    if i < n {
      OneClone(group[..n], i);
    }
  }

  /** The origin is the file that the documentation promises: one with the most hard links if any has
      several, and otherwise one that shares the most clones with others. */
  lemma OriginIsAsPromised(group: Group, d: Decision)
    requires Chosen(group, d)
    ensures (exists i :: 0 <= i < |group| && group[i].nlink > 1) ==>
              d.From? && forall i :: 0 <= i < |group| ==> group[i].nlink <= group[d.origin].nlink
    ensures d.From? && (forall i :: 0 <= i < |group| ==> group[i].nlink <= 1) ==>
              forall i :: 0 <= i < |group| ==>
                            Clones(group, group[i].cloneId) <= Clones(group, group[d.origin].cloneId)
  {
    hide Clones, Compressed;
    if d.From? && !SomeLinked(group) && AllDistinct(group) {
      forall i | 0 <= i < |group|
        ensures Clones(group, group[i].cloneId) <= Clones(group, group[d.origin].cloneId)
      {
        DistinctClones(group, i);
        DistinctClones(group, d.origin);
      }
    } else if d.From? && !SomeLinked(group) {
      forall i | 0 <= i < |group|
        ensures Clones(group, group[i].cloneId) <= Clones(group, group[d.origin].cloneId)
      {
        assert Surpasses(group, d.origin, i);
      }
    }
  }

  /** Any origin with the clone id of the first one leaves nothing to replace. */
  lemma SameIdSettles(opts: Options, group: Group, o: nat, group': Group, o': nat)
    requires opts.mode == ByClone && !opts.force && o < |group| && Rebuilt(opts, group, o, group')
    requires o' < |group'| && group'[o'].cloneId == group[o].cloneId
    requires o' == o || forall i :: 0 <= i < |group| ==> group[i].nlink <= 1
    requires Chosen(group', From(o'))
    ensures Settled(opts, group, o, group', From(o'))
  {
    hide Chosen;
    forall i | 0 <= i < |group|
      ensures !Changes(opts, group', o', i) && (Locks(opts, group', o', i) <==> Locks(opts, group, o, i))
    {
      assert RebuiltAt(opts, group, o, group', i);
    }
  }

  /** With hard links the origin stays what it was. */
  lemma LinkedSettles(opts: Options, group: Group, o: nat, group': Group, d': Decision)
    requires opts.mode == ByClone && !opts.force && Chosen(group, From(o)) && SomeLinked(group)
    requires Rebuilt(opts, group, o, group') && Chosen(group', d')
    ensures Settled(opts, group, o, group', d')
  {
    hide Clones, Judge, AllAlike, AllDistinct, MostCloned, FirstPlain, Settled;
    RebuiltEach(opts, group, o, group');
    assert SomeLinked(group') by {
      var i :| 0 <= i < |group| && group[i].nlink > 1;
      assert group'[i].nlink > 1;
    }
    assert MostLinked(group', o);
    OneChoice(group', d', From(o));
    SameIdSettles(opts, group, o, group', o);
  }

  /** Where the second run counts clones, the clone id of the first origin wins again. */
  lemma OriginIdWins(opts: Options, group: Group, o: nat, group': Group, o': nat)
    requires Chosen(group, From(o)) && !SomeLinked(group)
    requires Rebuilt(opts, group, o, group') && MostCloned(group', o') && !AllDistinct(group')
    ensures group'[o'].cloneId == group[o].cloneId
  {
    hide Judge, Compressed, Clones;
    var k, x := group[o].cloneId, group'[o'].cloneId;
    assert RebuiltAt(opts, group, o, group', o) && RebuiltAt(opts, group, o, group', o');
    assert !AllDistinct(group) ==> Surpasses(group, o, o');
    if x != k {
      assert group[..|group|] == group && group'[..|group|] == group';
      RebuiltClones(opts, group, o, group', |group|, k);
      RebuiltClones(opts, group, o, group', |group|, x);
      assert Surpasses(group', o', o);
      if AllDistinct(group) {
        DistinctClones(group, o);
        DistinctClones(group, o');
        var i, j :| 0 <= i < j < |group'| && group'[i].cloneId == group'[j].cloneId;
        assert RebuiltAt(opts, group, o, group', i) && RebuiltAt(opts, group, o, group', j);
        TwoClones(group', i, j);
      }
    }
  }

  lemma SingleSettles(opts: Options, group: Group, o: nat, group': Group, d': Decision)
    requires opts.mode == ByClone && !opts.force && Chosen(group, From(o)) && !SomeLinked(group)
    requires Rebuilt(opts, group, o, group') && Chosen(group', d')
    ensures Settled(opts, group, o, group', d')
  {
    hide Judge, Compressed, Clones, Settled, MostCloned, FirstPlain;
    RebuiltEach(opts, group, o, group');
    assert !SomeLinked(group');
    if AllAlike(group') {
      AllAlikeSettles(opts, group, o, group');
    } else if AllDistinct(group') {
      DistinctIsSame(opts, group, o, group');
      SameChoice(group, group', From(o));
      OneChoice(group', d', From(o));
      SameIdSettles(opts, group, o, group', o);
    } else {
      OriginIdWins(opts, group, o, group', d'.origin);
      SameIdSettles(opts, group, o, group', d'.origin);
    }
  }

  lemma AllAlikeSettles(opts: Options, group: Group, o: nat, group': Group)
    requires opts.mode == ByClone && o < |group| && Rebuilt(opts, group, o, group') && Chosen(group', AllCloned)
    ensures Settled(opts, group, o, group', AllCloned)
  {
    hide Clones, Immutable;
    forall i | 0 <= i < |group|
      ensures !Locks(opts, group, o, i)
    {
      assert RebuiltAt(opts, group, o, group', i) && RebuiltAt(opts, group, o, group', o);
      assert group'[i].cloneId == group'[0].cloneId == group'[o].cloneId;
    }
  }

  /** Had a file been replaced, it would now share the id of the origin. */
  lemma DistinctIsSame(opts: Options, group: Group, o: nat, group': Group)
    requires o < |group| && Rebuilt(opts, group, o, group') && AllDistinct(group')
    ensures SameGroup(group, group')
  {
    hide Judge;
    RebuiltEach(opts, group, o, group');
    forall i | 0 <= i < |group|
      ensures group'[i].cloneId == group[i].cloneId
    {
      assert RebuiltAt(opts, group, o, group', i) && RebuiltAt(opts, group, o, group', o);
      assert i < o ==> group'[i].cloneId != group'[o].cloneId;
      assert o < i ==> group'[o].cloneId != group'[i].cloneId;
    }
  }

  /** However the first run chose, after it there is nothing left to replace. */
  lemma SecondDecisionSettles(opts: Options, group: Group, o: nat, group': Group, d': Decision)
    requires opts.mode == ByClone && !opts.force && Chosen(group, From(o))
    requires Rebuilt(opts, group, o, group') && Chosen(group', d')
    ensures Settled(opts, group, o, group', d')
  {
    if SomeLinked(group) {
      LinkedSettles(opts, group, o, group', d');
    } else {
      SingleSettles(opts, group, o, group', d');
    }
  }
}
