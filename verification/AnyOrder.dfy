/** A later run in clone mode over the same files in another order, as threads may leave them:
    exactly when nothing is replaced whatever the order. */
module AnyOrder {
  import opened Types
  import opened Origins
  import opened Deduplication
  import opened Accounting
  import opened Idempotence

  ghost predicate Reordered(group: Group, again: Group) {
    |again| == |group| && multiset(group) == multiset(again)
  }

  lemma SameFilesReordered(group: Group, again: Group)
    requires multiset(group) == multiset(again)
    ensures Reordered(group, again)
  {
    assert |multiset(group)| == |group| && |multiset(again)| == |again|;
  }

  lemma SameMembers(group: Group, again: Group)
    requires Reordered(group, again)
    ensures forall x :: x in group <==> x in again
  {
    assert forall x :: (x in group <==> x in multiset(group)) && (x in again <==> x in multiset(again));
  }

  // ----- What does not depend on the order -----

  lemma {:induction false} ClonesConcat(a: Group, b: Group, id: nat)
    ensures Clones(a + b, id) == Clones(a, id) + Clones(b, id)
  {
    if b == [] {
      assert a + b == a;
    } else {
      var most, last := b[..|b| - 1], b[|b| - 1];
      assert a + b == (a + most) + [last];
      ClonesSnoc(a + most, last, id);
      ClonesConcat(a, most, id);
    }
  }

  /** The group without the file at `i`. */
  function Without(group: Group, i: nat): Group
    requires i < |group|
  {
    group[..i] + group[i + 1..]
  }

  lemma WithoutOne(group: Group, i: nat)
    requires i < |group|
    ensures |Without(group, i)| == |group| - 1
    ensures multiset(Without(group, i)) == multiset(group) - multiset{group[i]}
  {
    assert group == group[..i] + [group[i]] + group[i + 1..];
  }

  lemma ClonesWithout(group: Group, i: nat, id: nat)
    requires i < |group|
    ensures Clones(group, id) == Clones(Without(group, i), id) + if group[i].cloneId == id then 1 else 0
  {
    var left, right := group[..i], group[i + 1..];
    assert group == (left + [group[i]]) + right;
    ClonesConcat(left + [group[i]], right, id);
    ClonesSnoc(left, group[i], id);
    ClonesConcat(left, right, id);
  }

  lemma {:induction false} SameClonesInAnyOrder(group: Group, again: Group, id: nat)
    requires Reordered(group, again)
    ensures Clones(again, id) == Clones(group, id)
    decreases |group|
  {
    if group != [] {
      assert group[0] in multiset(again);
      var i :| 0 <= i < |again| && again[i] == group[0];
      ClonesWithout(group, 0, id);
      ClonesWithout(again, i, id);
      WithoutOne(group, 0);
      WithoutOne(again, i);
      SameClonesInAnyOrder(Without(group, 0), Without(again, i), id);
    }
  }

  lemma SameIdsInAnyOrder(group: Group, again: Group)
    requires Reordered(group, again)
    ensures Ids(again) == Ids(group)
  {
    SameMembers(group, again);
    forall id
      ensures id in Ids(again) <==> id in Ids(group)
    {
      if id in Ids(group) {
        var i :| 0 <= i < |group| && group[i].cloneId == id;
        assert group[i] in again;
      }
      if id in Ids(again) {
        var i :| 0 <= i < |again| && again[i].cloneId == id;
        assert again[i] in group;
      }
    }
  }

  lemma SameShapeInAnyOrder(group: Group, again: Group)
    requires Reordered(group, again)
    ensures SomeLinked(again) <==> SomeLinked(group)
    ensures AllAlike(again) <==> AllAlike(group)
    ensures AllDistinct(again) <==> AllDistinct(group)
  {
    SameMembers(group, again);
    SameIdsInAnyOrder(group, again);
    DistinctIds(group);
    DistinctIds(again);
    hide AllDistinct;
    LinkedByMembers(group);
    LinkedByMembers(again);
    if group != [] {
      OneId(group);
      OneId(again);
    }
  }

  lemma LinkedByMembers(group: Group)
    ensures SomeLinked(group) <==> exists x :: x in group && x.nlink > 1
  {
    if x :| x in group && x.nlink > 1 {
      var i :| 0 <= i < |group| && group[i] == x;
    }
  }

  // ----- Which files some order makes the origin -----

  predicate Outnumbers(group: Group, mine: nat, other: nat) {
    mine == other || Clones(group, other) < Clones(group, mine)
    || (Clones(group, other) == Clones(group, mine) && mine < other)
  }

  predicate Choosable(group: Group, f: FileMetadata) {
    f in group
    && if SomeLinked(group) then forall x :: x in group ==> x.nlink <= f.nlink
    else if AllAlike(group) then false
    else if !AllDistinct(group) then forall x :: x in group ==> Outnumbers(group, f.cloneId, x.cloneId)
    else !Compressed(f)
  }

  lemma ChosenIsChoosable(group: Group, again: Group, o: nat)
    requires Reordered(group, again) && Chosen(again, From(o))
    ensures Choosable(group, again[o])
  {
    SameMembers(group, again);
    SameShapeInAnyOrder(group, again);
    forall id {
      SameClonesInAnyOrder(group, again, id);
    }
    hide Reordered, SomeLinked, AllAlike, AllDistinct, Clones, Compressed;
    forall x | x in group && MostCloned(again, o)
      ensures Outnumbers(group, again[o].cloneId, x.cloneId)
    {
      var i :| 0 <= i < |again| && again[i] == x;
      assert Surpasses(again, o, i);
    }
    assert MostLinked(again, o) ==> forall x :: x in again ==> x.nlink <= again[o].nlink;
  }

  /** The file at `i` comes first. */
  function Fronted(group: Group, i: nat): Group
    requires i < |group|
  {
    [group[i]] + Without(group, i)
  }

  lemma FrontedIsReordered(group: Group, i: nat)
    requires i < |group|
    ensures Reordered(group, Fronted(group, i)) && Fronted(group, i)[0] == group[i]
  {
    WithoutOne(group, i);
  }

  lemma FirstIsMostCloned(group: Group, again: Group)
    requires Reordered(group, again) && again != []
    requires forall x :: x in group ==> Outnumbers(group, again[0].cloneId, x.cloneId)
    ensures MostCloned(again, 0)
  {
    SameMembers(group, again);
    forall id {
      SameClonesInAnyOrder(group, again, id);
    }
    hide Clones, Reordered;
    forall j | 0 <= j < |again|
      ensures Surpasses(again, 0, j)
    {
      assert again[j] in group;
    }
  }

  lemma FirstIsMostLinked(group: Group, again: Group)
    requires Reordered(group, again) && again != [] && forall x :: x in group ==> x.nlink <= again[0].nlink
    ensures MostLinked(again, 0)
  {
    SameMembers(group, again);
    forall j | 0 <= j < |again|
      ensures again[j].nlink <= again[0].nlink
    {
      assert again[j] in group;
    }
  }

  /** A choosable file that comes first is chosen. */
  lemma FirstIsChosen(group: Group, again: Group)
    requires Reordered(group, again) && again != [] && Choosable(group, again[0])
    ensures Chosen(again, From(0))
  {
    SameShapeInAnyOrder(group, again);
    hide Reordered, SomeLinked, AllAlike, AllDistinct, Outnumbers, Compressed, MostCloned, MostLinked;
    if SomeLinked(group) {
      FirstIsMostLinked(group, again);
    } else if !AllDistinct(group) {
      FirstIsMostCloned(group, again);
    }
  }

  lemma ChoosableIsChosen(group: Group, f: FileMetadata) returns (again: Group)
    requires Choosable(group, f)
    ensures Reordered(group, again) && Chosen(again, From(0)) && again[0] == f
  {
    var i :| 0 <= i < |group| && group[i] == f;
    again := Fronted(group, i);
    FrontedIsReordered(group, i);
    hide Reordered, Chosen, Choosable, Fronted;
    FirstIsChosen(group, again);
  }

  /** A file is choosable exactly when it is the origin that some order of the group leads to. */
  lemma ChoosableIff(group: Group, f: FileMetadata)
    ensures Choosable(group, f) <==>
            exists again, o :: Reordered(group, again) && Chosen(again, From(o)) && again[o] == f
  {
    hide Choosable, Chosen, Reordered;
    if Choosable(group, f) {
      var again := ChoosableIsChosen(group, f);
    }
    forall again, o: nat | Reordered(group, again) && Chosen(again, From(o)) && again[o] == f
      ensures Choosable(group, f)
    {
      ChosenIsChoosable(group, again, o);
    }
  }

  // ----- Nothing is replaced in any order -----

  ghost predicate ReplacesNothing(opts: Options, group: Group, d: Decision)
    requires Chosen(group, d)
  {
    d.From? ==> forall i :: 0 <= i < |group| ==> !Changes(opts, group, d.origin, i)
  }

  ghost predicate QuietInAnyOrder(opts: Options, group: Group) {
    forall again, d :: Reordered(group, again) && Chosen(again, d) ==> ReplacesNothing(opts, again, d)
  }

  /** No file that may be replaced differs in clone id from a choosable one. */
  predicate Unanimous(opts: Options, group: Group) {
    forall f, x :: f in group && x in group && Choosable(group, f) && Eligible(opts, x) ==> x.cloneId == f.cloneId
  }

  lemma ChangesIff(opts: Options, group: Group, o: nat, i: nat)
    requires o < |group| && i < |group| && opts.mode == ByClone
    ensures Changes(opts, group, o, i) <==> Eligible(opts, group[i]) && group[i].cloneId != group[o].cloneId
  {
    hide Immutable;
  }

  lemma {:induction false} QuietInAnyOrderIff(opts: Options, group: Group)
    requires opts.mode == ByClone
    ensures QuietInAnyOrder(opts, group) <==> Unanimous(opts, group)
  {
    hide Choosable, Chosen, Reordered, Changes, Eligible;
    if QuietInAnyOrder(opts, group) {
      forall f, x | f in group && x in group && Choosable(group, f) && Eligible(opts, x)
        ensures x.cloneId == f.cloneId
      {
        var again := ChoosableIsChosen(group, f);
        SameMembers(group, again);
        var i :| 0 <= i < |again| && again[i] == x;
        ChangesIff(opts, again, 0, i);
        assert ReplacesNothing(opts, again, From(0));
      }
    }
    if Unanimous(opts, group) {
      forall again, d | Reordered(group, again) && Chosen(again, d)
        ensures ReplacesNothing(opts, again, d)
      {
        UnanimousReplacesNothing(opts, group, again, d);
      }
    }
  }

  lemma UnanimousReplacesNothing(opts: Options, group: Group, again: Group, d: Decision)
    requires opts.mode == ByClone && Unanimous(opts, group) && Reordered(group, again) && Chosen(again, d)
    ensures ReplacesNothing(opts, again, d)
  {
    SameMembers(group, again);
    hide Choosable, Chosen, Reordered, Changes, Eligible;
    if d.From? {
      ChosenIsChoosable(group, again, d.origin);
      forall i | 0 <= i < |again|
        ensures !Changes(opts, again, d.origin, i)
      {
        ChangesIff(opts, again, d.origin, i);
        assert again[i] in group && again[d.origin] in group;
      }
    }
  }
}
