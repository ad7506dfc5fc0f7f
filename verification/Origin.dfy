/** Which file of a group all the others become copies of. */
module Origins {
  import opened Types
  import opened ALists

  const UF_IMMUTABLE: bv32 := 0x0000_0002
  const UF_COMPRESSED: bv32 := 0x0000_0020
  const SF_IMMUTABLE: bv32 := 0x0002_0000

  predicate Compressed(fm: FileMetadata) {
    fm.flags & UF_COMPRESSED != 0
  }

  predicate Immutable(fm: FileMetadata) {
    fm.flags & UF_IMMUTABLE != 0 || fm.flags & SF_IMMUTABLE != 0
  }

  /** In the bits of `st_flags`: a file is immutable when the user or the system has made it so. */
  lemma FlagsAreBits(fm: FileMetadata)
    ensures Immutable(fm) <==> fm.flags & 0x0002_0002 != 0
    ensures Compressed(fm) <==> fm.flags & 0x20 != 0
  {
  }

  type Group = seq<FileMetadata>

  /** The number of files with a clone id. */
  function Clones(group: Group, id: nat): (count: nat)
    ensures count <= |group|
  {
    if group == [] then 0
    else
      var rest, fm := group[..|group| - 1], group[|group| - 1];
      Clones(rest, id) + if fm.cloneId == id then 1 else 0
  }

  function Ids(group: Group): (ids: set<nat>)
    ensures forall i :: 0 <= i < |group| ==> group[i].cloneId in ids
    ensures forall id :: id in ids ==> exists i :: 0 <= i < |group| && group[i].cloneId == id
  {
    set i | 0 <= i < |group| :: group[i].cloneId
  }

  lemma ClonesSnoc(group: Group, fm: FileMetadata, id: nat)
    ensures Clones(group + [fm], id) == Clones(group, id) + if fm.cloneId == id then 1 else 0
  {
    assert (group + [fm])[..|group|] == group;
  }

  lemma IdsSnoc(group: Group, fm: FileMetadata)
    ensures Ids(group + [fm]) == Ids(group) + {fm.cloneId}
  {
    forall id
      ensures id in Ids(group + [fm]) <==> id in Ids(group) + {fm.cloneId}
    {
      if id in Ids(group) {
        var i :| 0 <= i < |group| && group[i].cloneId == id;
        assert (group + [fm])[i] == group[i];
      }
      if id == fm.cloneId {
        assert (group + [fm])[|group|].cloneId == id;
      }
    }
  }

  // ----- The choice, in words -----

  predicate SomeLinked(group: Group) {
    exists i :: 0 <= i < |group| && group[i].nlink > 1
  }

  /** The first of the files with the most hard links. */
  predicate MostLinked(group: Group, o: nat) {
    o < |group| && forall i :: 0 <= i < |group| ==>
                                 if i < o then group[i].nlink < group[o].nlink else group[i].nlink <= group[o].nlink
  }

  predicate AllAlike(group: Group) {
    group != [] && forall i :: 0 <= i < |group| ==> group[i].cloneId == group[0].cloneId
  }

  predicate AllDistinct(group: Group) {
    forall i, j :: 0 <= i < j < |group| ==> group[i].cloneId != group[j].cloneId
  }

  predicate FirstPlain(group: Group, o: nat) {
    o < |group| && !Compressed(group[o]) && forall i :: 0 <= i < o ==> Compressed(group[i])
  }

  /** The first file with the clone id that most files have, the smallest such id if several do. */
  predicate MostCloned(group: Group, o: nat) {
    o < |group| && forall i :: 0 <= i < |group| ==> Surpasses(group, o, i)
  }

  predicate Surpasses(group: Group, o: nat, i: nat)
    requires o < |group| && i < |group|
  {
    var mine, other := group[o].cloneId, group[i].cloneId;
    if mine == other then o <= i
    else Clones(group, other) < Clones(group, mine) || (Clones(group, other) == Clones(group, mine) && mine < other)
  }

  datatype Decision = AllCloned | AllCompressed | From(origin: nat)

  ghost predicate Chosen(group: Group, d: Decision): (right: bool)
    ensures right && d.From? ==> d.origin < |group|
    ensures right && d.AllCloned? ==> group != []
  {
    if SomeLinked(group) then d.From? && MostLinked(group, d.origin)
    else if AllAlike(group) then d.AllCloned?
    else if !AllDistinct(group) then d.From? && MostCloned(group, d.origin)
    else
      match d
      case AllCloned => false
      case AllCompressed => forall i :: 0 <= i < |group| ==> Compressed(group[i])
      case From(o) => FirstPlain(group, o)
  }

  /** At most one decision is right. `SelectOrigin` finds it, so there is exactly one. */
  lemma OneChoice(group: Group, d: Decision, e: Decision)
    requires Chosen(group, d) && Chosen(group, e)
    ensures d == e
  {
    hide Clones, Compressed;
    if !SomeLinked(group) && !AllAlike(group) && !AllDistinct(group) {
      assert Surpasses(group, d.origin, e.origin) && Surpasses(group, e.origin, d.origin);
    }
  }

  /** Without hard links and clones, the first file becomes the origin exactly when it is not
      compressed. */
  lemma FirstFileIsOriginIff(group: Group)
    requires |group| >= 2 && !SomeLinked(group) && AllDistinct(group)
    ensures Chosen(group, From(0)) <==> group[0].flags & 0x20 == 0
  {
    FlagsAreBits(group[0]);
    hide Compressed;
    assert !AllAlike(group) by {
      assert group[0].cloneId != group[1].cloneId;
    }
  }

  /** Of two clone ids that equally many files have the smaller wins, and of its files the first. */
  lemma TieGoesToSmallestId(a: FileMetadata, b: FileMetadata, c: FileMetadata, d: FileMetadata)
    requires a.nlink <= 1 && b.nlink <= 1 && c.nlink <= 1 && d.nlink <= 1
    requires a.cloneId == c.cloneId && b.cloneId == d.cloneId && b.cloneId < a.cloneId
    ensures Chosen([a, b, c, d], From(1))
  {
    var group := [a, b, c, d];
    forall id
      ensures Clones(group, id) == if id == a.cloneId || id == b.cloneId then 2 else 0
    {
      ClonesSnoc([], a, id);
      ClonesSnoc([a], b, id);
      ClonesSnoc([a, b], c, id);
      ClonesSnoc([a, b, c], d, id);
      assert [] + [a] == [a] && [a] + [b] == [a, b] && [a, b] + [c] == [a, b, c] && [a, b, c] + [d] == group;
    }
    assert group[0].cloneId != group[1].cloneId && group[0].cloneId == group[2].cloneId;
    hide Clones;
  }

  // ----- Counting distinct ids -----

  lemma {:induction false} DistinctIds(group: Group)
    ensures |Ids(group)| <= |group|
    ensures |Ids(group)| == |group| <==> AllDistinct(group)
  {
    if group != [] {
      var n := |group| - 1;
      var rest, fm := group[..n], group[n];
      assert group == rest + [fm];
      DistinctIds(rest);
      IdsSnoc(rest, fm);
      DistinctSnoc(rest, fm);
      hide Ids, AllDistinct;
      if fm.cloneId in Ids(rest) {
        assert Ids(rest) + {fm.cloneId} == Ids(rest);
      }
    }
  }

  lemma DistinctSnoc(group: Group, fm: FileMetadata)
    ensures AllDistinct(group + [fm]) <==> AllDistinct(group) && fm.cloneId !in Ids(group)
  {
    var group' := group + [fm];
    hide Ids;
    if AllDistinct(group') {
      forall i, j | 0 <= i < j < |group|
        ensures group[i].cloneId != group[j].cloneId
      {
        assert group'[i].cloneId != group'[j].cloneId;
      }
      forall i | 0 <= i < |group|
        ensures group[i].cloneId != fm.cloneId
      {
        assert group'[i].cloneId != group'[|group|].cloneId;
      }
    }
  }

  lemma OneId(group: Group)
    ensures |Ids(group)| == 1 <==> AllAlike(group)
  {
    if |Ids(group)| == 1 {
      var id :| id in Ids(group);
      assert |Ids(group) - {id}| == 0;
      assert forall i :: 0 <= i < |group| ==> group[i].cloneId !in Ids(group) - {id};
    }
    if AllAlike(group) {
      assert group[0].cloneId in Ids(group);
      assert Ids(group) == {group[0].cloneId};
    }
  }

  // ----- The clone id tree -----

  /** `fm` is the index of the first file counted. */
  datatype IDCountNode = IDCountNode(id: nat, fm: nat, count: nat)

  predicate Ascending(nodes: seq<IDCountNode>) {
    forall i, j :: 0 <= i < j < |nodes| ==> nodes[i].id < nodes[j].id
  }

  /** The first file of its id. */
  predicate FirstOf(group: Group, o: nat, id: nat) {
    o < |group| && group[o].cloneId == id && forall i :: 0 <= i < o ==> group[i].cloneId != id
  }

  predicate Tallies(node: IDCountNode, group: Group) {
    node.count == Clones(group, node.id) > 0 && FirstOf(group, node.fm, node.id)
  }

  predicate Tallied(nodes: seq<IDCountNode>, id: nat) {
    exists k :: 0 <= k < |nodes| && nodes[k].id == id
  }

  /** There is one node for every id, and it has the number of its files and the first of them. */
  predicate Counts(nodes: seq<IDCountNode>, group: Group) {
    Ascending(nodes)
    && (forall k :: 0 <= k < |nodes| ==> Tallies(nodes[k], group))
    && forall i :: 0 <= i < |group| ==> Tallied(nodes, group[i].cloneId)
  }

  lemma CountsIds(nodes: seq<IDCountNode>, group: Group)
    requires Counts(nodes, group)
    ensures |nodes| == |Ids(group)|
  {
    var ids := set k | 0 <= k < |nodes| :: nodes[k].id;
    assert ids == Ids(group) by {
      hide Clones;
      assert forall i :: 0 <= i < |group| ==> Tallied(nodes, group[i].cloneId);
      forall k | 0 <= k < |nodes|
        ensures nodes[k].id in Ids(group)
      {
        assert Tallies(nodes[k], group);
      }
    }
    AscendingSize(nodes);
  }

  lemma {:induction false} AscendingSize(nodes: seq<IDCountNode>)
    requires Ascending(nodes)
    ensures |set k | 0 <= k < |nodes| :: nodes[k].id| == |nodes|
  {
    if nodes != [] {
      var n := |nodes| - 1;
      AscendingSize(nodes[..n]);
      var less := set k | 0 <= k < |nodes[..n]| :: nodes[..n][k].id;
      assert (set k | 0 <= k < |nodes| :: nodes[k].id) == less + {nodes[n].id};
    }
  }

  lemma TalliesOneMore(node: IDCountNode, group: Group, fm: FileMetadata)
    requires Tallies(node, group)
    ensures Tallies(if node.id == fm.cloneId then node.(count := node.count + 1) else node, group + [fm])
  {
    ClonesSnoc(group, fm, node.id);
  }

  lemma {:induction false} TalliesFirst(group: Group, fm: FileMetadata)
    requires forall i :: 0 <= i < |group| ==> group[i].cloneId != fm.cloneId
    ensures Tallies(IDCountNode(fm.cloneId, |group|, 1), group + [fm])
  {
    ClonesSnoc(group, fm, fm.cloneId);
    NoneCounted(group, fm.cloneId);
  }

  lemma StillAscending(nodes: seq<IDCountNode>, at: nat, id: nat, fm: nat)
    requires Ascending(nodes) && at <= |nodes|
    requires forall k :: 0 <= k < at ==> nodes[k].id < id
    requires at < |nodes| ==> id <= nodes[at].id
    ensures Ascending(Incremented(nodes, at, id, fm))
  {
    if at < |nodes| && nodes[at].id == id {
      assert Ascending(nodes[at := nodes[at].(count := nodes[at].count + 1)]);
    } else {
      assert forall k :: at <= k < |nodes| ==> id < nodes[k].id;
      assert Ascending(nodes[..at] + [IDCountNode(id, fm, 1)] + nodes[at..]);
    }
  }

  /** Counting one more file with a node: its count goes up by one. */
  lemma CountAgain(nodes: seq<IDCountNode>, group: Group, fm: FileMetadata, at: nat)
    requires Counts(nodes, group) && at < |nodes| && nodes[at].id == fm.cloneId
    ensures var nodes' := Incremented(nodes, at, fm.cloneId, |group|);
            Counts(nodes', group + [fm]) && Tallies(nodes'[at], group + [fm])
  {
    var nodes', group' := Incremented(nodes, at, fm.cloneId, |group|), group + [fm];
    hide Tallies;
    forall k | 0 <= k < |nodes'|
      ensures Tallies(nodes'[k], group')
    {
      assert k != at ==> nodes[k].id != fm.cloneId;
      TalliesOneMore(nodes[k], group, fm);
    }
    forall i | 0 <= i < |group'|
      ensures Tallied(nodes', group'[i].cloneId)
    {
      var k :| 0 <= k < |nodes| && nodes[k].id == group'[i].cloneId;
      assert nodes'[k].id == group'[i].cloneId;
    }
    StillAscending(nodes, at, fm.cloneId, |group|);
  }

  /** Counting a file with a new id: a node for it goes where the order wants it. */
  lemma CountFirst(nodes: seq<IDCountNode>, group: Group, fm: FileMetadata, at: nat)
    requires Counts(nodes, group) && at <= |nodes|
    requires forall k :: 0 <= k < at ==> nodes[k].id < fm.cloneId
    requires at < |nodes| ==> fm.cloneId < nodes[at].id
    ensures var nodes' := Incremented(nodes, at, fm.cloneId, |group|);
            Counts(nodes', group + [fm]) && Tallies(nodes'[at], group + [fm])
  {
    var nodes', group' := Incremented(nodes, at, fm.cloneId, |group|), group + [fm];
    assert forall k :: at <= k < |nodes| ==> fm.cloneId < nodes[k].id;
    StillAscending(nodes, at, fm.cloneId, |group|);
    forall i | 0 <= i < |group|
      ensures group[i].cloneId != fm.cloneId && Tallied(nodes', group[i].cloneId)
    {
      assert Tallied(nodes, group[i].cloneId);
      hide Tallies, Ascending;
      TalliedStays(nodes, at, IDCountNode(fm.cloneId, |group|, 1), group[i].cloneId);
    }
    TalliesFirst(group, fm);
    hide Tallies, Ascending, Tallied;
    AllTally(nodes, group, fm, at);
    TalliedAt(nodes', at);
  }

  lemma TalliedAt(nodes: seq<IDCountNode>, k: nat)
    requires k < |nodes|
    ensures Tallied(nodes, nodes[k].id)
  {
  }

  lemma TalliedStays(nodes: seq<IDCountNode>, at: nat, node: IDCountNode, id: nat)
    requires at <= |nodes| && Tallied(nodes, id)
    ensures Tallied(nodes[..at] + [node] + nodes[at..], id)
  {
    var k :| 0 <= k < |nodes| && nodes[k].id == id;
    assert (nodes[..at] + [node] + nodes[at..])[if k < at then k else k + 1].id == id;
  }

  lemma AllTally(nodes: seq<IDCountNode>, group: Group, fm: FileMetadata, at: nat)
    requires at <= |nodes| && forall k :: 0 <= k < |nodes| ==> Tallies(nodes[k], group) && nodes[k].id != fm.cloneId
    requires Tallies(IDCountNode(fm.cloneId, |group|, 1), group + [fm])
    ensures forall node :: node in nodes[..at] + [IDCountNode(fm.cloneId, |group|, 1)] + nodes[at..] ==>
                             Tallies(node, group + [fm])
  {
    hide Tallies;
    forall k | 0 <= k < |nodes|
      ensures Tallies(nodes[k], group + [fm])
    {
      TalliesOneMore(nodes[k], group, fm);
    }
  }

  lemma NoneCounted(group: Group, id: nat)
    requires forall i :: 0 <= i < |group| ==> group[i].cloneId != id
    ensures Clones(group, id) == 0
  {
  }

  function Incremented(nodes: seq<IDCountNode>, at: nat, id: nat, fm: nat): (nodes': seq<IDCountNode>)
    requires at <= |nodes|
    ensures at < |nodes'|
  {
    if at < |nodes| && nodes[at].id == id then nodes[at := nodes[at].(count := nodes[at].count + 1)]
    else nodes[..at] + [IDCountNode(id, fm, 1)] + nodes[at..]
  }

  class CloneIdCounts {
    /** In the order of the tree. */
    var nodes: seq<IDCountNode>
    ghost var counted: Group

    ghost predicate Valid()
      reads this
    {
      Counts(nodes, counted)
    }

    constructor ()
      ensures Valid() && counted == []
    {
      nodes, counted := [], [];
    }

    method Increment(fm: FileMetadata, index: nat) returns (count: nat)
      requires Valid() && index == |counted|
      modifies this
      ensures Valid() && counted == old(counted) + [fm] && count == Clones(counted, fm.cloneId)
    {
      hide Clones, Counts, FirstOf;
      var at := 0;
      while at < |nodes| && nodes[at].id < fm.cloneId
        invariant at <= |nodes|
        invariant forall k :: 0 <= k < at ==> nodes[k].id < fm.cloneId
      {
        at := at + 1;
      }
      if at < |nodes| && nodes[at].id == fm.cloneId {
        CountAgain(nodes, counted, fm, at);
      } else {
        CountFirst(nodes, counted, fm, at);
      }
      nodes := Incremented(nodes, at, fm.cloneId, index);
      counted := counted + [fm];
      count := nodes[at].count;
    }

    /** The number of nodes tells whether the ids are all alike or all distinct. */
    method Count() returns (count: nat)
      requires Valid()
      ensures count == 1 <==> AllAlike(counted)
      ensures count == |counted| <==> AllDistinct(counted)
    {
      CountsIds(nodes, counted);
      OneId(counted);
      DistinctIds(counted);
      return |nodes|;
    }

    method Max() returns (fm: Option<nat>)
      requires Valid()
      ensures if counted == [] then fm == None else fm.Some? && MostCloned(counted, fm.value)
    {
      hide Counts, MostCloned;
      CountsSome(nodes, counted);
      var max, best := 0, None;
      for k := 0 to |nodes|
        invariant best.None? ==> k == 0 && max == 0
        invariant best.Some? ==>
                    exists b :: 0 <= b < k && Leads(nodes, b, k) && nodes[b].count == max && nodes[b].fm == best.value
      {
        if nodes[k].count > max {
          best, max := Some(nodes[k].fm), nodes[k].count;
          assert Leads(nodes, k, k + 1);
        } else {
          var b :| 0 <= b < k && Leads(nodes, b, k) && nodes[b].count == max && nodes[b].fm == best.value;
          assert Leads(nodes, b, k + 1);
        }
      }
      fm := best;
      if counted != [] {
        var b :| 0 <= b < |nodes| && Leads(nodes, b, |nodes|) && nodes[b].fm == best.value;
        LeaderIsMostCloned(nodes, counted, b);
      }
    }
  }

  lemma CountsSome(nodes: seq<IDCountNode>, group: Group)
    requires Counts(nodes, group)
    ensures nodes == [] <==> group == []
    ensures forall k :: 0 <= k < |nodes| ==> nodes[k].count > 0
  {
    if group != [] {
      assert Tallied(nodes, group[0].cloneId);
    }
    if nodes != [] {
      assert Tallies(nodes[0], group);
    }
  }

  /** The first node with the largest count among the first `n`. */
  predicate Leads(nodes: seq<IDCountNode>, b: nat, n: nat)
    requires n <= |nodes|
  {
    b < n
    && forall k :: 0 <= k < n ==>
                     if k < b then nodes[k].count < nodes[b].count else nodes[k].count <= nodes[b].count
  }

  lemma {:induction false} LeaderIsMostCloned(nodes: seq<IDCountNode>, group: Group, b: nat)
    requires Counts(nodes, group) && b < |nodes| && Leads(nodes, b, |nodes|)
    ensures MostCloned(group, nodes[b].fm)
  {
    hide Clones;
    var o := nodes[b].fm;
    assert Tallies(nodes[b], group);
    forall i | 0 <= i < |group|
      ensures Surpasses(group, o, i)
    {
      assert Tallied(nodes, group[i].cloneId);
      var k :| 0 <= k < |nodes| && nodes[k].id == group[i].cloneId;
      assert Tallies(nodes[k], group);
    }
  }

  // ----- The choice, as it is made -----

  /** The first half of `deduplicate`. */
  method SelectOrigin(members: AList<FileMetadata>) returns (d: Decision)
    requires members.Valid()
    ensures Chosen(members.Contents(), d)
  {
    hide Clones, Compressed, AllAlike, AllDistinct, MostCloned, FirstPlain;
    ghost var group := members.Contents();
    var origin: Option<nat> := None;
    for i := 0 to members.Size()
      invariant if origin.None? then !SomeLinked(group[..i])
                else SomeLinked(group[..i]) && MostLinked(group[..i], origin.value)
    {
      var fm := members.Get(i).value;
      assert group[..i + 1] == group[..i] + [fm];
      if fm.nlink > 1 && (origin.None? || members.Get(origin.value).value.nlink < fm.nlink) {
        origin := Some(i);
      }
    }
    assert group[..members.Size()] == group;
    if origin.Some? {
      return From(origin.value);
    }
    d := SelectByCloneId(members);
  }

  method SelectByCloneId(members: AList<FileMetadata>) returns (d: Decision)
    requires members.Valid() && !SomeLinked(members.Contents())
    ensures Chosen(members.Contents(), d)
  {
    hide Clones, Compressed, SomeLinked, MostLinked, AllAlike, MostCloned, Counts;
    ghost var group := members.Contents();
    var counts := new CloneIdCounts();
    for i := 0 to members.Size()
      invariant counts.Valid() && counts.counted == group[..i] && fresh(counts)
    {
      var _ := counts.Increment(members.Get(i).value, i);
      assert group[..i + 1] == group[..i] + [group[i]];
    }
    assert group[..members.Size()] == group;
    var count := counts.Count();
    if count == 1 {
      return AllCloned;
    }
    if count == members.Size() {
      for i := 0 to members.Size()
        invariant forall j :: 0 <= j < i ==> Compressed(group[j])
      {
        var fm := members.Get(i).value;
        if !Compressed(fm) {
          return From(i);
        }
      }
      return AllCompressed;
    }
    assert count != 1 && count != |group| && counts.counted == group;
    var max := counts.Max();
    return From(max.value);
  }
}
