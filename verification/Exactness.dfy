/** Which lists at rest are right: what their files have in common on any number of devices, and
    exactly when they are whole groups. */
module Exactness {
  import opened Types
  import opened Twins
  import opened Duplicates
  import opened Grouping
  import opened Groups

  // ----- Distinct paths -----

  predicate DistinctPaths(files: seq<FileMetadata>) {
    forall i, j :: 0 <= i < j < |files| ==> files[i].path != files[j].path
  }

  lemma {:induction false} GroupPaths(hashes: Hashes, files: seq<FileMetadata>, k: nat)
    requires DistinctPaths(files)
    ensures DistinctPaths(Group(hashes, files, k))
    ensures forall x :: x in Group(hashes, files, k) ==> exists i :: 0 <= i < |files| && files[i].path == x.path
  {
    if files != [] {
      var earlier, fm := files[..|files| - 1], files[|files| - 1];
      GroupPaths(hashes, earlier, k);
      GroupMembers(hashes, files, k);
      forall i | 0 <= i < |Group(hashes, earlier, k)|
        ensures Group(hashes, earlier, k)[i].path != fm.path
      {
        var x := Group(hashes, earlier, k)[i];
        assert x in Group(hashes, earlier, k);
        var j :| 0 <= j < |earlier| && earlier[j].path == x.path;
        assert files[j] == earlier[j];
      }
    }
  }

  lemma {:induction false} DistinctMeansOnce(files: seq<FileMetadata>, x: FileMetadata)
    requires DistinctPaths(files)
    ensures multiset(files)[x] <= 1
  {
    if files != [] {
      var earlier, fm := files[..|files| - 1], files[|files| - 1];
      assert files == earlier + [fm];
      DistinctMeansOnce(earlier, x);
      assert multiset(files) == multiset(earlier) + multiset{fm};
      if x == fm {
        assert forall i :: 0 <= i < |earlier| ==> files[i] == earlier[i];
        assert x !in earlier;
      }
    }
  }

  lemma OrderDoesNotRepeat(a: seq<FileMetadata>, b: seq<FileMetadata>)
    requires multiset(a) == multiset(b) && DistinctPaths(b)
    ensures DistinctPaths(a)
  {
    forall i, j | 0 <= i < j < |a|
      ensures a[i].path != a[j].path
    {
      assert a[i] in multiset(b) && a[j] in multiset(b);
      var p :| 0 <= p < |b| && b[p] == a[i];
      var q :| 0 <= q < |b| && b[q] == a[j];
      assert a == a[..j] + [a[j]] + a[j + 1..];
      assert a[..j][i] == a[i];
      assert multiset(a) == multiset(a[..j]) + multiset{a[j]} + multiset(a[j + 1..]);
      DistinctMeansOnce(b, a[j]);
    }
  }

  // ----- The files that had a twin -----

  /** Those with one digest, in order. */
  function LosersOf(hashes: Hashes, history: seq<FileMetadata>, k: nat): seq<FileMetadata> {
    if history == [] then []
    else
      var earlier, fm := history[..|history| - 1], history[|history| - 1];
      LosersOf(hashes, earlier, k) +
      if HasDigest(hashes, fm, k) && Twin(hashes, earlier, fm).Some? then [Hashed(hashes, fm)] else []
  }

  lemma {:induction false} LosersByDigest(hashes: Hashes, history: seq<FileMetadata>, k: nat, x: FileMetadata)
    ensures multiset(LosersOf(hashes, history, k))[x] == if x.sha256 == k then Losers(hashes, history)[x] else 0
  {
    if history != [] {
      LosersByDigest(hashes, history[..|history| - 1], k, x);
    }
  }

  /** `x` comes from the file at `j`, which had a twin. */
  predicate IsLoser(hashes: Hashes, history: seq<FileMetadata>, k: nat, x: FileMetadata, j: nat) {
    j < |history| && HasDigest(hashes, history[j], k) && Twin(hashes, history[..j], history[j]).Some?
    && x == Hashed(hashes, history[j])
  }

  lemma {:induction false} LosersAreFiles(hashes: Hashes, history: seq<FileMetadata>, k: nat, x: FileMetadata)
    returns (j: nat)
    requires x in LosersOf(hashes, history, k)
    ensures IsLoser(hashes, history, k, x, j)
  {
    hide Earliest, Hashable;
    var n := |history| - 1;
    var earlier := history[..n];
    if x in LosersOf(hashes, earlier, k) {
      j := LosersAreFiles(hashes, earlier, k, x);
      assert earlier[..j] == history[..j];
    } else {
      j := n;
    }
  }

  lemma {:induction false} LosersAreDistinct(hashes: Hashes, history: seq<FileMetadata>, k: nat)
    requires DistinctPaths(history)
    ensures DistinctPaths(LosersOf(hashes, history, k))
  {
    hide Earliest, Hashable;
    if history != [] {
      var n := |history| - 1;
      var earlier, fm := history[..n], history[n];
      LosersAreDistinct(hashes, earlier, k);
      var losers := LosersOf(hashes, earlier, k);
      forall i | 0 <= i < |losers|
        ensures losers[i].path != fm.path
      {
        var j := LosersAreFiles(hashes, earlier, k, losers[i]);
        assert history[j] == earlier[j];
      }
    }
  }

  // ----- Lists at rest, on any number of devices -----

  lemma NotOnTheList(hashes: Hashes, history: seq<FileMetadata>, k: nat, list: seq<FileMetadata>, y: FileMetadata)
    requires WellFiled(hashes, history, k, list) && y.sha256 != k
    ensures multiset(list[1..])[y] == 0
  {
    assert y !in list[1..];
  }

  lemma TailCountsLosers(hashes: Hashes, history: seq<FileMetadata>, lists: Lists, k: nat, y: FileMetadata)
    requires Grouped(hashes, history, lists, multiset{}) && k in lists && lists[k] != []
    ensures multiset(lists[k][1..])[y] == multiset(LosersOf(hashes, history, k))[y]
  {
    LosersByDigest(hashes, history, k, y);
    hide LosersOf, Losers;
    if y.sha256 == k {
      assert TailCount(lists, y) + multiset{}[y] == Losers(hashes, history)[y];
    } else {
      NotOnTheList(hashes, history, k, lists[k], y);
    }
  }

  lemma NoListNoLosers(hashes: Hashes, history: seq<FileMetadata>, lists: Lists, k: nat)
    requires Grouped(hashes, history, lists, multiset{}) && k !in lists
    ensures LosersOf(hashes, history, k) == []
  {
    var losers := LosersOf(hashes, history, k);
    hide LosersOf, Losers, WellFiled;
    forall x
      ensures multiset(losers)[x] == 0
    {
      LosersByDigest(hashes, history, k, x);
      assert x.sha256 == k ==> TailCount(lists, x) + multiset{}[x] == Losers(hashes, history)[x];
    }
    assert multiset(losers) == multiset{} && |multiset(losers)| == |losers|;
  }

  /** Behind the head of a list stand the files of its digest that had a twin; without a list there
      are none. */
  lemma TailIsLosers(hashes: Hashes, history: seq<FileMetadata>, lists: Lists, k: nat)
    requires Grouped(hashes, history, lists, multiset{})
    ensures k in lists ==> lists[k] != [] && multiset(lists[k][1..]) == multiset(LosersOf(hashes, history, k))
    ensures k !in lists ==> LosersOf(hashes, history, k) == []
  {
    assert k in lists ==> WellFiled(hashes, history, k, lists[k]);
    hide Grouped, LosersOf, IsEarliest, Losers;
    if k in lists {
      forall y {
        TailCountsLosers(hashes, history, lists, k, y);
      }
    } else {
      NoListNoLosers(hashes, history, lists, k);
    }
  }

  /** The head comes from a file that had no twin. */
  lemma HeadIsFirst(hashes: Hashes, history: seq<FileMetadata>, f: FileMetadata) returns (i: nat)
    requires IsEarliest(hashes, history, f)
    ensures i < |history| && HasDigest(hashes, history[i], f.sha256) && f == Hashed(hashes, history[i])
    ensures Twin(hashes, history[..i], history[i]).None?
  {
    EarliestIsFirstMatch(hashes, history, f.Key(), f.sha256);
    hide Earliest;
    i :| 0 <= i < |history| && Matches(hashes, history[i], f.Key(), f.sha256) && f == Hashed(hashes, history[i])
         && forall j :: 0 <= j < i ==> !Matches(hashes, history[j], f.Key(), f.sha256);
    EarliestIsFirstMatch(hashes, history[..i], history[i].Key(), f.sha256);
    assert forall j :: 0 <= j < i ==> history[..i][j] == history[j];
  }

  predicate FromFile(hashes: Hashes, files: seq<FileMetadata>, k: nat, x: FileMetadata) {
    exists j :: 0 <= j < |files| && HasDigest(hashes, files[j], k) && x == Hashed(hashes, files[j])
  }

  lemma HeadIsNoLoser(hashes: Hashes, history: seq<FileMetadata>, f: FileMetadata)
    requires DistinctPaths(history) && IsEarliest(hashes, history, f)
    ensures FromFile(hashes, history, f.sha256, f)
    ensures forall x :: x in LosersOf(hashes, history, f.sha256) ==>
                          x.path != f.path && FromFile(hashes, history, f.sha256, x)
  {
    var i := HeadIsFirst(hashes, history, f);
    hide LosersOf, IsEarliest, Twin, Hashable;
    forall x | x in LosersOf(hashes, history, f.sha256)
      ensures x.path != f.path && FromFile(hashes, history, f.sha256, x)
    {
      var j := LosersAreFiles(hashes, history, f.sha256, x);
      assert j != i && (j < i ==> history[j].path != history[i].path) && (i < j ==> history[i].path != history[j].path);
    }
  }

  /** Every list at rest holds different files, each with the digest of the list. */
  lemma ListHasDistinctFiles(hashes: Hashes, history: seq<FileMetadata>, lists: Lists, k: nat)
    requires DistinctPaths(history) && Grouped(hashes, history, lists, multiset{}) && k in lists
    ensures DistinctPaths(lists[k]) && forall x :: x in lists[k] ==> FromFile(hashes, history, k, x)
  {
    TailIsLosers(hashes, history, lists, k);
    LosersAreDistinct(hashes, history, k);
    assert WellFiled(hashes, history, k, lists[k]);
    HeadIsNoLoser(hashes, history, lists[k][0]);
    hide LosersOf, Grouped, IsEarliest, WellFiled, FromFile, Losers;
    HeadAndTail(lists[k], LosersOf(hashes, history, k));
  }

  lemma HeadAndTail(list: seq<FileMetadata>, losers: seq<FileMetadata>)
    requires list != [] && multiset(list[1..]) == multiset(losers)
    requires DistinctPaths(losers) && forall x :: x in losers ==> x.path != list[0].path
    ensures DistinctPaths(list) && forall x :: x in list ==> x == list[0] || x in losers
  {
    var ordered := [list[0]] + losers;
    assert list == [list[0]] + list[1..];
    assert multiset(list) == multiset(ordered);
    OrderDoesNotRepeat(list, ordered);
    forall x | x in list
      ensures x == list[0] || x in losers
    {
      assert x in multiset(ordered);
    }
  }

  // ----- Exactly when a list is a whole group -----

  /** The buckets that the files with a digest belong to. */
  function Buckets(hashes: Hashes, history: seq<FileMetadata>, k: nat): set<Bucket> {
    set i | 0 <= i < |history| && HasDigest(hashes, history[i], k) :: history[i].Key()
  }

  lemma BucketsSnoc(hashes: Hashes, history: seq<FileMetadata>, fm: FileMetadata, k: nat)
    ensures Buckets(hashes, history + [fm], k) ==
            Buckets(hashes, history, k) + if HasDigest(hashes, fm, k) then {fm.Key()} else {}
  {
    var longer := history + [fm];
    forall b
      ensures b in Buckets(hashes, longer, k) <==>
              b in Buckets(hashes, history, k) + if HasDigest(hashes, fm, k) then {fm.Key()} else {}
    {
      if i :| 0 <= i < |history| && HasDigest(hashes, history[i], k) && history[i].Key() == b {
        assert HasDigest(hashes, longer[i], k) && longer[i].Key() == b;
      }
      if HasDigest(hashes, fm, k) && fm.Key() == b {
        assert HasDigest(hashes, longer[|history|], k);
      }
    }
  }

  /** A file has a twin exactly when its bucket already had its digest. */
  lemma TwinIffBucket(hashes: Hashes, history: seq<FileMetadata>, fm: FileMetadata)
    requires Hashable(hashes, fm.path)
    ensures Twin(hashes, history, fm).Some? <==> fm.Key() in Buckets(hashes, history, hashes[fm.path])
  {
    EarliestIsFirstMatch(hashes, history, fm.Key(), hashes[fm.path]);
    hide Earliest;
    assert forall i :: 0 <= i < |history| ==>
                         (Matches(hashes, history[i], fm.Key(), hashes[fm.path]) <==>
                          HasDigest(hashes, history[i], hashes[fm.path]) && history[i].Key() == fm.Key());
  }

  /** Of a group, one file for every bucket had no twin, and all others had one. */
  lemma {:induction false} CountsAddUp(hashes: Hashes, history: seq<FileMetadata>, k: nat)
    ensures |LosersOf(hashes, history, k)| + |Buckets(hashes, history, k)| == |Group(hashes, history, k)|
  {
    if history != [] {
      var n := |history| - 1;
      var earlier, fm := history[..n], history[n];
      assert history == earlier + [fm];
      CountsAddUp(hashes, earlier, k);
      BucketsSnoc(hashes, earlier, fm, k);
      if HasDigest(hashes, fm, k) {
        TwinIffBucket(hashes, earlier, fm);
      }
      hide Buckets, Twin, Hashable;
      var buckets := Buckets(hashes, earlier, k);
      if HasDigest(hashes, fm, k) && fm.Key() in buckets {
        assert buckets + {fm.Key()} == buckets;
      }
    }
  }

  lemma OneBucketIffFew(hashes: Hashes, history: seq<FileMetadata>, k: nat)
    ensures |Buckets(hashes, history, k)| <= 1 <==> OneBucket(hashes, history, k)
  {
    var buckets := Buckets(hashes, history, k);
    hide Hashable;
    if OneBucket(hashes, history, k) {
      if b :| b in buckets {
        assert buckets == {b};
      }
    } else {
      var i, j :| 0 <= i < |history| && 0 <= j < |history| && HasDigest(hashes, history[i], k)
                  && HasDigest(hashes, history[j], k) && history[i].Key() != history[j].Key();
      var b, c := history[i].Key(), history[j].Key();
      assert b in buckets && c in buckets;
      assert |buckets - {b}| >= 1 by {
        assert c in buckets - {b};
      }
    }
  }

  lemma {:induction false} NoDigestZero(hashes: Hashes, files: seq<FileMetadata>)
    ensures Group(hashes, files, 0) == []
  {
    if files != [] {
      NoDigestZero(hashes, files[..|files| - 1]);
    }
  }

  lemma SizeOfBag<T>(a: seq<T>, b: seq<T>)
    requires multiset(a) == multiset(b)
    ensures |a| == |b|
  {
    assert |multiset(a)| == |a| && |multiset(b)| == |b|;
  }

  /** A list has one file more than there are files of its digest that had a twin. */
  lemma ListSize(hashes: Hashes, history: seq<FileMetadata>, lists: Lists, k: nat)
    requires Grouped(hashes, history, lists, multiset{})
    ensures |LosersOf(hashes, history, k)| == if k in lists then |lists[k]| - 1 else 0
  {
    TailIsLosers(hashes, history, lists, k);
    hide Grouped, LosersOf;
    if k in lists {
      SizeOfBag(lists[k][1..], LosersOf(hashes, history, k));
    }
  }

  lemma ListHasTwo(hashes: Hashes, history: seq<FileMetadata>, lists: Lists, k: nat)
    requires Grouped(hashes, history, lists, multiset{}) && k in lists
    ensures |LosersOf(hashes, history, k)| > 0
  {
    assert WellFiled(hashes, history, k, lists[k]);
    hide IsEarliest, LosersOf, Losers;
    var x: FileMetadata :| x in Losers(hashes, history) && x.sha256 == k;
    LosersByDigest(hashes, history, k, x);
    assert x in multiset(LosersOf(hashes, history, k));
  }

  /** At rest, the list of a digest is exactly its group if and only if all its files belong to
      one bucket. */
  lemma ExactIffOneBucket(hashes: Hashes, history: seq<FileMetadata>, lists: Lists, k: nat)
    requires Grouped(hashes, history, lists, multiset{})
    ensures Exact(hashes, history, lists, k) <==> OneBucket(hashes, history, k)
  {
    ListSize(hashes, history, lists, k);
    CountsAddUp(hashes, history, k);
    OneBucketIffFew(hashes, history, k);
    NoDigestZero(hashes, history);
    if OneBucket(hashes, history, k) {
      ListsAtRest(hashes, history, lists, k);
    }
    hide Grouped, Buckets, LosersOf, Group, OneBucket;
    if k in lists && Exact(hashes, history, lists, k) {
      SizeOfBag(lists[k], Group(hashes, history, k));
    }
  }

  // ----- In terms of bytes -----

  /** `g` is readable and has the bytes of `f`. */
  predicate EqualTo(disk: Disk, hashes: Hashes, g: FileMetadata, f: FileMetadata) {
    Hashable(hashes, g.path) && g.path in disk && f.path in disk && disk[g.path] == disk[f.path]
  }

  /** All readable files with the bytes of `f` are on the same device. */
  predicate OneDevice(disk: Disk, hashes: Hashes, files: seq<FileMetadata>, f: FileMetadata) {
    forall j :: 0 <= j < |files| && EqualTo(disk, hashes, files[j], f) ==> files[j].device == f.device
  }

  /** With a digest without collisions, the digest of a file belongs to one bucket exactly when its
      equals are on one device. */
  lemma OneBucketIffOneDevice(disk: Disk, hashes: Hashes, files: seq<FileMetadata>, i: nat)
    requires CollisionFree(disk, hashes) && forall j :: 0 <= j < |files| ==> Describes(disk, files[j])
    requires i < |files| && Hashable(hashes, files[i].path)
    ensures OneBucket(hashes, files, hashes[files[i].path]) <==> OneDevice(disk, hashes, files, files[i])
  {
    var k := hashes[files[i].path];
    forall j | 0 <= j < |files|
      ensures HasDigest(hashes, files[j], k) <==> EqualTo(disk, hashes, files[j], files[i])
      ensures HasDigest(hashes, files[j], k) ==>
                (files[j].Key() == files[i].Key() <==> files[j].device == files[i].device)
    {
    }
    hide Describes, CollisionFree;
    assert HasDigest(hashes, files[i], k);
  }
}
