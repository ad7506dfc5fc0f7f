/** The groups of equal files that the first phase must find, whatever the order of visits. */
module Groups {
  import opened Types
  import opened Twins
  import opened Duplicates
  import opened Visiting
  import opened Grouping

  /** The file can be read and has this digest. */
  predicate HasDigest(hashes: Hashes, fm: FileMetadata, k: nat) {
    Hashable(hashes, fm.path) && hashes[fm.path] == k
  }

  function Part(hashes: Hashes, fm: FileMetadata, k: nat): seq<FileMetadata> {
    if HasDigest(hashes, fm, k) then [Hashed(hashes, fm)] else []
  }

  /** The readable files with digest `k`, in order. */
  function Group(hashes: Hashes, files: seq<FileMetadata>, k: nat): seq<FileMetadata> {
    if files == [] then []
    else Group(hashes, files[..|files| - 1], k) + Part(hashes, files[|files| - 1], k)
  }

  lemma GroupSnoc(hashes: Hashes, files: seq<FileMetadata>, fm: FileMetadata, k: nat)
    ensures Group(hashes, files + [fm], k) == Group(hashes, files, k) + Part(hashes, fm, k)
  {
    assert (files + [fm])[..|files|] == files;
  }

  // ----- The same groups for every order -----

  lemma {:induction false} GroupConcat(hashes: Hashes, a: seq<FileMetadata>, b: seq<FileMetadata>, k: nat)
    ensures Group(hashes, a + b, k) == Group(hashes, a, k) + Group(hashes, b, k)
  {
    if b == [] {
      assert a + b == a;
    } else {
      var most, last := b[..|b| - 1], b[|b| - 1];
      assert a + b == (a + most) + [last];
      GroupSnoc(hashes, a + most, last, k);
      GroupConcat(hashes, a, most, k);
    }
  }

  /** Taking one file out takes its part out of the group. */
  lemma Extract(hashes: Hashes, files: seq<FileMetadata>, i: nat, k: nat) returns (rest: seq<FileMetadata>)
    requires i < |files|
    ensures |rest| == |files| - 1 && multiset(rest) == multiset(files) - multiset{files[i]}
    ensures multiset(Group(hashes, files, k)) ==
            multiset(Group(hashes, rest, k)) + multiset(Part(hashes, files[i], k))
  {
    var left, right := files[..i], files[i + 1..];
    rest := left + right;
    assert files == (left + [files[i]]) + right;
    GroupConcat(hashes, left + [files[i]], right, k);
    GroupSnoc(hashes, left, files[i], k);
    GroupConcat(hashes, left, right, k);
  }

  /** The group of a digest does not depend on the order in which the files come. */
  lemma {:induction false} GroupOfPermutation(hashes: Hashes, a: seq<FileMetadata>, b: seq<FileMetadata>, k: nat)
    requires multiset(a) == multiset(b)
    ensures multiset(Group(hashes, a, k)) == multiset(Group(hashes, b, k))
    decreases |a|
  {
    if a == [] {
      assert |multiset(a)| == 0 && |multiset(b)| == |b|;
      return;
    }
    hide Group, Part;
    assert a[0] in multiset(b);
    var i :| 0 <= i < |b| && b[i] == a[0];
    var a' := Extract(hashes, a, 0, k);
    var b' := Extract(hashes, b, i, k);
    GroupOfPermutation(hashes, a', b', k);
  }

  // ----- One bucket -----

  /** All files with this digest belong to the same bucket. */
  predicate OneBucket(hashes: Hashes, files: seq<FileMetadata>, k: nat) {
    forall i, j | 0 <= i < |files| && 0 <= j < |files|
                  && HasDigest(hashes, files[i], k) && HasDigest(hashes, files[j], k) ::
      files[i].Key() == files[j].Key()
  }

  lemma {:induction false} GroupMembers(hashes: Hashes, files: seq<FileMetadata>, k: nat)
    ensures forall x :: x in Group(hashes, files, k) <==>
                        exists i :: 0 <= i < |files| && Hashable(hashes, files[i].path)
                                    && hashes[files[i].path] == k && x == Hashed(hashes, files[i])
  {
    if files != [] {
      var earlier, fm := files[..|files| - 1], files[|files| - 1];
      GroupMembers(hashes, earlier, k);
      assert files == earlier + [fm];
      forall x
        ensures x in Group(hashes, files, k) <==>
                exists i :: 0 <= i < |files| && Hashable(hashes, files[i].path)
                            && hashes[files[i].path] == k && x == Hashed(hashes, files[i])
      {
        if x in Group(hashes, earlier, k) {
          var i :| 0 <= i < |earlier| && Hashable(hashes, earlier[i].path)
                   && hashes[earlier[i].path] == k && x == Hashed(hashes, earlier[i]);
          assert files[i] == earlier[i];
        }
        if x in Part(hashes, fm, k) {
          assert x == Hashed(hashes, files[|files| - 1]);
        }
        if i :| 0 <= i < |files| && Hashable(hashes, files[i].path)
                && hashes[files[i].path] == k && x == Hashed(hashes, files[i]) {
          if i < |earlier| {
            assert files[i] == earlier[i];
          }
        }
      }
    }
  }

  /** In terms of bytes: the group of a file's digest holds the readable files equal to it. */
  lemma {:induction false} GroupMeansContent(disk: Disk, hashes: Hashes, files: seq<FileMetadata>, f: FileMetadata)
    requires CollisionFree(disk, hashes) && Hashable(hashes, f.path)
    ensures forall x :: x in Group(hashes, files, hashes[f.path]) <==>
                        exists i :: 0 <= i < |files| && Hashable(hashes, files[i].path)
                                    && disk[files[i].path] == disk[f.path] && x == Hashed(hashes, files[i])
  {
    GroupMembers(hashes, files, hashes[f.path]);
  }

  /** Where a digest belongs to one bucket, the files that had a twin are all but the first of
      their group, and the earliest file of the group is its first. */
  lemma {:induction false} LosersOfGroup(hashes: Hashes, history: seq<FileMetadata>, k: nat, x: FileMetadata, b: Bucket)
    requires OneBucket(hashes, history, k) && k != 0 && x.sha256 == k
    ensures var g := Group(hashes, history, k);
            Losers(hashes, history)[x] == (if g == [] then 0 else multiset(g[1..])[x])
            && (Earliest(hashes, history, b, k).Some? ==> g != [] && Earliest(hashes, history, b, k).value == g[0])
            && (g != [] ==> Earliest(hashes, history, g[0].Key(), k) == Some(g[0]))
  {
    if history == [] {
      return;
    }
    var earlier, fm := history[..|history| - 1], history[|history| - 1];
    assert history == earlier + [fm];
    assert forall i :: 0 <= i < |earlier| ==> earlier[i] == history[i];
    var g, part := Group(hashes, earlier, k), Part(hashes, fm, k);
    if part == [] {
      assert g + part == g;
    } else if g != [] {
      GroupMembers(hashes, earlier, k);
      assert g[0] in g;
      var i :| 0 <= i < |earlier| && Hashable(hashes, earlier[i].path)
               && hashes[earlier[i].path] == k && g[0] == Hashed(hashes, earlier[i]);
      assert earlier[i] == history[i] && fm == history[|history| - 1];
      assert g[0].Key() == fm.Key();
      assert (g + part)[1..] == g[1..] + part;
    }
    LosersOfGroup(hashes, earlier, k, x, b);
    LosersOfGroup(hashes, earlier, k, x, fm.Key());
    GroupGrows(hashes, earlier, fm, k, x, b);
  }

  lemma GroupGrows(hashes: Hashes, earlier: seq<FileMetadata>, fm: FileMetadata, k: nat, x: FileMetadata, b: Bucket)
    requires k != 0 && x.sha256 == k
    requires var g := Group(hashes, earlier, k);
             Losers(hashes, earlier)[x] == (if g == [] then 0 else multiset(g[1..])[x])
             && (Earliest(hashes, earlier, b, k).Some? ==> g != [] && Earliest(hashes, earlier, b, k).value == g[0])
             && (Earliest(hashes, earlier, fm.Key(), k).Some? ==> g != [])
             && (g != [] ==> Earliest(hashes, earlier, g[0].Key(), k) == Some(g[0]))
             && (g != [] && Part(hashes, fm, k) != [] ==>
                   g[0].Key() == fm.Key() && (g + Part(hashes, fm, k))[1..] == g[1..] + Part(hashes, fm, k))
    ensures var history := earlier + [fm];
            var g := Group(hashes, history, k);
            Losers(hashes, history)[x] == (if g == [] then 0 else multiset(g[1..])[x])
            && (Earliest(hashes, history, b, k).Some? ==> g != [] && Earliest(hashes, history, b, k).value == g[0])
            && (g != [] ==> Earliest(hashes, history, g[0].Key(), k) == Some(g[0]))
  {
    var g, part := Group(hashes, earlier, k), Part(hashes, fm, k);
    LosersSnoc(hashes, earlier, fm);
    GroupSnoc(hashes, earlier, fm, k);
    EarliestSnoc(hashes, earlier, fm, b, k);
    EarliestSnoc(hashes, earlier, fm, fm.Key(), k);
    if part == [] {
      assert g + part == g;
    } else if g == [] {
      assert g + part == part && part[1..] == [];
    } else {
      assert multiset(g[1..] + part) == multiset(g[1..]) + multiset{part[0]};
    }
    if g != [] {
      EarliestSnoc(hashes, earlier, fm, g[0].Key(), k);
    }
  }

  // ----- The lists at rest -----

  /** The list of `k` is right for these files: it exists exactly when two of them have the
      digest, it holds each of those once, and it starts with one of them. */
  ghost predicate Exact(hashes: Hashes, files: seq<FileMetadata>, lists: Lists, k: nat) {
    var g := Group(hashes, files, k);
    (k in lists <==> k != 0 && |g| >= 2)
    && (k in lists ==> multiset(lists[k]) == multiset(g))
  }

  lemma {:induction false} GroupDigests(hashes: Hashes, files: seq<FileMetadata>, k: nat)
    ensures forall i :: 0 <= i < |Group(hashes, files, k)| ==> Group(hashes, files, k)[i].sha256 == k
  {
    if files != [] {
      GroupDigests(hashes, files[..|files| - 1], k);
    }
  }

  lemma TailsAgree(hashes: Hashes, history: seq<FileMetadata>, lists: Lists, k: nat, y: FileMetadata)
    requires OneBucket(hashes, history, k) && Grouped(hashes, history, lists, multiset{})
    requires k in lists && Group(hashes, history, k) != []
    ensures lists[k] != [] && multiset(lists[k][1..])[y] == multiset(Group(hashes, history, k)[1..])[y]
  {
    var list, g := lists[k], Group(hashes, history, k);
    assert WellFiled(hashes, history, k, list);
    GroupDigests(hashes, history, k);
    if y.sha256 == k {
      LosersOfGroup(hashes, history, k, y, y.Key());
      assert TailCount(lists, y) + multiset{}[y] == Losers(hashes, history)[y];
    } else {
      assert y !in list[1..] && y !in g[1..];
    }
  }

  lemma SameBag(a: seq<FileMetadata>, b: seq<FileMetadata>)
    requires a != [] && b != [] && a[0] == b[0]
    requires forall y :: multiset(a[1..])[y] == multiset(b[1..])[y]
    ensures multiset(a) == multiset(b)
  {
    assert a == [a[0]] + a[1..] && b == [b[0]] + b[1..];
    assert multiset(a[1..]) == multiset(b[1..]);
  }

  lemma ListedIsExact(hashes: Hashes, history: seq<FileMetadata>, lists: Lists, k: nat)
    requires OneBucket(hashes, history, k) && Grouped(hashes, history, lists, multiset{})
    requires k in lists
    ensures var g := Group(hashes, history, k);
            k != 0 && |g| >= 2 && |lists[k]| > 0 && multiset(lists[k]) == multiset(g) && lists[k][0] == g[0]
  {
    var list, g := lists[k], Group(hashes, history, k);
    assert WellFiled(hashes, history, k, list);
    LosersOfGroup(hashes, history, k, list[0], list[0].Key());
    var x: FileMetadata :| x in Losers(hashes, history) && x.sha256 == k;
    LosersOfGroup(hashes, history, k, x, x.Key());
    hide Grouped, WellFiled, Group, OneBucket, Losers;
    forall y {
      TailsAgree(hashes, history, lists, k, y);
    }
    SameBag(list, g);
  }

  /** When nothing is in flight, every list is exact and starts with the file inserted first. */
  lemma {:induction false} ListsAtRest(hashes: Hashes, history: seq<FileMetadata>, lists: Lists, k: nat)
    requires OneBucket(hashes, history, k) && Grouped(hashes, history, lists, multiset{})
    ensures Exact(hashes, history, lists, k)
    ensures k in lists ==> |lists[k]| > 0 && lists[k][0] == Group(hashes, history, k)[0]
  {
    if k in lists {
      ListedIsExact(hashes, history, lists, k);
    } else {
      var g := Group(hashes, history, k);
      if k != 0 && |g| >= 2 {
        GroupDigests(hashes, history, k);
        assert g[1..][0] == g[1];
        LosersOfGroup(hashes, history, k, g[1], g[1].Key());
      }
    }
  }

  // ----- The serial run -----

  /** Visiting one file after the other keeps the lists grouped with nothing in flight. */
  lemma {:induction false} SerialIsGrouped(hashes: Hashes, files: seq<FileMetadata>)
    ensures Grouped(hashes, files, Serial(hashes, files).lists, multiset{})
  {
    if files == [] {
      return;
    }
    var earlier, fm := files[..|files| - 1], files[|files| - 1];
    assert files == earlier + [fm];
    SerialIsGrouped(hashes, earlier);
    SerialHistory(hashes, earlier);
    SerialSnoc(hashes, earlier, fm);
    VisitKeepsGrouped(hashes, Serial(hashes, earlier), fm);
  }

  lemma VisitKeepsGrouped(hashes: Hashes, s: Phase, fm: FileMetadata)
    requires Grouped(hashes, s.history, s.lists, multiset{})
    ensures Grouped(hashes, s.history + [fm], Visit(hashes, s, fm).lists, multiset{})
  {
    hide Grouped;
    InsertKeepsGrouped(hashes, s.history, s.lists, multiset{}, fm);
    var twin := Twin(hashes, s.history, fm);
    if twin.Some? {
      var filled, history := Hashed(hashes, fm), s.history + [fm];
      assert multiset{} + multiset{filled} == multiset{filled};
      TwinIsEarliest(hashes, s.history, fm);
      EarliestIsStable(hashes, s.history, fm, twin.value);
      HeadKeepsGrouped(hashes, history, s.lists, multiset{filled}, filled, twin.value);
      TailKeepsGrouped(hashes, history, WithHead(s.lists, filled, twin.value), multiset{filled}, filled);
      assert multiset{filled} - multiset{filled} == multiset{};
    } else {
      var none: multiset<FileMetadata> := multiset{};
      assert none + none == none;
    }
  }
}
