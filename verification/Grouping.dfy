/** What the duplicate lists must hold, in terms of the history of insertions alone. The list
    of a digest is filled in a later critical section than the insertion, so files in between
    are counted as being in flight. */
module Grouping {
  import opened Types
  import opened Twins
  import opened Duplicates
  import opened Visiting

  /** The files that had a twin when they were inserted, with their digests. */
  function Losers(hashes: Hashes, history: seq<FileMetadata>): multiset<FileMetadata> {
    if history == [] then multiset{}
    else
      var earlier, fm := history[..|history| - 1], history[|history| - 1];
      Losers(hashes, earlier) +
      if Twin(hashes, earlier, fm).Some? then multiset{Hashed(hashes, fm)} else multiset{}
  }

  lemma LosersSnoc(hashes: Hashes, history: seq<FileMetadata>, fm: FileMetadata)
    ensures Losers(hashes, history + [fm]) ==
            Losers(hashes, history) +
            if Twin(hashes, history, fm).Some? then multiset{Hashed(hashes, fm)} else multiset{}
  {
    assert (history + [fm])[..|history|] == history;
  }

  function TailCount(lists: Lists, x: FileMetadata): nat {
    if x.sha256 in lists && lists[x.sha256] != [] then multiset(lists[x.sha256][1..])[x] else 0
  }

  /** `f` is the earliest readable file of its bucket with its digest. */
  predicate IsEarliest(hashes: Hashes, history: seq<FileMetadata>, f: FileMetadata) {
    f.sha256 != 0 && Earliest(hashes, history, f.Key(), f.sha256) == Some(f)
  }

  /** A list starts with an earliest file, and some file had a twin with its digest. */
  ghost predicate WellFiled(hashes: Hashes, history: seq<FileMetadata>, k: nat, list: seq<FileMetadata>) {
    list != [] && IsEarliest(hashes, history, list[0])
    && (forall i :: 0 <= i < |list| ==> list[i].sha256 == k)
    && exists x: FileMetadata :: x in Losers(hashes, history) && x.sha256 == k
  }

  ghost predicate Balanced(hashes: Hashes, history: seq<FileMetadata>, lists: Lists, flight: multiset<FileMetadata>) {
    forall x :: TailCount(lists, x) + flight[x] == Losers(hashes, history)[x]
  }

  /** Behind the head of every list stand exactly the files that had a twin, except those
      still in flight; the head is an earliest file. */
  ghost predicate Grouped(hashes: Hashes, history: seq<FileMetadata>, lists: Lists, flight: multiset<FileMetadata>) {
    Balanced(hashes, history, lists, flight)
    && forall k :: k in lists ==> WellFiled(hashes, history, k, lists[k])
  }

  lemma EarliestIsStable(hashes: Hashes, history: seq<FileMetadata>, fm: FileMetadata, f: FileMetadata)
    requires IsEarliest(hashes, history, f)
    ensures IsEarliest(hashes, history + [fm], f)
  {
    EarliestSnoc(hashes, history, fm, f.Key(), f.sha256);
  }

  lemma {:induction false} EarliestIsHashed(hashes: Hashes, history: seq<FileMetadata>, b: Bucket, k: nat)
    requires Earliest(hashes, history, b, k).Some?
    ensures var f := Earliest(hashes, history, b, k).value;
            f.sha256 == k && k != 0 && f.Key() == b && f.path in hashes && hashes[f.path] == k
  {
    if Earliest(hashes, history[..|history| - 1], b, k).Some? {
      EarliestIsHashed(hashes, history[..|history| - 1], b, k);
    }
  }

  /** The answer of an insertion is an earliest file with the digest of the new file. */
  lemma TwinIsEarliest(hashes: Hashes, history: seq<FileMetadata>, fm: FileMetadata)
    requires Twin(hashes, history, fm).Some?
    ensures var twin := Twin(hashes, history, fm).value;
            IsEarliest(hashes, history, twin) && twin.sha256 == hashes[fm.path] && twin.Key() == fm.Key()
  {
    EarliestIsHashed(hashes, history, fm.Key(), hashes[fm.path]);
  }

  lemma WellFiledStays(hashes: Hashes, history: seq<FileMetadata>, k: nat, list: seq<FileMetadata>, fm: FileMetadata)
    requires WellFiled(hashes, history, k, list)
    ensures WellFiled(hashes, history + [fm], k, list)
  {
    LosersSnoc(hashes, history, fm);
    EarliestIsStable(hashes, history, fm, list[0]);
    hide IsEarliest, Losers, Twin;
    var x: FileMetadata :| x in Losers(hashes, history) && x.sha256 == k;
    assert x in Losers(hashes, history + [fm]);
  }

  /** The visited critical section: a file with a twin takes flight. */
  lemma {:induction false} InsertKeepsGrouped(hashes: Hashes, history: seq<FileMetadata>, lists: Lists,
                           flight: multiset<FileMetadata>, fm: FileMetadata)
    requires Grouped(hashes, history, lists, flight)
    ensures Grouped(hashes, history + [fm], lists,
                    flight + if Twin(hashes, history, fm).Some? then multiset{Hashed(hashes, fm)} else multiset{})
  {
    LosersSnoc(hashes, history, fm);
    hide WellFiled, Losers, Twin, Hashed;
    forall k | k in lists
      ensures WellFiled(hashes, history + [fm], k, lists[k])
    {
      WellFiledStays(hashes, history, k, lists[k], fm);
    }
  }

  lemma HeadCounts(lists: Lists, fm: FileMetadata, twin: FileMetadata, x: FileMetadata)
    ensures TailCount(WithHead(lists, fm, twin), x) == TailCount(lists, x)
  {
  }

  lemma TailCounts(lists: Lists, fm: FileMetadata, x: FileMetadata)
    requires fm.sha256 in lists && lists[fm.sha256] != []
    ensures TailCount(WithTail(lists, fm), x) == TailCount(lists, x) + if x == fm then 1 else 0
  {
    if x.sha256 == fm.sha256 {
      var list := lists[fm.sha256];
      assert (list + [fm])[1..] == list[1..] + [fm];
      assert multiset(list[1..] + [fm]) == multiset(list[1..]) + multiset{fm};
    }
  }

  /** The first half of the duplicates critical section. */
  lemma {:induction false} HeadKeepsGrouped(hashes: Hashes, history: seq<FileMetadata>, lists: Lists,
                         flight: multiset<FileMetadata>, fm: FileMetadata, twin: FileMetadata)
    requires Grouped(hashes, history, lists, flight) && fm in flight
    requires IsEarliest(hashes, history, twin) && twin.sha256 == fm.sha256
    ensures Grouped(hashes, history, WithHead(lists, fm, twin), flight)
  {
    forall x {
      HeadCounts(lists, fm, twin, x);
    }
    var lists' := WithHead(lists, fm, twin);
    assert TailCount(lists, fm) + flight[fm] == Losers(hashes, history)[fm];
    assert WellFiled(hashes, history, fm.sha256, [twin]) by {
      assert fm in Losers(hashes, history);
    }
    assert fm.sha256 in lists ==> WellFiled(hashes, history, fm.sha256, lists[fm.sha256]);
  }

  /** The second half: the file lands on its list. */
  lemma {:induction false} TailKeepsGrouped(hashes: Hashes, history: seq<FileMetadata>, lists: Lists,
                         flight: multiset<FileMetadata>, fm: FileMetadata)
    requires Grouped(hashes, history, lists, flight) && fm in flight && fm.sha256 in lists
    ensures Grouped(hashes, history, WithTail(lists, fm), flight - multiset{fm})
  {
    assert WellFiled(hashes, history, fm.sha256, lists[fm.sha256]);
    assert WellFiled(hashes, history, fm.sha256, lists[fm.sha256] + [fm]);
    forall x {
      TailCounts(lists, fm, x);
    }
  }
}
