/** The meaning of the visited tree, stated on the history of insertions alone:
    which earlier file, if any, is the twin of a newly inserted one. */
module Twins {
  import opened Types

  /** Digests of the files that can be read; hashing a file outside the map fails. */
  type Hashes = map<Path, nat>

  predicate Hashable(hashes: Hashes, p: Path) {
    p in hashes && hashes[p] != 0
  }

  /** The digest field of a record is empty or right. */
  predicate Honest(hashes: Hashes, fm: FileMetadata) {
    fm.sha256 != 0 ==> Hashable(hashes, fm.path) && hashes[fm.path] == fm.sha256
  }

  function Hashed(hashes: Hashes, fm: FileMetadata): FileMetadata
    requires Hashable(hashes, fm.path)
  {
    fm.(sha256 := hashes[fm.path])
  }

  predicate Matches(hashes: Hashes, fm: FileMetadata, b: Bucket, digest: nat) {
    fm.Key() == b && Hashable(hashes, fm.path) && hashes[fm.path] == digest
  }

  /** The earliest readable file of the history in bucket `b` with this digest. */
  function Earliest(hashes: Hashes, history: seq<FileMetadata>, b: Bucket, digest: nat): Option<FileMetadata> {
    if history == [] then None
    else
      var n := |history| - 1;
      var e := Earliest(hashes, history[..n], b, digest);
      if e.Some? then e
      else if Matches(hashes, history[n], b, digest) then Some(Hashed(hashes, history[n]))
      else None
  }

  /** The answer that inserting `fm` after `history` must give. */
  function Twin(hashes: Hashes, history: seq<FileMetadata>, fm: FileMetadata): Option<FileMetadata> {
    if Hashable(hashes, fm.path) then Earliest(hashes, history, fm.Key(), hashes[fm.path]) else None
  }

  lemma EarliestSnoc(hashes: Hashes, history: seq<FileMetadata>, fm: FileMetadata, b: Bucket, digest: nat)
    ensures Earliest(hashes, history + [fm], b, digest) ==
            var e := Earliest(hashes, history, b, digest);
            if e.Some? then e
            else if Matches(hashes, fm, b, digest) then Some(Hashed(hashes, fm))
            else None
  {
    assert (history + [fm])[..|history|] == history;
  }

  /** `Earliest` is what its name says: present exactly when some file matches, and then
      the record at the smallest matching index, with its digest filled in. */
  lemma {:induction false} EarliestIsFirstMatch(hashes: Hashes, history: seq<FileMetadata>, b: Bucket, digest: nat)
    ensures Earliest(hashes, history, b, digest).None? <==>
            forall i :: 0 <= i < |history| ==> !Matches(hashes, history[i], b, digest)
    ensures Earliest(hashes, history, b, digest).Some? ==>
            exists i :: 0 <= i < |history| && Matches(hashes, history[i], b, digest)
                        && Earliest(hashes, history, b, digest).value == Hashed(hashes, history[i])
                        && forall j :: 0 <= j < i ==> !Matches(hashes, history[j], b, digest)
  {
    if history != [] {
      var n := |history| - 1;
      EarliestIsFirstMatch(hashes, history[..n], b, digest);
      assert forall i :: 0 <= i < n ==> history[..n][i] == history[i];
      if Earliest(hashes, history[..n], b, digest).Some? {
        var i :| 0 <= i < n && Matches(hashes, history[..n][i], b, digest)
                 && Earliest(hashes, history[..n], b, digest).value == Hashed(hashes, history[..n][i])
                 && forall j :: 0 <= j < i ==> !Matches(hashes, history[..n][j], b, digest);
        forall j | 0 <= j < i ensures !Matches(hashes, history[j], b, digest) {
          assert history[..n][j] == history[j];
        }
        assert Matches(hashes, history[i], b, digest);
      } else {
        forall j | 0 <= j < n ensures !Matches(hashes, history[j], b, digest) {
          assert history[..n][j] == history[j];
        }
      }
    }
  }

  // ----- Agreement with plain content comparison -----

  /** Bytes of the readable files. */
  type Disk = map<Path, seq<Byte>>

  /** The record was taken from the file: a non-empty file's size, first and last byte. */
  predicate Describes(disk: Disk, fm: FileMetadata) {
    fm.path in disk
    && var bytes := disk[fm.path];
       |bytes| > 0 && fm.size == |bytes| && fm.first == bytes[0] && fm.last == bytes[|bytes| - 1]
  }

  /** The digest is a function of the bytes and has no collisions on these files. */
  ghost predicate CollisionFree(disk: Disk, hashes: Hashes) {
    hashes.Keys <= disk.Keys
    && forall p, q :: Hashable(hashes, p) && Hashable(hashes, q) ==>
                        (hashes[p] == hashes[q] <==> disk[p] == disk[q])
  }

  /** The tree's pre-filter loses nothing and adds nothing: on one device, sharing a bucket
      and a digest is the same as having equal bytes. */
  lemma PrefilterIsContentEquality(disk: Disk, hashes: Hashes, f: FileMetadata, g: FileMetadata)
    requires CollisionFree(disk, hashes) && Describes(disk, f) && Describes(disk, g)
    requires Hashable(hashes, f.path) && Hashable(hashes, g.path) && f.device == g.device
    ensures Matches(hashes, f, g.Key(), hashes[g.path]) <==> disk[f.path] == disk[g.path]
  {
    assert hashes[f.path] == hashes[g.path] <==> disk[f.path] == disk[g.path];
  }

  /** `f` is a readable file on the device of `fm` with the bytes of `fm`. */
  predicate SameFile(disk: Disk, hashes: Hashes, f: FileMetadata, fm: FileMetadata) {
    f.device == fm.device && Hashable(hashes, f.path)
    && f.path in disk && fm.path in disk && disk[f.path] == disk[fm.path]
  }

  /** Inserting `fm` answers the earliest readable file on the same device with the same
      bytes, exactly as comparing `fm` with every earlier file would. */
  lemma TwinIsEarliestEqualFile(disk: Disk, hashes: Hashes, history: seq<FileMetadata>, fm: FileMetadata)
    requires CollisionFree(disk, hashes) && Describes(disk, fm) && Hashable(hashes, fm.path)
    requires forall i :: 0 <= i < |history| ==> Describes(disk, history[i])
    ensures Twin(hashes, history, fm).None? <==>
            forall i :: 0 <= i < |history| ==> !SameFile(disk, hashes, history[i], fm)
    ensures Twin(hashes, history, fm).Some? ==>
            exists i :: 0 <= i < |history| && SameFile(disk, hashes, history[i], fm)
                        && Twin(hashes, history, fm).value == Hashed(hashes, history[i])
                        && forall j :: 0 <= j < i ==> !SameFile(disk, hashes, history[j], fm)
  {
    var digest := hashes[fm.path];
    EarliestIsFirstMatch(hashes, history, fm.Key(), digest);
    forall i | 0 <= i < |history|
      ensures Matches(hashes, history[i], fm.Key(), digest) <==> SameFile(disk, hashes, history[i], fm)
    {
      if history[i].device == fm.device && Hashable(hashes, history[i].path) {
        PrefilterIsContentEquality(disk, hashes, history[i], fm);
      }
    }
  }
}
