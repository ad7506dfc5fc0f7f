/** The records that the whole program passes around: file entries read from
    the directory walk, and the metadata kept for every file. */
module Types {

  datatype Option<+T> = None | Some(value: T)

  type Byte = b: nat | b < 256

  /** A canonical absolute path, as its sequence of components. */
  type Path = seq<string>

  /** What the producer queues for one regular file. */
  datatype FileEntry = FileEntry(
    path: Path, device: nat, inode: nat, nlink: nat, flags: bv32, size: nat, level: int)

  /** The four keys that lead from the root of the visited tree to a last-character node. */
  datatype Bucket = Bucket(device: nat, size: nat, first: Byte, last: Byte)

  /** A digest is the number its 32 bytes spell, so that byte-wise comparison
      is `<` and the all-zero digest, which stands for "not computed", is 0. */
  datatype FileMetadata = FileMetadata(
    device: nat, inode: nat, nlink: nat, flags: bv32, cloneId: nat, size: nat,
    path: Path, sha256: nat, first: Byte, last: Byte)
  {
    function Key(): Bucket {
      Bucket(device, size, first, last)
    }
  }
}
