/** A file system as a value, of any number of devices: names lead to inodes or are symbolic links. */
module FileSystem {
  import opened Types
  import opened RelativePaths

  datatype Node = File(ino: nat) | Symlink(target: seq<string>)

  /** `number` is the inode number, which files on two devices may share. `meta` stands for everything
      that copying the metadata of a file copies, except the flags. */
  datatype Inode = Inode(
    device: nat, number: nat, content: seq<Byte>, cloneId: nat, privateSize: nat, flags: bv32, meta: nat)

  datatype Fs = Fs(names: map<Path, Node>, inodes: map<nat, Inode>)

  predicate Regular(fs: Fs, p: Path) {
    p in fs.names && fs.names[p].File? && fs.names[p].ino in fs.inodes
  }

  function At(fs: Fs, p: Path): Inode
    requires Regular(fs, p)
  {
    fs.inodes[fs.names[p].ino]
  }

  /** No name leads to this inode number. */
  predicate Unused(fs: Fs, ino: nat) {
    forall p :: p in fs.names ==> fs.names[p] != File(ino)
  }

  /** The names of an inode; their number is its link count. */
  function Links(fs: Fs, ino: nat): set<Path> {
    set p | p in fs.names && fs.names[p] == File(ino)
  }

  /** The bytes found at a name after following at most `fuel - 1` symbolic links. */
  function Read(fs: Fs, p: Path, fuel: nat): Option<seq<Byte>>
    decreases fuel
  {
    if fuel == 0 || p !in fs.names then None
    else
      match fs.names[p]
      case File(ino) => if ino in fs.inodes then Some(fs.inodes[ino].content) else None
      case Symlink(target) => if p == [] then None else Read(fs, Resolve(Directory(p), target), fuel - 1)
  }

  ghost predicate Reads(fs: Fs, p: Path, bytes: seq<Byte>) {
    exists fuel: nat :: Read(fs, p, fuel) == Some(bytes)
  }

  /** Every name that could be read still reads the same bytes. */
  ghost predicate KeepsBytes(fs: Fs, fs': Fs) {
    forall p, bytes :: Reads(fs, p, bytes) ==> Reads(fs', p, bytes)
  }

  predicate SameInode(fs: Fs, p: Path, q: Path) {
    Regular(fs, p) && Regular(fs, q) && fs.names[p] == fs.names[q]
  }

  predicate SameDevice(fs: Fs, p: Path, q: Path) {
    Regular(fs, p) && Regular(fs, q) && At(fs, p).device == At(fs, q).device
  }

  lemma {:induction false} MoreFuel(fs: Fs, p: Path, fuel: nat, more: nat)
    requires fuel <= more && Read(fs, p, fuel).Some?
    ensures Read(fs, p, more) == Read(fs, p, fuel)
    decreases fuel
  {
    if fs.names[p].Symlink? {
      MoreFuel(fs, Resolve(Directory(p), fs.names[p].target), fuel - 1, more - 1);
    }
  }

  /** A name reads at most one content. */
  lemma ReadsOnce(fs: Fs, p: Path, a: seq<Byte>, b: seq<Byte>)
    requires Reads(fs, p, a) && Reads(fs, p, b)
    ensures a == b
  {
    var j: nat :| Read(fs, p, j) == Some(a);
    var k: nat :| Read(fs, p, k) == Some(b);
    MoreFuel(fs, p, j, if j < k then k else j);
    MoreFuel(fs, p, k, if j < k then k else j);
  }

  /** Every name reads the same bytes as before, or none. */
  ghost predicate ReadsNothingElse(fs: Fs, fs': Fs) {
    forall p, a, b :: Reads(fs, p, a) && Reads(fs', p, b) ==> a == b
  }

  lemma KeepingReadsNothingElse(fs: Fs, fs': Fs)
    requires KeepsBytes(fs, fs') || KeepsBytes(fs', fs)
    ensures ReadsNothingElse(fs, fs')
  {
    hide Reads;
    forall p, a, b | Reads(fs, p, a) && Reads(fs', p, b)
      ensures a == b
    {
      if KeepsBytes(fs, fs') {
        ReadsOnce(fs', p, a, b);
      } else {
        ReadsOnce(fs, p, a, b);
      }
    }
  }

  lemma RegularReads(fs: Fs, p: Path)
    requires Regular(fs, p)
    ensures Reads(fs, p, At(fs, p).content)
  {
    assert Read(fs, p, 1) == Some(At(fs, p).content);
  }

  lemma KeepsBytesChain(a: Fs, b: Fs, c: Fs)
    requires KeepsBytes(a, b) && KeepsBytes(b, c)
    ensures KeepsBytes(a, c)
  {
  }

  // ----- Names that lead somewhere -----

  /** Directories are there only through the names in them, the root always. */
  predicate IsDirectory(fs: Fs, p: Path) {
    p == [] || exists q :: q in fs.names && p < q
  }

  /** Following at most `fuel - 1` symbolic links leads to a file or a directory. */
  predicate Arrives(fs: Fs, p: Path, fuel: nat)
    decreases fuel
  {
    fuel > 0
    && if p !in fs.names then IsDirectory(fs, p)
    else
      match fs.names[p]
      case File(ino) => ino in fs.inodes
      case Symlink(target) => p != [] && Arrives(fs, Resolve(Directory(p), target), fuel - 1)
  }

  /** access(2) finds something at the name, following symbolic links. No chain of links that ends
      is longer than there are names. */
  predicate Exists(fs: Fs, p: Path) {
    Arrives(fs, p, |fs.names| + 1)
  }

  lemma {:induction false} MoreArrives(fs: Fs, p: Path, fuel: nat, more: nat)
    requires fuel <= more && Arrives(fs, p, fuel)
    ensures Arrives(fs, p, more)
    decreases fuel
  {
    if p in fs.names && fs.names[p].Symlink? {
      MoreArrives(fs, Resolve(Directory(p), fs.names[p].target), fuel - 1, more - 1);
    }
  }

  /** The names gone through before the end is reached. */
  function Chain(fs: Fs, p: Path, fuel: nat): set<Path>
    requires Arrives(fs, p, fuel)
    decreases fuel
  {
    if p !in fs.names then {}
    else
      match fs.names[p]
      case File(_) => {p}
      case Symlink(target) => {p} + Chain(fs, Resolve(Directory(p), target), fuel - 1)
  }

  lemma {:induction false} ChainArrives(fs: Fs, p: Path, fuel: nat, q: Path)
    requires Arrives(fs, p, fuel) && q in Chain(fs, p, fuel)
    ensures q in fs.names && Arrives(fs, q, fuel)
    decreases fuel
  {
    if q != p {
      var next := Resolve(Directory(p), fs.names[p].target);
      ChainArrives(fs, next, fuel - 1, q);
      MoreArrives(fs, q, fuel - 1, fuel);
    }
  }

  /** A chain that needs all its fuel goes through as many names, but for a directory at its end. */
  lemma {:induction false} ChainSize(fs: Fs, p: Path, fuel: nat)
    requires Arrives(fs, p, fuel) && !Arrives(fs, p, fuel - 1)
    ensures |Chain(fs, p, fuel)| >= fuel - 1
    decreases fuel
  {
    if p in fs.names && fs.names[p].Symlink? {
      var next := Resolve(Directory(p), fs.names[p].target);
      ChainSize(fs, next, fuel - 1);
      if p in Chain(fs, next, fuel - 1) {
        ChainArrives(fs, next, fuel - 1, p);
      }
    } else {
      assert fuel == 1;
    }
  }

  lemma {:induction false} FewNamesSuffice(fs: Fs, p: Path, fuel: nat)
    requires Arrives(fs, p, fuel)
    ensures Exists(fs, p)
    decreases fuel
  {
    if Arrives(fs, p, fuel - 1) {
      FewNamesSuffice(fs, p, fuel - 1);
    } else {
      ChainSize(fs, p, fuel);
      var chain := Chain(fs, p, fuel);
      forall q | q in chain
        ensures q in fs.names.Keys
      {
        ChainArrives(fs, p, fuel, q);
      }
      SubsetSize(chain, fs.names.Keys);
      MoreArrives(fs, p, fuel, |fs.names| + 1);
    }
  }

  lemma {:induction false} SubsetSize<T>(a: set<T>, b: set<T>)
    requires a <= b
    ensures |a| <= |b|
  {
    assert b == a + (b - a);
  }

  /** A name exists exactly when some number of links leads from it to a file or a directory. */
  lemma ExistsIffArrives(fs: Fs, p: Path)
    ensures Exists(fs, p) <==> exists fuel: nat :: Arrives(fs, p, fuel)
  {
    assert Exists(fs, p) ==> Arrives(fs, p, |fs.names| + 1);
    hide Arrives;
    forall fuel: nat | Arrives(fs, p, fuel)
      ensures Exists(fs, p)
    {
      FewNamesSuffice(fs, p, fuel);
    }
  }

  lemma {:induction false} ReadableArrives(fs: Fs, p: Path, fuel: nat)
    requires Read(fs, p, fuel).Some?
    ensures Arrives(fs, p, fuel)
    decreases fuel
  {
    if fs.names[p].Symlink? {
      ReadableArrives(fs, Resolve(Directory(p), fs.names[p].target), fuel - 1);
    }
  }

  /** Whatever can be read exists. */
  lemma ReadableExists(fs: Fs, p: Path, fuel: nat)
    requires Read(fs, p, fuel).Some?
    ensures Exists(fs, p)
  {
    ReadableArrives(fs, p, fuel);
    FewNamesSuffice(fs, p, fuel);
  }

  /** A name that is missing exists exactly when it is a directory. */
  lemma MissingIsNowhere(fs: Fs, p: Path)
    requires p !in fs.names
    ensures Exists(fs, p) <==> IsDirectory(fs, p)
  {
  }

  lemma RegularExists(fs: Fs, p: Path)
    requires Regular(fs, p)
    ensures Exists(fs, p)
  {
    FewNamesSuffice(fs, p, 1);
  }

  // ----- One name changes -----

  /** Every name of `fs` except `dst` leads to the same, unchanged place. */
  ghost predicate OnlyChanges(fs: Fs, fs': Fs, dst: Path) {
    forall p :: p in fs.names && p != dst ==>
                  p in fs'.names && fs'.names[p] == fs.names[p]
                  && (Regular(fs, p) ==> Regular(fs', p) && At(fs', p) == At(fs, p))
  }

  lemma {:induction false} OthersReadAlike(fs: Fs, fs': Fs, dst: Path, p: Path, fuel: nat)
    requires OnlyChanges(fs, fs', dst) && Read(fs, p, fuel).Some?
    requires Exists(fs, dst) ==> Regular(fs, dst) && Read(fs', dst, 2) == Some(At(fs, dst).content)
    ensures Read(fs', p, fuel + 1) == Read(fs, p, fuel)
    decreases fuel
  {
    if p == dst {
      ReadableExists(fs, dst, fuel);
      MoreFuel(fs', dst, 2, fuel + 1);
    } else if fs.names[p].Symlink? {
      OthersReadAlike(fs, fs', dst, Resolve(Directory(p), fs.names[p].target), fuel - 1);
    } else {
      assert Regular(fs, p) && Regular(fs', p);
    }
  }

  /** A file gone, or found again through one link, makes no name read what it did not. */
  lemma LessReadsAlike(fs: Fs, s: Fs, dst: Path)
    requires Regular(fs, dst) && s.inodes == fs.inodes && s.names - {dst} == fs.names - {dst}
    requires dst in s.names ==> Read(s, dst, 2) == Some(At(fs, dst).content)
    ensures KeepsBytes(s, fs)
  {
    forall p, bytes | Reads(s, p, bytes)
      ensures Reads(fs, p, bytes)
    {
      var fuel: nat :| Read(s, p, fuel) == Some(bytes);
      LessReadsAlikeAt(fs, s, dst, p, fuel);
    }
  }

  lemma {:induction false} LessReadsAlikeAt(fs: Fs, s: Fs, dst: Path, p: Path, fuel: nat)
    requires Regular(fs, dst) && s.inodes == fs.inodes && s.names - {dst} == fs.names - {dst}
    requires dst in s.names ==> Read(s, dst, 2) == Some(At(fs, dst).content)
    requires Read(s, p, fuel).Some?
    ensures Read(fs, p, fuel) == Read(s, p, fuel)
    decreases fuel
  {
    if p == dst {
      MoreFuel(s, dst, 2, fuel + 1);
      MoreFuel(s, dst, fuel, fuel + 1);
    } else {
      assert p in s.names - {dst};
      assert p in fs.names && fs.names[p] == s.names[p];
      if s.names[p].Symlink? {
        LessReadsAlikeAt(fs, s, dst, Resolve(Directory(p), s.names[p].target), fuel - 1);
      }
    }
  }

  /** Changing one name that is regular, so that it still reads the same bytes directly or through
      one link, or one that leads nowhere, changes what no name reads. */
  lemma ChangeKeepsBytes(fs: Fs, fs': Fs, dst: Path)
    requires OnlyChanges(fs, fs', dst)
    requires Exists(fs, dst) ==> Regular(fs, dst) && Read(fs', dst, 2) == Some(At(fs, dst).content)
    ensures KeepsBytes(fs, fs')
  {
    hide Exists;
    forall p, bytes | Reads(fs, p, bytes)
      ensures Reads(fs', p, bytes)
    {
      var fuel: nat :| Read(fs, p, fuel) == Some(bytes);
      OthersReadAlike(fs, fs', dst, p, fuel);
    }
  }
}
