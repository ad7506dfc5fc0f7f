/** The three ways of clone.c to replace a file, as runs of system calls of which any may fail. */
module Replacing {
  import opened Types
  import opened RelativePaths
  import opened PathChars
  import opened FileSystem

  const ENOENT := 2
  const EEXIST := 17
  const ENAMETOOLONG := 63
  const COPYFILE_DATA := 8

  // ----- Staging names -----

  /** Beside the file, with `.~.` before its name. */
  function Staging(p: Path): Path
    requires p != []
  {
    Directory(p) + [".~." + p[|p| - 1]]
  }

  /** The text that `tmp_name` puts together from dirname and basename. */
  function StagingText(p: Path): string
    requires p != []
  {
    (if |p| == 1 then "/" else Rendered(Directory(p))) + "/.~." + p[|p| - 1]
  }

  lemma {:induction false} JoinedSnoc(p: Path, c: string)
    requires p != []
    ensures Joined(p + [c]) == Joined(p) + "/" + c
  {
    if |p| > 1 {
      assert (p + [c])[1..] == p[1..] + [c];
      JoinedSnoc(p[1..], c);
    }
  }

  /** That text names the staging path; in the root directory it has a second slash. */
  lemma StagingTextNamesStaging(p: Path)
    requires p != []
    ensures StagingText(p) == (if |p| == 1 then "/" else "") + Rendered(Staging(p))
  {
    if |p| > 1 {
      JoinedSnoc(Directory(p), ".~." + p[|p| - 1]);
    } else {
      assert Staging(p) == [".~." + p[0]];
    }
  }

  /** The staging path is beside the file, so that renaming it stays on one device, and no two files
      share one. */
  lemma StagingIsBeside(p: Path)
    requires p != []
    ensures Staging(p) != [] && Directory(Staging(p)) == Directory(p)
    ensures Staging(p)[|Staging(p)| - 1] == ".~." + p[|p| - 1]
    ensures forall q :: q != [] && Staging(q) == Staging(p) ==> q == p
  {
    forall q | q != [] && Staging(q) == Staging(p)
      ensures q == p
    {
      StagingIsInjective(p, q);
    }
  }

  lemma StagingIsInjective(p: Path, q: Path)
    requires p != [] && q != [] && Staging(p) == Staging(q)
    ensures p == q
  {
    var c, d := p[|p| - 1], q[|q| - 1];
    assert Directory(Staging(p)) == Directory(p) && Directory(Staging(q)) == Directory(q);
    assert ".~." + c == ".~." + d;
    assert c == (".~." + c)[3..] == (".~." + d)[3..] == d;
    assert p == Directory(p) + [c] && q == Directory(q) + [d];
  }

  // ----- System calls -----

  function Unlink(fs: Fs, p: Path): Fs {
    fs.(names := fs.names - {p})
  }

  function Rename(fs: Fs, p: Path, q: Path): Fs
    requires p in fs.names
  {
    fs.(names := (fs.names - {p})[q := fs.names[p]])
  }

  function Create(fs: Fs, p: Path, ino: nat, inode: Inode): Fs {
    Fs(fs.names[p := File(ino)], fs.inodes[ino := inode])
  }

  /** How the calls of one `replace_with_clone` go. `ino` is the inode that the file system picks,
      and `number` its number; `takes` says whether clonefile(2) shares the clone id, as it should;
      `debris` is what a failing clonefile(2) or copyfile(3) leaves behind. */
  datatype CloneScript = CloneScript(
    dirOk: bool, cloneOk: bool, ino: nat, number: nat, takes: bool, otherId: nat, privateSize: nat,
    leaves: bool, debris: Inode,
    firstWritable: bool, check: nat, metaOk: bool, secondWritable: bool, renameOk: bool, unlinkOk: bool)

  /** The states that a replacement goes through, the first being the one it starts from. */
  datatype Replacement = Replacement(states: seq<Fs>, code: int)

  function Last(r: Replacement): Fs
    requires r.states != []
  {
    r.states[|r.states| - 1]
  }

  /** Remove the staging file and give up. */
  function GiveUp(states: seq<Fs>, stage: Path, sc: CloneScript, code: int): (r: Replacement)
    requires states != []
    ensures r.states != [] && r.states[0] == states[0] && r.code == code
  {
    var fs := states[|states| - 1];
    Replacement(states + [if sc.unlinkOk then Unlink(fs, stage) else fs], code)
  }

  function Cloned(fs: Fs, src: Path, stage: Path, sc: CloneScript): (s': Fs)
    requires Regular(fs, src)
    ensures Regular(s', stage)
  {
    var s := At(fs, src);
    Create(fs, stage, sc.ino,
           s.(number := sc.number, cloneId := if sc.takes then s.cloneId else sc.otherId,
              privateSize := sc.privateSize))
  }

  function Described(fs: Fs, dst: Path, stage: Path): (s': Fs)
    requires Regular(fs, dst) && Regular(fs, stage)
    ensures Regular(s', stage)
  {
    var inode := At(fs, stage).(flags := At(fs, dst).flags, meta := At(fs, dst).meta);
    fs.(inodes := fs.inodes[fs.names[stage].ino := inode])
  }

  function Spoiled(fs: Fs, stage: Path, sc: CloneScript): Fs
    requires Regular(fs, stage)
  {
    fs.(inodes := fs.inodes[fs.names[stage].ino := sc.debris])
  }

  /** find_zero_file: the staging file is not writable, gone, or empty. */
  predicate Zero(fs: Fs, p: Path, writable: bool) {
    !writable || !Regular(fs, p) || At(fs, p).content == []
  }

  /** The calls after the metadata has been copied. */
  function RenameRun(fs: Fs, cloned: Fs, described: Fs, dst: Path, stage: Path, sc: CloneScript): (r: Replacement)
    requires Regular(described, stage)
    ensures |r.states| > 1 && r.states[0] == fs && r.states[1] == cloned
  {
    if Zero(described, stage, sc.secondWritable) then GiveUp([fs, cloned, described], stage, sc, ENOENT)
    else if !sc.renameOk then GiveUp([fs, cloned, described], stage, sc, -1)
    else Replacement([fs, cloned, described, Rename(described, stage, dst)], 0)
  }

  /** The calls after a successful clonefile(2). */
  function FinishRun(fs: Fs, cloned: Fs, dst: Path, stage: Path, sc: CloneScript): (r: Replacement)
    requires Regular(cloned, stage)
    ensures |r.states| > 1 && r.states[0] == fs && r.states[1] == cloned
  {
    if Zero(cloned, stage, sc.firstWritable) then GiveUp([fs, cloned], stage, sc, ENOENT)
    else if (sc.check / COPYFILE_DATA) % 2 == 1 then GiveUp([fs, cloned], stage, sc, sc.check)
    else if !(sc.metaOk && Regular(cloned, dst)) then
      GiveUp([fs, cloned, Spoiled(cloned, stage, sc)], stage, sc, -1)
    else RenameRun(fs, cloned, Described(cloned, dst, stage), dst, stage, sc)
  }

  /** clonefile(2) replaces nothing, and like link(2) it does not work between devices. The
      staging name is on the device of `dst`, which it is beside. */
  predicate CanClone(fs: Fs, src: Path, dst: Path, stage: Path, sc: CloneScript) {
    sc.cloneOk && stage !in fs.names && Regular(fs, src) && (Regular(fs, dst) ==> SameDevice(fs, src, dst))
    && Unused(fs, sc.ino)
  }

  /** A failing clonefile(2) may leave something where there was nothing. It does not follow a
      symbolic link at the staging name, but refuses to replace it. */
  function Littered(fs: Fs, stage: Path, sc: CloneScript): Fs {
    if sc.leaves && stage !in fs.names && Unused(fs, sc.ino) then Create(fs, stage, sc.ino, sc.debris) else fs
  }

  /** `replace_with_clone`, call by call. access(2) follows links, so a staging name is only taken
      for used when it leads somewhere. */
  function CloneRun(fs: Fs, src: Path, dst: Path, preserveParentMtime: bool, sc: CloneScript): (r: Replacement)
    requires dst != []
    ensures r.states != [] && r.states[0] == fs
  {
    var stage := Staging(dst);
    if preserveParentMtime && !sc.dirOk then Replacement([fs], -1)
    else if |StagingText(dst)| >= PATH_MAX then Replacement([fs], ENAMETOOLONG)
    else if Exists(fs, stage) then Replacement([fs], EEXIST)
    else if !CanClone(fs, src, dst, stage, sc) then
      GiveUp([fs, Littered(fs, stage, sc)], stage, sc, -1)
    else FinishRun(fs, Cloned(fs, src, stage, sc), dst, stage, sc)
  }

  /** Every name but the staging name is as before. */
  ghost predicate Untouched(fs: Fs, s: Fs, stage: Path) {
    OnlyChanges(fs, s, stage) && s.names.Keys <= fs.names.Keys + {stage}
  }

  /** `dst` alone has changed: it has the bytes of `src` and its own old flags and metadata, in
      an inode on the same device that no other name shares. */
  ghost predicate Replaced(fs: Fs, s: Fs, src: Path, dst: Path) {
    Regular(fs, src) && Regular(fs, dst) && Regular(s, dst)
    && OnlyChanges(fs, s, dst)
    && s.names.Keys == fs.names.Keys
    && At(s, dst).content == At(fs, src).content
    && At(s, dst).flags == At(fs, dst).flags && At(s, dst).meta == At(fs, dst).meta
    && At(s, dst).device == At(fs, dst).device
    && Links(s, s.names[dst].ino) == {dst}
  }

  /** The clone id and the private size of a clone are what the script says. */
  predicate AsScripted(fs: Fs, src: Path, sc: CloneScript, inode: Inode)
    requires Regular(fs, src)
  {
    inode.cloneId == (if sc.takes then At(fs, src).cloneId else sc.otherId) && inode.privateSize == sc.privateSize
  }

  lemma StagingIsAnother(p: Path)
    requires p != []
    ensures Staging(p) != p && Staging(p) != []
  {
    assert |Staging(p)[|p| - 1]| == 3 + |p[|p| - 1]|;
  }

  lemma CreateTouchesNothing(fs: Fs, stage: Path, ino: nat, inode: Inode)
    requires Unused(fs, ino)
    ensures Untouched(fs, Create(fs, stage, ino, inode), stage)
  {
  }

  /** A new inode, reached by the staging name alone, may change without touching another name. */
  lemma StagedInodeIsPrivate(fs: Fs, s: Fs, stage: Path, ino: nat, inode: Inode)
    requires Untouched(fs, s, stage) && Unused(fs, ino) && stage in s.names && s.names[stage] == File(ino)
    ensures Untouched(fs, s.(inodes := s.inodes[ino := inode]), stage)
  {
  }

  lemma UnlinkTouchesNothing(fs: Fs, s: Fs, stage: Path)
    requires Untouched(fs, s, stage)
    ensures Untouched(fs, Unlink(s, stage), stage) && Unlink(s, stage).names == fs.names - {stage}
  {
  }

  lemma RenameReplaces(fs: Fs, s: Fs, src: Path, dst: Path, stage: Path)
    requires Untouched(fs, s, stage) && Regular(fs, src) && Regular(fs, dst) && Regular(s, stage)
    requires stage !in fs.names && Unused(fs, s.names[stage].ino) && At(s, stage).content == At(fs, src).content
    requires At(s, stage).flags == At(fs, dst).flags && At(s, stage).meta == At(fs, dst).meta
    requires At(s, stage).device == At(fs, dst).device
    ensures var s' := Rename(s, stage, dst);
            Replaced(fs, s', src, dst) && At(s', dst) == At(s, stage)
  {
    var s' := Rename(s, stage, dst);
    var ino := s.names[stage].ino;
    forall p
      ensures p in Links(s', ino) <==> p == dst
    {
    }
    assert Links(s', ino) == {dst};
    assert s'.names.Keys == fs.names.Keys;
  }

  /** Only the staging name ever differs, and it led nowhere at the start. */
  ghost predicate AllUntouched(fs: Fs, states: seq<Fs>, stage: Path) {
    !Exists(fs, stage) && forall i :: 0 <= i < |states| ==> Untouched(fs, states[i], stage)
  }

  lemma GiveUpIsSafe(fs: Fs, states: seq<Fs>, stage: Path, sc: CloneScript, code: int)
    requires states != [] && AllUntouched(fs, states, stage)
    ensures var r := GiveUp(states, stage, sc, code);
            AllUntouched(fs, r.states, stage) && (sc.unlinkOk ==> Last(r).names == fs.names - {stage})
  {
    UnlinkTouchesNothing(fs, states[|states| - 1], stage);
  }

  /** The promise of a run: it succeeds and ends with `dst` replaced, or it fails and nothing but
      the staging name, if its removal failed, is different; and in between nothing but the
      staging name ever is. */
  ghost predicate SafeRun(fs: Fs, src: Path, dst: Path, stage: Path, sc: CloneScript, r: Replacement) {
    r.states != []
    && if r.code == 0 then
      |r.states| > 1 && AllUntouched(fs, r.states[..|r.states| - 1], stage) && Replaced(fs, Last(r), src, dst)
      && AsScripted(fs, src, sc, At(Last(r), dst))
    else
      r.states == [fs] || (AllUntouched(fs, r.states, stage) && (sc.unlinkOk ==> Last(r).names == fs.names - {stage}))
  }

  lemma GaveUp(fs: Fs, src: Path, dst: Path, stage: Path, sc: CloneScript, states: seq<Fs>, code: int)
    requires states != [] && AllUntouched(fs, states, stage) && code != 0
    ensures SafeRun(fs, src, dst, stage, sc, GiveUp(states, stage, sc, code))
  {
    hide AllUntouched, GiveUp;
    GiveUpIsSafe(fs, states, stage, sc, code);
  }

  lemma RenamedIsSafe(fs: Fs, src: Path, dst: Path, stage: Path, sc: CloneScript, before: seq<Fs>, renamed: Fs)
    requires before != [] && AllUntouched(fs, before, stage) && Replaced(fs, renamed, src, dst)
    requires AsScripted(fs, src, sc, At(renamed, dst))
    ensures SafeRun(fs, src, dst, stage, sc, Replacement(before + [renamed], 0))
  {
    hide AllUntouched, OnlyChanges, Links;
    assert (before + [renamed])[..|before|] == before;
  }

  lemma RenameRunIsSafe(fs: Fs, src: Path, dst: Path, stage: Path, sc: CloneScript, cloned: Fs, described: Fs)
    requires Regular(described, stage) && AllUntouched(fs, [fs, cloned, described], stage)
    requires var renamed := Rename(described, stage, dst);
             Replaced(fs, renamed, src, dst)
             && AsScripted(fs, src, sc, At(renamed, dst))
    ensures SafeRun(fs, src, dst, stage, sc, RenameRun(fs, cloned, described, dst, stage, sc))
  {
    hide AllUntouched, GiveUp, Rename, SafeRun, Zero;
    GaveUp(fs, src, dst, stage, sc, [fs, cloned, described], ENOENT);
    GaveUp(fs, src, dst, stage, sc, [fs, cloned, described], -1);
    var renamed := Rename(described, stage, dst);
    RenamedIsSafe(fs, src, dst, stage, sc, [fs, cloned, described], renamed);
    assert [fs, cloned, described] + [renamed] == [fs, cloned, described, renamed];
  }

  lemma FinishIsSafe(fs: Fs, src: Path, dst: Path, stage: Path, sc: CloneScript)
    requires CanClone(fs, src, dst, stage, sc) && !Exists(fs, stage) && dst != stage
    ensures SafeRun(fs, src, dst, stage, sc, FinishRun(fs, Cloned(fs, src, stage, sc), dst, stage, sc))
  {
    CloneIsStaged(fs, src, dst, stage, sc);
    assert sc.check / COPYFILE_DATA % 2 == 1 ==> sc.check != 0;
    hide AllUntouched, Unused, Zero, GiveUp, Cloned, Described, Spoiled, SafeRun, RenameRun, Rename, OnlyChanges, Links;
    var cloned := Cloned(fs, src, stage, sc);
    GaveUp(fs, src, dst, stage, sc, [fs, cloned], ENOENT);
    if sc.check != 0 {
      GaveUp(fs, src, dst, stage, sc, [fs, cloned], sc.check);
    }
    GaveUp(fs, src, dst, stage, sc, [fs, cloned, Spoiled(cloned, stage, sc)], -1);
    if Regular(cloned, dst) {
      RenameRunIsSafe(fs, src, dst, stage, sc, cloned, Described(cloned, dst, stage));
    }
  }

  lemma FailedCloneIsSafe(fs: Fs, src: Path, dst: Path, stage: Path, sc: CloneScript)
    requires !Exists(fs, stage)
    ensures SafeRun(fs, src, dst, stage, sc, GiveUp([fs, Littered(fs, stage, sc)], stage, sc, -1))
  {
    hide Exists, SafeRun;
    if sc.leaves && Unused(fs, sc.ino) {
      CreateTouchesNothing(fs, stage, sc.ino, sc.debris);
    }
    GaveUp(fs, src, dst, stage, sc, [fs, Littered(fs, stage, sc)], -1);
  }

  lemma UnstartedIsSafe(fs: Fs, src: Path, dst: Path, stage: Path, sc: CloneScript, code: int)
    requires code != 0
    ensures SafeRun(fs, src, dst, stage, sc, Replacement([fs], code))
  {
    hide AllUntouched;
  }

  /** What every run of `replace_with_clone` guarantees, whichever call fails: at every step each
      name except the staging name is as before, and only a run that succeeds ends with `dst`
      replaced. A run that fails leaves `dst` alone, and leaves something at the staging name only
      when it could not be unlinked. A staging name that led somewhere is never touched. */
  lemma {:induction false} StagedSafety(fs: Fs, src: Path, dst: Path, preserve: bool, sc: CloneScript)
    requires dst != []
    ensures SafeRun(fs, src, dst, Staging(dst), sc, CloneRun(fs, src, dst, preserve, sc))
  {
    var stage := Staging(dst);
    StagingIsAnother(dst);
    var r := CloneRun(fs, src, dst, preserve, sc);
    assert r == Replacement([fs], -1) || r == Replacement([fs], ENAMETOOLONG) || r == Replacement([fs], EEXIST)
           || (!Exists(fs, stage)
               && if CanClone(fs, src, dst, stage, sc) then
                 r == FinishRun(fs, Cloned(fs, src, stage, sc), dst, stage, sc)
               else r == GiveUp([fs, Littered(fs, stage, sc)], stage, sc, -1)) by {
      hide CanClone, Cloned, Staging, StagingText, GiveUp, FinishRun, Littered, Exists;
    }
    hide *;
    UnstartedIsSafe(fs, src, dst, stage, sc, -1);
    UnstartedIsSafe(fs, src, dst, stage, sc, ENAMETOOLONG);
    UnstartedIsSafe(fs, src, dst, stage, sc, EEXIST);
    if !Exists(fs, stage) {
      FailedCloneIsSafe(fs, src, dst, stage, sc);
      if CanClone(fs, src, dst, stage, sc) {
        FinishIsSafe(fs, src, dst, stage, sc);
      }
    }
  }

  /** The states of a run whose clonefile(2) worked. */
  lemma CloneIsStaged(fs: Fs, src: Path, dst: Path, stage: Path, sc: CloneScript)
    requires CanClone(fs, src, dst, stage, sc) && !Exists(fs, stage) && dst != stage
    ensures var cloned := Cloned(fs, src, stage, sc);
            AllUntouched(fs, [fs, cloned], stage) && AllUntouched(fs, [fs, cloned, Spoiled(cloned, stage, sc)], stage)
    ensures var cloned := Cloned(fs, src, stage, sc);
            Regular(cloned, dst) ==>
              var described := Described(cloned, dst, stage);
              AllUntouched(fs, [fs, cloned, described], stage)
              && var renamed := Rename(described, stage, dst);
                 Replaced(fs, renamed, src, dst)
                 && AsScripted(fs, src, sc, At(renamed, dst))
  {
    var cloned := Cloned(fs, src, stage, sc);
    hide Exists;
    CreateTouchesNothing(fs, stage, sc.ino, At(cloned, stage));
    StagedInodeIsPrivate(fs, cloned, stage, sc.ino, sc.debris);
    if Regular(cloned, dst) {
      var described := Described(cloned, dst, stage);
      assert Regular(fs, dst) && At(cloned, dst) == At(fs, dst);
      StagedInodeIsPrivate(fs, cloned, stage, sc.ino, At(described, stage));
      RenameReplaces(fs, described, src, dst, stage);
    }
  }

  lemma FinishSucceeds(fs: Fs, src: Path, dst: Path, stage: Path, sc: CloneScript)
    requires CanClone(fs, src, dst, stage, sc) && dst != stage
    ensures FinishRun(fs, Cloned(fs, src, stage, sc), dst, stage, sc).code == 0 <==>
            At(fs, src).content != [] && sc.firstWritable && (sc.check / COPYFILE_DATA) % 2 == 0
            && sc.metaOk && Regular(fs, dst) && sc.secondWritable && sc.renameOk
  {
    var cloned := Cloned(fs, src, stage, sc);
    assert At(cloned, stage).content == At(fs, src).content;
    assert Regular(cloned, dst) <==> Regular(fs, dst);
    assert Regular(cloned, dst) ==>
             At(Described(cloned, dst, stage), stage).content == At(cloned, stage).content;
    hide Unused, Create, Described, Cloned, Rename, Spoiled;
  }

  /** Nothing stands in the way of the replacement, and every call works. */
  predicate CloneWorks(fs: Fs, src: Path, dst: Path, preserve: bool, sc: CloneScript)
    requires dst != []
  {
    (preserve ==> sc.dirOk) && |StagingText(dst)| < PATH_MAX
    && Staging(dst) !in fs.names && !IsDirectory(fs, Staging(dst))
    && sc.cloneOk && SameDevice(fs, src, dst) && Unused(fs, sc.ino) && At(fs, src).content != []
    && sc.firstWritable && (sc.check / COPYFILE_DATA) % 2 == 0
    && sc.metaOk && sc.secondWritable && sc.renameOk
  }

  /** Exactly when a replacement succeeds. */
  lemma {:induction false} CloneSucceeds(fs: Fs, src: Path, dst: Path, preserve: bool, sc: CloneScript)
    requires dst != []
    ensures CloneRun(fs, src, dst, preserve, sc).code == 0 <==> CloneWorks(fs, src, dst, preserve, sc)
  {
    StagingIsAnother(dst);
    hide Unused, Staging, StagingText, Exists, IsDirectory, FinishRun, Cloned, Littered, Regular;
    if Staging(dst) !in fs.names {
      MissingIsNowhere(fs, Staging(dst));
      if CanClone(fs, src, dst, Staging(dst), sc) {
        FinishSucceeds(fs, src, dst, Staging(dst), sc);
      }
    }
  }

  // ----- A staging name that is there already -----

  /** What becomes of it: `tmp_name` takes it for free exactly when it leads nowhere; clonefile(2)
      then refuses, and the code unlinks it. */
  lemma {:induction false} ExistingStaging(fs: Fs, src: Path, dst: Path, preserve: bool, sc: CloneScript)
    requires dst != [] && Staging(dst) in fs.names
    ensures var r := CloneRun(fs, src, dst, preserve, sc);
            r.code != 0
            && Last(r) == if StagingSpared(fs, dst, preserve, sc) then fs else Unlink(fs, Staging(dst))
    ensures Last(CloneRun(fs, src, dst, preserve, sc)) == fs <==> StagingSpared(fs, dst, preserve, sc)
  {
    hide Staging, StagingText, Exists;
  }

  /** The code gives up before, the name leads somewhere, or it cannot be unlinked. */
  predicate StagingSpared(fs: Fs, dst: Path, preserve: bool, sc: CloneScript)
    requires dst != []
  {
    (preserve && !sc.dirOk) || |StagingText(dst)| >= PATH_MAX || Exists(fs, Staging(dst)) || !sc.unlinkOk
  }

  /** A symbolic link at the staging name that leads neither to a name nor to a directory is lost,
      whatever else works. */
  lemma DanglingStagingIsLost(fs: Fs, src: Path, dst: Path, target: seq<string>, preserve: bool, sc: CloneScript)
    requires dst != [] && Staging(dst) in fs.names && fs.names[Staging(dst)] == Symlink(target)
    requires var next := Resolve(Directory(Staging(dst)), target); next !in fs.names && !IsDirectory(fs, next)
    requires (preserve ==> sc.dirOk) && |StagingText(dst)| < PATH_MAX && sc.unlinkOk
    ensures Staging(dst) !in Last(CloneRun(fs, src, dst, preserve, sc)).names
  {
    var next := Resolve(Directory(Staging(dst)), target);
    assert !Arrives(fs, next, |fs.names|);
    assert !Exists(fs, Staging(dst));
    ExistingStaging(fs, src, dst, preserve, sc);
  }

  // ----- Bytes -----

  lemma UntouchedKeepsBytes(fs: Fs, s: Fs, stage: Path)
    requires Untouched(fs, s, stage) && !Exists(fs, stage)
    ensures KeepsBytes(fs, s)
  {
    ChangeKeepsBytes(fs, s, stage);
  }

  lemma ReplacedKeepsBytes(fs: Fs, s: Fs, src: Path, dst: Path)
    requires Replaced(fs, s, src, dst) && At(fs, src).content == At(fs, dst).content
    ensures KeepsBytes(fs, s)
  {
    assert Read(s, dst, 2) == Some(At(s, dst).content);
    ChangeKeepsBytes(fs, s, dst);
  }

  /** Replacing a file by a clone of one with the same bytes, under any failure, changes what no
      name reads, at the end and at every step. */
  lemma CloneKeepsBytes(fs: Fs, src: Path, dst: Path, preserve: bool, sc: CloneScript, i: nat)
    requires dst != [] && (Regular(fs, src) && Regular(fs, dst) ==> At(fs, src).content == At(fs, dst).content)
    requires i < |CloneRun(fs, src, dst, preserve, sc).states|
    ensures KeepsBytes(fs, CloneRun(fs, src, dst, preserve, sc).states[i])
  {
    StagedSafety(fs, src, dst, preserve, sc);
    var r, stage := CloneRun(fs, src, dst, preserve, sc), Staging(dst);
    hide CloneRun, Staging, Untouched, KeepsBytes, Exists;
    if r.code == 0 {
      if i < |r.states| - 1 {
        var before := r.states[..|r.states| - 1];
        assert Untouched(fs, before[i], stage);
        UntouchedKeepsBytes(fs, r.states[i], stage);
      } else {
        ReplacedKeepsBytes(fs, Last(r), src, dst);
      }
    } else if r.states == [fs] {
      KeepsBytesSelf(fs);
    } else {
      assert Untouched(fs, r.states[i], stage);
      UntouchedKeepsBytes(fs, r.states[i], stage);
    }
  }

  lemma KeepsBytesSelf(fs: Fs)
    ensures KeepsBytes(fs, fs)
  {
  }

  // ----- Hard links -----

  /** `replace_with_link`: unlink first, then link, which link(2) refuses between devices. The
      directory of `dst` is on the device of the file that was there. */
  function LinkRun(fs: Fs, src: Path, dst: Path, unlinkOk: bool, linkOk: bool): (r: Replacement)
    ensures r.states != [] && r.states[0] == fs
  {
    if !(unlinkOk && dst in fs.names) then Replacement([fs], 1)
    else
      var gone := Unlink(fs, dst);
      if linkOk && Regular(gone, src) && (Regular(fs, dst) ==> SameDevice(fs, src, dst)) then
        Replacement([fs, gone, gone.(names := gone.names[dst := gone.names[src]])], 0)
      else Replacement([fs, gone], -1)
  }

  lemma {:induction false} LinkReplaces(fs: Fs, src: Path, dst: Path)
    requires SameDevice(fs, src, dst) && src != dst
    ensures var s := Last(LinkRun(fs, src, dst, true, true));
            LinkRun(fs, src, dst, true, true).code == 0
            && OnlyChanges(fs, s, dst) && s.names.Keys == fs.names.Keys && SameInode(s, src, dst)
            && Regular(s, dst) && At(s, dst) == At(fs, src)
  {
    var s := Last(LinkRun(fs, src, dst, true, true));
    assert s.names.Keys == fs.names.Keys;
  }

  /** The result is zero exactly when the file has become a hard link, that is, when both calls work
      and the files are on one device; it is that of unlink(2) or of link(2) otherwise. */
  lemma LinkSucceeds(fs: Fs, src: Path, dst: Path, unlinkOk: bool, linkOk: bool)
    requires Regular(fs, src) && Regular(fs, dst) && src != dst
    ensures var r := LinkRun(fs, src, dst, unlinkOk, linkOk);
            (r.code == 0 <==> unlinkOk && linkOk && SameDevice(fs, src, dst))
            && (r.code == 0 <==> unlinkOk && SameInode(Last(r), src, dst))
            && (r.code == 1 <==> !unlinkOk) && (r.code != 0 ==> r.code == 1 || dst !in Last(r).names)
  {
  }

  /** Replacing a file by a hard link to one with the same bytes keeps what every name reads,
      unless the file was unlinked and the link then failed, as it must between devices: in that
      case, and only then, it is lost. */
  lemma LinkKeepsBytesIff(fs: Fs, src: Path, dst: Path, unlinkOk: bool, linkOk: bool)
    requires Regular(fs, src) && Regular(fs, dst) && src != dst && At(fs, src).content == At(fs, dst).content
    ensures KeepsBytes(fs, Last(LinkRun(fs, src, dst, unlinkOk, linkOk))) <==>
            !(unlinkOk && !(linkOk && SameDevice(fs, src, dst)))
  {
    var s := Last(LinkRun(fs, src, dst, unlinkOk, linkOk));
    if unlinkOk && linkOk && SameDevice(fs, src, dst) {
      LinkReplaces(fs, src, dst);
      assert Read(s, dst, 2) == Some(At(s, dst).content);
      ChangeKeepsBytes(fs, s, dst);
    } else if unlinkOk {
      GoneIsLost(fs, s, dst);
    } else {
      KeepsBytesSelf(fs);
    }
  }

  lemma GoneIsLost(fs: Fs, s: Fs, dst: Path)
    requires Regular(fs, dst) && dst !in s.names
    ensures !KeepsBytes(fs, s)
  {
    RegularReads(fs, dst);
    assert forall bytes, fuel: nat :: Read(s, dst, fuel) != Some(bytes);
    assert !Reads(s, dst, At(fs, dst).content);
  }

  // ----- Symbolic links -----

  /** `replace_with_symlink`: the relative path is computed first, since it needs both files to
      be there; when that fails its NULL result makes symlink(2) fail after the unlink. A text that
      does not fit overruns the buffer; here no link is then made. */
  function SymlinkRun(fs: Fs, src: Path, dst: Path, realOk: bool, unlinkOk: bool, symlinkOk: bool): (r: Replacement)
    requires src != [] && dst != []
    ensures r.states != [] && r.states[0] == fs
  {
    if !(unlinkOk && dst in fs.names) then Replacement([fs], 1)
    else
      var gone := Unlink(fs, dst);
      if realOk && Fits(dst, src) && symlinkOk then
        Replacement([fs, gone, gone.(names := gone.names[dst := Symlink(Relative(dst, src))])], 0)
      else Replacement([fs, gone], -1)
  }

  /** The link leads from the directory of `dst` to `src`. */
  lemma SymlinkReplaces(fs: Fs, src: Path, dst: Path)
    requires IsFilePath(src) && IsFilePath(dst) && Regular(fs, src) && Regular(fs, dst) && src != dst
    requires Fits(dst, src)
    ensures var s := Last(SymlinkRun(fs, src, dst, true, true, true));
            SymlinkRun(fs, src, dst, true, true, true).code == 0
            && OnlyChanges(fs, s, dst) && s.names.Keys == fs.names.Keys
            && s.names[dst] == Symlink(Relative(dst, src))
            && Read(s, dst, 2) == Some(At(fs, src).content)
  {
    var s := Last(SymlinkRun(fs, src, dst, true, true, true));
    RelativeResolves(dst, src);
    assert s.names.Keys == fs.names.Keys;
    assert Read(s, src, 1) == Some(At(fs, src).content);
  }

  /** The result is zero exactly when the file has become a symbolic link to the source. */
  lemma SymlinkSucceeds(fs: Fs, src: Path, dst: Path, realOk: bool, unlinkOk: bool, symlinkOk: bool)
    requires IsFilePath(src) && IsFilePath(dst) && Regular(fs, src) && Regular(fs, dst) && src != dst
    ensures var r := SymlinkRun(fs, src, dst, realOk, unlinkOk, symlinkOk);
            (r.code == 0 <==> realOk && Fits(dst, src) && unlinkOk && symlinkOk)
            && (r.code == 0 <==> dst in Last(r).names && Last(r).names[dst] == Symlink(Relative(dst, src)))
            && (r.code == 1 <==> !unlinkOk) && (r.code != 0 ==> r.code == 1 || dst !in Last(r).names)
  {
    hide Relative, Fits;
  }

  /** With symbolic links the same holds, and a failing realpath(3) and a relative path that does
      not fit lose the file, too. */
  lemma SymlinkKeepsBytesIff(fs: Fs, src: Path, dst: Path, realOk: bool, unlinkOk: bool, symlinkOk: bool)
    requires IsFilePath(src) && IsFilePath(dst)
    requires Regular(fs, src) && Regular(fs, dst) && src != dst && At(fs, src).content == At(fs, dst).content
    ensures KeepsBytes(fs, Last(SymlinkRun(fs, src, dst, realOk, unlinkOk, symlinkOk))) <==>
            !(unlinkOk && !(realOk && Fits(dst, src) && symlinkOk))
  {
    var s := Last(SymlinkRun(fs, src, dst, realOk, unlinkOk, symlinkOk));
    if unlinkOk && realOk && Fits(dst, src) && symlinkOk {
      SymlinkReplaces(fs, src, dst);
      ChangeKeepsBytes(fs, s, dst);
    } else if unlinkOk {
      GoneIsLost(fs, s, dst);
    } else {
      KeepsBytesSelf(fs);
    }
  }
}
