/** The replacements of clone.c as they run on a file system updated in place. */
module Volumes {
  import opened Types
  import opened RelativePaths
  import opened PathChars
  import opened FileSystem
  import opened Replacing

  class Volume {
    var names: map<Path, Node>
    var inodes: map<nat, Inode>
    /** The state after every system call that may change the file system. */
    ghost var trace: seq<Fs>

    function Value(): Fs
      reads this`names, this`inodes
    {
      Fs(names, inodes)
    }

    constructor (fs: Fs)
      ensures Value() == fs && trace == []
    {
      names, inodes, trace := fs.names, fs.inodes, [];
    }

    // ----- System calls -----

    method UnlinkFile(p: Path, ok: bool) returns (code: int)
      modifies this
      ensures Value() == if ok then Unlink(old(Value()), p) else old(Value())
      ensures trace == old(trace) + [Value()] && (code == 0 <==> ok && p in old(names))
    {
      code := if ok && p in names then 0 else -1;
      if ok {
        names := names - {p};
      }
      trace := trace + [Value()];
    }

    /** `stage` is beside `dst`. */
    method CloneFile(src: Path, dst: Path, stage: Path, sc: CloneScript) returns (code: int)
      modifies this
      ensures var fs := old(Value());
              var works := CanClone(fs, src, dst, stage, sc);
              code == (if works then 0 else -1)
              && Value() == if works then Cloned(fs, src, stage, sc) else Littered(fs, stage, sc)
      ensures trace == old(trace) + [Value()]
    {
      var fs := Value();
      var unused := forall p | p in names :: names[p] != File(sc.ino);
      var together := Regular(fs, dst) ==> SameDevice(fs, src, dst);
      if sc.cloneOk && stage !in names && Regular(fs, src) && together && unused {
        var s := At(fs, src);
        var id := if sc.takes then s.cloneId else sc.otherId;
        inodes := inodes[sc.ino := s.(number := sc.number, cloneId := id, privateSize := sc.privateSize)];
        names := names[stage := File(sc.ino)];
        code := 0;
      } else {
        if sc.leaves && stage !in names && unused {
          inodes := inodes[sc.ino := sc.debris];
          names := names[stage := File(sc.ino)];
        }
        code := -1;
      }
      trace := trace + [Value()];
    }

    method CopyMetadata(dst: Path, stage: Path, sc: CloneScript) returns (code: int)
      requires Regular(Value(), stage)
      modifies this
      ensures var fs := old(Value());
              var works := sc.metaOk && Regular(fs, dst);
              code == (if works then 0 else -1)
              && Value() == if works then Described(fs, dst, stage) else Spoiled(fs, stage, sc)
      ensures trace == old(trace) + [Value()]
    {
      var fs := Value();
      var ino := names[stage].ino;
      if sc.metaOk && Regular(fs, dst) {
        inodes := inodes[ino := inodes[ino].(flags := At(fs, dst).flags, meta := At(fs, dst).meta)];
        code := 0;
      } else {
        inodes := inodes[ino := sc.debris];
        code := -1;
      }
      trace := trace + [Value()];
    }

    method RenameFile(p: Path, q: Path)
      requires p in names
      modifies this
      ensures Value() == Rename(old(Value()), p, q) && trace == old(trace) + [Value()]
    {
      names := (names - {p})[q := names[p]];
      trace := trace + [Value()];
    }

    // ----- clone.c -----

    method FindZeroFile(p: Path, writable: bool) returns (code: int)
      ensures code != 0 <==> Zero(Value(), p, writable)
      ensures code == if !writable then 1 else if !Regular(Value(), p) then 2
                      else if At(Value(), p).content == [] then 3 else 0
    {
      if !writable {
        return 1;
      }
      if !Regular(Value(), p) {
        return 2;
      }
      if |At(Value(), p).content| == 0 {
        return 3;
      }
      return 0;
    }

    method TmpName(dst: Path) returns (stage: Option<Path>, errno: int)
      requires dst != []
      ensures stage.Some? <==> |StagingText(dst)| < PATH_MAX && !Exists(Value(), Staging(dst))
      ensures stage.Some? ==> stage.value == Staging(dst)
      ensures stage.None? ==> errno == if |StagingText(dst)| >= PATH_MAX then ENAMETOOLONG else EEXIST
    {
      if |StagingText(dst)| >= PATH_MAX {
        return None, ENAMETOOLONG;
      }
      if Exists(Value(), Staging(dst)) {
        return None, EEXIST;
      }
      return Some(Staging(dst)), 0;
    }

    method ReplaceWithClone(src: Path, dst: Path, preserveParentMtime: bool, sc: CloneScript) returns (result: int)
      requires dst != []
      modifies this
      ensures var r := CloneRun(old(Value()), src, dst, preserveParentMtime, sc);
              Value() == Last(r) && result == r.code && trace == old(trace) + r.states[1..]
    {
      hide FinishRun, Cloned, Littered, Create, Staging, StagingText, Unused, Exists;
      ghost var fs := Value();
      if preserveParentMtime && !sc.dirOk {
        return -1;
      }
      var stage, errno := TmpName(dst);
      if stage.None? {
        return errno;
      }
      result := CloneFile(src, dst, stage.value, sc);
      if result != 0 {
        ghost var left := Value();
        var _ := UnlinkFile(stage.value, sc.unlinkOk);
        assert trace == old(trace) + [left, Value()];
        return;
      }
      ghost var cloned := Value();
      result := Finish(fs, dst, stage.value, sc);
      ghost var states := FinishRun(fs, cloned, dst, stage.value, sc).states;
      assert states[1..] == [cloned] + states[2..];
      assert trace == old(trace) + ([cloned] + states[2..]);
    }

    /** The rest of the function, once the staging file is a clone. */
    method Finish(ghost fs: Fs, dst: Path, stage: Path, sc: CloneScript) returns (result: int)
      requires Regular(Value(), stage)
      modifies this
      ensures var r := FinishRun(fs, old(Value()), dst, stage, sc);
              Value() == Last(r) && result == r.code && trace == old(trace) + r.states[2..]
    {
      var zero := FindZeroFile(stage, sc.firstWritable);
      if zero != 0 {
        var _ := UnlinkFile(stage, sc.unlinkOk);
        return ENOENT;
      }
      if (sc.check / COPYFILE_DATA) % 2 == 1 {
        var _ := UnlinkFile(stage, sc.unlinkOk);
        return sc.check;
      }
      result := CopyMetadata(dst, stage, sc);
      if result != 0 {
        var _ := UnlinkFile(stage, sc.unlinkOk);
        return;
      }
      zero := FindZeroFile(stage, sc.secondWritable);
      if zero != 0 {
        var _ := UnlinkFile(stage, sc.unlinkOk);
        return ENOENT;
      }
      if !sc.renameOk {
        var _ := UnlinkFile(stage, sc.unlinkOk);
        return -1;
      }
      RenameFile(stage, dst);
      return 0;
    }

    method ReplaceWithLink(src: Path, dst: Path, unlinkOk: bool, linkOk: bool) returns (result: int)
      modifies this
      ensures var r := LinkRun(old(Value()), src, dst, unlinkOk, linkOk);
              Value() == Last(r) && result == r.code
              && trace == old(trace) + if result == 1 then [Value()] else r.states[1..]
    {
      var together := Regular(Value(), dst) ==> SameDevice(Value(), src, dst);
      var code := UnlinkFile(dst, unlinkOk && dst in names);
      if code != 0 {
        return 1;
      }
      if linkOk && Regular(Value(), src) && together {
        names := names[dst := names[src]];
        trace := trace + [Value()];
        return 0;
      }
      return -1;
    }

    method ReplaceWithSymlink(src: Path, dst: Path, realOk: bool, unlinkOk: bool, symlinkOk: bool) returns (result: int)
      requires IsFilePath(src) && IsFilePath(dst)
      modifies this
      ensures var r := SymlinkRun(old(Value()), src, dst, realOk, unlinkOk, symlinkOk);
              Value() == Last(r) && result == r.code
              && trace == old(trace) + if result == 1 then [Value()] else r.states[1..]
    {
      var target: Option<seq<string>> := None;
      if realOk && Fits(dst, src) {
        var path, length := PathRelativeTo(Rendered(dst), Rendered(src), dst, src);
        TextReadsBack(dst, src);
        target := Some(Split(path[..length], 0));
      }
      hide PathChars.Split, Relative;
      var code := UnlinkFile(dst, unlinkOk && dst in names);
      if code != 0 {
        return 1;
      }
      if target.Some? && symlinkOk {
        names := names[dst := Symlink(target.value)];
        trace := trace + [Value()];
        return 0;
      }
      return -1;
    }
  }
}
