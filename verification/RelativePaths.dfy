/** The relative path from one file to another, on components. */
module RelativePaths {
  import opened Types

  const UP: string := ".."

  /** A component of a canonical path. */
  predicate IsName(c: string) {
    c != [] && c != "." && c != UP && '/' !in c
  }

  /** A canonical absolute path of a file. */
  predicate IsFilePath(p: Path) {
    p != [] && forall i :: 0 <= i < |p| ==> IsName(p[i])
  }

  function Directory(p: Path): Path
    requires p != []
  {
    p[..|p| - 1]
  }

  /** Follow relative components from a directory; `..` at the root stays there. */
  function Resolve(dir: Path, rel: seq<string>): Path
    decreases |rel|
  {
    if rel == [] then dir
    else if rel[0] == UP then Resolve(if dir == [] then [] else dir[..|dir| - 1], rel[1..])
    else Resolve(dir + [rel[0]], rel[1..])
  }

  /** How many leading directories two files have in common. */
  function CommonDirectories(src: Path, dst: Path): (n: nat)
    requires src != [] && dst != []
    ensures n < |src| && n < |dst| && src[..n] == dst[..n]
    ensures n < |src| - 1 && n < |dst| - 1 ==> src[n] != dst[n]
  {
    if |src| > 1 && |dst| > 1 && src[0] == dst[0] then
      var n := CommonDirectories(src[1..], dst[1..]);
      assert src[..n + 1] == [src[0]] + src[1..][..n] && dst[..n + 1] == [dst[0]] + dst[1..][..n];
      n + 1
    else 0
  }

  function Ups(n: nat): seq<string> {
    seq(n, i => UP)
  }

  /** One `..` for every directory of `src` below the common ones, then the rest of `dst`. */
  function Relative(src: Path, dst: Path): seq<string>
    requires src != [] && dst != []
  {
    var n := CommonDirectories(src, dst);
    Ups(|src| - 1 - n) + dst[n..]
  }

  lemma {:induction false} ResolveUps(dir: Path, n: nat, rel: seq<string>)
    requires n <= |dir|
    ensures Resolve(dir, Ups(n) + rel) == Resolve(dir[..|dir| - n], rel)
    decreases n
  {
    if n == 0 {
      assert Ups(0) + rel == rel && dir[..|dir|] == dir;
    } else {
      var up := dir[..|dir| - 1];
      assert (Ups(n) + rel)[1..] == Ups(n - 1) + rel;
      ResolveUps(up, n - 1, rel);
      assert up[..|up| - (n - 1)] == dir[..|dir| - n];
    }
  }

  lemma {:induction false} ResolveNames(dir: Path, rel: seq<string>)
    requires forall i :: 0 <= i < |rel| ==> rel[i] != UP
    ensures Resolve(dir, rel) == dir + rel
    decreases |rel|
  {
    if rel == [] {
      assert dir + rel == dir;
    } else {
      ResolveNames(dir + [rel[0]], rel[1..]);
      assert dir + [rel[0]] + rel[1..] == dir + rel;
    }
  }

  /** Following the relative path from the directory of `src` leads to `dst`. */
  lemma RelativeResolves(src: Path, dst: Path)
    requires IsFilePath(src) && IsFilePath(dst)
    ensures Resolve(Directory(src), Relative(src, dst)) == dst
  {
    var n, dir := CommonDirectories(src, dst), Directory(src);
    ResolveUps(dir, |dir| - n, dst[n..]);
    assert dir[..n] == src[..n];
    ResolveNames(dir[..n], dst[n..]);
    assert dst[..n] + dst[n..] == dst;
  }

  // ----- No relative path is shorter -----

  /** Length of the longest common prefix. */
  function CommonPrefix(a: Path, b: Path): (n: nat)
    ensures n <= |a| && n <= |b|
  {
    if a != [] && b != [] && a[0] == b[0] then 1 + CommonPrefix(a[1..], b[1..]) else 0
  }

  /** Steps between two places in the directory tree. */
  function Distance(a: Path, b: Path): nat {
    |a| - CommonPrefix(a, b) + |b| - CommonPrefix(a, b)
  }

  lemma {:induction false} SharedSnoc(a: Path, c: string, b: Path)
    ensures CommonPrefix(a, b) <= CommonPrefix(a + [c], b) <= CommonPrefix(a, b) + 1
    decreases |a|
  {
    if a != [] && b != [] && a[0] == b[0] {
      assert (a + [c])[1..] == a[1..] + [c];
      SharedSnoc(a[1..], c, b[1..]);
    } else if a == [] && b != [] && c == b[0] {
      assert ([] + [c])[1..] == [];
    }
  }

  lemma {:induction false} SharedSelf(a: Path)
    ensures CommonPrefix(a, a) == |a|
  {
    if a != [] {
      SharedSelf(a[1..]);
    }
  }

  /** Every relative path is at least as long as the distance that it covers. */
  lemma {:induction false} LengthCoversDistance(dir: Path, rel: seq<string>)
    ensures |rel| >= Distance(dir, Resolve(dir, rel))
    decreases |rel|
  {
    var dst := Resolve(dir, rel);
    if rel == [] {
      SharedSelf(dir);
    } else if rel[0] == UP {
      if dir != [] {
        var up := dir[..|dir| - 1];
        assert up + [dir[|dir| - 1]] == dir;
        SharedSnoc(up, dir[|dir| - 1], dst);
        LengthCoversDistance(up, rel[1..]);
      } else {
        LengthCoversDistance([], rel[1..]);
      }
    } else {
      SharedSnoc(dir, rel[0], dst);
      LengthCoversDistance(dir + [rel[0]], rel[1..]);
    }
  }

  lemma {:induction false} CommonIsShared(src: Path, dst: Path)
    requires src != [] && dst != [] && !(dst <= Directory(src))
    ensures CommonDirectories(src, dst) == CommonPrefix(Directory(src), dst)
  {
    if |src| > 1 && |dst| > 1 && src[0] == dst[0] {
      assert Directory(src)[1..] == Directory(src[1..]);
      assert dst == [dst[0]] + dst[1..] && Directory(src) == [src[0]] + Directory(src[1..]);
      CommonIsShared(src[1..], dst[1..]);
    }
  }

  /** No relative path of any shape, however it mixes going up and down, leads from the
      directory of `src` to `dst` in fewer components. `dst` is a file, so it is not a directory
      above `src`. */
  lemma {:induction false} RelativeIsShortest(src: Path, dst: Path, rel: seq<string>)
    requires src != [] && dst != [] && !(dst <= Directory(src))
    requires Resolve(Directory(src), rel) == dst
    ensures |rel| >= |Relative(src, dst)|
  {
    LengthCoversDistance(Directory(src), rel);
    CommonIsShared(src, dst);
  }

  /** The number of `..` is the depth of the directory of `src` below the longest directory
      prefix that the two files share. */
  lemma UpsAreExact(src: Path, dst: Path, i: nat)
    requires IsFilePath(src) && IsFilePath(dst) && !(dst <= Directory(src))
    requires i < |Relative(src, dst)|
    ensures Relative(src, dst)[i] == UP <==> i < |Directory(src)| - CommonPrefix(Directory(src), dst)
  {
    CommonIsShared(src, dst);
  }
}
