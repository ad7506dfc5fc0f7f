/** `path_relative_to` of clone.c as it walks the characters of two canonical paths. */
module PathChars {
  import opened Types
  import opened RelativePaths

  /** macOS limit on the length of a path, with its terminating NUL. */
  const PATH_MAX := 1024

  /** Components separated by slashes. */
  function Joined(p: seq<string>): string {
    if p == [] then "" else if |p| == 1 then p[0] else p[0] + "/" + Joined(p[1..])
  }

  function Rendered(p: Path): string {
    "/" + Joined(p)
  }

  /** Position of the first `c` at or after `from`, as strchr finds it. */
  function Find(s: string, from: nat, c: char): (at: Option<nat>)
    requires from <= |s|
    ensures at.None? ==> forall k :: from <= k < |s| ==> s[k] != c
    ensures at.Some? ==> from <= at.value < |s| && s[at.value] == c
                         && forall k :: from <= k < at.value ==> s[k] != c
    decreases |s| - from
  {
    if from == |s| then None
    else if s[from] == c then Some(from)
    else Find(s, from + 1, c)
  }

  /** The first slash after a component ends it; after the last one there is none. */
  lemma FindEndsPart(s: string, from: nat, p: seq<string>)
    requires from <= |s| && p != [] && '/' !in p[0] && s[from..] == Joined(p)
    ensures Find(s, from, '/') == if |p| == 1 then None else Some(from + |p[0]|)
    ensures |p| > 1 ==>
              from + |p[0]| < |s| && s[from..from + |p[0]|] == p[0] && s[from + |p[0]| + 1..] == Joined(p[1..])
  {
    var first := p[0];
    var end := from + |first|;
    assert first == s[from..][..|first|];
    forall k | from <= k < end
      ensures s[k] != '/'
    {
      assert s[k] == first[k - from];
    }
    if |p| > 1 {
      assert s[from..][|first|] == '/' && s[end] == s[from..][|first|];
      assert s[from..end] == s[from..][..|first|];
      assert s[end + 1..] == s[from..][|first| + 1..];
    }
  }

  lemma FindEndsComponent(s: string, from: nat, p: Path)
    requires from <= |s| && IsFilePath(p) && s[from..] == Joined(p)
    ensures Find(s, from, '/') == if |p| == 1 then None else Some(from + |p[0]|)
    ensures |p| > 1 ==>
              from + |p[0]| < |s| && s[from..from + |p[0]|] == p[0] && s[from + |p[0]| + 1..] == Joined(p[1..])
    ensures |p[0]| > 0 && '/' !in p[0]
  {
    assert IsName(p[0]);
    FindEndsPart(s, from, p);
  }

  /** Both paths go on with the same directory. */
  function SameDirectory(s: string, i: nat, d: string, j: nat): bool
    requires i <= |s| && j <= |d|
  {
    var srcEnd, dstEnd := Find(s, i, '/'), Find(d, j, '/');
    srcEnd.Some? && dstEnd.Some?
    && srcEnd.value - i == dstEnd.value - j && s[i..srcEnd.value] == d[j..dstEnd.value]
  }

  lemma SameDirectoryMeaning(s: string, i: nat, d: string, j: nat, a: Path, b: Path)
    requires i <= |s| && j <= |d| && IsFilePath(a) && IsFilePath(b)
    requires s[i..] == Joined(a) && d[j..] == Joined(b)
    ensures SameDirectory(s, i, d, j) <==> |a| > 1 && |b| > 1 && a[0] == b[0]
    ensures SameDirectory(s, i, d, j) ==>
              var i', j' := i + |a[0]| + 1, j + |b[0]| + 1;
              Find(s, i, '/') == Some(i' - 1) && Find(d, j, '/') == Some(j' - 1)
              && i' <= |s| && j' <= |d| && s[i'..] == Joined(a[1..]) && d[j'..] == Joined(b[1..])
  {
    FindEndsComponent(s, i, a);
    FindEndsComponent(d, j, b);
  }

  /** One round of the loop: step over a directory that both paths go on with, or stop. */
  method SkipOne(realSrc: string, realDst: string, i: nat, j: nat, ghost a: Path, ghost b: Path)
    returns (same: bool, i': nat, j': nat)
    requires i <= |realSrc| && j <= |realDst| && IsFilePath(a) && IsFilePath(b)
    requires realSrc[i..] == Joined(a) && realDst[j..] == Joined(b)
    ensures same <==> |a| > 1 && |b| > 1 && a[0] == b[0]
    ensures i' <= |realSrc| && j' <= |realDst|
    ensures realSrc[i'..] == Joined(if same then a[1..] else a)
    ensures realDst[j'..] == Joined(if same then b[1..] else b)
  {
    SameDirectoryMeaning(realSrc, i, realDst, j, a, b);
    hide Joined, IsFilePath, Find;
    same, i', j' := false, i, j;
    var srcEnd := Find(realSrc, i, '/');
    var dstEnd := Find(realDst, j, '/');
    if srcEnd.None? && dstEnd.Some? {
      return;
    }
    if srcEnd.Some? && dstEnd.None? {
      return;
    }
    if srcEnd.None? && dstEnd.None? {
      return;
    }
    if srcEnd.value - i != dstEnd.value - j || realSrc[i..srcEnd.value] != realDst[j..dstEnd.value] {
      return;
    }
    return true, srcEnd.value + 1, dstEnd.value + 1;
  }

  /** Skip the directories that both paths start with. The ghost arguments are the components
      behind the characters. */
  method SkipCommon(realSrc: string, realDst: string, ghost src: Path, ghost dst: Path) returns (i: nat, j: nat)
    requires IsFilePath(src) && IsFilePath(dst)
    requires realSrc == Rendered(src) && realDst == Rendered(dst)
    ensures i <= |realSrc| && j <= |realDst|
    ensures var n := CommonDirectories(src, dst);
            realSrc[i..] == Joined(src[n..]) && realDst[j..] == Joined(dst[n..])
  {
    i, j := 0, 0;
    if realSrc[0] == '/' {
      i := 1;
    }
    if realDst[0] == '/' {
      j := 1;
    }
    ghost var common, a, b := [], src, dst;
    var same := true;
    while same
      invariant i <= |realSrc| && j <= |realDst| && IsFilePath(a) && IsFilePath(b)
      invariant realSrc[i..] == Joined(a) && realDst[j..] == Joined(b)
      invariant src == common + a && dst == common + b
      invariant CommonDirectories(src, dst) == |common| + if same then CommonDirectories(a, b) else 0
      decreases same, |a|
    {
      CommonStep(a, b);
      same, i, j := SkipOne(realSrc, realDst, i, j, a, b);
      if same {
        Regroup(common, a);
        Regroup(common, b);
        common, a, b := common + [a[0]], a[1..], b[1..];
      }
    }
  }

  lemma Regroup(common: Path, a: Path)
    requires a != []
    ensures (common + [a[0]]) + a[1..] == common + a
  {
  }

  lemma CommonStep(a: Path, b: Path)
    requires IsFilePath(a) && IsFilePath(b)
    ensures |a| > 1 && |b| > 1 && a[0] == b[0] ==>
              CommonDirectories(a, b) == 1 + CommonDirectories(a[1..], b[1..])
              && IsFilePath(a[1..]) && IsFilePath(b[1..])
    ensures !(|a| > 1 && |b| > 1 && a[0] == b[0]) ==> CommonDirectories(a, b) == 0
  {
  }

  /** Where the component at `start` ends, as searched from behind its first character or not. */
  lemma NextComponent(path: string, start: nat, next: nat, p: Path)
    requires start <= |path| && IsFilePath(p) && path[start..] == Joined(p) && (next == start || next == start + 1)
    ensures next <= |path|
    ensures Find(path, next, '/') == if |p| == 1 then None else Some(start + |p[0]|)
    ensures |p| > 1 ==> start + |p[0]| < |path| && path[start + |p[0]| + 1..] == Joined(p[1..]) && IsFilePath(p[1..])
  {
    FindEndsComponent(path, start, p);
    assert path[start..] != "" && path[start] == path[start..][0] == p[0][0];
  }

  /** Count the components from `i` to the end. */
  method CountComponents(path: string, i: nat, ghost p: Path) returns (depth: nat)
    requires IsFilePath(p) && i <= |path| && path[i..] == Joined(p)
    ensures depth == |p|
  {
    depth := 0;
    var end: Option<nat> := Some(i);
    ghost var start, rest := i, p;
    NextComponent(path, i, i + 1, p);
    hide Find, Joined, IsFilePath;
    while end.Some? && end.value < |path|
      invariant end.Some? ==>
                  end.value < |path| && (start == end.value || start == end.value + 1) && start <= |path|
                  && rest != [] && IsFilePath(rest) && path[start..] == Joined(rest) && depth + |rest| == |p|
      invariant end.None? ==> depth == |p|
      decreases |p| - depth
    {
      var next := end.value + 1;
      NextComponent(path, start, next, rest);
      depth := depth + 1;
      end := Find(path, next, '/');
      if end.Some? {
        start, rest := end.value + 1, rest[1..];
      }
    }
  }

  /** Write `../` `depth` times and then `rest`, into a buffer of zeros. The code does not check
      that they fit. */
  method Write(depth: nat, rest: string) returns (path: array<char>, length: nat)
    requires 3 * depth + |rest| < PATH_MAX
    ensures fresh(path) && path.Length == PATH_MAX && length < PATH_MAX && path[length] == '\0'
    ensures path[..length] == UpsText(depth) + rest
  {
    path := new char[PATH_MAX](i => '\0');
    var pos := 0;
    for k := 0 to depth
      invariant pos == 3 * k && path[..pos] == UpsText(k)
      invariant forall m :: pos <= m < PATH_MAX ==> path[m] == '\0'
    {
      path[pos] := '.';
      path[pos + 1] := '.';
      path[pos + 2] := '/';
      assert path[..pos + 3] == path[..pos] + "../";
      pos := pos + 3;
    }
    length := CopyTo(path, pos, rest);
  }

  /** memcpy(3), into zeros. */
  method CopyTo(path: array<char>, pos: nat, rest: string) returns (length: nat)
    requires pos + |rest| < path.Length && forall m :: pos <= m < path.Length ==> path[m] == '\0'
    modifies path
    ensures length == pos + |rest| && path[length] == '\0' && path[..length] == old(path[..pos]) + rest
  {
    forall m | 0 <= m < |rest| {
      path[pos + m] := rest[m];
    }
    length := pos + |rest|;
    assert path[..length] == path[..pos] + path[pos..length];
    assert path[pos..length] == rest;
  }

  function UpsText(n: nat): (s: string)
    ensures |s| == 3 * n
  {
    if n == 0 then "" else UpsText(n - 1) + "../"
  }

  lemma {:induction false} JoinedUps(n: nat, rest: seq<string>)
    requires rest != []
    ensures Joined(Ups(n) + rest) == UpsText(n) + Joined(rest)
  {
    if n == 0 {
      assert Ups(0) + rest == rest;
    } else {
      assert Ups(n) + rest == Ups(n - 1) + ([UP] + rest);
      JoinedUps(n - 1, [UP] + rest);
      assert ([UP] + rest)[1..] == rest;
      assert Joined([UP] + rest) == "../" + Joined(rest);
    }
  }

  /** The text fits in the buffer, with the zero that ends it. */
  predicate Fits(src: Path, dst: Path)
    requires src != [] && dst != []
  {
    |Joined(Relative(src, dst))| < PATH_MAX
  }

  /** Three characters for every directory to leave, and the rest of the destination. */
  lemma TextLength(src: Path, dst: Path)
    requires src != [] && dst != []
    ensures var n := CommonDirectories(src, dst);
            |Joined(Relative(src, dst))| == 3 * (|src| - 1 - n) + |Joined(dst[n..])|
  {
    var n := CommonDirectories(src, dst);
    JoinedUps(|src| - 1 - n, dst[n..]);
  }

  function Deep(depth: nat): Path {
    seq(depth, i => "d") + ["f"]
  }

  lemma {:induction false} DeepText(depth: nat)
    ensures IsFilePath(Deep(depth)) && |Joined(Deep(depth))| == 2 * depth + 1
  {
    if depth > 0 {
      assert Deep(depth)[1..] == Deep(depth - 1);
      DeepText(depth - 1);
      assert forall i :: 0 < i < |Deep(depth)| ==> Deep(depth)[i] == Deep(depth - 1)[i - 1];
    } else {
      assert Deep(0) == ["f"];
    }
  }

  /** Paths that fit may have a relative path between them that does not. */
  lemma RelativeMayNotFit() returns (src: Path, dst: Path)
    ensures IsFilePath(src) && IsFilePath(dst)
    ensures |Rendered(src)| < PATH_MAX && |Rendered(dst)| < PATH_MAX && !Fits(src, dst)
  {
    src, dst := Deep(400), ["g"];
    DeepText(400);
    TextLength(src, dst);
  }

  /** For every pair of canonical files the walk computes the characters of the relative path
      between their components, provided that they fit. */
  method PathRelativeTo(realSrc: string, realDst: string, ghost src: Path, ghost dst: Path)
    returns (path: array<char>, length: nat)
    requires IsFilePath(src) && IsFilePath(dst)
    requires realSrc == Rendered(src) && realDst == Rendered(dst)
    requires Fits(src, dst)
    ensures fresh(path) && path.Length == PATH_MAX && length < PATH_MAX && path[length] == '\0'
    ensures path[..length] == Joined(Relative(src, dst))
  {
    ghost var n := CommonDirectories(src, dst);
    var i, j := SkipCommon(realSrc, realDst, src, dst);
    var depth := CountComponents(realSrc, i, src[n..]);
    depth := depth - 1;
    JoinedUps(depth, dst[n..]);
    path, length := Write(depth, realDst[j..]);
  }

  // ----- Reading the text back -----

  /** The components of a relative path, as the kernel reads a link target. */
  function Split(s: string, from: nat): seq<string>
    requires from <= |s|
    decreases |s| - from
  {
    var at := Find(s, from, '/');
    if at.None? then [s[from..]] else [s[from..at.value]] + Split(s, at.value + 1)
  }

  predicate NoSlash(rel: seq<string>) {
    forall i :: 0 <= i < |rel| ==> '/' !in rel[i]
  }

  lemma {:induction false} SplitReadsJoined(s: string, from: nat, rel: seq<string>)
    requires from <= |s| && rel != [] && NoSlash(rel) && s[from..] == Joined(rel)
    ensures Split(s, from) == rel
    decreases |rel|
  {
    assert '/' !in rel[0];
    FindEndsPart(s, from, rel);
    if |rel| == 1 {
      assert rel == [rel[0]];
      hide NoSlash, Find;
    } else {
      var rest := rel[1..];
      assert NoSlash(rest);
      assert s[from + |rel[0]| + 1..] == Joined(rest);
      hide Joined, NoSlash, Find;
      SplitReadsJoined(s, from + |rel[0]| + 1, rest);
      assert rel == [rel[0]] + rest;
    }
  }

  /** The text read back is the relative path. */
  lemma TextReadsBack(src: Path, dst: Path)
    requires IsFilePath(src) && IsFilePath(dst)
    ensures Split(Joined(Relative(src, dst)), 0) == Relative(src, dst)
  {
    var rel := Relative(src, dst);
    forall i | 0 <= i < |rel|
      ensures '/' !in rel[i]
    {
      var ups := |src| - 1 - CommonDirectories(src, dst);
      assert i >= ups ==> IsName(rel[i]) by {
        if i >= ups {
          assert rel[i] == dst[CommonDirectories(src, dst) + (i - ups)];
        }
      }
    }
    SplitReadsJoined(Joined(rel), 0, rel);
  }

  /** The text that `path_relative_to` writes, read back and followed from the directory of
      `src`, leads to `dst`. */
  lemma TextLeadsToDst(src: Path, dst: Path)
    requires IsFilePath(src) && IsFilePath(dst)
    ensures Resolve(Directory(src), Split(Joined(Relative(src, dst)), 0)) == dst
  {
    TextReadsBack(src, dst);
    RelativeResolves(src, dst);
  }
}
