/** The visited tree of map.c: device, size, first and last character, then a lazily
    built tree of digests. */
module Visited {
  import opened Types
  import opened Twins
  import opened VisitedView

  /** A node of the fourth level, updated in place. */
  class LastNode {
    ghost const key: Bucket
    var fm: Option<FileMetadata>
    var children: map<nat, FileMetadata>

    ghost predicate Holds(slot: Slot)
      reads this
    {
      fm == slot.fm && children == slot.children
    }

    constructor (ghost key: Bucket)
      ensures this.key == key && fm == None && children == map[]
    {
      this.key := key;
      fm, children := None, map[];
    }
  }

  type LastTree = map<Byte, LastNode>
  type FirstTree = map<Byte, LastTree>
  type SizeTree = map<nat, FirstTree>
  type DeviceTree = map<nat, SizeTree>

  ghost predicate Reaches(root: DeviceTree, b: Bucket) {
    b.device in root && b.size in root[b.device] && b.first in root[b.device][b.size]
    && b.last in root[b.device][b.size][b.first]
  }

  /** The tree with a node put at `b`, missing levels created. */
  function Put(root: DeviceTree, b: Bucket, node: LastNode): DeviceTree {
    var sizes: SizeTree := if b.device in root then root[b.device] else map[];
    var firsts: FirstTree := if b.size in sizes then sizes[b.size] else map[];
    var lasts: LastTree := if b.first in firsts then firsts[b.first] else map[];
    root[b.device := sizes[b.size := firsts[b.first := lasts[b.last := node]]]]
  }

  lemma PutReaches(root: DeviceTree, b: Bucket, node: LastNode, c: Bucket)
    ensures Reaches(Put(root, b, node), c) <==> c == b || Reaches(root, c)
    ensures var root' := Put(root, b, node);
            Reaches(root', c) ==>
              root'[c.device][c.size][c.first][c.last] ==
              if c == b then node else root[c.device][c.size][c.first][c.last]
  {
    if c.device == b.device && c.size == b.size && c.first == b.first {
    } else if c.device == b.device && c.size == b.size {
    } else if c.device == b.device {
    }
  }

  class VisitedTree {
    const hashes: Hashes
    var root: DeviceTree
    /** Every node by its bucket, what the nodes hold, every file inserted, and every path
        that was opened to hash it. */
    ghost var nodes: map<Bucket, LastNode>
    ghost var view: View
    ghost var history: seq<FileMetadata>
    ghost var attempts: seq<Path>

    /** The nested trees and the flat index lead to the same nodes. */
    ghost predicate Indexed()
      reads this`root, this`nodes
    {
      (forall b :: b in nodes <==> Reaches(root, b))
      && (forall b :: b in nodes ==> root[b.device][b.size][b.first][b.last] == nodes[b])
      && (forall b :: b in nodes ==> nodes[b].key == b)
    }

    ghost predicate Synced(view: View)
      reads this`nodes, nodes.Values
    {
      (forall b :: b in nodes <==> b in view)
      && forall b :: b in nodes ==> nodes[b].key == b && nodes[b].Holds(view[b])
    }

    /** Synced with `view`, except that the node at `key` holds `slot`. */
    ghost predicate SyncedBut(view: View, key: Bucket, slot: Slot)
      reads this`nodes, nodes.Values
    {
      (forall b :: b in nodes <==> b in view || b == key)
      && forall b :: b in nodes ==> nodes[b].key == b && nodes[b].Holds(if b == key then slot else view[b])
    }

    lemma SyncedUpdate(view: View, key: Bucket, slot: Slot)
      requires SyncedBut(view, key, slot)
      ensures Synced(view[key := slot])
    {
    }

    ghost predicate Valid()
      reads this, nodes.Values
    {
      Indexed() && Synced(view)
      && AllHonest(hashes, history) && (view, attempts) == Grown(hashes, history)
    }

    constructor (hashes: Hashes)
      ensures Valid() && this.hashes == hashes && nodes == map[] && history == [] && attempts == []
    {
      this.hashes := hashes;
      root, nodes, view, history, attempts := map[], map[], map[], [], [];
    }

    /** Fill an empty digest from the file; a non-zero code means the file could not be hashed. */
    method PopulateSha256IfEmpty(fm: FileMetadata) returns (code: int, filled: FileMetadata)
      modifies this`attempts
      ensures fm.sha256 != 0 ==> code == 0 && filled == fm && attempts == old(attempts)
      ensures fm.sha256 == 0 ==> attempts == old(attempts) + [fm.path]
      ensures fm.sha256 == 0 && Hashable(hashes, fm.path) ==> code == 0 && filled == Hashed(hashes, fm)
      ensures fm.sha256 == 0 && !Hashable(hashes, fm.path) ==>
                filled == fm && code == if fm.path in hashes then 0 else 2
    {
      if fm.sha256 != 0 {
        return 0, fm;
      }
      attempts := attempts + [fm.path];
      if fm.path !in hashes {
        return 2, fm;
      }
      return 0, fm.(sha256 := hashes[fm.path]);
    }

    /** Walk down to the node of the file's bucket, creating the missing levels. */
    method FindOrCreateLastNode(fm: FileMetadata) returns (node: LastNode)
      requires Indexed()
      modifies this`root, this`nodes
      ensures Indexed() && fm.Key() in nodes && nodes[fm.Key()] == node && node.key == fm.Key()
      ensures fm.Key() in old(nodes) ==> nodes == old(nodes)
      ensures fm.Key() !in old(nodes) ==>
                fresh(node) && nodes == old(nodes)[fm.Key() := node] && node.Holds(Slot(None, map[]))
    {
      var sizes: SizeTree := if fm.device in root then root[fm.device] else map[];
      var firsts: FirstTree := if fm.size in sizes then sizes[fm.size] else map[];
      var lasts: LastTree := if fm.first in firsts then firsts[fm.first] else map[];
      if fm.last in lasts {
        return lasts[fm.last];
      }
      node := new LastNode(fm.Key());
      lasts := lasts[fm.last := node];
      firsts := firsts[fm.first := lasts];
      sizes := sizes[fm.size := firsts];
      forall c {
        PutReaches(root, fm.Key(), node, c);
      }
      root := root[fm.device := sizes];
      nodes := nodes[fm.Key() := node];
    }

    /** The part of an insertion that happens at its last-character node. */
    method InsertAt(node: LastNode, ghost was: Slot, fm: FileMetadata)
      returns (twin: Option<FileMetadata>, filled: FileMetadata)
      requires Honest(hashes, fm)
      requires node.Holds(was) && (was.fm.Some? ==> was.children == map[] && Honest(hashes, was.fm.value))
      modifies node, this`attempts
      ensures node.Holds(Next(hashes, was, fm).0)
      ensures attempts == old(attempts) + Next(hashes, was, fm).1
      ensures twin == Answer(hashes, was, fm)
      ensures filled == fm || (Hashable(hashes, fm.path) && filled == Hashed(hashes, fm))
      ensures twin.Some? ==> Hashable(hashes, fm.path) && filled == Hashed(hashes, fm)
    {
      filled := fm;
      var code;
      if |node.children| == 0 {
        if node.fm == None {
          node.fm := Some(fm);
          return None, fm;
        }
        var stash;
        code, stash := PopulateSha256IfEmpty(node.fm.value);
        node.fm := Some(stash);
        if code != 0 || stash.sha256 == 0 {
          node.fm := Some(fm);
          return None, fm;
        }
        code, filled := PopulateSha256IfEmpty(fm);
        if code != 0 || filled.sha256 == 0 {
          return None, filled;
        }
        if stash.sha256 == filled.sha256 {
          return node.fm, filled;
        }
        node.children := node.children[stash.sha256 := stash];
        node.fm := None;
        node.children := node.children[filled.sha256 := filled];
        return None, filled;
      }

      code, filled := PopulateSha256IfEmpty(fm);
      if code != 0 || filled.sha256 == 0 {
        return None, filled;
      }
      if filled.sha256 in node.children {
        return Some(node.children[filled.sha256]), filled;
      }
      node.children := node.children[filled.sha256 := filled];
      return None, filled;
    }

    /** The whole insertion, told by what the nodes hold. */
    method Place(fm: FileMetadata, ghost was: Slot) returns (twin: Option<FileMetadata>, filled: FileMetadata)
      requires Indexed() && Synced(view) && Honest(hashes, fm) && was == SlotAt(view, fm.Key())
      requires was.fm.Some? ==> was.children == map[] && Honest(hashes, was.fm.value)
      modifies this`root, this`nodes, this`attempts, nodes.Values
      ensures Indexed() && SyncedBut(view, fm.Key(), Next(hashes, was, fm).0)
      ensures fresh(nodes.Values - old(nodes.Values))
      ensures attempts == old(attempts) + Next(hashes, was, fm).1
      ensures twin == Answer(hashes, was, fm)
      ensures filled == fm || (Hashable(hashes, fm.path) && filled == Hashed(hashes, fm))
      ensures twin.Some? ==> Hashable(hashes, fm.path) && filled == Hashed(hashes, fm)
    {
      hide Indexed, Next, Answer;
      var node := FindOrCreateLastNode(fm);
      assert SyncedBut(view, fm.Key(), was);
      twin, filled := InsertInto(node, fm, was);
    }

    /** Only the node of the file's bucket changes. */
    method InsertInto(node: LastNode, fm: FileMetadata, ghost was: Slot)
      returns (twin: Option<FileMetadata>, filled: FileMetadata)
      requires Indexed() && SyncedBut(view, fm.Key(), was) && Honest(hashes, fm)
      requires fm.Key() in nodes && nodes[fm.Key()] == node
      requires was.fm.Some? ==> was.children == map[] && Honest(hashes, was.fm.value)
      modifies node, this`attempts
      ensures Indexed() && SyncedBut(view, fm.Key(), Next(hashes, was, fm).0)
      ensures attempts == old(attempts) + Next(hashes, was, fm).1
      ensures twin == Answer(hashes, was, fm)
      ensures filled == fm || (Hashable(hashes, fm.path) && filled == Hashed(hashes, fm))
      ensures twin.Some? ==> Hashable(hashes, fm.path) && filled == Hashed(hashes, fm)
    {
      hide Indexed, Next, Answer, Hashable;
      assert forall b :: b in nodes && b != fm.Key() ==> nodes[b] != node;
      twin, filled := InsertAt(node, was, fm);
    }

    /** Insert a file. The answer is the earliest earlier file with the same device, size,
        first and last character and digest; `filled` is the record as the call leaves it. */
    method Insert(fm: FileMetadata) returns (twin: Option<FileMetadata>, filled: FileMetadata)
      requires Valid() && Honest(hashes, fm)
      modifies this, nodes.Values
      ensures Valid() && fresh(nodes.Values - old(nodes.Values))
      ensures history == old(history) + [fm] && old(attempts) <= attempts
      ensures twin == Twin(hashes, old(history), fm)
      ensures filled == fm || (Hashable(hashes, fm.path) && filled == Hashed(hashes, fm))
      ensures twin.Some? ==> Hashable(hashes, fm.path) && filled == Hashed(hashes, fm)
    {
      hide Indexed, Synced, SyncedBut, Next, Answer, Twin;
      InsertAnswersTwin(hashes, history, fm);
      GrownSnoc(hashes, history, fm);
      ghost var was := SlotAt(view, fm.Key());
      twin, filled := Place(fm, was);
      SyncedUpdate(view, fm.Key(), Next(hashes, was, fm).0);
      view := view[fm.Key() := Next(hashes, was, fm).0];
      history := history + [fm];
    }

    /** Walk all four levels and add up the sizes of the digest trees. */
    method Count() returns (count: nat)
      requires Valid()
      ensures count == |SplitDigests(view)|
    {
      ghost var done: set<Bucket> := {};
      count := 0;
      var devices := root.Keys;
      while devices != {}
        invariant forall b :: b in done <==> b in nodes && b.device !in devices
        invariant devices <= root.Keys && count == |Seen(view, done)|
        decreases devices
      {
        var d :| d in devices;
        devices := devices - {d};
        var sizes := root[d].Keys;
        while sizes != {}
          invariant forall b :: b in done <==> b in nodes && b.device !in devices && !(b.device == d && b.size in sizes)
          invariant sizes <= root[d].Keys && count == |Seen(view, done)|
          decreases sizes
        {
          var s :| s in sizes;
          sizes := sizes - {s};
          count, done := CountBelow(d, s, count, done);
        }
      }
      assert Seen(view, done) == SplitDigests(view);
    }

    /** The two character levels of one size node. */
    method CountBelow(d: nat, s: nat, start: nat, ghost before: set<Bucket>)
      returns (count: nat, ghost done: set<Bucket>)
      requires Valid() && d in root && s in root[d] && start == |Seen(view, before)|
      requires forall b :: b in before ==> b.device != d || b.size != s
      ensures forall b :: b in done <==> b in before || (b in nodes && b.device == d && b.size == s)
      ensures count == |Seen(view, done)|
    {
      hide VisitedTree.Synced, Seen, Grown, AllHonest;
      count, done := start, before;
      var firsts := root[d][s].Keys;
      while firsts != {}
        invariant forall b :: b in done <==>
                                b in before || (b in nodes && b.device == d && b.size == s && b.first !in firsts)
        invariant firsts <= root[d][s].Keys && count == |Seen(view, done)|
        decreases firsts
      {
        var f :| f in firsts;
        firsts := firsts - {f};
        count, done := CountLasts(d, s, f, count, done);
      }
    }

    /** The innermost level: the nodes of one first character. */
    method CountLasts(d: nat, s: nat, f: Byte, start: nat, ghost before: set<Bucket>)
      returns (count: nat, ghost done: set<Bucket>)
      requires Valid() && d in root && s in root[d] && f in root[d][s] && start == |Seen(view, before)|
      requires forall b :: b in before ==> b.device != d || b.size != s || b.first != f
      ensures forall b :: b in done <==> b in before || (b in nodes && b.device == d && b.size == s && b.first == f)
      ensures count == |Seen(view, done)|
    {
      hide Seen, Grown, AllHonest;
      count, done := start, before;
      var lasts := root[d][s][f].Keys;
      while lasts != {}
        invariant forall b :: b in done <==>
                                b in before
                                || (b in nodes && b.device == d && b.size == s && b.first == f && b.last !in lasts)
        invariant lasts <= root[d][s][f].Keys && count == |Seen(view, done)|
        decreases lasts
      {
        var l :| l in lasts;
        lasts := lasts - {l};
        ghost var b := Bucket(d, s, f, l);
        assert Reaches(root, b);
        SeenAdd(view, done, b);
        count := count + |root[d][s][f][l].children|;
        done := done + {b};
      }
    }
  }
}
