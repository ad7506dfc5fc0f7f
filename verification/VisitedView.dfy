/** What the nodes of a visited tree say about the files inserted so far. */
module VisitedView {
  import opened Types
  import opened Twins

  /** A last-character node: a stashed file, or a tree of hashed files. */
  datatype Slot = Slot(fm: Option<FileMetadata>, children: map<nat, FileMetadata>)

  type View = map<Bucket, Slot>

  /** A node holds one stashed file and no children, or no stash and at least two children.
      Every child sits under its own digest, and every file under its own bucket. */
  predicate Shape(hashes: Hashes, b: Bucket, slot: Slot) {
    (if slot.fm.Some? then slot.children == map[] else |slot.children| >= 2)
    && (slot.fm.Some? ==> slot.fm.value.Key() == b && Honest(hashes, slot.fm.value))
    && forall k :: k in slot.children ==>
                     slot.children[k].sha256 == k && Honest(hashes, slot.children[k]) && k != 0
                     && slot.children[k].Key() == b
  }

  /** The file that a search of the node for this digest would find, once its stash is hashed. */
  function Lookup(hashes: Hashes, slot: Slot, digest: nat): Option<FileMetadata> {
    if slot.fm.Some? then
      var f := slot.fm.value;
      if Hashable(hashes, f.path) && hashes[f.path] == digest then Some(Hashed(hashes, f)) else None
    else if digest in slot.children then Some(slot.children[digest])
    else None
  }

  function LookupAt(hashes: Hashes, view: View, b: Bucket, digest: nat): Option<FileMetadata> {
    if b in view then Lookup(hashes, view[b], digest) else None
  }

  /** The tree knows, for every bucket and digest, the earliest readable file inserted. */
  ghost predicate Represents(hashes: Hashes, history: seq<FileMetadata>, view: View) {
    (forall b :: b in view ==> Shape(hashes, b, view[b]))
    && forall b, k :: k != 0 ==> Earliest(hashes, history, b, k) == LookupAt(hashes, view, b, k)
  }

  /** Inserting a file may change its own node only, and only so that the node's answers
      become those of the longer history. */
  lemma Extend(hashes: Hashes, history: seq<FileMetadata>, view: View, fm: FileMetadata, slot: Slot)
    requires Represents(hashes, history, view) && Shape(hashes, fm.Key(), slot)
    requires forall k :: k != 0 ==>
                           Lookup(hashes, slot, k) ==
                           var e := LookupAt(hashes, view, fm.Key(), k);
                           if e.Some? then e
                           else if Matches(hashes, fm, fm.Key(), k) then Some(Hashed(hashes, fm))
                           else None
    ensures Represents(hashes, history + [fm], view[fm.Key() := slot])
  {
    var view' := view[fm.Key() := slot];
    forall b, k | k != 0
      ensures Earliest(hashes, history + [fm], b, k) == LookupAt(hashes, view', b, k)
    {
      EarliestSnoc(hashes, history, fm, b, k);
    }
  }

  // ----- Hashing cost -----

  predicate Unhashed(slot: Slot) {
    slot.fm.Some? && slot.fm.value.sha256 == 0
  }

  /** Buckets whose stash has not been hashed. */
  function Pending(view: View): set<Bucket> {
    set b | b in view && Unhashed(view[b])
  }

  predicate Owes(slot: Slot, p: Path) {
    Unhashed(slot) && slot.fm.value.path == p
  }

  /** Those whose stash is the file at `p`. */
  function PendingAt(view: View, p: Path): set<Bucket> {
    set b | b in view && Owes(view[b], p)
  }

  /** Paths inserted with an empty digest, as often as they were inserted. */
  function EmptyInserts(history: seq<FileMetadata>): multiset<Path> {
    if history == [] then multiset{}
    else
      var n := |history| - 1;
      EmptyInserts(history[..n]) + if history[n].sha256 == 0 then multiset{history[n].path} else multiset{}
  }

  /** Every file inserted with an empty digest was hashed once or is stashed unhashed. */
  ghost predicate Cost(history: seq<FileMetadata>, attempts: seq<Path>, view: View) {
    |attempts| + |Pending(view)| == |EmptyInserts(history)|
    && forall p :: multiset(attempts)[p] + |PendingAt(view, p)| == EmptyInserts(history)[p]
  }

  function UnhashedAt(view: View, b: Bucket): nat {
    if b in view && Unhashed(view[b]) then 1 else 0
  }

  lemma PendingUpdate(view: View, b: Bucket, slot: Slot)
    ensures |Pending(view[b := slot])| + UnhashedAt(view, b) ==
            |Pending(view)| + if Unhashed(slot) then 1 else 0
  {
    var rest := Pending(view) - {b};
    hide Unhashed;
    if b in view && Unhashed(view[b]) {
      assert Pending(view) == rest + {b};
    } else {
      assert Pending(view) == rest;
    }
    if Unhashed(slot) {
      assert Pending(view[b := slot]) == rest + {b};
    } else {
      assert Pending(view[b := slot]) == rest;
    }
  }

  function OwedAt(view: View, b: Bucket, p: Path): nat {
    if b in view && Owes(view[b], p) then 1 else 0
  }

  lemma PendingAtUpdate(view: View, b: Bucket, slot: Slot, p: Path)
    ensures |PendingAt(view[b := slot], p)| + OwedAt(view, b, p) ==
            |PendingAt(view, p)| + if Owes(slot, p) then 1 else 0
  {
    hide Owes;
    var rest := PendingAt(view, p) - {b};
    if b in view && Owes(view[b], p) {
      assert PendingAt(view, p) == rest + {b};
    } else {
      assert PendingAt(view, p) == rest;
    }
    if Owes(slot, p) {
      assert PendingAt(view[b := slot], p) == rest + {b};
    } else {
      assert PendingAt(view[b := slot], p) == rest;
    }
  }

  function Own(fm: FileMetadata, p: Path): nat {
    if fm.sha256 == 0 && fm.path == p then 1 else 0
  }

  lemma EmptyInsertsSnoc(history: seq<FileMetadata>, fm: FileMetadata, p: Path)
    ensures EmptyInserts(history + [fm])[p] == EmptyInserts(history)[p] + Own(fm, p)
    ensures |EmptyInserts(history + [fm])| == |EmptyInserts(history)| + if fm.sha256 == 0 then 1 else 0
  {
    assert (history + [fm])[..|history|] == history;
  }

  /** An insertion keeps the cost equation when what it hashed and what its node still owes
      is what the node owed before plus the new file. */
  lemma CostStep(history: seq<FileMetadata>, attempts: seq<Path>, view: View,
                 fm: FileMetadata, hashed: seq<Path>, slot: Slot)
    requires Cost(history, attempts, view)
    requires |hashed| + (if Unhashed(slot) then 1 else 0) ==
             UnhashedAt(view, fm.Key()) + if fm.sha256 == 0 then 1 else 0
    requires forall p :: multiset(hashed)[p] + (if Owes(slot, p) then 1 else 0) ==
                         OwedAt(view, fm.Key(), p) + Own(fm, p)
    ensures Cost(history + [fm], attempts + hashed, view[fm.Key() := slot])
  {
    PendingUpdate(view, fm.Key(), slot);
    EmptyInsertsSnoc(history, fm, fm.path);
    forall p
      ensures multiset(attempts + hashed)[p] + |PendingAt(view[fm.Key() := slot], p)| ==
              EmptyInserts(history + [fm])[p]
    {
      PendingAtUpdate(view, fm.Key(), slot, p);
      EmptyInsertsSnoc(history, fm, p);
      assert multiset(attempts + hashed) == multiset(attempts) + multiset(hashed);
      assert multiset(hashed)[p] + (if Owes(slot, p) then 1 else 0) == OwedAt(view, fm.Key(), p) + Own(fm, p);
    }
  }

  // ----- Files alone in their bucket -----

  predicate Alone(history: seq<FileMetadata>, i: nat)
    requires i < |history|
  {
    forall j :: 0 <= j < |history| && j != i ==> history[j].Key() != history[i].Key()
  }

  /** Nodes exist for the buckets seen, and a file alone in its bucket is stashed as it came. */
  ghost predicate Lone(history: seq<FileMetadata>, view: View) {
    (forall b :: b in view <==> exists i :: 0 <= i < |history| && history[i].Key() == b)
    && forall i :: 0 <= i < |history| && Alone(history, i) ==>
                     view[history[i].Key()] == Slot(Some(history[i]), map[])
  }

  lemma LoneStep(history: seq<FileMetadata>, view: View, fm: FileMetadata, slot: Slot)
    requires Lone(history, view)
    requires fm.Key() !in view ==> slot == Slot(Some(fm), map[])
    ensures Lone(history + [fm], view[fm.Key() := slot])
  {
    var history', view' := history + [fm], view[fm.Key() := slot];
    forall b
      ensures b in view' <==> exists i :: 0 <= i < |history'| && history'[i].Key() == b
    {
      if b in view {
        var i :| 0 <= i < |history| && history[i].Key() == b;
        assert history'[i].Key() == b;
      }
      if b == fm.Key() {
        assert history'[|history|].Key() == b;
      }
      if i :| 0 <= i < |history'| && history'[i].Key() == b {
        assert i < |history| ==> history[i].Key() == b;
      }
    }
    if fm.Key() in view {
      var j :| 0 <= j < |history| && history[j].Key() == fm.Key();
      assert history'[j].Key() == history'[|history|].Key();
      assert !Alone(history', |history|);
    }
    forall i | 0 <= i < |history'| && Alone(history', i)
      ensures view'[history'[i].Key()] == Slot(Some(history'[i]), map[])
    {
      if i < |history| {
        assert history'[|history|].Key() != history'[i].Key();
        forall j | 0 <= j < |history| && j != i ensures history[j].Key() != history[i].Key() {
          assert history'[j].Key() != history'[i].Key();
        }
      }
    }
  }

  // ----- One insertion -----

  function Hash(fm: FileMetadata): seq<Path> {
    if fm.sha256 == 0 then [fm.path] else []
  }

  /** A second file reaches a bucket that holds only the stash: the slot that it leaves, and
      the files hashed on the way. */
  function Meet(hashes: Hashes, stash: FileMetadata, fm: FileMetadata): (Slot, seq<Path>) {
    if !Hashable(hashes, stash.path) then (Slot(Some(fm), map[]), Hash(stash))
    else
      var kept := Hashed(hashes, stash);
      if !Hashable(hashes, fm.path) || hashes[fm.path] == kept.sha256 then
        (Slot(Some(kept), map[]), Hash(stash) + Hash(fm))
      else
        (Slot(None, map[kept.sha256 := kept, hashes[fm.path] := Hashed(hashes, fm)]), Hash(stash) + Hash(fm))
  }

  /** A file reaches a bucket that is already split by digest. */
  function Join(hashes: Hashes, slot: Slot, fm: FileMetadata): Slot {
    if !Hashable(hashes, fm.path) || hashes[fm.path] in slot.children then slot
    else slot.(children := slot.children[hashes[fm.path] := Hashed(hashes, fm)])
  }

  /** What inserting `fm` does to its node, a freshly created one being empty. */
  function Next(hashes: Hashes, slot: Slot, fm: FileMetadata): (Slot, seq<Path>) {
    if slot.fm.Some? then Meet(hashes, slot.fm.value, fm)
    else if slot.children == map[] then (Slot(Some(fm), map[]), [])
    else (Join(hashes, slot, fm), Hash(fm))
  }

  function SlotAt(view: View, b: Bucket): Slot {
    if b in view then view[b] else Slot(None, map[])
  }

  /** The answer that the node gives, before it changes. */
  function Answer(hashes: Hashes, slot: Slot, fm: FileMetadata): Option<FileMetadata> {
    if Hashable(hashes, fm.path) then Lookup(hashes, slot, hashes[fm.path]) else None
  }

  lemma TwoKeys<T>(m: map<nat, T>, j: nat, k: nat)
    requires j in m && k in m && j != k
    ensures |m| >= 2
  {
    assert {j, k} <= m.Keys;
    var rest := m.Keys - {j, k};
    assert m.Keys == rest + {j, k};
  }

  lemma MeetKeepsShape(hashes: Hashes, stash: FileMetadata, fm: FileMetadata)
    requires Honest(hashes, fm) && Honest(hashes, stash) && stash.Key() == fm.Key()
    ensures Shape(hashes, fm.Key(), Meet(hashes, stash, fm).0)
  {
    var slot := Meet(hashes, stash, fm).0;
    if slot.fm.None? {
      TwoKeys(slot.children, hashes[stash.path], hashes[fm.path]);
    }
  }

  lemma JoinKeepsShape(hashes: Hashes, slot: Slot, fm: FileMetadata)
    requires Honest(hashes, fm) && Shape(hashes, fm.Key(), slot) && slot.fm.None?
    ensures Shape(hashes, fm.Key(), Join(hashes, slot, fm))
  {
    var slot' := Join(hashes, slot, fm);
    if slot' != slot {
      assert slot'.children.Keys == slot.children.Keys + {hashes[fm.path]};
      assert |slot'.children| == |slot.children.Keys| + 1;
    }
  }

  lemma NextKeepsShape(hashes: Hashes, view: View, fm: FileMetadata)
    requires Honest(hashes, fm)
    requires forall b :: b in view ==> Shape(hashes, b, view[b])
    ensures Shape(hashes, fm.Key(), Next(hashes, SlotAt(view, fm.Key()), fm).0)
  {
    if fm.Key() in view {
      var was := view[fm.Key()];
      assert Shape(hashes, fm.Key(), was);
      if was.fm.Some? {
        MeetKeepsShape(hashes, was.fm.value, fm);
      } else {
        JoinKeepsShape(hashes, was, fm);
      }
    }
  }

  lemma NextAnswers(hashes: Hashes, view: View, fm: FileMetadata, k: nat)
    requires Honest(hashes, fm) && k != 0
    requires forall b :: b in view ==> Shape(hashes, b, view[b])
    ensures Lookup(hashes, Next(hashes, SlotAt(view, fm.Key()), fm).0, k) ==
            var e := LookupAt(hashes, view, fm.Key(), k);
            if e.Some? then e
            else if Matches(hashes, fm, fm.Key(), k) then Some(Hashed(hashes, fm))
            else None
  {
    if fm.Key() in view {
      assert Shape(hashes, fm.Key(), view[fm.Key()]);
    }
  }

  lemma MeetPays(hashes: Hashes, stash: FileMetadata, fm: FileMetadata, p: Path)
    requires Honest(hashes, fm) && Honest(hashes, stash)
    ensures var (slot, hashed) := Meet(hashes, stash, fm);
            |hashed| + (if Unhashed(slot) then 1 else 0) == |Hash(stash)| + |Hash(fm)|
            && multiset(hashed)[p] + (if Owes(slot, p) then 1 else 0) ==
               multiset(Hash(stash))[p] + multiset(Hash(fm))[p]
  {
    assert multiset(Hash(stash) + Hash(fm)) == multiset(Hash(stash)) + multiset(Hash(fm));
  }

  lemma SlotPays(hashes: Hashes, slot: Slot, fm: FileMetadata, p: Path)
    requires Honest(hashes, fm) && (slot.fm.Some? ==> Honest(hashes, slot.fm.value))
    ensures var (slot', hashed) := Next(hashes, slot, fm);
            |hashed| + (if Unhashed(slot') then 1 else 0) == (if Unhashed(slot) then 1 else 0) + |Hash(fm)|
            && multiset(hashed)[p] + (if Owes(slot', p) then 1 else 0) ==
               (if Owes(slot, p) then 1 else 0) + multiset(Hash(fm))[p]
  {
    if slot.fm.Some? {
      MeetPays(hashes, slot.fm.value, fm, p);
      hide Meet;
    }
  }

  lemma NextPays(hashes: Hashes, view: View, fm: FileMetadata, p: Path)
    requires Honest(hashes, fm)
    requires forall b :: b in view ==> Shape(hashes, b, view[b])
    ensures var (slot, hashed) := Next(hashes, SlotAt(view, fm.Key()), fm);
            |hashed| + (if Unhashed(slot) then 1 else 0) ==
            UnhashedAt(view, fm.Key()) + (if fm.sha256 == 0 then 1 else 0)
            && multiset(hashed)[p] + (if Owes(slot, p) then 1 else 0) ==
               OwedAt(view, fm.Key(), p) + Own(fm, p)
  {
    assert multiset(Hash(fm))[p] == Own(fm, p);
    assert fm.Key() in view ==> Shape(hashes, fm.Key(), view[fm.Key()]);
    SlotPays(hashes, SlotAt(view, fm.Key()), fm, p);
    hide Next;
  }

  lemma AnswerIsTwin(hashes: Hashes, history: seq<FileMetadata>, view: View, fm: FileMetadata)
    requires Represents(hashes, history, view)
    ensures Answer(hashes, SlotAt(view, fm.Key()), fm) == Twin(hashes, history, fm)
  {
    if Hashable(hashes, fm.path) {
      assert Earliest(hashes, history, fm.Key(), hashes[fm.path]) ==
             LookupAt(hashes, view, fm.Key(), hashes[fm.path]);
    }
  }

  /** Leaving that slot and hashing those files keeps everything the tree must know, and the
      node's answer is the twin. */
  lemma InsertionIsRight(hashes: Hashes, history: seq<FileMetadata>, view: View, attempts: seq<Path>,
                       fm: FileMetadata)
    requires Represents(hashes, history, view) && Cost(history, attempts, view) && Lone(history, view)
    requires Honest(hashes, fm)
    ensures var (slot, hashed) := Next(hashes, SlotAt(view, fm.Key()), fm);
            var view' := view[fm.Key() := slot];
            Represents(hashes, history + [fm], view') && Cost(history + [fm], attempts + hashed, view')
            && Lone(history + [fm], view')
    ensures Answer(hashes, SlotAt(view, fm.Key()), fm) == Twin(hashes, history, fm)
    ensures var slot := SlotAt(view, fm.Key());
            slot.fm.Some? ==> slot.children == map[] && Honest(hashes, slot.fm.value)
  {
    AnswerIsTwin(hashes, history, view, fm);
    assert fm.Key() in view ==> Shape(hashes, fm.Key(), view[fm.Key()]);
    NextKeepsShape(hashes, view, fm);
    var (slot, hashed) := Next(hashes, SlotAt(view, fm.Key()), fm);
    forall k | k != 0 {
      NextAnswers(hashes, view, fm, k);
    }
    Extend(hashes, history, view, fm, slot);
    NextPays(hashes, view, fm, fm.path);
    forall p {
      NextPays(hashes, view, fm, p);
    }
    CostStep(history, attempts, view, fm, hashed, slot);
    LoneStep(history, view, fm, slot);
  }

  // ----- Every run of insertions -----

  predicate AllHonest(hashes: Hashes, history: seq<FileMetadata>) {
    forall i :: 0 <= i < |history| ==> Honest(hashes, history[i])
  }

  /** The tree after a run of insertions, and the files hashed on the way, in order. */
  function Grown(hashes: Hashes, history: seq<FileMetadata>): (View, seq<Path>) {
    if history == [] then (map[], [])
    else
      var n := |history| - 1;
      var (view, attempts) := Grown(hashes, history[..n]);
      var (slot, hashed) := Next(hashes, SlotAt(view, history[n].Key()), history[n]);
      (view[history[n].Key() := slot], attempts + hashed)
  }

  /** In every reachable tree: each node answers for the whole history, is either one stash
      or at least two digests, and every file was hashed once or still waits unhashed. */
  lemma {:induction false} EveryRun(hashes: Hashes, history: seq<FileMetadata>)
    requires AllHonest(hashes, history)
    ensures var (view, attempts) := Grown(hashes, history);
            Represents(hashes, history, view) && Cost(history, attempts, view) && Lone(history, view)
  {
    if history == [] {
      return;
    }
    hide Represents, Cost, Lone, Next, Shape;
    var earlier, fm := history[..|history| - 1], history[|history| - 1];
    assert history == earlier + [fm];
    EveryRun(hashes, earlier);
    var (view, attempts) := Grown(hashes, earlier);
    InsertionIsRight(hashes, earlier, view, attempts, fm);
  }

  /** For every run, the next insertion answers the earliest readable twin, and its node is
      empty, one stash, or split. */
  lemma {:induction false} InsertAnswersTwin(hashes: Hashes, history: seq<FileMetadata>, fm: FileMetadata)
    requires AllHonest(hashes, history) && Honest(hashes, fm)
    ensures var was := SlotAt(Grown(hashes, history).0, fm.Key());
            Answer(hashes, was, fm) == Twin(hashes, history, fm)
            && (was.fm.Some? ==> was.children == map[] && Honest(hashes, was.fm.value))
  {
    hide Represents, Cost, Lone;
    EveryRun(hashes, history);
    var (view, attempts) := Grown(hashes, history);
    InsertionIsRight(hashes, history, view, attempts, fm);
  }

  lemma GrownSnoc(hashes: Hashes, history: seq<FileMetadata>, fm: FileMetadata)
    ensures var (view, attempts) := Grown(hashes, history);
            var (slot, hashed) := Next(hashes, SlotAt(view, fm.Key()), fm);
            Grown(hashes, history + [fm]) == (view[fm.Key() := slot], attempts + hashed)
  {
    assert (history + [fm])[..|history|] == history;
  }

  /** With distinct paths and empty digests, no file is hashed twice; hashing attempts and
      unhashed stashes add up to the insertions. */
  lemma {:induction false} HashedAtMostOnce(hashes: Hashes, history: seq<FileMetadata>, p: Path)
    requires AllHonest(hashes, history)
    requires EmptyInserts(history)[p] <= 1
    ensures var (view, attempts) := Grown(hashes, history);
            multiset(attempts)[p] <= 1 && |attempts| + |Pending(view)| == |EmptyInserts(history)|
  {
    EveryRun(hashes, history);
  }

  /** Every other file is on another device, or differs in size, first or last character. */
  predicate Unlike(history: seq<FileMetadata>, i: nat)
    requires i < |history|
  {
    forall j :: 0 <= j < |history| && j != i ==>
                  history[j].device != history[i].device || history[j].size != history[i].size
                  || history[j].first != history[i].first || history[j].last != history[i].last
  }

  /** A file that no other file could equal is never hashed. */
  lemma AloneIsNeverHashed(hashes: Hashes, history: seq<FileMetadata>, i: nat)
    requires AllHonest(hashes, history)
    requires i < |history| && history[i].sha256 == 0 && Unlike(history, i)
    requires EmptyInserts(history)[history[i].path] <= 1
    ensures history[i].path !in Grown(hashes, history).1
  {
    EveryRun(hashes, history);
    var (view, attempts) := Grown(hashes, history);
    assert Alone(history, i);
    assert history[i].Key() in PendingAt(view, history[i].path);
    assert |PendingAt(view, history[i].path)| >= 1;
  }

  // ----- Counting -----

  /** The digests held in split nodes, each with its bucket. */
  function SplitDigests(view: View): set<(Bucket, nat)> {
    set b, k | b in view && k in view[b].children :: (b, k)
  }

  function Seen(view: View, done: set<Bucket>): set<(Bucket, nat)> {
    set b, k | b in done && b in view && k in view[b].children :: (b, k)
  }

  function Tagged(b: Bucket, keys: set<nat>): set<(Bucket, nat)> {
    set k | k in keys :: (b, k)
  }

  lemma {:induction false} TaggedSize(b: Bucket, keys: set<nat>)
    ensures |Tagged(b, keys)| == |keys|
  {
    if k :| k in keys {
      TaggedSize(b, keys - {k});
      assert Tagged(b, keys) == Tagged(b, keys - {k}) + {(b, k)};
    } else {
      assert Tagged(b, keys) == {};
    }
  }

  lemma SeenAdd(view: View, done: set<Bucket>, b: Bucket)
    requires b in view && b !in done
    ensures |Seen(view, done + {b})| == |Seen(view, done)| + |view[b].children|
  {
    var keys := view[b].children.Keys;
    TaggedSize(b, keys);
    assert Seen(view, done + {b}) == Seen(view, done) + Tagged(b, keys);
    assert |view[b].children| == |keys|;
  }

  lemma AnotherDigest(children: map<nat, FileMetadata>, k: nat) returns (j: nat)
    requires k in children && |children| >= 2
    ensures j in children && j != k
  {
    var rest := children.Keys - {k};
    assert |children| == |children.Keys| && children.Keys == rest + {k};
    assert |rest| >= 1;
    j :| j in rest;
  }

  /** What `Count` counts: a digest counts exactly when its bucket holds a readable file
      with it and has been split, that is, once two readable digests met there. */
  lemma {:induction false} SplitDigestsMeaning(hashes: Hashes, history: seq<FileMetadata>, b: Bucket, k: nat)
    requires AllHonest(hashes, history)
    ensures (b, k) in SplitDigests(Grown(hashes, history).0) <==>
            k != 0 && Earliest(hashes, history, b, k).Some?
            && exists j :: j != 0 && j != k && Earliest(hashes, history, b, j).Some?
  {
    EveryRun(hashes, history);
    hide Earliest, AllHonest, Grown, Honest;
    var view := Grown(hashes, history).0;
    forall j | j != 0
      ensures Earliest(hashes, history, b, j) == LookupAt(hashes, view, b, j)
    {
    }
    if b in view && k in view[b].children {
      assert Shape(hashes, b, view[b]);
      var j := AnotherDigest(view[b].children, k);
      assert Earliest(hashes, history, b, j).Some?;
    }
  }
}
