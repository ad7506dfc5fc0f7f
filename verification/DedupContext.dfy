/** The first phase of dedup.c as it runs with a thread count of zero: the producer queues an
    entry and does its work at once. */
module DedupContexts {
  import opened Types
  import opened Twins
  import opened Queues
  import opened Visited
  import opened Duplicates
  import opened Visiting

  class DedupContext {
    const probes: Probes
    const queue: FileEntryQueue
    const visited: VisitedTree
    const duplicates: DuplicateTree
    var found: nat
    var done: bool
    ghost var entries: seq<FileEntry>

    ghost function Phase(): Phase
      reads this, visited, duplicates
    {
      Visiting.Phase(visited.history, duplicates.contents, found)
    }

    /** The state is the one reached by visiting the popped entries one after the other. */
    ghost predicate Valid()
      reads this, queue, visited, visited.nodes.Values, duplicates,
            duplicates.listHome.Keys, duplicates.bufferHome.Keys
    {
      visited.Valid() && duplicates.Valid()
      && Phase() == Serial(visited.hashes, Opened(probes, entries))
    }

    /** Every object that has joined a tree since is new. */
    twostate predicate OnlyNew()
      reads this, visited, duplicates
    {
      fresh(visited.nodes.Values - old(visited.nodes.Values)) && duplicates.OnlyNew()
    }

    constructor (probes: Probes, hashes: Hashes)
      ensures Valid() && visited.hashes == hashes && this.probes == probes
      ensures queue.entries == [] && entries == [] && !done
      ensures fresh(queue) && fresh(visited) && fresh(duplicates)
      ensures visited.nodes == map[] && duplicates.listHome == map[] && duplicates.bufferHome == map[]
    {
      this.probes := probes;
      queue := new FileEntryQueue();
      visited := new VisitedTree(hashes);
      duplicates := new DuplicateTree();
      found, done, entries := 0, false, [];
    }

    /** Put a file on the list of its digest, after its twin when the list is new. */
    method ListDuplicate(fm: FileMetadata, twin: FileMetadata)
      requires duplicates.Valid()
      modifies duplicates, duplicates.listHome.Keys, duplicates.bufferHome.Keys
      ensures duplicates.Valid()
      ensures duplicates.contents == WithTail(WithHead(old(duplicates.contents), fm, twin), fm)
      ensures duplicates.OnlyNew()
    {
      hide WithHead, WithTail, DuplicateTree.Valid;
      ListingSteps(duplicates.contents, fm, twin);
      var list := duplicates.Find(fm);
      if list.Empty() {
        duplicates.Add(list, fm.sha256, twin);
      }
      duplicates.Add(list, fm.sha256, fm);
    }

    /** List a file that has a twin, and count it unless the two are clones already. */
    method CountDuplicate(fm: FileMetadata, twin: FileMetadata)
      requires duplicates.Valid()
      modifies this`found, duplicates, duplicates.listHome.Keys, duplicates.bufferHome.Keys
      ensures duplicates.Valid() && duplicates.OnlyNew()
      ensures duplicates.contents == WithTail(WithHead(old(duplicates.contents), fm, twin), fm)
      ensures found == if fm.cloneId != twin.cloneId then old(found) + 1 else old(found)
    {
      hide WithHead, WithTail, DuplicateTree.Valid;
      ListDuplicate(fm, twin);
      if fm.cloneId != twin.cloneId {
        found := found + 1;
      }
    }

    /** Insert a file, and list it when it has a twin. */
    method VisitFile(fm: FileMetadata)
      requires visited.Valid() && duplicates.Valid() && Honest(visited.hashes, fm)
      modifies this`found, visited, visited.nodes.Values, duplicates,
               duplicates.listHome.Keys, duplicates.bufferHome.Keys
      ensures visited.Valid() && duplicates.Valid()
      ensures Phase() == Visit(visited.hashes, old(Phase()), fm)
      ensures OnlyNew()
    {
      hide Twin, Hashed, Visit, WithHead, WithTail, Honest, Hashable, VisitedTree.Valid, DuplicateTree.Valid;
      var twin, filled := visited.Insert(fm);
      VisitByAnswer(visited.hashes, old(Phase()), fm, filled);
      if twin.Some? {
        CountDuplicate(filled, twin.value);
      }
    }

    method VisitEntry(fe: FileEntry)
      requires Valid()
      modifies this`found, this`entries, visited, visited.nodes.Values, duplicates,
               duplicates.listHome.Keys, duplicates.bufferHome.Keys
      ensures Valid() && entries == old(entries) + [fe]
      ensures OnlyNew()
    {
      hide Serial, Opened, Visit, VisitedTree.Valid, DuplicateTree.Valid;
      OpenedSnoc(probes, entries, fe);
      var metadata := MetadataFromEntry(probes, fe);
      if metadata.Some? {
        SerialSnoc(visited.hashes, Opened(probes, entries), metadata.value);
        VisitFile(metadata.value);
      }
      entries := entries + [fe];
    }

    /** `dedup_work` called by the producer itself: take the entry just queued and visit it.
        With nothing queued and `done` unset the loop would poll for ever. */
    method DedupWork()
      requires Valid() && (done || queue.entries != [])
      modifies this`found, this`entries, queue, visited, visited.nodes.Values, duplicates,
               duplicates.listHome.Keys, duplicates.bufferHome.Keys
      ensures Valid()
      ensures OnlyNew()
      ensures if old(done) then entries == old(entries) && queue.entries == old(queue.entries)
              else entries == old(entries) + [old(queue.entries)[0]]
                   && queue.entries == old(queue.entries)[1..]
    {
      hide Serial, Opened, VisitedTree.Valid, DuplicateTree.Valid;
      var finished := done;
      if finished {
        return;
      }
      var fe := queue.Next();
      VisitEntry(fe.value);
    }

    /** One round of the producer's loop: the entry is queued, taken and visited. */
    method Produce(e: FileEntry)
      requires Valid() && queue.entries == [] && !done
      modifies this`found, this`entries, queue, visited, visited.nodes.Values, duplicates,
               duplicates.listHome.Keys, duplicates.bufferHome.Keys
      ensures Valid() && queue.entries == [] && entries == old(entries) + [e] && OnlyNew()
    {
      hide Serial, Opened, VisitedTree.Valid, DuplicateTree.Valid;
      queue.Append(e.path, e.device, e.inode, e.nlink, e.flags, e.size, e.level);
      assert queue.entries == [e];
      DedupWork();
    }

    method ProduceSerially(work: seq<FileEntry>)
      requires Valid() && queue.entries == [] && !done
      modifies this, queue, visited, visited.nodes.Values, duplicates,
               duplicates.listHome.Keys, duplicates.bufferHome.Keys
      ensures Valid() && done && queue.entries == [] && entries == old(entries) + work
    {
      hide Serial, Opened, VisitedTree.Valid, DuplicateTree.Valid;
      for i := 0 to |work|
        invariant Valid() && queue.entries == [] && !done && OnlyNew()
        invariant entries == old(entries) + work[..i]
      {
        Produce(work[i]);
        assert work[..i + 1] == work[..i] + [work[i]];
      }
      done := true;
    }
  }
}
