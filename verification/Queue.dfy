/** The work queue of queue.c: entries leave in the order in which they were appended. */
module Queues {
  import opened Types

  class FileEntryQueue {
    var entries: seq<FileEntry>

    constructor ()
      ensures entries == []
    {
      entries := [];
    }

    method Append(path: Path, device: nat, inode: nat, nlink: nat, flags: bv32, size: nat, level: int)
      modifies this
      ensures entries == old(entries) + [FileEntry(path, device, inode, nlink, flags, size, level)]
    {
      entries := entries + [FileEntry(path, device, inode, nlink, flags, size, level)];
    }

    method Next() returns (e: Option<FileEntry>)
      modifies this
      ensures if old(entries) == [] then e == None && entries == []
              else e.Some? && [e.value] + entries == old(entries)
    {
      if entries == [] {
        return None;
      }
      e := Some(entries[0]);
      entries := entries[1..];
    }
  }
}
