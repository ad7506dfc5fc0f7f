/** The first phase of dedup.c on values: what visiting one file does to the history of the
    visited tree, to the duplicate lists and to the count of duplicates found. */
module Visiting {
  import opened Types
  import opened Twins
  import opened Duplicates

  /** First and last character and clone id of the files that can be opened. */
  datatype Probe = Probe(first: Byte, last: Byte, cloneId: nat)
  type Probes = map<Path, Probe>

  function MetadataFromEntry(probes: Probes, e: FileEntry): Option<FileMetadata> {
    if e.path in probes then
      var p := probes[e.path];
      Some(FileMetadata(e.device, e.inode, e.nlink, e.flags, p.cloneId, e.size, e.path, 0, p.first, p.last))
    else None
  }

  /** The metadata of the entries that could be opened, in order. */
  function Opened(probes: Probes, entries: seq<FileEntry>): seq<FileMetadata> {
    if entries == [] then []
    else
      var n := |entries| - 1;
      var m := MetadataFromEntry(probes, entries[n]);
      if m.Some? then Opened(probes, entries[..n]) + [m.value] else Opened(probes, entries[..n])
  }

  lemma OpenedSnoc(probes: Probes, entries: seq<FileEntry>, e: FileEntry)
    ensures Opened(probes, entries + [e]) ==
            var m := MetadataFromEntry(probes, e);
            if m.Some? then Opened(probes, entries) + [m.value] else Opened(probes, entries)
  {
    assert (entries + [e])[..|entries|] == entries;
  }

  /** A list that is still empty gets the twin first. */
  function WithHead(lists: Lists, fm: FileMetadata, twin: FileMetadata): Lists {
    if fm.sha256 in lists && lists[fm.sha256] != [] then lists else lists[fm.sha256 := [twin]]
  }

  function WithTail(lists: Lists, fm: FileMetadata): Lists {
    lists[fm.sha256 := (if fm.sha256 in lists then lists[fm.sha256] else []) + [fm]]
  }

  /** The two as `duplicate_tree_find`, `alist_empty` and `alist_add` perform them. */
  lemma ListingSteps(lists: Lists, fm: FileMetadata, twin: FileMetadata)
    ensures var k := fm.sha256;
            var found := if k in lists then lists else lists[k := []];
            var headed := if found[k] == [] then found[k := found[k] + [twin]] else found;
            headed[k := headed[k] + [fm]] == WithTail(WithHead(lists, fm, twin), fm)
  {
    var k := fm.sha256;
    var found := if k in lists then lists else lists[k := []];
    if found[k] == [] {
      assert found[k] + [twin] == [twin];
      assert found[k := [twin]] == lists[k := [twin]];
    }
  }

  datatype Phase = Phase(history: seq<FileMetadata>, lists: Lists, found: nat)

  function Visit(hashes: Hashes, s: Phase, fm: FileMetadata): (s': Phase)
    ensures s'.history == s.history + [fm]
  {
    var twin := Twin(hashes, s.history, fm);
    if twin.None? then s.(history := s.history + [fm])
    else
      var filled := Hashed(hashes, fm);
      Phase(s.history + [fm], WithTail(WithHead(s.lists, filled, twin.value), filled),
            s.found + if fm.cloneId != twin.value.cloneId then 1 else 0)
  }

  /** What a visit does, told by the answer of the visited tree and the record with its digest. */
  lemma VisitByAnswer(hashes: Hashes, s: Phase, fm: FileMetadata, filled: FileMetadata)
    requires Twin(hashes, s.history, fm).Some? ==> Hashable(hashes, fm.path) && filled == Hashed(hashes, fm)
    ensures var twin := Twin(hashes, s.history, fm);
            Visit(hashes, s, fm) ==
            if twin.None? then Phase(s.history + [fm], s.lists, s.found)
            else
              Phase(s.history + [fm], WithTail(WithHead(s.lists, filled, twin.value), filled),
                    if filled.cloneId != twin.value.cloneId then s.found + 1 else s.found)
  {
  }

  /** Visiting the files one after the other. */
  function Serial(hashes: Hashes, files: seq<FileMetadata>): Phase {
    if files == [] then Phase([], map[], 0)
    else Visit(hashes, Serial(hashes, files[..|files| - 1]), files[|files| - 1])
  }

  lemma SerialSnoc(hashes: Hashes, files: seq<FileMetadata>, fm: FileMetadata)
    ensures Serial(hashes, files + [fm]) == Visit(hashes, Serial(hashes, files), fm)
  {
    assert (files + [fm])[..|files|] == files;
  }

  lemma {:induction false} SerialHistory(hashes: Hashes, files: seq<FileMetadata>)
    ensures Serial(hashes, files).history == files
  {
    if files != [] {
      var earlier, fm := files[..|files| - 1], files[|files| - 1];
      assert files == earlier + [fm];
      SerialHistory(hashes, earlier);
      SerialSnoc(hashes, earlier, fm);
    }
  }
}
