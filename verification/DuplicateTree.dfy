/** The duplicate tree of map.c: one list of files for every digest met twice. */
module Duplicates {
  import opened Types
  import opened ALists

  type Lists = map<nat, seq<FileMetadata>>

  class DuplicateTree {
    var lists: map<nat, AList<FileMetadata>>
    /** What the lists hold, and which digest every list and every buffer belongs to. */
    ghost var contents: Lists
    ghost var listHome: map<AList<FileMetadata>, nat>
    ghost var bufferHome: map<array<FileMetadata>, nat>

    /** No list or buffer is shared between two digests. */
    ghost predicate Separate()
      reads this, listHome.Keys
    {
      forall k :: k in lists ==>
                    lists[k] in listHome && listHome[lists[k]] == k
                    && lists[k].elements in bufferHome && bufferHome[lists[k].elements] == k
    }

    ghost predicate Filed(k: nat)
      requires Separate() && k in lists
      reads this, listHome.Keys, bufferHome.Keys
    {
      k in contents && lists[k].Carries(contents[k])
    }

    ghost predicate Valid()
      reads this, listHome.Keys, bufferHome.Keys
    {
      Separate() && contents.Keys == lists.Keys && forall k :: k in lists ==> Filed(k)
    }

    /** Every list and buffer that has joined the tree since is a new object. */
    twostate predicate OnlyNew()
      reads this
    {
      fresh(listHome.Keys - old(listHome.Keys)) && fresh(bufferHome.Keys - old(bufferHome.Keys))
    }

    constructor ()
      ensures Valid() && contents == map[] && listHome == map[] && bufferHome == map[]
    {
      lists, contents, listHome, bufferHome := map[], map[], map[], map[];
    }

    method Create(digest: nat) returns (list: AList<FileMetadata>)
      requires Valid() && digest !in lists
      modifies this
      ensures Valid() && fresh(list) && fresh(list.elements)
      ensures listHome == old(listHome)[list := digest]
      ensures bufferHome == old(bufferHome)[list.elements := digest]
      ensures lists == old(lists)[digest := list] && contents == old(contents)[digest := []]
    {
      hide Valid, AList.Valid, AList.Contents;
      list := new AList<FileMetadata>(2);
      Register(digest, list);
    }

    method Register(digest: nat, list: AList<FileMetadata>)
      requires Valid() && digest !in lists && list.Carries([])
      requires list !in listHome && list.elements !in bufferHome
      modifies this
      ensures Valid()
      ensures listHome == old(listHome)[list := digest]
      ensures bufferHome == old(bufferHome)[list.elements := digest]
      ensures lists == old(lists)[digest := list] && contents == old(contents)[digest := []]
    {
      hide AList.Valid, AList.Contents, AList.Carries;
      lists := lists[digest := list];
      contents := contents[digest := []];
      listHome := listHome[list := digest];
      bufferHome := bufferHome[list.elements := digest];
      assert Separate();
      hide Separate;
      forall k | k in lists
        ensures Filed(k)
      {
        assert k != digest ==> k in old(lists) && old(Filed(k));
      }
    }

    /** The list for the file's digest, created empty when there is none. */
    method Find(fm: FileMetadata) returns (list: AList<FileMetadata>)
      requires Valid()
      modifies this
      ensures Valid() && listHome.Keys >= old(listHome.Keys) && bufferHome.Keys >= old(bufferHome.Keys)
      ensures fresh(listHome.Keys - old(listHome.Keys)) && fresh(bufferHome.Keys - old(bufferHome.Keys))
      ensures fm.sha256 in lists && lists[fm.sha256] == list
      ensures fm.sha256 in contents && list.Valid() && list.Contents() == contents[fm.sha256]
      ensures contents == if fm.sha256 in old(contents) then old(contents) else old(contents)[fm.sha256 := []]
    {
      hide AList.Valid, AList.Contents;
      if fm.sha256 in lists {
        list := lists[fm.sha256];
      } else {
        list := Create(fm.sha256);
      }
      assert Filed(fm.sha256);
    }

    /** `alist_add` on one of the tree's lists. */
    method Add(list: AList<FileMetadata>, ghost digest: nat, fm: FileMetadata)
      requires Valid() && digest in lists && lists[digest] == list
      modifies this`contents, this`bufferHome, listHome.Keys, bufferHome.Keys
      ensures Valid() && bufferHome.Keys >= old(bufferHome.Keys)
      ensures fresh(bufferHome.Keys - old(bufferHome.Keys))
      ensures digest in old(contents) && contents == old(contents)[digest := old(contents)[digest] + [fm]]
      ensures lists == old(lists)
    {
      hide AList.Valid, AList.Contents;
      assert Filed(digest);
      list.Add(fm);
      contents := contents[digest := contents[digest] + [fm]];
      assert list.Carries(contents[digest]);
      hide AList.Carries;
      bufferHome := bufferHome[list.elements := digest];
      assert Separate();
      forall k | k in lists
        ensures Filed(k)
      {
        assert k != digest ==> old(Filed(k));
      }
    }
  }
}
