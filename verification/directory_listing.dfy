/** The backend's directory listing: the entries a directory read yields
    become treeview items, hidden files and unusable entries are dropped,
    and the items are sorted by name. Expanding a directory returns it with
    its listing; collapsing returns it with none. */
module DirectoryListing {
  import opened Wrappers
  import opened MusicFiles
  import opened TreeviewItems
  import Sorting

  datatype EntryKind = Dir | RegularFile | OtherKind

  /** One entry of a directory read. `kind` is None when querying the file
      type failed; `name` and `path` are None when they are not valid
      UTF-8. */
  datatype DirEntry = DirEntry(kind: Option<EntryKind>, name: Option<string>, path: Option<string>)

  /** The item an entry becomes, if any: directories unexpanded and without
      children; files unless their name starts with '.', playable when the
      name ends with a supported extension. */
  function EntryItem(e: DirEntry): (r: Option<TreeviewItem>)
    ensures r.Some? <==> (e.name.Some? && e.path.Some? &&
              (e.kind == Some(Dir) || (e.kind == Some(RegularFile) && !StartsWith(e.name.value, "."))))
    ensures r.Some? ==> r.value.name == e.name.value && r.value.path == e.path.value
    ensures r.Some? && r.value.Directory? ==> r.value.children == [] && !r.value.isExpanded
    ensures r.Some? && r.value.File? ==> (r.value.canPlay <==> HasMusicExtension(r.value.name))
    ensures r.Some? ==> (r.value.Directory? <==> e.kind == Some(Dir))
  {
    if e.kind.None? || e.name.None? || e.path.None? then None
    else match e.kind.value
      case Dir => Some(Directory(e.name.value, e.path.value, [], false))
      case RegularFile =>
        if StartsWith(e.name.value, ".") then None
        else Some(File(e.name.value, e.path.value, HasMusicExtension(e.name.value)))
      case OtherKind => None
  }

  /** The items of the readable entries, in read order; entries the read
      itself failed on (None) are skipped. */
  function Admitted(entries: seq<Option<DirEntry>>): seq<TreeviewItem> {
    if |entries| == 0 then []
    else
      var rest := Admitted(entries[1..]);
      if entries[0].Some? && EntryItem(entries[0].value).Some? then [EntryItem(entries[0].value).value] + rest
      else rest
  }

  lemma {:induction false} AdmittedConcat(a: seq<Option<DirEntry>>, b: seq<Option<DirEntry>>)
    ensures Admitted(a + b) == Admitted(a) + Admitted(b)
    decreases |a|
  {
    if |a| == 0 {
      assert a + b == b;
    } else {
      assert (a + b)[1..] == a[1..] + b;
      AdmittedConcat(a[1..], b);
    }
  }

  /** An item is admitted exactly when some readable entry becomes it. */
  lemma {:induction false} AdmittedMembers(entries: seq<Option<DirEntry>>, item: TreeviewItem)
    ensures item in Admitted(entries) <==>
              exists k :: 0 <= k < |entries| && entries[k].Some? && EntryItem(entries[k].value) == Some(item)
    decreases |entries|
  {
    if |entries| > 0 {
      AdmittedMembers(entries[1..], item);
      if exists k :: 0 <= k < |entries| && entries[k].Some? && EntryItem(entries[k].value) == Some(item) {
        var k :| 0 <= k < |entries| && entries[k].Some? && EntryItem(entries[k].value) == Some(item);
        if k > 0 {
          assert entries[1..][k - 1] == entries[k];
        }
      }
      if exists k :: 0 <= k < |entries[1..]| && entries[1..][k].Some? && EntryItem(entries[1..][k].value) == Some(item) {
        var k :| 0 <= k < |entries[1..]| && entries[1..][k].Some? && EntryItem(entries[1..][k].value) == Some(item);
        assert entries[k + 1] == entries[1..][k];
      }
    }
  }

  /** Orders items by name with the string comparator `leq`. */
  function ByName(leq: (string, string) -> bool): (TreeviewItem, TreeviewItem) -> bool {
    (a: TreeviewItem, b: TreeviewItem) => leq(a.name, b.name)
  }

  lemma {:induction false} ByNameTotal(leq: (string, string) -> bool)
    requires Sorting.TotalPreorder(leq)
    ensures Sorting.TotalPreorder(ByName(leq))
  {
    var byName := ByName(leq);
    forall a: TreeviewItem, b: TreeviewItem
      ensures byName(a, b) || byName(b, a)
    {
      assert leq(a.name, b.name) || leq(b.name, a.name);
    }
    forall a: TreeviewItem, b: TreeviewItem, c: TreeviewItem | byName(a, b) && byName(b, c)
      ensures byName(a, c)
    {
      assert leq(a.name, b.name) && leq(b.name, c.name);
    }
  }

  /** Builds the listing of a directory read: each readable entry becomes
      its item (or is dropped), then the items are sorted by name. The
      result holds exactly the admitted items, each as often as admitted,
      and is sorted when `leq` is a total preorder. */
  method BuildDirectoryListing(entries: seq<Option<DirEntry>>, leq: (string, string) -> bool)
    returns (listing: seq<TreeviewItem>)
    ensures multiset(listing) == multiset(Admitted(entries))
    ensures listing == Sorting.SortBy(Admitted(entries), ByName(leq))
    ensures forall item :: item in listing <==>
              exists k :: 0 <= k < |entries| && entries[k].Some? && EntryItem(entries[k].value) == Some(item)
    ensures Sorting.TotalPreorder(leq) ==> Sorting.SortedBy(listing, ByName(leq))
  {
    var unsorted: seq<TreeviewItem> := [];
    for i := 0 to |entries|
      invariant unsorted == Admitted(entries[..i])
    {
      AdmittedConcat(entries[..i], [entries[i]]);
      assert entries[..i + 1] == entries[..i] + [entries[i]];
      if entries[i].Some? {
        var item := EntryItem(entries[i].value);
        if item.Some? {
          unsorted := unsorted + [item.value];
        }
      }
    }
    assert entries[..|entries|] == entries;
    listing := Sorting.SortBy(unsorted, ByName(leq));
    forall item
      ensures item in listing <==>
                exists k :: 0 <= k < |entries| && entries[k].Some? && EntryItem(entries[k].value) == Some(item)
    {
      assert item in listing <==> item in multiset(unsorted);
      AdmittedMembers(entries, item);
    }
    if Sorting.TotalPreorder(leq) {
      ByNameTotal(leq);
      Sorting.SortBySorted(unsorted, ByName(leq));
    }
  }

  /** The directory a name-and-path denotes, with the given children and
      expansion. */
  function DirectoryItem(id: NameAndPath, children: seq<TreeviewItem>, isExpanded: bool): TreeviewItem {
    Directory(id.name, id.path, children, isExpanded)
  }

  /** Reading the name and path back from an item gives the ones it was
      built from, for a directory built from a name-and-path and for the
      item a directory entry becomes. */
  lemma ItemNameAndPathRoundTrip(id: NameAndPath, children: seq<TreeviewItem>, isExpanded: bool, e: DirEntry)
    ensures ItemNameAndPath(DirectoryItem(id, children, isExpanded)) == id
    ensures EntryItem(e).Some? ==> ItemNameAndPath(EntryItem(e).value) == NameAndPath(e.name.value, e.path.value)
  {
  }

  /** The expand command's result: the directory, expanded, with its
      listing. None stands for the command failing, which happens when the
      directory cannot be read or its path has no final UTF-8 name. */
  method ExpandDirectory(directoryPath: string, entries: Option<seq<Option<DirEntry>>>,
                         fileName: Option<string>, leq: (string, string) -> bool)
    returns (r: Option<TreeviewItem>)
    ensures r.Some? <==> entries.Some? && fileName.Some?
    ensures r.Some? ==> && r.value.Directory? && r.value.isExpanded
                        && ItemNameAndPath(r.value) == NameAndPath(fileName.value, directoryPath)
                        && r.value.children == Sorting.SortBy(Admitted(entries.value), ByName(leq))
  {
    if entries.None? || fileName.None? {
      return None;
    }
    var listing := BuildDirectoryListing(entries.value, leq);
    r := Some(Directory(fileName.value, directoryPath, listing, true));
  }

  /** The collapse command's result: the directory, not expanded, without
      children. None when the path has no final UTF-8 name. */
  function CollapseDirectory(directoryPath: string, fileName: Option<string>): (r: Option<TreeviewItem>)
    ensures r.Some? <==> fileName.Some?
    ensures r.Some? ==> && r.value.Directory? && !r.value.isExpanded && r.value.children == []
                        && ItemNameAndPath(r.value) == NameAndPath(fileName.value, directoryPath)
  {
    if fileName.None? then None else Some(Directory(fileName.value, directoryPath, [], false))
  }

  /** Collapsing an expanded directory gives the item a directory read
      lists for it: same name and path, no children, not expanded. */
  lemma CollapseMatchesListedDirectory(e: DirEntry, fileName: string)
    requires e.kind == Some(Dir) && e.name == Some(fileName) && e.path.Some?
    ensures CollapseDirectory(e.path.value, Some(fileName)) == EntryItem(e)
  {
  }
}
