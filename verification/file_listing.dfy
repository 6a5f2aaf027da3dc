/** The frontend's cache of the open directory. Files are shared, mutable
    objects: the root's children, the children of expanded directories and
    the values of the directory lookup (path to directory object) are the
    same objects, so the cache is modelled as a heap of file objects
    addressed by index, where allocating appends. Directory reads and path
    normalisation are inputs; None stands for the call rejecting. Each
    operation reports how many times it notified the change listeners. */
module FileListing {
  import opened Wrappers

  type Ref = nat

  /** A file object. A directory is a file whose children are defined;
      `isExpanded` is the optional flag, absent read as false. */
  datatype FileObj = FileObj(path: string, name: Option<string>, isExpanded: bool, isDirectory: bool, children: seq<Ref>)

  datatype RootDir = RootDir(path: string, children: seq<Ref>)

  datatype Listing = Listing(objects: seq<FileObj>, lookup: map<string, Ref>, root: Option<RootDir>)

  /** One entry of a non-recursive directory read: directories come with an
      empty children list, other files without one. */
  datatype ReadEntry = ReadEntry(path: string, name: Option<string>, isDirectory: bool)

  datatype Status = Done | NotFound | ReadFailed

  datatype Outcome = Outcome(listing: Listing, notifications: nat, status: Status)

  /** The tree as the UI reads it through getRoot: immutable nodes. */
  datatype FileNode = FileNode(path: string, name: Option<string>, isExpanded: bool, isDirectory: bool, children: seq<FileNode>)

  datatype RootNode = RootNode(path: string, children: seq<FileNode>)

  function Empty(): (l: Listing)
    ensures Valid(l)
  {
    Listing([], map[], None)
  }

  /** A directory's children are allocated after it. */
  ghost predicate RefsForward(objects: seq<FileObj>) {
    forall i, k :: 0 <= i < |objects| && 0 <= k < |objects[i].children| ==> i < objects[i].children[k] < |objects|
  }

  ghost predicate FilesChildless(objects: seq<FileObj>) {
    forall i :: 0 <= i < |objects| && !objects[i].isDirectory ==> objects[i].children == []
  }

  ghost predicate RootInHeap(objects: seq<FileObj>, root: Option<RootDir>) {
    root.Some? ==> forall k :: 0 <= k < |root.value.children| ==> root.value.children[k] < |objects|
  }

  /** Each key leads to a directory object with that path. */
  ghost predicate LookupSound(objects: seq<FileObj>, lookup: map<string, Ref>) {
    forall p :: p in lookup ==> lookup[p] < |objects| && objects[lookup[p]].isDirectory && objects[lookup[p]].path == p
  }

  /** The cache invariant: references point into the heap and forward,
      non-directories have no children, and the lookup maps each key to a
      directory with that path. */
  ghost predicate Valid(l: Listing) {
    && RefsForward(l.objects)
    && FilesChildless(l.objects)
    && RootInHeap(l.objects, l.root)
    && LookupSound(l.objects, l.lookup)
  }

  /** The fresh object a read entry becomes. */
  function ObjectOf(e: ReadEntry): (o: FileObj)
    ensures o.path == e.path && o.name == e.name && o.isDirectory == e.isDirectory
    ensures !o.isExpanded && o.children == []
  {
    FileObj(e.path, e.name, false, e.isDirectory, [])
  }

  /** The references of `n` objects allocated after the first `base`. */
  function FreshRefs(base: nat, n: nat): (r: seq<Ref>)
    ensures |r| == n && forall k :: 0 <= k < n ==> r[k] == base + k
  {
    seq(n, k requires 0 <= k < n => base + k)
  }

  /** Allocates the objects of a directory read at the end of the heap. */
  function Allocate(objects: seq<FileObj>, entries: seq<ReadEntry>): (r: seq<FileObj>)
    ensures |r| == |objects| + |entries|
    ensures forall i :: 0 <= i < |objects| ==> r[i] == objects[i]
    ensures forall k :: 0 <= k < |entries| ==> r[|objects| + k] == ObjectOf(entries[k])
  {
    objects + seq(|entries|, k requires 0 <= k < |entries| => ObjectOf(entries[k]))
  }

  /** Registers the directories among `refs` in the lookup, in order, a
      later one overriding an earlier one with the same path. */
  function Register(lookup: map<string, Ref>, objects: seq<FileObj>, refs: seq<Ref>): (r: map<string, Ref>)
    requires forall k :: 0 <= k < |refs| ==> refs[k] < |objects|
    ensures forall p :: p in r <==>
              p in lookup || exists k :: 0 <= k < |refs| && objects[refs[k]].isDirectory && objects[refs[k]].path == p
    ensures forall p :: p in r ==>
              (p in lookup && r[p] == lookup[p]) ||
              exists k :: 0 <= k < |refs| && r[p] == refs[k] && objects[refs[k]].isDirectory && objects[refs[k]].path == p
    decreases |refs|
  {
    if |refs| == 0 then lookup
    else
      var o := objects[refs[0]];
      var next := if o.isDirectory then lookup[o.path := refs[0]] else lookup;
      var r := Register(next, objects, refs[1..]);
      assert forall k :: 0 <= k < |refs[1..]| ==> refs[1..][k] == refs[k + 1];
      r
  }

  /** Registering fresh objects keeps the lookup sound. */
  lemma RegisterSound(lookup: map<string, Ref>, objects: seq<FileObj>, refs: seq<Ref>)
    requires forall k :: 0 <= k < |refs| ==> refs[k] < |objects|
    requires LookupSound(objects, lookup)
    ensures LookupSound(objects, Register(lookup, objects, refs))
  {
  }

  /** Loads a new root directory: the lookup is cleared and refilled with
      the root's directory children; the root becomes the normalised path
      with the read listing. When normalising or reading rejects, nothing
      changes. */
  function ReadRootDir(l: Listing, read: Option<(string, seq<ReadEntry>)>): (r: Listing)
    requires Valid(l)
    ensures Valid(r)
    ensures read.None? ==> r == l
    ensures read.Some? ==>
              var entries := read.value.1;
              && r.root.Some? && r.root.value.path == read.value.0
              && |r.root.value.children| == |entries|
              && (forall k :: 0 <= k < |entries| ==> r.objects[r.root.value.children[k]] == ObjectOf(entries[k]))
              && (forall p :: p in r.lookup <==> exists k :: 0 <= k < |entries| && entries[k].isDirectory && entries[k].path == p)
              && |r.objects| >= |l.objects| && (forall i :: 0 <= i < |l.objects| ==> r.objects[i] == l.objects[i])
  {
    if read.None? then l
    else
      var entries := read.value.1;
      var objects := Allocate(l.objects, entries);
      var refs := FreshRefs(|l.objects|, |entries|);
      var lookup := Register(map[], objects, refs);
      RegisterSound(map[], objects, refs);
      AllocateKeepsValid(l, entries);
      RootLookupMatches(l.objects, entries);
      Listing(objects, lookup, Some(RootDir(read.value.0, refs)))
  }

  /** After a reload, every path in the lookup leads to the new root's own
      child object for that directory, never to an object of an earlier
      root. */
  lemma ReadRootDirLookupTargets(l: Listing, root: string, entries: seq<ReadEntry>)
    requires Valid(l)
    ensures var r := ReadRootDir(l, Some((root, entries)));
            forall p :: p in r.lookup ==> exists k :: (0 <= k < |entries| && r.lookup[p] == r.root.value.children[k] &&
                                                      entries[k].isDirectory && entries[k].path == p)
  {
    var refs := FreshRefs(|l.objects|, |entries|);
    var lookup := Register(map[], Allocate(l.objects, entries), refs);
    assert ReadRootDir(l, Some((root, entries))) == Listing(Allocate(l.objects, entries), lookup, Some(RootDir(root, refs)));
    RootLookupMatches(l.objects, entries);
  }

  /** A lookup registered afresh from a read holds exactly the paths of the
      directories the read listed, each pointing at the object allocated for
      that directory's entry. */
  lemma {:induction false} RootLookupMatches(objects: seq<FileObj>, entries: seq<ReadEntry>)
    ensures var lookup := Register(map[], Allocate(objects, entries), FreshRefs(|objects|, |entries|));
            forall p :: p in lookup <==> exists k :: 0 <= k < |entries| && entries[k].isDirectory && entries[k].path == p
    ensures var lookup := Register(map[], Allocate(objects, entries), FreshRefs(|objects|, |entries|));
            forall p :: p in lookup ==> exists k :: (0 <= k < |entries| && lookup[p] == FreshRefs(|objects|, |entries|)[k] &&
                                                 entries[k].isDirectory && entries[k].path == p)
  {
    var all := Allocate(objects, entries);
    var refs := FreshRefs(|objects|, |entries|);
    var lookup := Register(map[], all, refs);
    forall p | p in lookup
      ensures exists k :: 0 <= k < |entries| && lookup[p] == refs[k] && entries[k].isDirectory && entries[k].path == p
    {
      var k :| 0 <= k < |refs| && lookup[p] == refs[k] && all[refs[k]].isDirectory && all[refs[k]].path == p;
      assert all[|objects| + k] == ObjectOf(entries[k]);
    }
    forall p | exists k :: 0 <= k < |entries| && entries[k].isDirectory && entries[k].path == p
      ensures p in lookup
    {
      var k :| 0 <= k < |entries| && entries[k].isDirectory && entries[k].path == p;
      assert all[refs[k]] == ObjectOf(entries[k]);
    }
  }

  lemma {:induction false} AllocateKeepsValid(l: Listing, entries: seq<ReadEntry>)
    requires Valid(l)
    ensures RefsForward(Allocate(l.objects, entries)) && FilesChildless(Allocate(l.objects, entries))
  {
    var objects := Allocate(l.objects, entries);
    forall i | 0 <= i < |objects|
      ensures objects[i] == if i < |l.objects| then l.objects[i] else ObjectOf(entries[i - |l.objects|])
    {
      if i >= |l.objects| {
        assert objects[|l.objects| + (i - |l.objects|)] == ObjectOf(entries[i - |l.objects|]);
      }
    }
  }

  /** Start-up: a persisted directory, when there is one, is loaded as
      the root; when loading it rejects, the cache stays empty. Nobody is
      notified either way. */
  function InitListing(persisted: Option<string>, read: Option<(string, seq<ReadEntry>)>): (r: Listing)
    ensures Valid(r)
    ensures persisted.None? || read.None? ==> r == Empty()
    ensures persisted.Some? && read.Some? ==> r.root.Some? && r.root.value.path == read.value.0
  {
    if persisted.None? then Empty() else ReadRootDir(Empty(), read)
  }

  /** Picking a directory in the dialog: the root is reloaded and, when that
      succeeds, the listeners are notified once. A cancelled dialog
      (`chosen` None) or a failed load changes nothing. */
  function OpenDialog(l: Listing, chosen: Option<string>, read: Option<(string, seq<ReadEntry>)>): (r: Outcome)
    requires Valid(l)
    ensures Valid(r.listing) && r.status == Done
    ensures chosen.None? || read.None? ==> r == Outcome(l, 0, Done)
    ensures chosen.Some? && read.Some? ==> r == Outcome(ReadRootDir(l, read), 1, Done)
  {
    if chosen.None? || read.None? then Outcome(l, 0, Done) else Outcome(ReadRootDir(l, read), 1, Done)
  }

  /** The heap after expanding object `d` with a directory read: the read's
      objects are allocated at the end and become `d`'s children, and `d`
      is marked expanded; nothing else changes. */
  function ExpandedHeap(objects: seq<FileObj>, d: Ref, entries: seq<ReadEntry>): (r: seq<FileObj>)
    requires d < |objects|
    ensures |r| == |objects| + |entries|
    ensures forall i :: 0 <= i < |objects| && i != d ==> r[i] == objects[i]
    ensures r[d] == objects[d].(isExpanded := true, children := FreshRefs(|objects|, |entries|))
    ensures forall k :: 0 <= k < |entries| ==> r[|objects| + k] == ObjectOf(entries[k])
  {
    var grown := Allocate(objects, entries);
    grown[d := objects[d].(isExpanded := true, children := FreshRefs(|objects|, |entries|))]
  }

  lemma {:induction false} ExpandKeepsValid(l: Listing, d: Ref, entries: seq<ReadEntry>)
    requires Valid(l) && d < |l.objects| && l.objects[d].isDirectory
    ensures var objects := ExpandedHeap(l.objects, d, entries);
            var refs := FreshRefs(|l.objects|, |entries|);
            && (forall k :: 0 <= k < |refs| ==> refs[k] < |objects|)
            && Valid(Listing(objects, Register(l.lookup, objects, refs), l.root))
  {
    var objects := ExpandedHeap(l.objects, d, entries);
    var refs := FreshRefs(|l.objects|, |entries|);
    forall i | 0 <= i < |objects|
      ensures objects[i] == if i == d then l.objects[d].(isExpanded := true, children := refs)
                            else if i < |l.objects| then l.objects[i]
                            else ObjectOf(entries[i - |l.objects|])
    {
      if i >= |l.objects| {
        assert objects[|l.objects| + (i - |l.objects|)] == ObjectOf(entries[i - |l.objects|]);
      }
    }
    assert LookupSound(objects, l.lookup);
    RegisterSound(l.lookup, objects, refs);
  }

  /** Expands the directory registered under `path`: unknown paths fail
      with nothing changed, an expanded directory is left alone; otherwise
      the directory is marked expanded, then read, its children replaced by
      the read listing, the directory children registered and the listeners
      notified once. A failed read leaves the directory marked expanded. */
  function ExpandDirectory(l: Listing, path: string, read: Option<seq<ReadEntry>>): (r: Outcome)
    requires Valid(l)
    ensures Valid(r.listing)
    ensures path !in l.lookup ==> r == Outcome(l, 0, NotFound)
    ensures path in l.lookup && l.objects[l.lookup[path]].isExpanded ==> r == Outcome(l, 0, Done)
    ensures path in l.lookup && !l.objects[l.lookup[path]].isExpanded && read.None? ==>
              var d := l.lookup[path];
              r == Outcome(l.(objects := l.objects[d := l.objects[d].(isExpanded := true)]), 0, ReadFailed)
    ensures path in l.lookup && !l.objects[l.lookup[path]].isExpanded && read.Some? ==>
              var d := l.lookup[path];
              var refs := FreshRefs(|l.objects|, |read.value|);
              && r.notifications == 1 && r.status == Done
              && r.listing.root == l.root
              && r.listing.objects == ExpandedHeap(l.objects, d, read.value)
              && r.listing.lookup == Register(l.lookup, r.listing.objects, refs)
  {
    if path !in l.lookup then Outcome(l, 0, NotFound)
    else
      var d := l.lookup[path];
      if l.objects[d].isExpanded then Outcome(l, 0, Done)
      else if read.None? then
        var marked := l.objects[d := l.objects[d].(isExpanded := true)];
        assert forall i :: 0 <= i < |marked| ==> marked[i].children == l.objects[i].children;
        Outcome(l.(objects := marked), 0, ReadFailed)
      else
        var objects := ExpandedHeap(l.objects, d, read.value);
        var refs := FreshRefs(|l.objects|, |read.value|);
        ExpandKeepsValid(l, d, read.value);
        Outcome(Listing(objects, Register(l.lookup, objects, refs), l.root), 1, Done)
  }

  /** A successful expand registers exactly the old keys and the paths of
      the read's directories. */
  lemma {:induction false} ExpandRegistersDirectories(l: Listing, path: string, entries: seq<ReadEntry>)
    requires Valid(l) && path in l.lookup && !l.objects[l.lookup[path]].isExpanded
    ensures var r := ExpandDirectory(l, path, Some(entries)).listing;
            forall p :: p in r.lookup <==>
              p in l.lookup || exists k :: 0 <= k < |entries| && entries[k].isDirectory && entries[k].path == p
  {
    var d := l.lookup[path];
    var objects := ExpandedHeap(l.objects, d, entries);
    var refs := FreshRefs(|l.objects|, |entries|);
    forall k | 0 <= k < |entries|
      ensures objects[refs[k]] == ObjectOf(entries[k])
    {
    }
  }

  /** Collapses the directory registered under `path`: unknown paths fail
      with nothing changed; a directory not marked expanded is left alone.
      Otherwise the paths of its direct children leave the lookup, its
      children become empty and the listeners are notified once. The
      expanded mark stays set. */
  function CollapseDirectory(l: Listing, path: string): (r: Outcome)
    requires Valid(l)
    ensures Valid(r.listing)
    ensures path !in l.lookup ==> r == Outcome(l, 0, NotFound)
    ensures path in l.lookup && !l.objects[l.lookup[path]].isExpanded ==> r == Outcome(l, 0, Done)
    ensures path in l.lookup && l.objects[l.lookup[path]].isExpanded ==>
              var d := l.lookup[path];
              && r.notifications == 1 && r.status == Done
              && r.listing.objects == l.objects[d := l.objects[d].(children := [])]
              && r.listing.root == l.root
              && (forall p :: p in r.listing.lookup <==>
                    p in l.lookup && forall k :: 0 <= k < |l.objects[d].children| ==> l.objects[l.objects[d].children[k]].path != p)
              && (forall p :: p in r.listing.lookup ==> r.listing.lookup[p] == l.lookup[p])
  {
    if path !in l.lookup then Outcome(l, 0, NotFound)
    else
      var d := l.lookup[path];
      var dir := l.objects[d];
      if !dir.isExpanded || !dir.isDirectory then Outcome(l, 0, Done)
      else
        var childPaths := set k | 0 <= k < |dir.children| :: l.objects[dir.children[k]].path;
        var objects := l.objects[d := dir.(children := [])];
        assert forall i :: 0 <= i < |objects| ==> objects[i].isDirectory == l.objects[i].isDirectory && objects[i].path == l.objects[i].path;
        Outcome(Listing(objects, l.lookup - childPaths, l.root), 1, Done)
  }

  /** Collapse as the expand/collapse toggle needs it: as above, and the
      expanded mark is cleared so that the directory can be expanded
      again. */
  function CollapseDirectoryClearingMark(l: Listing, path: string): (r: Outcome)
    requires Valid(l)
    ensures Valid(r.listing)
    ensures path !in l.lookup ==> r == Outcome(l, 0, NotFound)
    ensures path in l.lookup && !l.objects[l.lookup[path]].isExpanded ==> r == Outcome(l, 0, Done)
    ensures path in l.lookup && l.objects[l.lookup[path]].isExpanded ==>
              var d := l.lookup[path];
              && r.notifications == 1 && r.status == Done
              && r.listing.objects == l.objects[d := l.objects[d].(children := [], isExpanded := false)]
              && r.listing.lookup == CollapseDirectory(l, path).listing.lookup
              && r.listing.root == l.root
  {
    var collapsed := CollapseDirectory(l, path);
    if path in l.lookup && l.objects[l.lookup[path]].isExpanded then
      var d := l.lookup[path];
      collapsed.(listing := collapsed.listing.(objects := collapsed.listing.objects[d := collapsed.listing.objects[d].(isExpanded := false)]))
    else collapsed
  }

  /** Expanding a directory whose read lists no entry with the directory's
      own path keeps the directory under its key, now marked expanded with
      the read's objects as children. */
  lemma {:induction false} ExpandKeepsKey(l: Listing, path: string, first: seq<ReadEntry>)
    requires Valid(l) && path in l.lookup && !l.objects[l.lookup[path]].isExpanded
    requires forall k :: 0 <= k < |first| ==> first[k].path != path
    ensures var expanded := ExpandDirectory(l, path, Some(first)).listing;
            var d := l.lookup[path];
            && path in expanded.lookup && expanded.lookup[path] == d
            && expanded.objects[d].isExpanded
            && expanded.objects[d].children == FreshRefs(|l.objects|, |first|)
            && forall i :: |l.objects| <= i < |expanded.objects| ==> expanded.objects[i].path != path
  {
    var d := l.lookup[path];
    var objects := ExpandedHeap(l.objects, d, first);
    var refs := FreshRefs(|l.objects|, |first|);
    assert forall k :: 0 <= k < |refs| ==> objects[refs[k]].path != path by {
      forall k | 0 <= k < |refs|
        ensures objects[refs[k]].path != path
      {
        assert objects[|l.objects| + k] == ObjectOf(first[k]);
      }
    }
    forall i | |l.objects| <= i < |objects|
      ensures objects[i].path != path
    {
      assert objects[refs[i - |l.objects|]].path != path;
    }
  }

  /** As written, expanding, collapsing and expanding again: the second
      expand finds the directory still marked expanded and does nothing, so
      the directory stays without children and nobody is notified, whatever
      the directory now holds. */
  lemma {:induction false} ReExpandAfterCollapseDoesNothing(l: Listing, path: string, first: seq<ReadEntry>, second: Option<seq<ReadEntry>>)
    requires Valid(l) && path in l.lookup && !l.objects[l.lookup[path]].isExpanded
    requires forall k :: 0 <= k < |first| ==> first[k].path != path
    ensures var expanded := ExpandDirectory(l, path, Some(first)).listing;
            var collapsed := CollapseDirectory(expanded, path).listing;
            var again := ExpandDirectory(collapsed, path, second);
            && path in collapsed.lookup
            && again == Outcome(collapsed, 0, Done)
            && collapsed.objects[collapsed.lookup[path]].children == []
  {
    ExpandKeepsKey(l, path, first);
  }

  /** With the mark cleared on collapse, expanding again reads the
      directory anew: its children are the new listing and the listeners
      are notified once. */
  lemma {:induction false} ReExpandAfterClearingCollapseReads(l: Listing, path: string, first: seq<ReadEntry>, second: seq<ReadEntry>)
    requires Valid(l) && path in l.lookup && !l.objects[l.lookup[path]].isExpanded
    requires forall k :: 0 <= k < |first| ==> first[k].path != path
    ensures var expanded := ExpandDirectory(l, path, Some(first)).listing;
            var collapsed := CollapseDirectoryClearingMark(expanded, path).listing;
            var again := ExpandDirectory(collapsed, path, Some(second));
            && path in collapsed.lookup
            && again.notifications == 1
            && again.listing.objects[collapsed.lookup[path]].children == FreshRefs(|collapsed.objects|, |second|)
  {
    var expanded := ExpandDirectory(l, path, Some(first)).listing;
    var d := l.lookup[path];
    ExpandKeepsKey(l, path, first);
    var collapsed := CollapseDirectoryClearingMark(expanded, path).listing;
    assert collapsed.lookup[path] == d;
    assert !collapsed.objects[d].isExpanded;
  }

  /** The subtree under object `r` as the UI sees it. */
  function Node(l: Listing, r: Ref): (n: FileNode)
    requires Valid(l) && r < |l.objects|
    ensures n.path == l.objects[r].path && n.isDirectory == l.objects[r].isDirectory
    ensures n.name == l.objects[r].name && n.isExpanded == l.objects[r].isExpanded
    ensures |n.children| == |l.objects[r].children|
    decreases |l.objects| - r
  {
    var o := l.objects[r];
    FileNode(o.path, o.name, o.isExpanded, o.isDirectory,
      seq(|o.children|, k requires 0 <= k < |o.children| => Node(l, o.children[k])))
  }

  /** A node's k-th subtree is the node of its object's k-th child. */
  lemma NodeChildren(l: Listing, r: Ref)
    requires Valid(l) && r < |l.objects|
    ensures forall k :: 0 <= k < |l.objects[r].children| ==>
              l.objects[r].children[k] < |l.objects| && Node(l, r).children[k] == Node(l, l.objects[r].children[k])
  {
  }

  /** getRoot: the root with its subtrees, or None before a root is
      loaded. */
  function GetRoot(l: Listing): (r: Option<RootNode>)
    requires Valid(l)
    ensures r.Some? <==> l.root.Some?
    ensures r.Some? ==> r.value.path == l.root.value.path && |r.value.children| == |l.root.value.children|
    ensures r.Some? ==> forall k :: 0 <= k < |r.value.children| ==>
              l.root.value.children[k] < |l.objects| && r.value.children[k] == Node(l, l.root.value.children[k])
  {
    if l.root.None? then None
    else
      var children := l.root.value.children;
      Some(RootNode(l.root.value.path, seq(|children|, k requires 0 <= k < |children| => Node(l, children[k]))))
  }
}
