/** The frontend's normalised store of the treeview: the top-level paths in
    order, every item by path (directories without their children), and
    every directory's child paths. Three reducers, one per part, react to
    the init and item-update actions and ignore every other action. */
module TreeviewReducers {
  import opened TreeviewItems

  /** An item without its children. */
  datatype NormalizedItem =
    | NormalizedFile(name: string, path: string, canPlay: bool)
    | NormalizedDirectory(name: string, path: string, isExpanded: bool)

  datatype Action =
    | TreeviewInit(listing: seq<TreeviewItem>)
    | TreeviewItemUpdate(item: TreeviewItem)
    | OtherAction

  datatype TreeviewState = TreeviewState(
    listing: seq<string>,
    items: map<string, NormalizedItem>,
    directoryChildren: map<string, seq<string>>)

  function InitialState(): TreeviewState {
    TreeviewState([], map[], map[])
  }

  /** The paths of `items`, in order. */
  function PathsOf(items: seq<TreeviewItem>): (r: seq<string>)
    ensures |r| == |items| && forall k :: 0 <= k < |items| ==> r[k] == items[k].path
  {
    seq(|items|, k requires 0 <= k < |items| => items[k].path)
  }

  /** The position of the last entry with key `k`, or -1 when no entry
      has it. */
  function LastWith<V>(entries: seq<(string, V)>, k: string): (i: int)
    ensures -1 <= i < |entries|
    ensures i >= 0 ==> entries[i].0 == k
    ensures forall j :: i < j < |entries| ==> entries[j].0 != k
  {
    if |entries| == 0 then -1
    else if entries[|entries| - 1].0 == k then |entries| - 1
    else LastWith(entries[..|entries| - 1], k)
  }

  /** A map built from key/value entries in order, later entries winning,
      as `Object.fromEntries` builds one: a key is present exactly when some
      entry has it, with the value of the last such entry. */
  function FromEntries<V>(entries: seq<(string, V)>): (r: map<string, V>)
    ensures forall k :: k in r <==> LastWith(entries, k) >= 0
    ensures forall k :: k in r ==> r[k] == entries[LastWith(entries, k)].1
  {
    if |entries| == 0 then map[]
    else
      var last := entries[|entries| - 1];
      var init := entries[..|entries| - 1];
      var m := FromEntries(init);
      assert forall k :: k != last.0 ==> LastWith(entries, k) == LastWith(init, k);
      assert forall i :: 0 <= i < |init| ==> init[i] == entries[i];
      m[last.0 := last.1]
  }

  /** The top-level paths: replaced on init, kept otherwise. */
  function ListingReducer(state: seq<string>, action: Action): (r: seq<string>)
    ensures action.TreeviewInit? ==>
              |r| == |action.listing| && forall k :: 0 <= k < |r| ==> r[k] == action.listing[k].path
    ensures !action.TreeviewInit? ==> r == state
  {
    match action
    case TreeviewInit(listing) => PathsOf(listing)
    case _ => state
  }

  /** Drops a directory's children; a file is kept as it is. */
  function Normalize(item: TreeviewItem): (n: NormalizedItem)
    ensures n.name == item.name && n.path == item.path
    ensures n.NormalizedDirectory? <==> item.Directory?
    ensures item.Directory? ==> n.isExpanded == item.isExpanded
    ensures item.File? ==> n.canPlay == item.canPlay
  {
    match item
    case File(name, path, canPlay) => NormalizedFile(name, path, canPlay)
    case Directory(name, path, _, isExpanded) => NormalizedDirectory(name, path, isExpanded)
  }

  /** Puts a normalised item back together with the given children. */
  function Denormalize(n: NormalizedItem, children: seq<TreeviewItem>): TreeviewItem {
    match n
    case NormalizedFile(name, path, canPlay) => File(name, path, canPlay)
    case NormalizedDirectory(name, path, isExpanded) => Directory(name, path, children, isExpanded)
  }

  /** Normalising forgets only a directory's children: given them back,
      the item is restored. */
  lemma NormalizeRoundTrip(item: TreeviewItem)
    ensures Denormalize(Normalize(item), if item.Directory? then item.children else []) == item
  {
  }

  /** The entries of one item: its own, then, for a directory, those of its
      subtree. */
  function ItemEntries(item: TreeviewItem): seq<(string, NormalizedItem)> {
    [(item.path, Normalize(item))] + (if item.Directory? then RecursiveNormalize(item.children) else [])
  }

  /** The entries of every item of a forest, in pre-order. */
  function RecursiveNormalize(items: seq<TreeviewItem>): seq<(string, NormalizedItem)> {
    if |items| == 0 then [] else ItemEntries(items[0]) + RecursiveNormalize(items[1..])
  }

  /** Every item of a forest, each directory before its subtree: the
      reference order the normalised entries are compared against. */
  function Nodes(items: seq<TreeviewItem>): seq<TreeviewItem> {
    if |items| == 0 then []
    else [items[0]] + (if items[0].Directory? then Nodes(items[0].children) else []) + Nodes(items[1..])
  }

  /** Each node keyed by its path and normalised. */
  function EntriesOf(nodes: seq<TreeviewItem>): (r: seq<(string, NormalizedItem)>)
    ensures |r| == |nodes|
    ensures forall k :: 0 <= k < |nodes| ==> r[k] == (nodes[k].path, Normalize(nodes[k]))
  {
    if |nodes| == 0 then [] else [(nodes[0].path, Normalize(nodes[0]))] + EntriesOf(nodes[1..])
  }

  /** The normalised entries are exactly the items in pre-order, each keyed
      by its path. */
  lemma {:induction false} RecursiveNormalizeIsPreorder(items: seq<TreeviewItem>)
    ensures RecursiveNormalize(items) == EntriesOf(Nodes(items))
  {
    if |items| > 0 {
      var head := items[0];
      var below := if head.Directory? then Nodes(head.children) else [];
      if head.Directory? {
        RecursiveNormalizeIsPreorder(head.children);
      }
      RecursiveNormalizeIsPreorder(items[1..]);
      var nodes := Nodes(items);
      assert nodes == [head] + below + Nodes(items[1..]);
      assert RecursiveNormalize(items) == [(head.path, Normalize(head))] + EntriesOf(below) + EntriesOf(Nodes(items[1..]));
      EntriesOfConcat([head] + below, Nodes(items[1..]));
      EntriesOfConcat([head], below);
    }
  }

  lemma {:induction false} EntriesOfConcat(a: seq<TreeviewItem>, b: seq<TreeviewItem>)
    ensures EntriesOf(a + b) == EntriesOf(a) + EntriesOf(b)
  {
    assert |EntriesOf(a + b)| == |EntriesOf(a) + EntriesOf(b)|;
    forall k | 0 <= k < |a + b|
      ensures EntriesOf(a + b)[k] == (EntriesOf(a) + EntriesOf(b))[k]
    {
      if k >= |a| {
        assert (a + b)[k] == b[k - |a|];
      }
    }
  }

  /** No two items of the forest share a path. */
  ghost predicate UniquePaths(items: seq<TreeviewItem>) {
    var nodes := Nodes(items);
    forall i, j :: 0 <= i < j < |nodes| ==> nodes[i].path != nodes[j].path
  }

  /** With unique keys, the map built from the entries holds each entry's
      own value under its key. */
  lemma {:induction false} UniqueKeysLookup<V>(keys: seq<string>, entries: seq<(string, V)>, k: nat)
    requires |entries| == |keys| && k < |keys|
    requires forall i :: 0 <= i < |keys| ==> entries[i].0 == keys[i]
    requires forall i, j :: 0 <= i < j < |keys| ==> keys[i] != keys[j]
    ensures keys[k] in FromEntries(entries) && FromEntries(entries)[keys[k]] == entries[k].1
  {
    var i := LastWith(entries, keys[k]);
    assert entries[k].0 == keys[k];
    assert i == k;
  }

  /** The item map: rebuilt from the whole tree on init; on an update, the
      payload's path and, for a directory, every path below it are
      overwritten and the other keys are kept. */
  function ItemsReducer(state: map<string, NormalizedItem>, action: Action): (r: map<string, NormalizedItem>)
    ensures action.TreeviewInit? ==> r == FromEntries(RecursiveNormalize(action.listing))
    ensures action.TreeviewItemUpdate? ==>
              var item := action.item;
              var below := if item.Directory? then FromEntries(RecursiveNormalize(item.children)) else map[];
              && (forall k :: k in r <==> k in state || k == item.path || k in below)
              && (forall k :: k in below ==> r[k] == below[k])
              && (item.path !in below ==> r[item.path] == Normalize(item))
              && (forall k :: k in state && k != item.path && k !in below ==> r[k] == state[k])
    ensures action.OtherAction? ==> r == state
  {
    match action
    case TreeviewInit(listing) => FromEntries(RecursiveNormalize(listing))
    case TreeviewItemUpdate(item) =>
      var updated := state[item.path := Normalize(item)];
      if item.Directory? then updated + FromEntries(RecursiveNormalize(item.children)) else updated
    case OtherAction => state
  }

  /** The child-path entries of every directory of a forest, in pre-order. */
  function RecursiveNormalizeChildren(items: seq<TreeviewItem>): seq<(string, seq<string>)> {
    if |items| == 0 then []
    else
      var head := items[0];
      (if head.Directory? then [(head.path, PathsOf(head.children))] + RecursiveNormalizeChildren(head.children) else [])
      + RecursiveNormalizeChildren(items[1..])
  }

  /** Each directory keyed by its path, with its direct child paths. */
  function ChildEntriesOf(nodes: seq<TreeviewItem>): seq<(string, seq<string>)> {
    if |nodes| == 0 then []
    else
      var head := nodes[0];
      (if head.Directory? then [(head.path, PathsOf(head.children))] else []) + ChildEntriesOf(nodes[1..])
  }

  /** An entry is there exactly for a directory among the nodes. */
  lemma {:induction false} ChildEntriesOfMembers(nodes: seq<TreeviewItem>, e: (string, seq<string>))
    ensures e in ChildEntriesOf(nodes) <==> exists n :: n in nodes && n.Directory? && e == (n.path, PathsOf(n.children))
  {
    if |nodes| > 0 {
      ChildEntriesOfMembers(nodes[1..], e);
      assert forall n :: n in nodes <==> n == nodes[0] || n in nodes[1..];
    }
  }

  lemma {:induction false} ChildEntriesOfConcat(a: seq<TreeviewItem>, b: seq<TreeviewItem>)
    ensures ChildEntriesOf(a + b) == ChildEntriesOf(a) + ChildEntriesOf(b)
    decreases |a|
  {
    if |a| == 0 {
      assert a + b == b;
    } else {
      assert (a + b)[1..] == a[1..] + b;
      assert (a + b)[0] == a[0];
      ChildEntriesOfConcat(a[1..], b);
      var head := if a[0].Directory? then [(a[0].path, PathsOf(a[0].children))] else [];
      assert ChildEntriesOf(a + b) == head + (ChildEntriesOf(a[1..]) + ChildEntriesOf(b));
      assert ChildEntriesOf(a) == head + ChildEntriesOf(a[1..]);
    }
  }

  /** The child-path entries are exactly the directories of the forest in
      pre-order, each with its direct child paths. */
  lemma {:induction false} ChildrenEntriesAreDirectories(items: seq<TreeviewItem>)
    ensures RecursiveNormalizeChildren(items) == ChildEntriesOf(Nodes(items))
  {
    if |items| > 0 {
      var head := items[0];
      var below := if head.Directory? then Nodes(head.children) else [];
      if head.Directory? {
        ChildrenEntriesAreDirectories(head.children);
      }
      ChildrenEntriesAreDirectories(items[1..]);
      assert Nodes(items) == [head] + below + Nodes(items[1..]);
      ChildEntriesOfConcat([head] + below, Nodes(items[1..]));
      ChildEntriesOfConcat([head], below);
      assert ([head] + below)[1..] == below;
    }
  }

  /** The child-path map: rebuilt from the whole tree on init; on an update
      of a directory only that directory's entry is set, and an updated
      file leaves the map as it is. */
  function DirectoryChildrenReducer(state: map<string, seq<string>>, action: Action): (r: map<string, seq<string>>)
    ensures action.TreeviewInit? ==> r == FromEntries(RecursiveNormalizeChildren(action.listing))
    ensures action.TreeviewItemUpdate? && action.item.Directory? ==>
              r == state[action.item.path := PathsOf(action.item.children)]
    ensures action.TreeviewItemUpdate? && action.item.File? ==> r == state
    ensures action.OtherAction? ==> r == state
  {
    match action
    case TreeviewInit(listing) => FromEntries(RecursiveNormalizeChildren(listing))
    case TreeviewItemUpdate(item) =>
      if item.Directory? then state[item.path := PathsOf(item.children)] else state
    case OtherAction => state
  }

  /** With unique paths, a path names at most one item of the forest. */
  lemma {:induction false} SamePathSameNode(items: seq<TreeviewItem>, a: TreeviewItem, b: TreeviewItem)
    requires UniquePaths(items) && a in Nodes(items) && b in Nodes(items) && a.path == b.path
    ensures a == b
  {
    var nodes := Nodes(items);
    var i :| 0 <= i < |nodes| && nodes[i] == a;
    var j :| 0 <= j < |nodes| && nodes[j] == b;
    assert !(i < j) && !(j < i);
  }

  /** After init the item map has a key for exactly the paths in the
      tree. */
  lemma {:induction false} InitItemsKeys(state: map<string, NormalizedItem>, items: seq<TreeviewItem>)
    ensures var r := ItemsReducer(state, TreeviewInit(items));
            forall k :: k in r <==> exists n :: n in Nodes(items) && n.path == k
  {
    var nodes := Nodes(items);
    var entries := RecursiveNormalize(items);
    RecursiveNormalizeIsPreorder(items);
    var r := FromEntries(entries);
    forall k
      ensures k in r <==> exists n :: n in nodes && n.path == k
    {
      if k in r {
        var i := LastWith(entries, k);
        assert nodes[i] in nodes;
      }
      if n :| n in nodes && n.path == k {
        var i :| 0 <= i < |nodes| && nodes[i] == n;
        assert entries[i].0 == k;
        assert LastWith(entries, k) >= i;
      }
    }
  }

  /** With unique paths, after init each item of the tree is found,
      normalised, under its own path. */
  lemma {:induction false} InitItemsHoldEveryNode(state: map<string, NormalizedItem>, items: seq<TreeviewItem>)
    requires UniquePaths(items)
    ensures var r := ItemsReducer(state, TreeviewInit(items));
            var nodes := Nodes(items);
            forall k :: 0 <= k < |nodes| ==> nodes[k].path in r && r[nodes[k].path] == Normalize(nodes[k])
  {
    var nodes := Nodes(items);
    var entries := RecursiveNormalize(items);
    RecursiveNormalizeIsPreorder(items);
    var keys := PathsOf(nodes);
    assert forall i :: 0 <= i < |keys| ==> entries[i].0 == keys[i];
    assert forall i, j :: 0 <= i < j < |nodes| ==> nodes[i].path != nodes[j].path;
    forall i, j | 0 <= i < j < |keys|
      ensures keys[i] != keys[j]
    {
      assert keys[i] == nodes[i].path && keys[j] == nodes[j].path;
    }
    forall i | 0 <= i < |nodes|
      ensures nodes[i].path in FromEntries(entries) && FromEntries(entries)[nodes[i].path] == Normalize(nodes[i])
    {
      UniqueKeysLookup(keys, entries, i);
    }
  }

  /** After init the child-path map has a key for exactly the directories
      in the tree, and with unique paths each directory's entry lists its
      direct child paths in order. */
  lemma {:induction false} InitChildrenHoldEveryDirectory(state: map<string, seq<string>>, items: seq<TreeviewItem>)
    ensures var r := DirectoryChildrenReducer(state, TreeviewInit(items));
            forall k :: k in r <==> exists n :: n in Nodes(items) && n.Directory? && n.path == k
    ensures UniquePaths(items) ==>
              var r := DirectoryChildrenReducer(state, TreeviewInit(items));
              forall n :: n in Nodes(items) && n.Directory? ==> n.path in r && r[n.path] == PathsOf(n.children)
  {
    var nodes := Nodes(items);
    var entries := RecursiveNormalizeChildren(items);
    ChildrenEntriesAreDirectories(items);
    var r := FromEntries(entries);
    forall k
      ensures k in r <==> exists n :: n in nodes && n.Directory? && n.path == k
    {
      if k in r {
        ChildEntriesOfMembers(nodes, entries[LastWith(entries, k)]);
      }
      if n :| n in nodes && n.Directory? && n.path == k {
        ChildEntriesOfMembers(nodes, (n.path, PathsOf(n.children)));
        var i :| 0 <= i < |entries| && entries[i] == (n.path, PathsOf(n.children));
        assert LastWith(entries, k) >= i;
      }
    }
    if UniquePaths(items) {
      forall n | n in nodes && n.Directory?
        ensures n.path in r && r[n.path] == PathsOf(n.children)
      {
        ChildEntriesOfMembers(nodes, (n.path, PathsOf(n.children)));
        var i := LastWith(entries, n.path);
        ChildEntriesOfMembers(nodes, entries[i]);
        var m :| m in nodes && m.Directory? && entries[i] == (m.path, PathsOf(m.children));
        SamePathSameNode(items, n, m);
      }
    }
  }

  /** The combined reducer: each part reduced on its own. */
  function TreeviewReducer(state: TreeviewState, action: Action): (r: TreeviewState)
    ensures action.OtherAction? ==> r == state
    ensures action.TreeviewItemUpdate? ==> r.listing == state.listing
  {
    TreeviewState(
      ListingReducer(state.listing, action),
      ItemsReducer(state.items, action),
      DirectoryChildrenReducer(state.directoryChildren, action))
  }
}
