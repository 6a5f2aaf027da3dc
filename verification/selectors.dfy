/** The flat listing the treeview renders from the normalised store: each
    top-level path in order, each directory with a non-empty child list
    followed by its children's rows one level deeper. The frontend recurses
    without a bound, so a cycle in the child lists overflows the call
    stack; `fuel` is the number of nested directory levels the stack
    allows, and None is the overflow. */
module TreeviewSelectors {
  import opened Wrappers
  import opened TreeviewItems
  import opened TreeviewReducers

  datatype FlatListingItem = FlatListingItem(path: string, depth: nat)

  /** The rows of one path: its own row and, when its child list is
      present and non-empty, the rows of its children one level deeper. */
  function FlattenPath(path: string, directoryChildren: map<string, seq<string>>, depth: nat, fuel: nat): Option<seq<FlatListingItem>>
    decreases fuel, 0
  {
    if path in directoryChildren && |directoryChildren[path]| > 0 then
      if fuel == 0 then None
      else
        match RecursiveFlattenListing(directoryChildren[path], directoryChildren, depth + 1, fuel - 1)
        case None => None
        case Some(rows) => Some([FlatListingItem(path, depth)] + rows)
    else Some([FlatListingItem(path, depth)])
  }

  /** The rows of a list of paths, path after path. */
  function RecursiveFlattenListing(listing: seq<string>, directoryChildren: map<string, seq<string>>, depth: nat, fuel: nat): Option<seq<FlatListingItem>>
    decreases fuel, 1, |listing|
  {
    if |listing| == 0 then Some([])
    else
      match (FlattenPath(listing[0], directoryChildren, depth, fuel),
             RecursiveFlattenListing(listing[1..], directoryChildren, depth, fuel))
      case (Some(first), Some(rest)) => Some(first + rest)
      case _ => None
  }

  /** The whole listing from depth 0; the item map plays no part. */
  function SelectFlatListing(state: TreeviewState, fuel: nat): Option<seq<FlatListingItem>> {
    RecursiveFlattenListing(state.listing, state.directoryChildren, 0, fuel)
  }

  lemma SelectIgnoresItems(state: TreeviewState, items: map<string, NormalizedItem>, fuel: nat)
    ensures SelectFlatListing(state.(items := items), fuel) == SelectFlatListing(state, fuel)
  {
  }

  /** More stack changes nothing once the flattening completes. */
  lemma {:induction false} FlattenPathFuel(path: string, directoryChildren: map<string, seq<string>>, depth: nat, fuel: nat, more: nat)
    requires FlattenPath(path, directoryChildren, depth, fuel).Some? && fuel <= more
    ensures FlattenPath(path, directoryChildren, depth, more) == FlattenPath(path, directoryChildren, depth, fuel)
    decreases fuel, 0
  {
    if path in directoryChildren && |directoryChildren[path]| > 0 {
      RecursiveFlattenFuel(directoryChildren[path], directoryChildren, depth + 1, fuel - 1, more - 1);
    }
  }

  lemma {:induction false} RecursiveFlattenFuel(listing: seq<string>, directoryChildren: map<string, seq<string>>, depth: nat, fuel: nat, more: nat)
    requires RecursiveFlattenListing(listing, directoryChildren, depth, fuel).Some? && fuel <= more
    ensures RecursiveFlattenListing(listing, directoryChildren, depth, more) == RecursiveFlattenListing(listing, directoryChildren, depth, fuel)
    decreases fuel, 1, |listing|
  {
    if |listing| > 0 {
      FlattenPathFuel(listing[0], directoryChildren, depth, fuel, more);
      RecursiveFlattenFuel(listing[1..], directoryChildren, depth, fuel, more);
    }
  }

  /** The rows of a tree read directly: every item at its depth, and the
      children of a directory with a non-empty child list after it, one
      level deeper, whether or not it is marked expanded. */
  function ItemRows(item: TreeviewItem, depth: nat): seq<FlatListingItem> {
    [FlatListingItem(item.path, depth)] +
    (if item.Directory? && |item.children| > 0 then TreeRows(item.children, depth + 1) else [])
  }

  function TreeRows(items: seq<TreeviewItem>, depth: nat): seq<FlatListingItem> {
    if |items| == 0 then [] else ItemRows(items[0], depth) + TreeRows(items[1..], depth)
  }

  /** The number of nested non-empty directory levels. */
  function Height(item: TreeviewItem): nat {
    if item.Directory? && |item.children| > 0 then 1 + HeightAll(item.children) else 0
  }

  function HeightAll(items: seq<TreeviewItem>): nat {
    if |items| == 0 then 0
    else
      var h := Height(items[0]);
      var rest := HeightAll(items[1..]);
      if h < rest then rest else h
  }

  /** The child-path map holds every directory of `tree` with its child
      paths and nothing under a file's path. */
  ghost predicate ChildrenMatch(tree: seq<TreeviewItem>, directoryChildren: map<string, seq<string>>) {
    forall n :: n in Nodes(tree) ==>
      (n.Directory? ==> n.path in directoryChildren && directoryChildren[n.path] == PathsOf(n.children)) &&
      (n.File? ==> n.path !in directoryChildren)
  }

  /** A directory's children are items of the tree too. */
  lemma {:induction false} NodesClosed(items: seq<TreeviewItem>, n: TreeviewItem)
    requires n in Nodes(items) && n.Directory?
    ensures forall c :: c in Nodes(n.children) ==> c in Nodes(items)
  {
    assert |items| > 0;
    var head := items[0];
    var below := if head.Directory? then Nodes(head.children) else [];
    assert Nodes(items) == [head] + below + Nodes(items[1..]);
    if n == head {
    } else if n in below {
      NodesClosed(head.children, n);
    } else {
      NodesClosed(items[1..], n);
    }
  }

  lemma {:induction false} FlattenItemMatchesTree(tree: seq<TreeviewItem>, item: TreeviewItem, directoryChildren: map<string, seq<string>>, depth: nat, fuel: nat)
    requires ChildrenMatch(tree, directoryChildren) && item in Nodes(tree) && Height(item) <= fuel
    ensures FlattenPath(item.path, directoryChildren, depth, fuel) == Some(ItemRows(item, depth))
    decreases item, 0
  {
    var row := FlatListingItem(item.path, depth);
    if item.Directory? {
      assert item.path in directoryChildren && directoryChildren[item.path] == PathsOf(item.children);
      if |item.children| > 0 {
        NodesClosed(tree, item);
        FlattenForestMatchesTree(tree, item.children, directoryChildren, depth + 1, fuel - 1);
      } else {
        assert |directoryChildren[item.path]| == 0;
        assert FlattenPath(item.path, directoryChildren, depth, fuel) == Some([row]);
        assert ItemRows(item, depth) == [row];
      }
    } else {
      assert item.path !in directoryChildren;
      assert ItemRows(item, depth) == [row];
    }
  }

  lemma {:induction false} FlattenForestMatchesTree(tree: seq<TreeviewItem>, sub: seq<TreeviewItem>, directoryChildren: map<string, seq<string>>, depth: nat, fuel: nat)
    requires ChildrenMatch(tree, directoryChildren) && (forall c :: c in Nodes(sub) ==> c in Nodes(tree))
    requires HeightAll(sub) <= fuel
    ensures RecursiveFlattenListing(PathsOf(sub), directoryChildren, depth, fuel) == Some(TreeRows(sub, depth))
    decreases sub, 1
  {
    if |sub| > 0 {
      var head := sub[0];
      var below := if head.Directory? then Nodes(head.children) else [];
      assert Nodes(sub) == [head] + below + Nodes(sub[1..]);
      assert PathsOf(sub)[1..] == PathsOf(sub[1..]);
      FlattenItemMatchesTree(tree, head, directoryChildren, depth, fuel);
      FlattenForestMatchesTree(tree, sub[1..], directoryChildren, depth, fuel);
    }
  }

  /** After init with a tree whose paths are unique, the selector yields
      the tree's rows read directly, given stack for the tree's height. */
  lemma {:induction false} InitThenSelectIsTreeRows(state: TreeviewState, tree: seq<TreeviewItem>, fuel: nat)
    requires UniquePaths(tree) && HeightAll(tree) <= fuel
    ensures SelectFlatListing(TreeviewReducer(state, TreeviewInit(tree)), fuel) == Some(TreeRows(tree, 0))
  {
    var dc := DirectoryChildrenReducer(state.directoryChildren, TreeviewInit(tree));
    InitChildrenHoldEveryDirectory(state.directoryChildren, tree);
    forall n | n in Nodes(tree) && n.File?
      ensures n.path !in dc
    {
      if n.path in dc {
        var m :| m in Nodes(tree) && m.Directory? && m.path == n.path;
        SamePathSameNode(tree, n, m);
      }
    }
    assert ChildrenMatch(tree, dc);
    FlattenForestMatchesTree(tree, tree, dc, 0, fuel);
  }
}
