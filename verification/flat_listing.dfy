/** The flat, depth-annotated rows the tree view renders, generated from
    the cached directory tree. The frontend walks the tree with an explicit
    stack; `Visit` and `VisitAll` are the recursive reading of that walk,
    and `RecursivelyFlatten` is shown to compute exactly it. */
module FlatListings {
  import opened Wrappers
  import opened Sequences
  import opened Sorting
  import opened FileTypes
  import FL = FileListing

  datatype FlatItem = FlatItem(fileType: FileType, isExpanded: bool, depth: nat, name: string, path: string)

  datatype StackItem = StackItem(depth: nat, file: FL.FileNode)

  /** The sort key: the name, a missing name sorting as the empty string. */
  function NameKey(f: FL.FileNode): string {
    f.name.GetOr("")
  }

  function ByName(leq: (string, string) -> bool): (FL.FileNode, FL.FileNode) -> bool {
    (a: FL.FileNode, b: FL.FileNode) => leq(NameKey(a), NameKey(b))
  }

  function Reverse<T>(s: seq<T>): (r: seq<T>)
    ensures |r| == |s|
    ensures forall k :: 0 <= k < |s| ==> r[k] == s[|s| - 1 - k]
  {
    if |s| == 0 then [] else Reverse(s[1..]) + [s[0]]
  }

  lemma {:induction false} ReverseMultiset<T>(s: seq<T>)
    ensures multiset(Reverse(s)) == multiset(s)
  {
    if |s| > 0 {
      ReverseMultiset(s[1..]);
      assert s == [s[0]] + s[1..];
    }
  }

  /** The number of nodes of a tree. */
  function Size(f: FL.FileNode): nat {
    1 + SizeAll(f.children)
  }

  function SizeAll(fs: seq<FL.FileNode>): nat {
    if |fs| == 0 then 0 else Size(fs[0]) + SizeAll(fs[1..])
  }

  lemma {:induction false} SizeAllIsSum(fs: seq<FL.FileNode>)
    ensures SizeAll(fs) == SumOf(fs, Size)
  {
    if |fs| > 0 {
      SizeAllIsSum(fs[1..]);
    }
  }

  /** Rearranging a forest does not change its size. */
  lemma {:induction false} SizeAllPermutation(a: seq<FL.FileNode>, b: seq<FL.FileNode>)
    requires multiset(a) == multiset(b)
    ensures SizeAll(a) == SizeAll(b)
  {
    SizeAllIsSum(a);
    SizeAllIsSum(b);
    SumOfPermutation(a, b, Size);
  }

  /** The order siblings are emitted in: sorted ascending, then popped from
      the end of the stack, hence descending. */
  function Ordered(files: seq<FL.FileNode>, leq: (string, string) -> bool): (r: seq<FL.FileNode>)
    ensures multiset(r) == multiset(files)
    ensures SizeAll(r) == SizeAll(files)
  {
    var sorted := SortBy(files, ByName(leq));
    ReverseMultiset(sorted);
    SizeAllPermutation(Reverse(sorted), files);
    Reverse(sorted)
  }

  lemma {:induction false} ByNameTotal(leq: (string, string) -> bool)
    requires TotalPreorder(leq)
    ensures TotalPreorder(ByName(leq))
  {
    var byName := ByName(leq);
    forall a: FL.FileNode, b: FL.FileNode
      ensures byName(a, b) || byName(b, a)
    {
      assert leq(NameKey(a), NameKey(b)) || leq(NameKey(b), NameKey(a));
    }
    forall a: FL.FileNode, b: FL.FileNode, c: FL.FileNode | byName(a, b) && byName(b, c)
      ensures byName(a, c)
    {
      assert leq(NameKey(a), NameKey(b)) && leq(NameKey(b), NameKey(c));
    }
  }

  /** Reversing a sorted sequence puts each element no earlier than every
      element after it. */
  lemma ReverseSortedDescends<T>(s: seq<T>, leq: (T, T) -> bool)
    requires SortedBy(s, leq)
    ensures forall i, j :: 0 <= i < j < |Reverse(s)| ==> leq(Reverse(s)[j], Reverse(s)[i])
  {
    var r := Reverse(s);
    forall i, j | 0 <= i < j < |r|
      ensures leq(r[j], r[i])
    {
      assert r[j] == s[|s| - 1 - j] && r[i] == s[|s| - 1 - i];
    }
  }

  /** Siblings come out in descending name order: each sorts no earlier
      than every sibling after it. */
  lemma OrderedDescending(files: seq<FL.FileNode>, leq: (string, string) -> bool)
    requires TotalPreorder(leq)
    ensures forall i, j :: 0 <= i < j < |Ordered(files, leq)| ==>
              leq(NameKey(Ordered(files, leq)[j]), NameKey(Ordered(files, leq)[i]))
  {
    var sorted := SortBy(files, ByName(leq));
    ByNameTotal(leq);
    SortBySorted(files, ByName(leq));
    ReverseSortedDescends(sorted, ByName(leq));
  }

  /** The row of a named file: its type, expansion flag, name and path,
      at the given depth. */
  function ItemOf(f: FL.FileNode, depth: nat): (item: FlatItem)
    requires f.name.Some?
    ensures item.fileType == GetFileType(f.isDirectory, f.name)
    ensures item.depth == depth && item.name == f.name.value && item.path == f.path
    ensures item.isExpanded == f.isExpanded
  {
    FlatItem(GetFileType(f.isDirectory, f.name), f.isExpanded, depth, f.name.value, f.path)
  }

  /** The rows of one subtree: nothing for an unnamed file (its subtree
      included); otherwise its own row, followed by its children's rows one
      level deeper when it is an expanded directory. */
  function Visit(f: FL.FileNode, depth: nat, leq: (string, string) -> bool): seq<FlatItem>
    decreases Size(f), 1
  {
    if f.name.None? then []
    else
      [ItemOf(f, depth)] +
      (if f.isExpanded && f.isDirectory then VisitAll(Ordered(f.children, leq), depth + 1, leq) else [])
  }

  /** The rows of a forest, tree after tree. */
  function VisitAll(fs: seq<FL.FileNode>, depth: nat, leq: (string, string) -> bool): seq<FlatItem>
    decreases SizeAll(fs), 2
  {
    if |fs| == 0 then [] else Visit(fs[0], depth, leq) + VisitAll(fs[1..], depth, leq)
  }

  /** The rows still owed for a stack of pending files, popped from the end. */
  function Pending(stack: seq<StackItem>, leq: (string, string) -> bool): seq<FlatItem> {
    if |stack| == 0 then []
    else Visit(stack[|stack| - 1].file, stack[|stack| - 1].depth, leq) + Pending(stack[..|stack| - 1], leq)
  }

  function StackSize(stack: seq<StackItem>): nat {
    if |stack| == 0 then 0 else Size(stack[|stack| - 1].file) + StackSize(stack[..|stack| - 1])
  }

  /** Stack entries for `files`, all at `depth`, pushed in order. */
  function Push(files: seq<FL.FileNode>, depth: nat): (r: seq<StackItem>)
    ensures |r| == |files| && forall k :: 0 <= k < |files| ==> r[k] == StackItem(depth, files[k])
  {
    seq(|files|, k requires 0 <= k < |files| => StackItem(depth, files[k]))
  }

  /** Pushing files in order owes their rows in reverse order, before what
      was already owed. */
  lemma {:induction false} PendingPush(rest: seq<StackItem>, files: seq<FL.FileNode>, depth: nat, leq: (string, string) -> bool)
    ensures Pending(rest + Push(files, depth), leq) == VisitAll(Reverse(files), depth, leq) + Pending(rest, leq)
    decreases |files|
  {
    var stack := rest + Push(files, depth);
    if |files| == 0 {
      assert stack == rest;
    } else {
      var init := files[..|files| - 1];
      var last := files[|files| - 1];
      assert stack[..|stack| - 1] == rest + Push(init, depth);
      PendingPush(rest, init, depth, leq);
      VisitAllFirst(Reverse(files), depth, leq);
      assert Reverse(files)[1..] == Reverse(init);
      ConcatAssoc(Visit(last, depth, leq), VisitAll(Reverse(init), depth, leq), Pending(rest, leq));
    }
  }

  lemma VisitAllFirst(fs: seq<FL.FileNode>, depth: nat, leq: (string, string) -> bool)
    requires |fs| > 0
    ensures VisitAll(fs, depth, leq) == Visit(fs[0], depth, leq) + VisitAll(fs[1..], depth, leq)
  {
  }

  /** Pushing files grows the stack by their size. */
  lemma {:induction false} StackSizePush(rest: seq<StackItem>, files: seq<FL.FileNode>, depth: nat)
    ensures StackSize(rest + Push(files, depth)) == StackSize(rest) + SizeAll(files)
    decreases |files|
  {
    var stack := rest + Push(files, depth);
    if |files| == 0 {
      assert stack == rest;
    } else {
      var init := files[..|files| - 1];
      var last := files[|files| - 1];
      assert stack[..|stack| - 1] == rest + Push(init, depth);
      StackSizePush(rest, init, depth);
      assert files == init + [last];
      SizeAllSnoc(init, last);
    }
  }

  lemma {:induction false} SizeAllSnoc(init: seq<FL.FileNode>, last: FL.FileNode)
    ensures SizeAll(init + [last]) == SizeAll(init) + Size(last)
    decreases |init|
  {
    var s := init + [last];
    if |init| == 0 {
      assert s == [last];
      assert s[1..] == [];
    } else {
      assert s[1..] == init[1..] + [last];
      SizeAllSnoc(init[1..], last);
    }
  }

  /** The stack after popping its top and, for an expanded named
      directory, pushing that directory's sorted children. */
  function AfterPop(stack: seq<StackItem>, leq: (string, string) -> bool): seq<StackItem>
    requires |stack| > 0
  {
    var top := stack[|stack| - 1];
    var rest := stack[..|stack| - 1];
    if top.file.name.Some? && top.file.isExpanded && top.file.isDirectory then
      rest + Push(SortBy(top.file.children, ByName(leq)), top.depth + 1)
    else rest
  }

  /** One pop emits the top's row, if it is named, and leaves exactly the
      rest owed; the stack shrinks in size. */
  lemma {:induction false} PopStep(stack: seq<StackItem>, leq: (string, string) -> bool)
    requires |stack| > 0
    ensures var top := stack[|stack| - 1];
            Pending(stack, leq) ==
              (if top.file.name.Some? then [ItemOf(top.file, top.depth)] else []) + Pending(AfterPop(stack, leq), leq)
    ensures StackSize(AfterPop(stack, leq)) < StackSize(stack)
  {
    var top := stack[|stack| - 1];
    var rest := stack[..|stack| - 1];
    if top.file.name.Some? && top.file.isExpanded && top.file.isDirectory {
      PopExpanded(stack, leq);
      PopExpandedShrinks(stack, leq);
    } else {
      assert AfterPop(stack, leq) == rest;
      assert Pending(stack, leq) == Visit(top.file, top.depth, leq) + Pending(rest, leq);
      if top.file.name.Some? {
        assert Visit(top.file, top.depth, leq) == [ItemOf(top.file, top.depth)];
      } else {
        assert Visit(top.file, top.depth, leq) == [];
      }
    }
  }

  /** Popping an expanded directory pushes its sorted children. */
  lemma AfterPopExpanded(stack: seq<StackItem>, leq: (string, string) -> bool)
    requires |stack| > 0
    requires stack[|stack| - 1].file.name.Some? && stack[|stack| - 1].file.isExpanded && stack[|stack| - 1].file.isDirectory
    ensures AfterPop(stack, leq) ==
              stack[..|stack| - 1] + Push(SortBy(stack[|stack| - 1].file.children, ByName(leq)), stack[|stack| - 1].depth + 1)
  {
  }

  /** After popping an expanded directory, what is owed is its children's
      rows and then what the rest of the stack owes. */
  lemma {:induction false} PendingAfterPopExpanded(stack: seq<StackItem>, leq: (string, string) -> bool)
    requires |stack| > 0
    requires stack[|stack| - 1].file.name.Some? && stack[|stack| - 1].file.isExpanded && stack[|stack| - 1].file.isDirectory
    ensures Pending(AfterPop(stack, leq), leq) ==
              VisitAll(Ordered(stack[|stack| - 1].file.children, leq), stack[|stack| - 1].depth + 1, leq)
              + Pending(stack[..|stack| - 1], leq)
  {
    AfterPopExpanded(stack, leq);
    PendingPush(stack[..|stack| - 1], SortBy(stack[|stack| - 1].file.children, ByName(leq)), stack[|stack| - 1].depth + 1, leq);
  }

  /** What an expanded named directory on top of the stack owes: its row,
      its sorted children's rows, then what the rest owes. */
  lemma {:induction false} PendingExpandedTop(stack: seq<StackItem>, leq: (string, string) -> bool)
    requires |stack| > 0
    requires stack[|stack| - 1].file.name.Some? && stack[|stack| - 1].file.isExpanded && stack[|stack| - 1].file.isDirectory
    ensures Pending(stack, leq) ==
              ([ItemOf(stack[|stack| - 1].file, stack[|stack| - 1].depth)]
               + VisitAll(Ordered(stack[|stack| - 1].file.children, leq), stack[|stack| - 1].depth + 1, leq))
              + Pending(stack[..|stack| - 1], leq)
  {
    PendingTop(stack, leq);
    VisitExpanded(stack[|stack| - 1].file, stack[|stack| - 1].depth, leq);
  }

  /** Popping an expanded named directory emits its row and owes its
      sorted children's rows before the rest. */
  lemma {:induction false} PopExpanded(stack: seq<StackItem>, leq: (string, string) -> bool)
    requires |stack| > 0
    requires stack[|stack| - 1].file.name.Some? && stack[|stack| - 1].file.isExpanded && stack[|stack| - 1].file.isDirectory
    ensures Pending(stack, leq) == [ItemOf(stack[|stack| - 1].file, stack[|stack| - 1].depth)] + Pending(AfterPop(stack, leq), leq)
  {
    PendingExpandedTop(stack, leq);
    PendingAfterPopExpanded(stack, leq);
    ConcatAssoc([ItemOf(stack[|stack| - 1].file, stack[|stack| - 1].depth)],
                VisitAll(Ordered(stack[|stack| - 1].file.children, leq), stack[|stack| - 1].depth + 1, leq),
                Pending(stack[..|stack| - 1], leq));
  }

  /** Popping an expanded directory shrinks the stack: its children are
      smaller than it. */
  lemma {:induction false} PopExpandedShrinks(stack: seq<StackItem>, leq: (string, string) -> bool)
    requires |stack| > 0
    requires stack[|stack| - 1].file.name.Some? && stack[|stack| - 1].file.isExpanded && stack[|stack| - 1].file.isDirectory
    ensures StackSize(AfterPop(stack, leq)) < StackSize(stack)
  {
    AfterPopExpanded(stack, leq);
    StackSizePush(stack[..|stack| - 1], SortBy(stack[|stack| - 1].file.children, ByName(leq)), stack[|stack| - 1].depth + 1);
    SizeAllPermutation(SortBy(stack[|stack| - 1].file.children, ByName(leq)), stack[|stack| - 1].file.children);
    StackSizeTop(stack);
  }

  lemma PendingTop(stack: seq<StackItem>, leq: (string, string) -> bool)
    requires |stack| > 0
    ensures Pending(stack, leq) == Visit(stack[|stack| - 1].file, stack[|stack| - 1].depth, leq) + Pending(stack[..|stack| - 1], leq)
  {
  }

  lemma StackSizeTop(stack: seq<StackItem>)
    requires |stack| > 0
    ensures StackSize(stack) == 1 + SizeAll(stack[|stack| - 1].file.children) + StackSize(stack[..|stack| - 1])
  {
  }

  lemma VisitExpanded(f: FL.FileNode, depth: nat, leq: (string, string) -> bool)
    requires f.name.Some? && f.isExpanded && f.isDirectory
    ensures Visit(f, depth, leq) == [ItemOf(f, depth)] + VisitAll(Ordered(f.children, leq), depth + 1, leq)
    ensures Size(f) == 1 + SizeAll(f.children)
  {
  }

  /** The sorted top-level files, pushed at depth 0, owe the whole listing. */
  lemma {:induction false} InitialStack(files: seq<FL.FileNode>, leq: (string, string) -> bool)
    ensures Pending(Push(SortBy(files, ByName(leq)), 0), leq) == VisitAll(Ordered(files, leq), 0, leq)
  {
    var sorted := SortBy(files, ByName(leq));
    PendingPush([], sorted, 0, leq);
    assert [] + Push(sorted, 0) == Push(sorted, 0);
  }

  /** The frontend's stack walk: the sorted top-level files are pushed at
      depth 0; each popped named file yields its row and, when it is an
      expanded directory, pushes its sorted children one level deeper. */
  method RecursivelyFlatten(files: seq<FL.FileNode>, leq: (string, string) -> bool) returns (listing: seq<FlatItem>)
    ensures listing == VisitAll(Ordered(files, leq), 0, leq)
  {
    var stack := Push(SortBy(files, ByName(leq)), 0);
    InitialStack(files, leq);
    listing := [];
    ghost var target := VisitAll(Ordered(files, leq), 0, leq);
    while |stack| > 0
      invariant listing + Pending(stack, leq) == target
      decreases StackSize(stack)
    {
      listing, stack := WalkStep(listing, stack, leq);
    }
    assert listing + [] == listing;
  }

  /** One turn of the walk, as the loop sees it: the rows emitted plus the
      rows still owed stay the same, and the stack shrinks. */
  method WalkStep(listing: seq<FlatItem>, stack: seq<StackItem>, leq: (string, string) -> bool)
    returns (listing': seq<FlatItem>, stack': seq<StackItem>)
    requires |stack| > 0
    ensures listing' + Pending(stack', leq) == listing + Pending(stack, leq)
    ensures StackSize(stack') < StackSize(stack)
  {
    PopStep(stack, leq);
    ghost var next := AfterPop(stack, leq);
    var row;
    row, stack' := PopRow(stack, leq);
    listing' := listing;
    if row.Some? {
      ConcatAssoc(listing, [row.value], Pending(next, leq));
      listing' := listing + [row.value];
    }
  }

  /** One turn of the walk: pops the top file, yields its row when it is
      named, and pushes its sorted children one level deeper when it is an
      expanded directory. */
  method PopRow(stack: seq<StackItem>, leq: (string, string) -> bool) returns (row: Option<FlatItem>, next: seq<StackItem>)
    requires |stack| > 0
    ensures var top := stack[|stack| - 1];
            && (row.Some? <==> top.file.name.Some?)
            && (row.Some? ==> row.value == ItemOf(top.file, top.depth))
    ensures next == AfterPop(stack, leq)
  {
    var top := stack[|stack| - 1];
    next := stack[..|stack| - 1];
    if top.file.name.None? {
      return None, next;
    }
    row := Some(ItemOf(top.file, top.depth));
    if top.file.isExpanded && top.file.isDirectory {
      next := next + Push(SortBy(top.file.children, ByName(leq)), top.depth + 1);
    }
  }

  /** The flat listing of the cached tree; None before a root is loaded. */
  method GenerateFullListing(root: Option<FL.RootNode>, leq: (string, string) -> bool) returns (r: Option<seq<FlatItem>>)
    ensures r.None? <==> root.None?
    ensures r.Some? ==> r.value == VisitAll(Ordered(root.value.children, leq), 0, leq)
  {
    if root.None? {
      return None;
    }
    var listing := RecursivelyFlatten(root.value.children, leq);
    return Some(listing);
  }

  /** Pre-order with depths: a subtree's rows start with its own row at
      `depth` and every later row lies strictly deeper. */
  lemma {:induction false} VisitDepths(f: FL.FileNode, depth: nat, leq: (string, string) -> bool)
    ensures var rows := Visit(f, depth, leq);
            && (|rows| > 0 <==> f.name.Some?)
            && (|rows| > 0 ==> rows[0] == ItemOf(f, depth))
            && (forall i :: 1 <= i < |rows| ==> rows[i].depth > depth)
    decreases Size(f), 1
  {
    if f.name.Some? && f.isExpanded && f.isDirectory {
      VisitAllDepths(Ordered(f.children, leq), depth + 1, leq);
    }
  }

  /** Every row of a forest lies at `depth` or deeper. */
  lemma {:induction false} VisitAllDepths(fs: seq<FL.FileNode>, depth: nat, leq: (string, string) -> bool)
    ensures forall i :: 0 <= i < |VisitAll(fs, depth, leq)| ==> VisitAll(fs, depth, leq)[i].depth >= depth
    decreases SizeAll(fs), 2
  {
    if |fs| > 0 {
      VisitDepths(fs[0], depth, leq);
      VisitAllDepths(fs[1..], depth, leq);
    }
  }

  /** A directory that is not expanded yields only its own row, whatever
      children it still holds. */
  lemma CollapsedYieldsOneRow(f: FL.FileNode, depth: nat, leq: (string, string) -> bool)
    requires f.name.Some? && !f.isExpanded
    ensures Visit(f, depth, leq) == [ItemOf(f, depth)]
  {
  }

  /** `n` is `f` itself or a node of one of its subtrees. */
  ghost predicate InTree(n: FL.FileNode, f: FL.FileNode)
    decreases f
  {
    n == f || exists k :: 0 <= k < |f.children| && InTree(n, f.children[k])
  }

  /** `row` is the row of some named node of `f`, at the row's depth. */
  ghost predicate RowOfTree(row: FlatItem, f: FL.FileNode) {
    exists n :: InTree(n, f) && n.name.Some? && row == ItemOf(n, row.depth)
  }

  ghost predicate RowOfForest(row: FlatItem, fs: seq<FL.FileNode>) {
    exists j :: 0 <= j < |fs| && RowOfTree(row, fs[j])
  }

  lemma OwnRowIsTreeRow(f: FL.FileNode, depth: nat)
    requires f.name.Some?
    ensures RowOfTree(ItemOf(f, depth), f)
  {
    assert InTree(f, f);
  }

  /** A row of some child, in whatever order the children are taken, is a
      row of the parent's tree. */
  lemma ChildRowIsTreeRow(row: FlatItem, f: FL.FileNode, cs: seq<FL.FileNode>)
    requires multiset(cs) == multiset(f.children)
    requires RowOfForest(row, cs)
    ensures RowOfTree(row, f)
  {
    var j :| 0 <= j < |cs| && RowOfTree(row, cs[j]);
    var n :| InTree(n, cs[j]) && n.name.Some? && row == ItemOf(n, row.depth);
    assert cs[j] in multiset(f.children);
    var i :| 0 <= i < |f.children| && f.children[i] == cs[j];
    assert InTree(n, f);
  }

  /** A directory's own row followed by rows of its children's subtrees
      consists of rows of the directory's tree. */
  lemma OwnRowThenChildRows(f: FL.FileNode, depth: nat, cs: seq<FL.FileNode>, sub: seq<FlatItem>)
    requires f.name.Some? && multiset(cs) == multiset(f.children)
    requires forall k :: 0 <= k < |sub| ==> RowOfForest(sub[k], cs)
    ensures forall k :: 0 <= k < |[ItemOf(f, depth)] + sub| ==> RowOfTree(([ItemOf(f, depth)] + sub)[k], f)
  {
    var rows := [ItemOf(f, depth)] + sub;
    forall k | 0 <= k < |rows|
      ensures RowOfTree(rows[k], f)
    {
      if k == 0 {
        OwnRowIsTreeRow(f, depth);
      } else {
        assert rows[k] == sub[k - 1];
        ChildRowIsTreeRow(sub[k - 1], f, cs);
      }
    }
  }

  /** Every row of a subtree is the row of one of its named nodes. */
  lemma {:induction false} VisitRowsAreItems(f: FL.FileNode, depth: nat, leq: (string, string) -> bool)
    ensures forall k :: 0 <= k < |Visit(f, depth, leq)| ==> RowOfTree(Visit(f, depth, leq)[k], f)
    decreases Size(f), 1
  {
    if f.name.None? {
      assert Visit(f, depth, leq) == [];
    } else if f.isExpanded && f.isDirectory {
      var cs := Ordered(f.children, leq);
      VisitAllRowsAreItems(cs, depth + 1, leq);
      VisitExpanded(f, depth, leq);
      OwnRowThenChildRows(f, depth, cs, VisitAll(cs, depth + 1, leq));
    } else {
      assert Visit(f, depth, leq) == [ItemOf(f, depth)];
      OwnRowIsTreeRow(f, depth);
    }
  }

  /** Every row of a forest's listing is the row of one of its named nodes,
      at the row's depth. */
  lemma {:induction false} VisitAllRowsAreItems(fs: seq<FL.FileNode>, depth: nat, leq: (string, string) -> bool)
    ensures forall k :: 0 <= k < |VisitAll(fs, depth, leq)| ==> RowOfForest(VisitAll(fs, depth, leq)[k], fs)
    decreases SizeAll(fs), 2
  {
    if |fs| > 0 {
      var head := Visit(fs[0], depth, leq);
      var tail := VisitAll(fs[1..], depth, leq);
      VisitRowsAreItems(fs[0], depth, leq);
      VisitAllRowsAreItems(fs[1..], depth, leq);
      assert VisitAll(fs, depth, leq) == head + tail;
      forall k | 0 <= k < |head| + |tail|
        ensures RowOfForest((head + tail)[k], fs)
      {
        if k < |head| {
          assert RowOfTree(head[k], fs[0]);
        } else {
          var j :| 0 <= j < |fs[1..]| && RowOfTree(tail[k - |head|], fs[1..][j]);
          assert fs[1..][j] == fs[j + 1];
        }
      }
    }
  }
}
