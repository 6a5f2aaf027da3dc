/** The treeview's item tree as the backend sends it and the frontend
    stores it: playable-or-not files and directories that carry their
    loaded children and whether they are shown expanded. */
module TreeviewItems {

  datatype TreeviewItem =
    | File(name: string, path: string, canPlay: bool)
    | Directory(name: string, path: string, children: seq<TreeviewItem>, isExpanded: bool)

  datatype NameAndPath = NameAndPath(name: string, path: string)

  /** The name and path every item has, whatever its kind. */
  function ItemNameAndPath(item: TreeviewItem): NameAndPath {
    NameAndPath(item.name, item.path)
  }
}
