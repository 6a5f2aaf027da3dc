/** The parent of a path: everything before the last separator, or the
    empty string when there is none. */
module Paths {

  /** `sep` occurs in `s` starting at position `i`. */
  predicate OccursAt(s: string, sep: string, i: int) {
    0 <= i && i + |sep| <= |s| && s[i..i + |sep|] == sep
  }

  /** The last position where `sep` starts, searching down from `from`,
      or -1; an empty `sep` is found at `from`, as `lastIndexOf` finds it
      at the end of the string. */
  function LastIndexFrom(s: string, sep: string, from: int): (i: int)
    requires -1 <= from && from + |sep| <= |s|
    ensures -1 <= i <= from
    ensures i >= 0 ==> OccursAt(s, sep, i)
    ensures forall j :: i < j <= from ==> !OccursAt(s, sep, j)
    decreases from + 1
  {
    if from < 0 then -1
    else if s[from..from + |sep|] == sep then from
    else LastIndexFrom(s, sep, from - 1)
  }

  /** The start of the last occurrence of `sep` in `s`, or -1. */
  function LastIndexOf(s: string, sep: string): (i: int)
    ensures -1 <= i <= |s|
    ensures i >= 0 ==> OccursAt(s, sep, i)
    ensures forall j :: i < j <= |s| ==> !OccursAt(s, sep, j)
    ensures i == -1 <==> forall j :: 0 <= j <= |s| ==> !OccursAt(s, sep, j)
  {
    if |sep| > |s| then -1 else LastIndexFrom(s, sep, |s| - |sep|)
  }

  /** `substring(0, end)`, with a negative end clamped to 0. */
  function Prefix(s: string, end: int): (r: string)
    requires end <= |s|
    ensures r == if end < 0 then [] else s[..end]
  {
    if end < 0 then [] else s[..end]
  }

  function GetParentPath(path: string, sep: string): (r: string)
    ensures |r| <= |path| && r == path[..|r|]
  {
    Prefix(path, LastIndexOf(path, sep))
  }

  /** Without a separator the parent is the empty string. */
  lemma NoSeparatorNoParent(path: string, sep: string)
    requires forall j :: 0 <= j <= |path| ==> !OccursAt(path, sep, j)
    ensures GetParentPath(path, sep) == ""
  {
  }

  /** With a separator, the path is its parent, the separator and a last
      component in which the separator does not occur. */
  lemma {:induction false} ParentSplitsAtLastSeparator(path: string, sep: string)
    requires |sep| > 0 && exists j :: 0 <= j <= |path| && OccursAt(path, sep, j)
    ensures var parent := GetParentPath(path, sep);
            var tail := path[|parent| + |sep|..];
            && |parent| + |sep| <= |path|
            && path == parent + sep + tail
            && forall j :: 0 <= j <= |tail| ==> !OccursAt(tail, sep, j)
  {
    var i := LastIndexOf(path, sep);
    var parent := GetParentPath(path, sep);
    assert |parent| == i;
    var tail := path[i + |sep|..];
    assert path == path[..i] + path[i..i + |sep|] + tail;
    forall j | 0 <= j <= |tail| && OccursAt(tail, sep, j)
      ensures false
    {
      assert path[i + |sep| + j..i + |sep| + j + |sep|] == tail[j..j + |sep|];
      assert OccursAt(path, sep, i + |sep| + j);
    }
  }
}
