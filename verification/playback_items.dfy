/** The play list built when a file is started from the treeview: the
    playable files that are siblings of the started one, from it onward,
    in listing order. */
module PlaybackItems {

  /** A row of the flat listing as this code reads it: `canPlay` marks a
      playable file. */
  datatype Row = Row(path: string, depth: nat, canPlay: bool)

  /** The position of the first row with path `p`, or -1. */
  function FindIndex(rows: seq<Row>, p: string): (i: int)
    ensures -1 <= i < |rows|
    ensures i >= 0 ==> rows[i].path == p && forall k :: 0 <= k < i ==> rows[k].path != p
    ensures i == -1 <==> forall k :: 0 <= k < |rows| ==> rows[k].path != p
  {
    if |rows| == 0 then -1
    else if rows[0].path == p then 0
    else
      var i := FindIndex(rows[1..], p);
      if i == -1 then -1 else i + 1
  }

  /** The reference reading: from `from`, until the first row shallower
      than `depth`, the paths of the playable rows at exactly `depth`;
      deeper rows are passed over. */
  function SameDepthRun(rows: seq<Row>, from: nat, depth: nat): seq<string>
    decreases |rows| - from
  {
    if from >= |rows| || rows[from].depth < depth then []
    else (if rows[from].depth == depth && rows[from].canPlay then [rows[from].path] else [])
         + SameDepthRun(rows, from + 1, depth)
  }

  /** Every path of a run is the path of a playable row at `depth` at or
      after `from`. */
  lemma {:induction false} RunMembers(rows: seq<Row>, from: nat, depth: nat, p: string)
    requires p in SameDepthRun(rows, from, depth)
    ensures exists k :: from <= k < |rows| && rows[k].path == p && rows[k].depth == depth && rows[k].canPlay
    decreases |rows| - from
  {
    if from < |rows| && rows[from].depth >= depth {
      if !(rows[from].depth == depth && rows[from].canPlay && p == rows[from].path) {
        RunMembers(rows, from + 1, depth, p);
      }
    }
  }

  /** The rows from `from` up to the first shallower one are all at
      `depth` or deeper; a shallower row ends the run. */
  lemma {:induction false} RunStopsAtShallower(rows: seq<Row>, from: nat, depth: nat, stop: nat)
    requires from <= stop < |rows| && rows[stop].depth < depth
    ensures SameDepthRun(rows, from, depth) == SameDepthRun(rows[..stop], from, depth)
    decreases stop - from
  {
    if from < stop && rows[from].depth >= depth {
      RunStopsAtShallower(rows, from + 1, depth, stop);
      assert rows[..stop][from] == rows[from];
    } else if from < stop {
      assert rows[..stop][from] == rows[from];
    }
  }

  /** Scans from the first row with `startPath`: stops at the first row
      shallower than it, skips deeper rows, and collects the playable rows
      at its depth (itself included). Unknown paths give nothing. */
  method GetPlaybackItems(startPath: string, rows: seq<Row>) returns (paths: seq<string>)
    ensures FindIndex(rows, startPath) == -1 ==> paths == []
    ensures FindIndex(rows, startPath) >= 0 ==>
              var start := FindIndex(rows, startPath);
              paths == SameDepthRun(rows, start, rows[start].depth)
  {
    var start := FindIndex(rows, startPath);
    if start == -1 {
      return [];
    }
    var startDepth := rows[start].depth;
    paths := [];
    var i := start;
    while i < |rows|
      invariant start <= i <= |rows|
      invariant paths + SameDepthRun(rows, i, startDepth) == SameDepthRun(rows, start, startDepth)
      decreases |rows| - i
    {
      if rows[i].depth < startDepth {
        break;
      }
      if rows[i].depth > startDepth {
        RunSkips(rows, i, startDepth);
        i := i + 1;
        continue;
      }
      if rows[i].canPlay {
        RunTakes(paths, rows, i, startDepth);
        paths := paths + [rows[i].path];
      } else {
        RunSkips(rows, i, startDepth);
      }
      i := i + 1;
    }
    RunEnds(paths, rows, i, startDepth);
  }

  /** A row deeper than `depth`, or not playable, adds nothing to the run. */
  lemma {:induction false} RunSkips(rows: seq<Row>, i: nat, depth: nat)
    requires i < |rows| && rows[i].depth >= depth && !(rows[i].depth == depth && rows[i].canPlay)
    ensures SameDepthRun(rows, i, depth) == SameDepthRun(rows, i + 1, depth)
  {
    assert SameDepthRun(rows, i, depth) == [] + SameDepthRun(rows, i + 1, depth);
  }

  /** A playable row at `depth` is the next path of the run. */
  lemma {:induction false} RunTakes(paths: seq<string>, rows: seq<Row>, i: nat, depth: nat)
    requires i < |rows| && rows[i].depth == depth && rows[i].canPlay
    ensures (paths + [rows[i].path]) + SameDepthRun(rows, i + 1, depth) == paths + SameDepthRun(rows, i, depth)
  {
    assert SameDepthRun(rows, i, depth) == [rows[i].path] + SameDepthRun(rows, i + 1, depth);
  }

  /** The run is over after the last row or at a shallower row. */
  lemma {:induction false} RunEnds(paths: seq<string>, rows: seq<Row>, i: nat, depth: nat)
    requires i >= |rows| || rows[i].depth < depth
    ensures paths + SameDepthRun(rows, i, depth) == paths
  {
    assert SameDepthRun(rows, i, depth) == [];
  }
}
