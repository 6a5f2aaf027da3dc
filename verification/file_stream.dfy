/** The reading side of a decoded audio stream. A decode worker sends blocks
    of frames tagged with a stream id; the stream keeps the blocks of its
    current id in arrival order and serves reads from them, disposing of
    blocks once they are fully played. A frame (one sample per channel) is
    the abstract type `F`; a block's frame count is the length of its
    samples. */
module FileStreams {
  import opened Wrappers
  import opened Sequences

  /** Frames a single read can return at most. */
  const ReadBufferSize: nat := 16384

  datatype Block<F> = Block(samples: seq<F>, playhead: nat, isEof: bool, streamId: nat)

  datatype FileStream<F> = FileStream(
    blocks: seq<Block<F>>,
    playhead: nat,
    streamId: nat,
    nFrames: Option<nat>)

  datatype ReadData<F> = ReadData(data: seq<F>, reachedEndOfFile: bool)

  function Min(a: nat, b: nat): nat { if a <= b then a else b }

  /** Frames of a block not yet played (the playhead never passes the
      block's end). */
  function Unplayed<F>(b: Block<F>): seq<F> {
    if b.playhead <= |b.samples| then b.samples[b.playhead..] else []
  }

  function Avail<F>(b: Block<F>): nat {
    |Unplayed(b)|
  }

  /** The block after playing `n` more of its frames. */
  function Played<F>(b: Block<F>, n: nat): Block<F> {
    b.(playhead := b.playhead + n)
  }

  /** The frames still to be played, across all blocks in order. */
  function Pending<F>(bs: seq<Block<F>>): (r: seq<F>) {
    if |bs| == 0 then [] else Unplayed(bs[0]) + Pending(bs[1..])
  }

  lemma {:induction false} PendingConcat<F>(a: seq<Block<F>>, b: seq<Block<F>>)
    ensures Pending(a + b) == Pending(a) + Pending(b)
    decreases |a|
  {
    if |a| > 0 {
      assert (a + b)[1..] == a[1..] + b;
      PendingConcat(a[1..], b);
    } else {
      assert a + b == b;
    }
  }

  /** The arrived blocks tagged with stream id `id`, in arrival order. */
  function Matching<F>(arrived: seq<Block<F>>, id: nat): (r: seq<Block<F>>)
    ensures |r| <= |arrived|
    ensures forall k :: 0 <= k < |r| ==> r[k] in arrived && r[k].streamId == id
    ensures (forall k :: 0 <= k < |arrived| ==> arrived[k].streamId != id) ==> r == []
    ensures (forall k :: 0 <= k < |arrived| ==> arrived[k].streamId == id) ==> r == arrived
  {
    if |arrived| == 0 then []
    else
      var tail := Matching(arrived[1..], id);
      TailIds(arrived, id);
      if arrived[0].streamId == id then
        TailMembers(arrived, tail, [arrived[0]] + tail);
        [arrived[0]] + tail
      else
        TailMembers(arrived, tail, tail);
        tail
  }

  /** A selection from the blocks after the first, with or without the
      first in front, is a selection from all of them. */
  lemma TailMembers<F>(arrived: seq<Block<F>>, tail: seq<Block<F>>, r: seq<Block<F>>)
    requires |arrived| > 0 && forall k :: 0 <= k < |tail| ==> tail[k] in arrived[1..]
    requires r == tail || r == [arrived[0]] + tail
    ensures forall k :: 0 <= k < |r| ==> r[k] in arrived
  {
    forall k | 0 <= k < |r|
      ensures r[k] in arrived
    {
      if r != tail && k == 0 {
        assert r[0] == arrived[0];
      } else {
        var j := if r == tail then k else k - 1;
        assert r[k] == tail[j] && tail[j] in arrived[1..];
      }
    }
  }

  /** When every arrived block carries `id`, or none does, the same holds
      after the first. */
  lemma TailIds<F>(arrived: seq<Block<F>>, id: nat)
    requires |arrived| > 0
    ensures (forall k :: 0 <= k < |arrived| ==> arrived[k].streamId == id) ==>
              forall k :: 0 <= k < |arrived[1..]| ==> arrived[1..][k].streamId == id
    ensures (forall k :: 0 <= k < |arrived| ==> arrived[k].streamId != id) ==>
              forall k :: 0 <= k < |arrived[1..]| ==> arrived[1..][k].streamId != id
  {
    forall k | 0 <= k < |arrived[1..]|
      ensures arrived[1..][k] == arrived[k + 1]
    {
    }
  }

  /** Some block arrived for stream id `id` exactly when one is kept. */
  lemma {:induction false} MatchingNonEmpty<F>(arrived: seq<Block<F>>, id: nat)
    ensures |Matching(arrived, id)| > 0 <==> exists k :: 0 <= k < |arrived| && arrived[k].streamId == id
    decreases |arrived|
  {
    if |arrived| > 0 && arrived[0].streamId != id {
      MatchingNonEmpty(arrived[1..], id);
      if exists k :: 0 <= k < |arrived[1..]| && arrived[1..][k].streamId == id {
        var k :| 0 <= k < |arrived[1..]| && arrived[1..][k].streamId == id;
        assert arrived[k + 1].streamId == id;
      }
      if exists k :: 0 <= k < |arrived| && arrived[k].streamId == id {
        var k :| 0 <= k < |arrived| && arrived[k].streamId == id;
        assert k > 0 && arrived[1..][k - 1].streamId == id;
      }
    } else if |arrived| > 0 {
      assert arrived[0].streamId == id;
    }
  }

  /** A single arrived block is kept exactly when it carries the id. */
  lemma {:induction false} MatchingSingle<F>(x: Block<F>, id: nat)
    ensures Matching([x], id) == if x.streamId == id then [x] else []
  {
    assert [x][1..] == [];
  }

  /** Matching a concatenation matches each part in turn: the kept blocks
      stay in arrival order. With MatchingSingle this determines Matching
      as the order-keeping filter on the stream id. */
  lemma {:induction false} MatchingConcat<F>(a: seq<Block<F>>, b: seq<Block<F>>, id: nat)
    ensures Matching(a + b, id) == Matching(a, id) + Matching(b, id)
    decreases |a|
  {
    if |a| == 0 {
      assert a + b == b;
    } else {
      assert (a + b)[1..] == a[1..] + b;
      MatchingConcat(a[1..], b, id);
      if a[0].streamId == id {
        ConcatAssoc([a[0]], Matching(a[1..], id), Matching(b, id));
      }
    }
  }

  /** No arrived block with the id is lost. */
  lemma {:induction false} MatchingKeepsEvery<F>(arrived: seq<Block<F>>, id: nat)
    ensures forall k :: 0 <= k < |arrived| && arrived[k].streamId == id ==> arrived[k] in Matching(arrived, id)
    decreases |arrived|
  {
    if |arrived| > 0 {
      MatchingKeepsEvery(arrived[1..], id);
      forall k | 0 <= k < |arrived| && arrived[k].streamId == id
        ensures arrived[k] in Matching(arrived, id)
      {
        if k > 0 {
          assert arrived[1..][k - 1] == arrived[k];
        }
      }
    }
  }

  /** Takes the decoder's messages that have arrived, one at a time: blocks
      of the current stream id are appended in order, blocks of an earlier
      id are dropped. */
  function Poll<F>(s: FileStream<F>, arrived: seq<Block<F>>): (r: FileStream<F>)
    ensures r == s.(blocks := s.blocks + Matching(arrived, s.streamId))
    decreases |arrived|
  {
    if |arrived| == 0 then s
    else if arrived[0].streamId != s.streamId then Poll(s, arrived[1..])
    else
      var s' := s.(blocks := s.blocks + [arrived[0]]);
      ConcatAssoc(s.blocks, [arrived[0]], Matching(arrived[1..], s.streamId));
      Poll(s', arrived[1..])
  }

  /** Polling twice takes the two batches of messages as one batch would:
      every accepted block is appended at the tail, in arrival order. */
  lemma {:induction false} PollInArrivalOrder<F>(s: FileStream<F>, first: seq<Block<F>>, second: seq<Block<F>>)
    ensures Poll(Poll(s, first), second) == Poll(s, first + second)
  {
    MatchingConcat(first, second, s.streamId);
    ConcatAssoc(s.blocks, Matching(first, s.streamId), Matching(second, s.streamId));
  }

  /** Whether a read can be served: something arrived for the current id. */
  function IsReady<F>(s: FileStream<F>, arrived: seq<Block<F>>): (r: (bool, FileStream<F>))
    ensures r.1 == Poll(s, arrived)
    ensures r.0 <==> |s.blocks| > 0 || exists k :: 0 <= k < |arrived| && arrived[k].streamId == s.streamId
  {
    var polled := Poll(s, arrived);
    MatchingNonEmpty(arrived, s.streamId);
    (|polled.blocks| > 0, polled)
  }

  /** The blocks after `want` frames have been played from the front: fully
      read blocks have their playhead at their end, at most one block is
      partly read. */
  function Advance<F>(bs: seq<Block<F>>, want: nat): (r: seq<Block<F>>)
    ensures |r| == |bs|
  {
    if |bs| == 0 || want == 0 then bs
    else if Avail(bs[0]) <= want then
      [Played(bs[0], Avail(bs[0]))] + Advance(bs[1..], want - Avail(bs[0]))
    else
      [Played(bs[0], want)] + bs[1..]
  }

  /** No playhead is past its block's frame count. */
  ghost predicate InBounds<F>(bs: seq<Block<F>>) {
    forall k :: 0 <= k < |bs| ==> bs[k].playhead <= |bs[k].samples|
  }

  /** A read never moves a playhead past the end of its block: a block read
      whole stops at its end, a partly read block stops inside it. */
  lemma {:induction false} AdvanceInBounds<F>(bs: seq<Block<F>>, want: nat)
    requires InBounds(bs)
    ensures InBounds(Advance(bs, want))
    decreases |bs|
  {
    if |bs| > 0 && want > 0 {
      assert bs[0].playhead <= |bs[0].samples|;
      assert InBounds(bs[1..]) by {
        forall k | 0 <= k < |bs[1..]|
          ensures bs[1..][k].playhead <= |bs[1..][k].samples|
        {
          assert bs[1..][k] == bs[k + 1];
        }
      }
      if Avail(bs[0]) <= want {
        AdvanceInBounds(bs[1..], want - Avail(bs[0]));
        var tail := Advance(bs[1..], want - Avail(bs[0]));
        var r := [Played(bs[0], Avail(bs[0]))] + tail;
        forall k | 0 <= k < |r|
          ensures r[k].playhead <= |r[k].samples|
        {
          if k > 0 {
            assert r[k] == tail[k - 1];
          }
        }
      } else {
        var r := [Played(bs[0], want)] + bs[1..];
        forall k | 0 <= k < |r|
          ensures r[k].playhead <= |r[k].samples|
        {
          if k > 0 {
            assert r[k] == bs[k];
          }
        }
      }
    }
  }

  /** Drops the fully played blocks at the front. */
  function Prune<F>(bs: seq<Block<F>>): (r: seq<Block<F>>)
    ensures |r| <= |bs| && r == bs[|bs| - |r|..]
    ensures |r| > 0 ==> Avail(r[0]) > 0
  {
    if |bs| > 0 && Avail(bs[0]) == 0 then
      var r := Prune(bs[1..]);
      assert bs[1..][|bs[1..]| - |r|..] == bs[|bs| - |r|..];
      r
    else bs
  }

  /** The end-of-file flag a read of `want` frames reports: that of the
      last block it finished, `flag` when it finished none. */
  function ReadEof<F>(bs: seq<Block<F>>, want: nat, flag: bool): bool
  {
    if |bs| == 0 || want == 0 then flag
    else if Avail(bs[0]) <= want then ReadEof(bs[1..], want - Avail(bs[0]), bs[0].isEof)
    else flag
  }

  /** Some block of `bs` is the decoder's last. */
  ghost predicate HasEof<F>(bs: seq<Block<F>>) {
    exists k :: 0 <= k < |bs| && bs[k].isEof
  }

  // Sequence algebra used by the proofs below; each states one rewriting
  // step so that the proofs about blocks only have to chain them.

  /** When the first part of a concatenation splits, the concatenation
      starts with the first piece. */
  lemma {:induction false} SplitFirst<T>(a: seq<T>, b: seq<T>, u: seq<T>, t: seq<T>, u': seq<T>, p: seq<T>)
    requires a == u + p && b == u' + p && u == t + u'
    ensures a == t + b
  {
    ConcatAssoc(t, u', p);
  }

  /** Dropping past the whole of the first part of a concatenation. */
  lemma {:induction false} DropAppend<T>(a: seq<T>, b: seq<T>, m: nat)
    requires |a| <= m <= |a| + |b|
    ensures (a + b)[m..] == b[m - |a|..]
  {
    assert forall i :: 0 <= i < |b| - (m - |a|) ==> (a + b)[m..][i] == b[m - |a|..][i];
  }

  /** Dropping `want` elements from `u + p`, where `u` has `n <= want`
      elements, drops `want - n` elements from `p`. */
  lemma {:induction false} DropPastHead<T>(a: seq<T>, u: seq<T>, p: seq<T>, x: seq<T>, y: seq<T>, n: nat, want: nat)
    requires a == u + p && |u| == n <= want
    requires x == y && y == p[Min(want - n, |p|)..]
    ensures x == a[Min(want, |a|)..]
  {
    DropAppend(u, p, n + Min(want - n, |p|));
  }

  /** Dropping exactly the first part of a concatenation. */
  lemma {:induction false} DropHead<T>(a: seq<T>, t: seq<T>, b: seq<T>, x: seq<T>, want: nat)
    requires a == t + b && |t| == want && x == b
    ensures x == a[Min(want, |a|)..]
  {
    DropAppend(t, b, want);
  }

  // One step of Pending, Advance and ReadEof at the head block.

  lemma {:induction false} PendingHead<F>(bs: seq<Block<F>>)
    requires |bs| > 0
    ensures Pending(bs) == Unplayed(bs[0]) + Pending(bs[1..])
  {
  }

  lemma {:induction false} PendingCons<F>(x: Block<F>, t: seq<Block<F>>)
    ensures Pending([x] + t) == Unplayed(x) + Pending(t)
  {
    assert ([x] + t)[1..] == t;
  }

  lemma {:induction false} PendingSingle<F>(x: Block<F>)
    ensures Pending([x]) == Unplayed(x)
  {
    assert [x][1..] == [];
  }

  /** A block with nothing unplayed adds nothing to the pending frames. */
  lemma {:induction false} PendingConsPlayed<F>(x: Block<F>, t: seq<Block<F>>)
    requires Unplayed(x) == []
    ensures Pending([x] + t) == Pending(t)
  {
    PendingCons(x, t);
    assert Unplayed(x) + Pending(t) == Pending(t);
  }

  /** Reading all that a block has leaves nothing unplayed. */
  lemma {:induction false} PlayedOut<F>(b: Block<F>, n: nat)
    requires n == Avail(b)
    ensures Unplayed(Played(b, n)) == []
  {
  }

  /** Reading `n` frames of a block splits its unplayed frames into the
      part read and the part left. */
  lemma {:induction false} UnplayedSplit<F>(b: Block<F>, n: nat)
    requires n <= Avail(b)
    ensures Unplayed(b) == Unplayed(b)[..n] + Unplayed(Played(b, n))
    ensures n == Avail(b) ==> Unplayed(Played(b, n)) == []
  {
    if b.playhead <= |b.samples| {
      assert Unplayed(Played(b, n)) == b.samples[b.playhead + n..];
      assert b.samples[b.playhead..] == b.samples[b.playhead..][..n] + b.samples[b.playhead + n..];
    }
  }

  lemma {:induction false} UnplayedTakeAll<F>(b: Block<F>, n: nat)
    requires n == Avail(b)
    ensures Unplayed(b)[..n] == Unplayed(b)
  {
  }

  /** Reading `n` frames from the head block splits the pending frames
      into the part read and the part left. */
  lemma {:induction false} StepPending<F>(rest: seq<Block<F>>, n: nat)
    requires |rest| > 0 && n <= Avail(rest[0])
    ensures Pending(rest) == Unplayed(rest[0])[..n] + Pending([Played(rest[0], n)] + rest[1..])
  {
    var b' := Played(rest[0], n);
    PendingHead(rest);
    PendingCons(b', rest[1..]);
    UnplayedSplit(rest[0], n);
    SplitFirst(Pending(rest), Pending([b'] + rest[1..]), Unplayed(rest[0]), Unplayed(rest[0])[..n], Unplayed(b'), Pending(rest[1..]));
  }

  /** One unfolding of Advance and ReadEof when the head block is read
      whole: `n` frames are read from it and `m` remain wanted. */
  lemma {:induction false} StepAdvanceFull<F>(rest: seq<Block<F>>, remaining: nat, eof: bool, n: nat, m: nat)
    requires |rest| > 0 && 0 < remaining && n == Avail(rest[0]) && n <= remaining && m == remaining - n
    ensures Advance(rest, remaining) == [Played(rest[0], n)] + Advance(rest[1..], m)
    ensures ReadEof(rest, remaining, eof) == ReadEof(rest[1..], m, rest[0].isEof)
  {
    assert !(|rest| == 0 || remaining == 0) && Avail(rest[0]) <= remaining;
  }

  /** One unfolding of Advance and ReadEof when the walk stops inside the
      head block. */
  lemma {:induction false} StepAdvancePart<F>(rest: seq<Block<F>>, remaining: nat, eof: bool)
    requires |rest| > 0 && 0 < remaining < Avail(rest[0])
    ensures Advance(rest, remaining) == [Played(rest[0], remaining)] + rest[1..]
    ensures ReadEof(rest, remaining, eof) == eof
  {
  }

  lemma {:induction false} AdvanceNothing<F>(bs: seq<Block<F>>, eof: bool, m: nat)
    requires m == 0
    ensures Advance(bs, m) == bs && ReadEof(bs, m, eof) == eof
  {
  }

  /** Advancing the playheads by `want` frames leaves exactly the pending
      frames after the first `want`. */
  lemma {:induction false} AdvancePending<F>(bs: seq<Block<F>>, want: nat)
    ensures Pending(Advance(bs, want)) == Pending(bs)[Min(want, |Pending(bs)|)..]
    decreases |bs|
  {
    if |bs| == 0 || want == 0 {
    } else if Avail(bs[0]) <= want {
      AdvancePendingFull(bs, want);
    } else {
      AdvancePendingPart(bs, want);
    }
  }

  /** Reading the head block whole leaves pending only what the next
      blocks still hold after the rest of the read. */
  lemma {:induction false} AdvanceFullPending<F>(bs: seq<Block<F>>, want: nat)
    requires |bs| > 0 && 0 < want && Avail(bs[0]) <= want
    ensures Pending(Advance(bs, want)) == Pending(Advance(bs[1..], want - Avail(bs[0])))
  {
    PlayedOut(bs[0], Avail(bs[0]));
    PendingConsPlayed(Played(bs[0], Avail(bs[0])), Advance(bs[1..], want - Avail(bs[0])));
  }

  /** AdvancePending when the head block is read whole: the rest follows
      from the next blocks. */
  lemma {:induction false} AdvancePendingFull<F>(bs: seq<Block<F>>, want: nat)
    requires |bs| > 0 && 0 < want && Avail(bs[0]) <= want
    ensures Pending(Advance(bs, want)) == Pending(bs)[Min(want, |Pending(bs)|)..]
    decreases |bs|, 0
  {
    AdvanceFullPending(bs, want);
    AdvancePending(bs[1..], want - Avail(bs[0]));
    PendingHead(bs);
    DropPastHead(Pending(bs), Unplayed(bs[0]), Pending(bs[1..]),
                 Pending(Advance(bs, want)), Pending(Advance(bs[1..], want - Avail(bs[0]))), Avail(bs[0]), want);
  }

  /** AdvancePending when the walk stops inside the head block. */
  lemma {:induction false} AdvancePendingPart<F>(bs: seq<Block<F>>, want: nat)
    requires |bs| > 0 && 0 < want < Avail(bs[0])
    ensures Pending(Advance(bs, want)) == Pending(bs)[Min(want, |Pending(bs)|)..]
  {
    var rest' := [Played(bs[0], want)] + bs[1..];
    StepAdvancePart(bs, want, false);
    StepPending(bs, want);
    DropHead(Pending(bs), Unplayed(bs[0])[..want], Pending(rest'), Pending(Advance(bs, want)), want);
  }

  /** What the walk over the blocks has established so far, against the
      frames that were pending, the blocks Advance gives and the flag
      ReadEof gives: the blocks passed are fully played, the frames copied
      plus those still pending are the frames that were pending, and
      finishing the walk from here gives those blocks and that flag. */
  ghost predicate WalkInvariant<F>(pending: seq<F>, advanced: seq<Block<F>>, readEof: bool, want: nat,
                                   finished: seq<Block<F>>, rest: seq<Block<F>>, data: seq<F>, eof: bool)
  {
    && |data| <= want
    && Pending(finished) == []
    && data + Pending(rest) == pending
    && advanced == finished + Advance(rest, want - |data|)
    && readEof == ReadEof(rest, want - |data|, eof)
  }

  /** The state of the walk over the blocks: the blocks passed, the blocks
      still to walk, the frames copied and the end-of-file flag so far. */
  datatype Walk<F> = Walk(finished: seq<Block<F>>, rest: seq<Block<F>>, data: seq<F>, eof: bool)

  ghost predicate WalkHolds<F>(pending: seq<F>, advanced: seq<Block<F>>, readEof: bool, want: nat, w: Walk<F>) {
    WalkInvariant(pending, advanced, readEof, want, w.finished, w.rest, w.data, w.eof)
  }

  /** Reading a whole head block: the frames read and those left are the
      frames that were pending. */
  lemma {:induction false} FullBlockData<F>(pending: seq<F>, rest: seq<Block<F>>, data: seq<F>, n: nat)
    requires |rest| > 0 && n == Avail(rest[0]) && data + Pending(rest) == pending
    ensures (data + Unplayed(rest[0])) + Pending(rest[1..]) == pending
  {
    PendingHead(rest);
    ConcatAssoc(data, Unplayed(rest[0]), Pending(rest[1..]));
  }

  /** Reading a whole head block: the block passed is fully played. */
  lemma {:induction false} FullBlockFinished<F>(finished: seq<Block<F>>, rest: seq<Block<F>>, n: nat)
    requires |rest| > 0 && n == Avail(rest[0]) && Pending(finished) == []
    ensures Pending(finished + [Played(rest[0], n)]) == []
  {
    var b' := Played(rest[0], n);
    UnplayedSplit(rest[0], n);
    PendingSingle(b');
    PendingConcat(finished, [b']);
  }

  /** Reading a whole head block: Advance and ReadEof from here agree with
      Advance and ReadEof from the next block. */
  lemma {:induction false} FullBlockAdvance<F>(advanced: seq<Block<F>>, readEof: bool, finished: seq<Block<F>>,
                                               rest: seq<Block<F>>, data: seq<F>, want: nat, eof: bool, n: nat)
    requires |rest| > 0 && |data| < want && n == Avail(rest[0]) && n <= want - |data|
    requires advanced == finished + Advance(rest, want - |data|)
    requires readEof == ReadEof(rest, want - |data|, eof)
    ensures |data + Unplayed(rest[0])| <= want
    ensures advanced == (finished + [Played(rest[0], n)]) + Advance(rest[1..], want - |data + Unplayed(rest[0])|)
    ensures readEof == ReadEof(rest[1..], want - |data + Unplayed(rest[0])|, rest[0].isEof)
  {
    StepAdvanceFull(rest, want - |data|, eof, n, want - |data + Unplayed(rest[0])|);
    ConcatAssoc(finished, [Played(rest[0], n)], Advance(rest[1..], want - |data + Unplayed(rest[0])|));
  }

  /** The walk finishes the head block: it joins the finished blocks. */
  lemma {:induction false} WalkFullBlock<F>(pending: seq<F>, advanced: seq<Block<F>>, readEof: bool, want: nat,
                                            finished: seq<Block<F>>, rest: seq<Block<F>>, data: seq<F>, eof: bool, n: nat)
    requires WalkInvariant(pending, advanced, readEof, want, finished, rest, data, eof)
    requires |data| < want && |rest| > 0 && n == Avail(rest[0]) && n <= want - |data|
    ensures WalkInvariant(pending, advanced, readEof, want, finished + [Played(rest[0], n)], rest[1..], data + Unplayed(rest[0]), rest[0].isEof)
  {
    FullBlockData(pending, rest, data, n);
    FullBlockFinished(finished, rest, n);
    FullBlockAdvance(advanced, readEof, finished, rest, data, want, eof, n);
  }

  /** Reading part of the head block: the frames read and those left are
      the frames that were pending. */
  lemma {:induction false} PartBlockData<F>(pending: seq<F>, rest: seq<Block<F>>, data: seq<F>, n: nat)
    requires |rest| > 0 && n <= Avail(rest[0]) && data + Pending(rest) == pending
    ensures (data + Unplayed(rest[0])[..n]) + Pending([Played(rest[0], n)] + rest[1..]) == pending
  {
    StepPending(rest, n);
    ConcatAssoc(data, Unplayed(rest[0])[..n], Pending([Played(rest[0], n)] + rest[1..]));
  }

  /** Reading part of the head block ends the walk: Advance and ReadEof
      stop at the partly read block. */
  lemma {:induction false} PartBlockAdvance<F>(advanced: seq<Block<F>>, readEof: bool, finished: seq<Block<F>>,
                                               rest: seq<Block<F>>, eof: bool, n: nat, m: nat)
    requires |rest| > 0 && 0 < n < Avail(rest[0]) && m == 0
    requires advanced == finished + Advance(rest, n)
    requires readEof == ReadEof(rest, n, eof)
    ensures advanced == finished + Advance([Played(rest[0], n)] + rest[1..], m)
    ensures readEof == ReadEof([Played(rest[0], n)] + rest[1..], m, eof)
  {
    StepAdvancePart(rest, n, eof);
    AdvanceNothing([Played(rest[0], n)] + rest[1..], eof, m);
  }

  /** The walk stops inside the head block with all it wants. */
  lemma {:induction false} WalkPartBlock<F>(pending: seq<F>, advanced: seq<Block<F>>, readEof: bool, want: nat,
                                            finished: seq<Block<F>>, rest: seq<Block<F>>, data: seq<F>, eof: bool, n: nat)
    requires WalkInvariant(pending, advanced, readEof, want, finished, rest, data, eof)
    requires |data| < want && |rest| > 0 && Avail(rest[0]) > n && n == want - |data|
    ensures WalkInvariant(pending, advanced, readEof, want, finished, [Played(rest[0], n)] + rest[1..], data + Unplayed(rest[0])[..n], eof)
  {
    PartBlockData(pending, rest, data, n);
    PartBlockAdvance(advanced, readEof, finished, rest, eof, n, want - |data + Unplayed(rest[0])[..n]|);
  }

  /** One pass of the read loop: copy what the head block has, up to what
      is still wanted, and advance its playhead. A fully read block sets the
      flag to its own and is passed. */
  function Step<F>(w: Walk<F>, want: nat): Walk<F>
    requires |w.data| < want && |w.rest| > 0
  {
    var b := w.rest[0];
    var readFromBlock := Min(Avail(b), want - |w.data|);
    var b' := Played(b, readFromBlock);
    var chunk := Unplayed(b)[..readFromBlock];
    if readFromBlock == Avail(b) then Walk(w.finished + [b'], w.rest[1..], w.data + chunk, b.isEof)
    else Walk(w.finished, [b'] + w.rest[1..], w.data + chunk, w.eof)
  }

  /** A pass that reads the head block whole. */
  lemma {:induction false} StepFull<F>(w: Walk<F>, want: nat)
    requires |w.data| < want && |w.rest| > 0 && Avail(w.rest[0]) <= want - |w.data|
    ensures Step(w, want) == Walk(w.finished + [Played(w.rest[0], Avail(w.rest[0]))],
                                  w.rest[1..], w.data + Unplayed(w.rest[0]), w.rest[0].isEof)
  {
    UnplayedTakeAll(w.rest[0], Avail(w.rest[0]));
  }

  /** A pass that stops inside the head block. */
  lemma {:induction false} StepPart<F>(w: Walk<F>, want: nat)
    requires |w.data| < want && |w.rest| > 0 && Avail(w.rest[0]) > want - |w.data|
    ensures Step(w, want) == Walk(w.finished, [Played(w.rest[0], want - |w.data|)] + w.rest[1..],
                                  w.data + Unplayed(w.rest[0])[..want - |w.data|], w.eof)
  {
  }

  /** The invariant holds of a walk made of parts it holds of. */
  lemma {:induction false} HoldsEq<F>(pending: seq<F>, advanced: seq<Block<F>>, readEof: bool, want: nat,
                                      finished: seq<Block<F>>, rest: seq<Block<F>>, data: seq<F>, eof: bool, w: Walk<F>)
    requires WalkInvariant(pending, advanced, readEof, want, finished, rest, data, eof)
    requires w == Walk(finished, rest, data, eof)
    ensures WalkHolds(pending, advanced, readEof, want, w)
  {
  }

  /** A pass that reads the head block whole keeps the walk invariant. */
  lemma {:induction false} StepFullKeepsInvariant<F>(pending: seq<F>, advanced: seq<Block<F>>, readEof: bool, want: nat, w: Walk<F>)
    requires WalkHolds(pending, advanced, readEof, want, w)
    requires |w.data| < want && |w.rest| > 0 && Avail(w.rest[0]) <= want - |w.data|
    ensures WalkHolds(pending, advanced, readEof, want, Step(w, want))
  {
    var n := Avail(w.rest[0]);
    StepFull(w, want);
    WalkFullBlock(pending, advanced, readEof, want, w.finished, w.rest, w.data, w.eof, n);
    HoldsEq(pending, advanced, readEof, want,
            w.finished + [Played(w.rest[0], n)], w.rest[1..], w.data + Unplayed(w.rest[0]), w.rest[0].isEof,
            Step(w, want));
  }

  /** A pass that stops inside the head block keeps the walk invariant. */
  lemma {:induction false} StepPartKeepsInvariant<F>(pending: seq<F>, advanced: seq<Block<F>>, readEof: bool, want: nat, w: Walk<F>)
    requires WalkHolds(pending, advanced, readEof, want, w)
    requires |w.data| < want && |w.rest| > 0 && Avail(w.rest[0]) > want - |w.data|
    ensures WalkHolds(pending, advanced, readEof, want, Step(w, want))
  {
    var n := want - |w.data|;
    StepPart(w, want);
    WalkPartBlock(pending, advanced, readEof, want, w.finished, w.rest, w.data, w.eof, n);
    HoldsEq(pending, advanced, readEof, want,
            w.finished, [Played(w.rest[0], n)] + w.rest[1..], w.data + Unplayed(w.rest[0])[..n], w.eof,
            Step(w, want));
  }

  /** A pass of the loop makes progress: more frames copied, or as many and
      one block fewer to walk. */
  lemma {:induction false} StepProgress<F>(w: Walk<F>, want: nat)
    requires |w.data| < want && |w.rest| > 0
    ensures |Step(w, want).data| > |w.data| || (|Step(w, want).data| == |w.data| && |Step(w, want).rest| < |w.rest|)
  {
    if Avail(w.rest[0]) <= want - |w.data| {
      StepFull(w, want);
    } else {
      StepPart(w, want);
    }
  }

  /** A pass of the loop keeps the walk invariant and makes progress. */
  lemma {:induction false} StepKeepsInvariant<F>(pending: seq<F>, advanced: seq<Block<F>>, readEof: bool, want: nat, w: Walk<F>)
    requires WalkHolds(pending, advanced, readEof, want, w)
    requires |w.data| < want && |w.rest| > 0
    ensures WalkHolds(pending, advanced, readEof, want, Step(w, want))
    ensures |Step(w, want).data| > |w.data| || (|Step(w, want).data| == |w.data| && |Step(w, want).rest| < |w.rest|)
  {
    if Avail(w.rest[0]) <= want - |w.data| {
      StepFullKeepsInvariant(pending, advanced, readEof, want, w);
    } else {
      StepPartKeepsInvariant(pending, advanced, readEof, want, w);
    }
    StepProgress(w, want);
  }

  /** The walk starts with nothing copied, nothing passed and every block
      still to walk. */
  lemma {:induction false} WalkStart<F>(polled: seq<Block<F>>, want: nat)
    ensures WalkHolds(Pending(polled), Advance(polled, want), ReadEof(polled, want, false), want, Walk([], polled, [], false))
  {
    var none: seq<Block<F>> := [];
    var nothing: seq<F> := [];
    assert Pending(none) == [];
    assert none + Advance(polled, want) == Advance(polled, want);
    assert nothing + Pending(polled) == Pending(polled);
    assert want - |nothing| == want;
  }

  /** When the walk stops, with all it wants or no blocks left, it has
      produced what Advance and ReadEof describe. */
  lemma {:induction false} WalkDone<F>(pending: seq<F>, advanced: seq<Block<F>>, readEof: bool, want: nat, w: Walk<F>)
    requires WalkHolds(pending, advanced, readEof, want, w)
    requires |w.data| >= want || |w.rest| == 0
    ensures w.finished + w.rest == advanced && w.eof == readEof
    ensures w.data + Pending(w.finished + w.rest) == pending
    ensures |w.data| == Min(want, |pending|)
  {
    PendingConcat(w.finished, w.rest);
    if |w.data| >= want {
      AdvanceNothing(w.rest, w.eof, want - |w.data|);
      assert |pending| == |w.data| + |Pending(w.rest)|;
    } else {
      assert w.rest == [] && w.finished + w.rest == w.finished;
      assert Advance(w.rest, want - |w.data|) == [];
    }
  }

  /** Copies frames from the blocks into the result and advances their
      playheads, walking the block list from its head: a fully read block
      sets the end-of-file flag to its own and passes on to the next block;
      the walk stops inside a block, after the last block, or when `want`
      frames are read. */
  method ReadFromBlocks<F>(polled: seq<Block<F>>, want: nat)
    returns (data: seq<F>, eof: bool, blocks: seq<Block<F>>)
    ensures blocks == Advance(polled, want)
    ensures eof == ReadEof(polled, want, false)
    ensures data + Pending(blocks) == Pending(polled)
    ensures |data| == Min(want, |Pending(polled)|)
  {
    var w := Walk([], polled, [], false);
    ghost var pending, advanced, readEof := Pending(polled), Advance(polled, want), ReadEof(polled, want, false);
    WalkStart(polled, want);
    while |w.data| < want && |w.rest| > 0
      invariant WalkHolds(pending, advanced, readEof, want, w)
      decreases want - |w.data|, |w.rest|
    {
      StepKeepsInvariant(pending, advanced, readEof, want, w);
      w := Step(w, want);
    }
    WalkDone(pending, advanced, readEof, want, w);
    data, eof, blocks := w.data, w.eof, w.finished + w.rest;
  }

  /** Disposes of the fully played blocks at the front. */
  method DisposePlayed<F>(blocks: seq<Block<F>>) returns (rest: seq<Block<F>>)
    ensures rest == Prune(blocks)
  {
    var k := 0;
    while k < |blocks| && Avail(blocks[k]) == 0
      invariant 0 <= k <= |blocks|
      invariant Prune(blocks) == Prune(blocks[k..])
    {
      assert blocks[k..][1..] == blocks[k + 1..];
      k := k + 1;
    }
    rest := blocks[k..];
  }

  /** Disposing of played blocks keeps every pending frame. */
  lemma {:induction false} PrunePending<F>(bs: seq<Block<F>>)
    ensures Pending(Prune(bs)) == Pending(bs)
    decreases |bs|
  {
    if |bs| > 0 && Avail(bs[0]) == 0 {
      PrunePending(bs[1..]);
    }
  }

  /** The blocks a read leaves queued, `Prune(Advance(bs, want))` by Read's
      contract, keep every playhead within its block. */
  lemma {:induction false} ReadKeepsInBounds<F>(bs: seq<Block<F>>, want: nat)
    requires InBounds(bs)
    ensures InBounds(Prune(Advance(bs, want)))
  {
    AdvanceInBounds(bs, want);
    SuffixInBounds(Advance(bs, want), Prune(Advance(bs, want)));
  }

  lemma SuffixInBounds<F>(bs: seq<Block<F>>, suffix: seq<Block<F>>)
    requires InBounds(bs) && |suffix| <= |bs| && suffix == bs[|bs| - |suffix|..]
    ensures InBounds(suffix)
  {
    forall k | 0 <= k < |suffix|
      ensures suffix[k].playhead <= |suffix[k].samples|
    {
      assert suffix[k] == bs[|bs| - |suffix| + k];
    }
  }

  /** The frames a read copies are the first pending ones. */
  lemma {:induction false} ReadDataIsPrefix<F>(polled: seq<Block<F>>, want: nat, data: seq<F>, blocks: seq<Block<F>>)
    requires data + Pending(blocks) == Pending(polled)
    requires |data| == Min(want, |Pending(polled)|)
    ensures data == Pending(polled)[..Min(want, |Pending(polled)|)]
  {
    assert (data + Pending(blocks))[..|data|] == data;
  }

  /** Reads up to `frames` frames (at most ReadBufferSize) after taking the
      arrived blocks. None when no block is queued. The frames returned are
      the next ones pending and the rest stay pending; fully played blocks
      are disposed of. The playhead in source frames is not advanced. */
  method Read<F>(s: FileStream<F>, arrived: seq<Block<F>>, frames: nat)
    returns (result: Option<ReadData<F>>, next: FileStream<F>)
    ensures var polled := Poll(s, arrived);
            && next == polled.(blocks := next.blocks)
            && (result.None? <==> polled.blocks == [])
            && (result.None? ==> next == polled)
            && (result.Some? ==>
                  var want := Min(frames, ReadBufferSize);
                  var taken := Min(want, |Pending(polled.blocks)|);
                  && result.value.data == Pending(polled.blocks)[..taken]
                  && Pending(next.blocks) == Pending(polled.blocks)[taken..]
                  && result.value.reachedEndOfFile == ReadEof(polled.blocks, want, false)
                  && next.blocks == Prune(Advance(polled.blocks, want)))
  {
    var polled := Poll(s, arrived);
    if |polled.blocks| == 0 {
      return None, polled;
    }
    var want := Min(frames, ReadBufferSize);
    var data, eof, blocks := ReadFromBlocks(polled.blocks, want);
    var rest := DisposePlayed(blocks);
    ReadDataIsPrefix(polled.blocks, want, data, blocks);
    AdvancePending(polled.blocks, want);
    PrunePending(blocks);
    result := Some(ReadData(data, eof));
    next := polled.(blocks := rest);
  }

  /** A longer prefix has the decoder's last block when the shorter one
      has it or the block added is it. */
  lemma {:induction false} HasEofPrefixStep<F>(bs: seq<Block<F>>, k: nat)
    requires k < |bs|
    ensures HasEof(bs[..k + 1]) <==> HasEof(bs[..k]) || bs[k].isEof
  {
    if HasEof(bs[..k + 1]) {
      var i :| 0 <= i < k + 1 && bs[..k + 1][i].isEof;
      if i < k {
        assert bs[..k][i].isEof;
      }
    }
    if HasEof(bs[..k]) {
      var i :| 0 <= i < k && bs[..k][i].isEof;
      assert bs[..k + 1][i].isEof;
    }
    if bs[k].isEof {
      assert bs[..k + 1][k].isEof;
    }
  }

  /** Disposal of played blocks, also reporting the end of file when a
      disposed block is the decoder's last. */
  method DisposePlayedReportingEof<F>(blocks: seq<Block<F>>, eof: bool) returns (rest: seq<Block<F>>, eof': bool)
    ensures rest == Prune(blocks)
    ensures eof' <==> eof || HasEof(blocks[..|blocks| - |rest|])
  {
    var k := 0;
    eof' := eof;
    while k < |blocks| && Avail(blocks[k]) == 0
      invariant 0 <= k <= |blocks|
      invariant Prune(blocks) == Prune(blocks[k..])
      invariant eof' <==> eof || HasEof(blocks[..k])
    {
      HasEofPrefixStep(blocks, k);
      if blocks[k].isEof {
        eof' := true;
      }
      assert blocks[k..][1..] == blocks[k + 1..];
      k := k + 1;
    }
    rest := blocks[k..];
  }

  /** Advancing playheads keeps every block's end-of-file flag. */
  lemma {:induction false} AdvanceKeepsFlags<F>(bs: seq<Block<F>>, want: nat, advanced: seq<Block<F>>)
    requires advanced == Advance(bs, want)
    ensures |advanced| == |bs| && forall k :: 0 <= k < |bs| ==> advanced[k].isEof == bs[k].isEof
    decreases |bs|
  {
    if |bs| == 0 || want == 0 {
    } else if Avail(bs[0]) <= want {
      var m := want - Avail(bs[0]);
      var tail := Advance(bs[1..], m);
      AdvanceKeepsFlags(bs[1..], m, tail);
      ConsKeepsFlags(bs, Played(bs[0], Avail(bs[0])), tail, advanced);
    } else {
      ConsKeepsFlags(bs, Played(bs[0], want), bs[1..], advanced);
    }
  }

  /** A new head with the old head's flag, before a tail with the old
      tail's flags, keeps all the flags. */
  lemma {:induction false} ConsKeepsFlags<F>(bs: seq<Block<F>>, head: Block<F>, tail: seq<Block<F>>, advanced: seq<Block<F>>)
    requires |bs| > 0 && head.isEof == bs[0].isEof && advanced == [head] + tail
    requires |tail| == |bs| - 1 && forall k :: 0 <= k < |tail| ==> tail[k].isEof == bs[1..][k].isEof
    ensures |advanced| == |bs| && forall k :: 0 <= k < |bs| ==> advanced[k].isEof == bs[k].isEof
  {
    forall k | 0 <= k < |bs|
      ensures advanced[k].isEof == bs[k].isEof
    {
      if k > 0 {
        assert advanced[k] == tail[k - 1] && bs[k] == bs[1..][k - 1];
      }
    }
  }

  lemma {:induction false} AdvanceHasEof<F>(bs: seq<Block<F>>, want: nat, advanced: seq<Block<F>>)
    requires HasEof(bs) && advanced == Advance(bs, want)
    ensures HasEof(advanced)
  {
    var i :| 0 <= i < |bs| && bs[i].isEof;
    AdvanceKeepsFlags(bs, want, advanced);
    assert advanced[i].isEof;
  }

  lemma {:induction false} SplitHasEof<F>(bs: seq<Block<F>>, n: nat, suffix: seq<Block<F>>)
    requires n <= |bs| && HasEof(bs) && suffix == bs[n..]
    ensures HasEof(bs[..n]) || HasEof(suffix)
  {
    var i :| 0 <= i < |bs| && bs[i].isEof;
    if i < n {
      assert bs[..n][i].isEof;
    } else {
      assert bs[n..][i - n].isEof;
    }
  }

  /** A final block among the blocks after the walk is either disposed of,
      and then reported, or still queued. */
  lemma {:induction false} FinalBlockKeptOrReported<F>(polled: seq<Block<F>>, want: nat, blocks: seq<Block<F>>,
                                                       rest: seq<Block<F>>, eof: bool, eof': bool)
    requires blocks == Advance(polled, want) && rest == Prune(blocks)
    requires eof' <==> eof || HasEof(blocks[..|blocks| - |rest|])
    ensures HasEof(polled) ==> eof' || HasEof(rest)
  {
    if HasEof(polled) {
      AdvanceHasEof(polled, want, blocks);
      SuffixKeptOrReported(blocks, rest, eof, eof');
    }
  }

  /** A final block among the walked blocks is either in the suffix that
      stays queued or in the disposed prefix, whose flag is reported. */
  lemma SuffixKeptOrReported<F>(blocks: seq<Block<F>>, rest: seq<Block<F>>, eof: bool, eof': bool)
    requires HasEof(blocks) && |rest| <= |blocks| && rest == blocks[|blocks| - |rest|..]
    requires eof' <==> eof || HasEof(blocks[..|blocks| - |rest|])
    ensures eof' || HasEof(rest)
  {
    SplitHasEof(blocks, |blocks| - |rest|, rest);
  }

  /** The same read, with disposal also reporting the end of file when a
      disposed block is the decoder's last: a final block is then either
      still queued or reported. */
  method ReadReportingDisposedEof<F>(s: FileStream<F>, arrived: seq<Block<F>>, frames: nat)
    returns (result: Option<ReadData<F>>, next: FileStream<F>)
    ensures var polled := Poll(s, arrived);
            && (result.None? <==> polled.blocks == [])
            && (result.None? ==> next == polled)
            && (result.Some? ==>
                  var want := Min(frames, ReadBufferSize);
                  var taken := Min(want, |Pending(polled.blocks)|);
                  && result.value.data == Pending(polled.blocks)[..taken]
                  && next == polled.(blocks := Prune(Advance(polled.blocks, want)))
                  && (HasEof(polled.blocks) ==> result.value.reachedEndOfFile || HasEof(next.blocks)))
  {
    var polled := Poll(s, arrived);
    if |polled.blocks| == 0 {
      return None, polled;
    }
    var want := Min(frames, ReadBufferSize);
    var data, eof, blocks := ReadFromBlocks(polled.blocks, want);
    var rest, eof' := DisposePlayedReportingEof(blocks, eof);
    ReadDataIsPrefix(polled.blocks, want, data, blocks);
    FinalBlockKeptOrReported(polled.blocks, want, blocks, rest, eof, eof');
    result := Some(ReadData(data, eof'));
    next := polled.(blocks := rest);
  }

  /** A read that ends exactly where a non-final block ends, with the
      decoder's empty final block queued behind it, disposes of that final
      block without reporting the end of file, and leaves nothing from
      which a later read could report it. */
  lemma {:induction false} FinalEmptyBlockDisposedUnreported<F>(x: F, id: nat)
    ensures var bs := [Block([x], 0, false, id), Block([], 0, true, id)];
            && HasEof(bs)
            && !ReadEof(bs, Min(1, ReadBufferSize), false)
            && Prune(Advance(bs, Min(1, ReadBufferSize))) == []
  {
    var bs := [Block([x], 0, false, id), Block([], 0, true, id)];
    assert bs[1].isEof;
    assert bs[1..] == [Block([], 0, true, id)];
    assert Advance(bs[1..], 0) == bs[1..];
    assert Advance(bs, 1) == [Block([x], 1, false, id), Block([], 0, true, id)];
    assert Prune(Advance(bs, 1)[1..]) == [];
  }

  /** Seeks to `seekTo` (in source frames): the stream id moves on so that
      blocks decoded for the old position are ignored from now on; when the
      request reaches the decoder (`pushOk`), the playhead moves and all
      queued blocks are disposed of. */
  function Seek<F>(s: FileStream<F>, arrived: seq<Block<F>>, seekTo: nat, pushOk: bool): (r: FileStream<F>)
    ensures r.streamId == s.streamId + 1 && r.nFrames == s.nFrames
    ensures pushOk ==> r.blocks == [] && r.playhead == seekTo
    ensures !pushOk ==> r.blocks == Poll(s, arrived).blocks && r.playhead == s.playhead
  {
    var polled := Poll(s, arrived);
    var bumped := polled.(streamId := s.streamId + 1);
    if pushOk then bumped.(playhead := seekTo, blocks := []) else bumped
  }

  /** After a successful seek, blocks decoded before it never reach a
      read. */
  lemma {:induction false} SeekDropsStaleBlocks<F>(s: FileStream<F>, arrived: seq<Block<F>>, seekTo: nat, late: seq<Block<F>>)
    requires forall k :: 0 <= k < |late| ==> late[k].streamId <= s.streamId
    ensures Poll(Seek(s, arrived, seekTo, true), late).blocks == []
  {
  }
}
