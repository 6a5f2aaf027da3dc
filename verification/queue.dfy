/** The play queue of the playback backend: the list of files, an `ordering`
    of their positions (identity, or a shuffle that starts with the chosen
    file) and a cursor `index` into that ordering. */
module PlayQueue {
  import opened Wrappers

  datatype GoNextMode = Default | RepeatAll

  datatype Queue<T> = Queue(elements: seq<T>, ordering: seq<nat>, index: nat, isShuffled: bool)

  /** The result of a cursor move: the updated queue and what it yields. */
  datatype Moved<T> = Moved(queue: Queue<T>, item: Option<T>)

  /** The positions `lo, lo + 1, ..., hi - 1`, as `(lo..hi).collect()` builds them. */
  function Range(lo: nat, hi: nat): (r: seq<nat>)
    requires lo <= hi
    ensures |r| == hi - lo
    ensures forall k :: 0 <= k < |r| ==> r[k] == lo + k
    decreases hi - lo
  {
    if lo == hi then [] else [lo] + Range(lo + 1, hi)
  }

  /** `o` lists each of the positions `0..n` exactly once. */
  ghost predicate IsPermutationOf(o: seq<nat>, n: nat) {
    && |o| == n
    && (forall k :: 0 <= k < |o| ==> o[k] < n)
    && (forall k, m :: 0 <= k < m < |o| ==> o[k] != o[m])
  }

  /** The queue invariant: `ordering` is a permutation of the element
      positions, the cursor is in range, and an unshuffled queue plays in
      list order. */
  ghost predicate Valid<T>(q: Queue<T>) {
    && IsPermutationOf(q.ordering, |q.elements|)
    && q.index < |q.elements|
    && (!q.isShuffled ==> q.ordering == Range(0, |q.elements|))
  }

  /** The queue with its cursor at `i`. */
  function MoveTo<T>(q: Queue<T>, i: nat): Queue<T> {
    q.(index := i)
  }

  /** The element under the cursor: in an unshuffled queue, the one at the
      cursor's list position. */
  function Current<T>(q: Queue<T>): (c: T)
    requires Valid(q)
    ensures !q.isShuffled ==> c == q.elements[q.index]
  {
    q.elements[q.ordering[q.index]]
  }

  /** Whether the cursor can step back. */
  function HasPrevious<T>(q: Queue<T>): (b: bool)
    ensures b <==> q.index > 0
  {
    q.index > 0
  }

  /** An unshuffled queue positioned at `startIndex`; None when that position
      does not exist. */
  function FromIter<T>(elements: seq<T>, startIndex: nat): (r: Option<Queue<T>>)
    ensures r.None? <==> startIndex >= |elements|
    ensures r.Some? ==> Valid(r.value) && !r.value.isShuffled
    ensures r.Some? ==> r.value.elements == elements && r.value.index == startIndex
    ensures r.Some? ==> Current(r.value) == elements[startIndex]
  {
    if |elements| <= startIndex then None
    else Some(Queue(elements, Range(0, |elements|), startIndex, false))
  }

  /** Every position but `start`, ascending: what the two push loops of the
      shuffled constructor lay out after `start`. */
  function TailPositions(n: nat, start: nat): (r: seq<nat>)
    requires start < n
    ensures |r| == n - 1
    ensures forall k :: 0 <= k < |r| ==> r[k] < n && r[k] != start
    ensures forall k, m :: 0 <= k < m < |r| ==> r[k] < r[m]
  {
    Range(0, start) + Range(start + 1, n)
  }

  /** The ordering of a freshly shuffled queue: `start` first, then the other
      positions rearranged by the random permutation `perm` of the tail. */
  function ShuffledOrdering(n: nat, start: nat, perm: seq<nat>): (r: seq<nat>)
    requires start < n && IsPermutationOf(perm, n - 1)
    ensures IsPermutationOf(r, n)
    ensures r[0] == start
  {
    var tail := TailPositions(n, start);
    var shuffled := seq(n - 1, k requires 0 <= k < n - 1 => tail[perm[k]]);
    assert forall k, m :: 0 <= k < m < n - 1 ==> shuffled[k] != shuffled[m] by {
      forall k, m | 0 <= k < m < n - 1
        ensures shuffled[k] != shuffled[m]
      {
        if perm[k] < perm[m] {
          assert tail[perm[k]] < tail[perm[m]];
        } else {
          assert perm[k] != perm[m];
          assert tail[perm[m]] < tail[perm[k]];
        }
      }
    }
    [start] + shuffled
  }

  function FromIterShuffledUnchecked<T>(elements: seq<T>, startIndex: nat, perm: seq<nat>): (q: Queue<T>)
    requires startIndex < |elements| && IsPermutationOf(perm, |elements| - 1)
    ensures Valid(q) && q.isShuffled && q.index == 0 && q.elements == elements
    ensures Current(q) == elements[startIndex]
  {
    Queue(elements, ShuffledOrdering(|elements|, startIndex, perm), 0, true)
  }

  /** A shuffled queue that starts with `elements[startIndex]`; None when that
      position does not exist. `perm` is the random shuffle of the other
      positions. */
  function FromIterShuffled<T>(elements: seq<T>, startIndex: nat, perm: seq<nat>): (r: Option<Queue<T>>)
    requires |elements| > 0 ==> IsPermutationOf(perm, |elements| - 1)
    ensures r.None? <==> startIndex >= |elements|
    ensures r.Some? ==> Valid(r.value) && r.value.isShuffled && r.value.elements == elements
    ensures r.Some? ==> r.value.index == 0 && r.value.ordering[0] == startIndex
    ensures r.Some? ==> Current(r.value) == elements[startIndex]
  {
    if |elements| <= startIndex then None
    else Some(FromIterShuffledUnchecked(elements, startIndex, perm))
  }

  function ToShuffled<T>(q: Queue<T>, perm: seq<nat>): (r: Queue<T>)
    requires Valid(q) && (!q.isShuffled ==> IsPermutationOf(perm, |q.elements| - 1))
    ensures Valid(r) && r.isShuffled && r.elements == q.elements
    ensures Current(r) == Current(q)
    ensures q.isShuffled ==> r == q
  {
    if q.isShuffled then q
    else FromIterShuffledUnchecked(q.elements, q.index, perm)
  }

  function ToUnshuffled<T>(q: Queue<T>): (r: Queue<T>)
    requires Valid(q)
    ensures Valid(r) && !r.isShuffled && r.elements == q.elements
    ensures Current(r) == Current(q)
    ensures !q.isShuffled ==> r == q
  {
    if q.isShuffled then
      Queue(q.elements, Range(0, |q.elements|), q.ordering[q.index], false)
    else q
  }

  /** Shuffling an unshuffled queue and unshuffling it again gives back the
      same queue, whatever the shuffle. */
  lemma ShuffleRoundTrip<T>(q: Queue<T>, perm: seq<nat>)
    requires Valid(q) && !q.isShuffled && IsPermutationOf(perm, |q.elements| - 1)
    ensures ToUnshuffled(ToShuffled(q, perm)) == q
  {
  }

  /** Advances the cursor. RepeatAll wraps from the last position to the
      first; Default stops (None, cursor unchanged) at the last position. */
  function GoNext<T>(q: Queue<T>, mode: GoNextMode): (m: Moved<T>)
    requires Valid(q)
    ensures Valid(m.queue) && m.queue.elements == q.elements
    ensures m.queue.ordering == q.ordering && m.queue.isShuffled == q.isShuffled
    ensures mode == RepeatAll ==> m.item.Some? && m.queue.index == (q.index + 1) % |q.elements|
    ensures mode == Default && q.index + 1 < |q.elements| ==> m.item.Some? && m.queue.index == q.index + 1
    ensures mode == Default && q.index + 1 >= |q.elements| ==> m.item.None? && m.queue == q
    ensures m.item.Some? ==> m.item.value == Current(m.queue)
  {
    if mode == RepeatAll then
      var next := MoveTo(q, (q.index + 1) % |q.elements|);
      Moved(next, Some(Current(next)))
    else if q.index + 1 < |q.elements| then
      var next := MoveTo(q, q.index + 1);
      Moved(next, Some(Current(next)))
    else
      Moved(q, None)
  }

  /** Steps the cursor back unless it is already at the first position, and
      yields the element now under it. */
  function GoPreviousClamped<T>(q: Queue<T>): (m: Moved<T>)
    requires Valid(q)
    ensures Valid(m.queue) && m.queue.elements == q.elements
    ensures m.queue.ordering == q.ordering && m.queue.isShuffled == q.isShuffled
    ensures HasPrevious(q) ==> m.queue.index == q.index - 1
    ensures !HasPrevious(q) ==> m.queue == q
    ensures m.item == Some(Current(m.queue))
  {
    var prev := if q.index > 0 then MoveTo(q, q.index - 1) else q;
    Moved(prev, Some(Current(prev)))
  }

  /** There is a previous element exactly when stepping back moves the
      cursor, and then it moves to the position before. */
  lemma HasPreviousStepsBack<T>(q: Queue<T>)
    requires Valid(q)
    ensures HasPrevious(q) <==> GoPreviousClamped(q).queue.index + 1 == q.index
    ensures HasPrevious(q) <==> GoPreviousClamped(q).queue != q
  {
  }

  /** What successive `GoNext(Default)` calls yield until the first None. */
  function PlaysToEnd<T>(q: Queue<T>): seq<T>
    requires Valid(q)
    decreases |q.elements| - q.index
  {
    var m := GoNext(q, Default);
    if m.item.None? then [] else [m.item.value] + PlaysToEnd(m.queue)
  }

  /** The elements after the cursor, in `ordering` order. */
  function Upcoming<T>(q: Queue<T>): (r: seq<T>)
    requires Valid(q)
    ensures |r| == |q.elements| - q.index - 1
    ensures forall k :: 0 <= k < |r| ==> r[k] == q.elements[q.ordering[q.index + 1 + k]]
  {
    seq(|q.elements| - q.index - 1, k requires 0 <= k < |q.elements| - q.index - 1 =>
          q.elements[q.ordering[q.index + 1 + k]])
  }

  /** Without repeat, the queue yields every element after the cursor exactly
      in `ordering` order and then stops; with `ordering` a permutation, each
      position is played once. */
  lemma {:induction false} PlaysToEndFollowsOrdering<T>(q: Queue<T>)
    requires Valid(q)
    ensures PlaysToEnd(q) == Upcoming(q)
    decreases |q.elements| - q.index
  {
    if q.index + 1 < |q.elements| {
      PlaysToEndStep(q);
      UpcomingStep(q);
      PlaysToEndFollowsOrdering(MoveTo(q, q.index + 1));
    } else {
      PlaysToEndLast(q);
    }
  }

  /** Before the last position, a Default move yields the next element and
      the plays go on from there. */
  lemma {:induction false} PlaysToEndStep<T>(q: Queue<T>)
    requires Valid(q) && q.index + 1 < |q.elements|
    ensures Valid(MoveTo(q, q.index + 1))
    ensures PlaysToEnd(q) == [Current(MoveTo(q, q.index + 1))] + PlaysToEnd(MoveTo(q, q.index + 1))
  {
  }

  /** The elements after the cursor are the next one and those after it. */
  lemma {:induction false} UpcomingStep<T>(q: Queue<T>)
    requires Valid(q) && q.index + 1 < |q.elements|
    ensures Valid(MoveTo(q, q.index + 1))
    ensures Upcoming(q) == [Current(MoveTo(q, q.index + 1))] + Upcoming(MoveTo(q, q.index + 1))
  {
    var next := MoveTo(q, q.index + 1);
    var u := Upcoming(q);
    var v := Upcoming(next);
    forall k | 0 <= k < |u|
      ensures u[k] == ([Current(next)] + v)[k]
    {
      if k > 0 {
        assert v[k - 1] == q.elements[q.ordering[q.index + 1 + k]];
      }
    }
  }

  /** At the last position a Default move yields nothing, and nothing is
      after the cursor. */
  lemma {:induction false} PlaysToEndLast<T>(q: Queue<T>)
    requires Valid(q) && q.index + 1 >= |q.elements|
    ensures PlaysToEnd(q) == [] && Upcoming(q) == []
  {
  }

  /** The queue after `k` RepeatAll moves. */
  function RepeatAllTimes<T>(q: Queue<T>, k: nat): (r: Queue<T>)
    requires Valid(q)
    ensures Valid(r)
    decreases k
  {
    if k == 0 then q else RepeatAllTimes(GoNext(q, RepeatAll).queue, k - 1)
  }

  /** A RepeatAll move steps to the next position, and from the last position
      back to the first. */
  lemma RepeatAllStep<T>(q: Queue<T>)
    requires Valid(q)
    ensures GoNext(q, RepeatAll).queue ==
              MoveTo(q, if q.index + 1 < |q.elements| then q.index + 1 else 0)
  {
    WrapNext(q.index, |q.elements|);
  }

  lemma WrapNext(i: nat, n: nat)
    requires i < n
    ensures (i + 1) % n == if i + 1 < n then i + 1 else 0
  {
    if i + 1 == n {
      assert (i + 1) % n == 0;
    }
  }

  /** RepeatAll cycles: up to `|elements|` moves advance the cursor by that
      many positions, wrapping past the end once. */
  lemma {:induction false} RepeatAllAdvances<T>(q: Queue<T>, k: nat)
    requires Valid(q) && k <= |q.elements|
    ensures RepeatAllTimes(q, k) ==
              MoveTo(q, if q.index + k < |q.elements| then q.index + k else q.index + k - |q.elements|)
    decreases k
  {
    if k > 0 {
      var next := GoNext(q, RepeatAll).queue;
      RepeatAllStep(q);
      RepeatAllAdvances(next, k - 1);
    }
  }

  /** After one move per element, RepeatAll is back at the starting position. */
  lemma {:induction false} RepeatAllFullCycle<T>(q: Queue<T>)
    requires Valid(q)
    ensures RepeatAllTimes(q, |q.elements|) == q
  {
    RepeatAllAdvances(q, |q.elements|);
  }
}
