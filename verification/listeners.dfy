/** An ordered list of subscribers, each entry carrying a fresh identity
    so that subscribing the same callback twice gives two entries that are
    removed separately. Unsubscribing looks the entry up by identity and
    splices it out. */
module Listeners {

  type Id = nat

  datatype Entry<L> = Entry(id: Id, listener: L)

  /** The entries in subscription order and the next fresh identity. */
  datatype Registry<L> = Registry(entries: seq<Entry<L>>, nextId: Id)

  /** Identities are distinct and all below the next fresh one. */
  ghost predicate Valid<L>(r: Registry<L>) {
    && (forall k :: 0 <= k < |r.entries| ==> r.entries[k].id < r.nextId)
    && (forall j, k :: 0 <= j < k < |r.entries| ==> r.entries[j].id != r.entries[k].id)
  }

  function Empty<L>(): (r: Registry<L>)
    ensures Valid(r) && r.entries == []
  {
    Registry([], 0)
  }

  predicate Contains<L>(r: Registry<L>, id: Id) {
    exists k :: 0 <= k < |r.entries| && r.entries[k].id == id
  }

  /** The position of the first entry with identity `id`, or -1. */
  function IndexOf<L>(entries: seq<Entry<L>>, id: Id): (i: int)
    ensures -1 <= i < |entries|
    ensures i >= 0 ==> entries[i].id == id && forall k :: 0 <= k < i ==> entries[k].id != id
    ensures i == -1 <==> forall k :: 0 <= k < |entries| ==> entries[k].id != id
  {
    if |entries| == 0 then -1
    else if entries[0].id == id then 0
    else
      var i := IndexOf(entries[1..], id);
      if i == -1 then -1 else i + 1
  }

  /** Appends a fresh entry for `listener`; the identity returned is what
      the unsubscribe function closes over. */
  function Listen<L>(r: Registry<L>, listener: L): (res: (Registry<L>, Id))
    requires Valid(r)
    ensures Valid(res.0)
    ensures res.0.entries == r.entries + [Entry(res.1, listener)]
    ensures !Contains(r, res.1)
  {
    (Registry(r.entries + [Entry(r.nextId, listener)], r.nextId + 1), r.nextId)
  }

  /** The entries without the one at position `i`, the rest in order. */
  function RemoveAt<L>(entries: seq<Entry<L>>, i: nat): (r: seq<Entry<L>>)
    requires i < |entries|
    ensures |r| == |entries| - 1
    ensures forall k :: 0 <= k < |r| ==> r[k] == if k < i then entries[k] else entries[k + 1]
  {
    entries[..i] + entries[i + 1..]
  }

  /** Removing an entry keeps identities fresh and distinct, and removes
      the identity it carried. */
  lemma {:induction false} RemoveAtKeepsValid<L>(r: Registry<L>, i: nat)
    requires Valid(r) && i < |r.entries|
    ensures Valid(Registry(RemoveAt(r.entries, i), r.nextId))
    ensures !Contains(Registry(RemoveAt(r.entries, i), r.nextId), r.entries[i].id)
  {
    var rest := RemoveAt(r.entries, i);
    forall j, k | 0 <= j < k < |rest|
      ensures rest[j].id != rest[k].id
    {
      var j' := if j < i then j else j + 1;
      var k' := if k < i then k else k + 1;
      assert rest[j] == r.entries[j'] && rest[k] == r.entries[k'] && j' < k';
    }
    forall k | 0 <= k < |rest|
      ensures rest[k].id != r.entries[i].id
    {
      var k' := if k < i then k else k + 1;
      assert rest[k] == r.entries[k'] && k' != i;
    }
  }

  /** Removes the entry with identity `id`, if there is one, keeping the
      others in order. */
  function Unsubscribe<L>(r: Registry<L>, id: Id): (res: Registry<L>)
    requires Valid(r)
    ensures Valid(res) && res.nextId == r.nextId
    ensures !Contains(res, id)
    ensures !Contains(r, id) ==> res == r
    ensures Contains(r, id) ==>
              exists i :: 0 <= i < |r.entries| && r.entries[i].id == id && res.entries == RemoveAt(r.entries, i)
  {
    var i := IndexOf(r.entries, id);
    if i < 0 then r
    else
      RemoveAtKeepsValid(r, i);
      Registry(RemoveAt(r.entries, i), r.nextId)
  }

  /** The listeners a notification calls, in subscription order. */
  function Listeners<L>(r: Registry<L>): (ls: seq<L>)
    ensures |ls| == |r.entries| && forall k :: 0 <= k < |ls| ==> ls[k] == r.entries[k].listener
  {
    seq(|r.entries|, k requires 0 <= k < |r.entries| => r.entries[k].listener)
  }

  /** Unsubscribing right after subscribing restores the registry's
      entries. */
  lemma {:induction false} ListenThenUnsubscribe<L>(r: Registry<L>, listener: L)
    requires Valid(r)
    ensures var (added, id) := Listen(r, listener);
            Unsubscribe(added, id).entries == r.entries
  {
    var (added, id) := Listen(r, listener);
    assert forall k :: 0 <= k < |r.entries| ==> added.entries[k].id != id;
    assert added.entries[|r.entries|].id == id;
    assert IndexOf(added.entries, id) == |r.entries|;
    assert added.entries[..|r.entries|] == r.entries;
  }

  /** A second unsubscribe with the same identity changes nothing. */
  lemma UnsubscribeIdempotent<L>(r: Registry<L>, id: Id)
    requires Valid(r)
    ensures Unsubscribe(Unsubscribe(r, id), id) == Unsubscribe(r, id)
  {
  }

  /** The same callback subscribed twice has two entries; removing the
      first leaves the second subscribed. */
  lemma {:induction false} SubscribeTwiceRemovesSeparately<L>(r: Registry<L>, listener: L)
    requires Valid(r)
    ensures var (once, first) := Listen(r, listener);
            var (twice, second) := Listen(once, listener);
            && first != second
            && Unsubscribe(twice, first).entries == r.entries + [Entry(second, listener)]
  {
    var (once, first) := Listen(r, listener);
    var (twice, second) := Listen(once, listener);
    assert twice.entries == r.entries + [Entry(first, listener), Entry(second, listener)];
    assert forall k :: 0 <= k < |r.entries| ==> twice.entries[k].id != first;
    assert twice.entries[|r.entries|].id == first;
    assert IndexOf(twice.entries, first) == |r.entries|;
    assert twice.entries[..|r.entries|] == r.entries;
    assert twice.entries[|r.entries| + 1..] == [Entry(second, listener)];
  }
}
