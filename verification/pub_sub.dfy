/** A minimal publish/subscribe channel: notifying calls every current
    listener once, in subscription order, with the same arguments. The
    calls are returned as a trace instead of being made. */
module PubSub {
  import opened Listeners

  datatype Call<L, A> = Call(listener: L, args: A)

  datatype BasicPubSub<L> = BasicPubSub(listeners: Registry<L>)

  function NewPubSub<L>(): (p: BasicPubSub<L>)
    ensures Valid(p.listeners) && p.listeners.entries == []
  {
    BasicPubSub(Empty())
  }

  function Listen<L>(p: BasicPubSub<L>, listener: L): (res: (BasicPubSub<L>, Id))
    requires Valid(p.listeners)
    ensures Valid(res.0.listeners)
    ensures res.0.listeners.entries == p.listeners.entries + [Entry(res.1, listener)]
  {
    var (listeners, id) := Listeners.Listen(p.listeners, listener);
    (BasicPubSub(listeners), id)
  }

  function Unsubscribe<L>(p: BasicPubSub<L>, id: Id): (q: BasicPubSub<L>)
    requires Valid(p.listeners)
    ensures Valid(q.listeners) && !Contains(q.listeners, id)
    ensures q.listeners.nextId == p.listeners.nextId
    ensures !Contains(p.listeners, id) ==> q == p
    ensures Contains(p.listeners, id) ==>
              exists i :: 0 <= i < |p.listeners.entries| && p.listeners.entries[i].id == id &&
                          q.listeners.entries == RemoveAt(p.listeners.entries, i)
  {
    BasicPubSub(Listeners.Unsubscribe(p.listeners, id))
  }

  /** The calls a notification makes. */
  method Notify<L, A>(p: BasicPubSub<L>, args: A) returns (calls: seq<Call<L, A>>)
    ensures |calls| == |p.listeners.entries|
    ensures forall k :: 0 <= k < |calls| ==> calls[k] == Call(p.listeners.entries[k].listener, args)
  {
    calls := [];
    var i := 0;
    while i < |p.listeners.entries|
      invariant 0 <= i <= |p.listeners.entries|
      invariant |calls| == i
      invariant forall k :: 0 <= k < i ==> calls[k] == Call(p.listeners.entries[k].listener, args)
    {
      calls := calls + [Call(p.listeners.entries[i].listener, args)];
      i := i + 1;
    }
  }
}
