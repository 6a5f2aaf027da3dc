/** A value cell that calls its change handlers, in registration order,
    whenever it is set to a different value. The handler calls are
    returned as a trace. */
module NotifyChanged {
  import opened Listeners

  datatype Cell<T, H> = Cell(value: T, handlers: Registry<H>)

  datatype Call<H, T> = Call(handler: H, newValue: T)

  /** The calls that report `v` to every handler, in order. */
  function Report<T, H>(handlers: Registry<H>, v: T): (calls: seq<Call<H, T>>)
    ensures |calls| == |handlers.entries|
    ensures forall k :: 0 <= k < |calls| ==> calls[k] == Call(handlers.entries[k].listener, v)
  {
    seq(|handlers.entries|, k requires 0 <= k < |handlers.entries| => Call(handlers.entries[k].listener, v))
  }

  function NewCell<T, H>(value: T): (c: Cell<T, H>)
    ensures Get(c) == value && Valid(c.handlers) && c.handlers.entries == []
  {
    Cell(value, Empty())
  }

  function Get<T, H>(c: Cell<T, H>): T {
    c.value
  }

  /** Stores a differing value and reports it to every handler; an equal
      value changes nothing and reports to no one. */
  function Set<T(==), H>(c: Cell<T, H>, v: T): (res: (Cell<T, H>, seq<Call<H, T>>))
    ensures Get(res.0) == v && res.0.handlers == c.handlers
    ensures v == c.value ==> res == (c, [])
    ensures v != c.value ==>
              |res.1| == |c.handlers.entries| &&
              forall k :: 0 <= k < |res.1| ==> res.1[k] == Call(c.handlers.entries[k].listener, v)
  {
    if v != c.value then (c.(value := v), Report(c.handlers, v)) else (c, [])
  }

  function OnChange<T, H>(c: Cell<T, H>, handler: H): (res: (Cell<T, H>, Id))
    requires Valid(c.handlers)
    ensures Valid(res.0.handlers) && res.0.value == c.value
    ensures res.0.handlers.entries == c.handlers.entries + [Entry(res.1, handler)]
  {
    var (handlers, id) := Listen(c.handlers, handler);
    (c.(handlers := handlers), id)
  }

  function Unsubscribe<T, H>(c: Cell<T, H>, id: Id): (d: Cell<T, H>)
    requires Valid(c.handlers)
    ensures Valid(d.handlers) && d.value == c.value && !Contains(d.handlers, id)
    ensures d.handlers.nextId == c.handlers.nextId
    ensures !Contains(c.handlers, id) ==> d == c
    ensures Contains(c.handlers, id) ==>
              exists i :: 0 <= i < |c.handlers.entries| && c.handlers.entries[i].id == id &&
                          d.handlers.entries == RemoveAt(c.handlers.entries, i)
  {
    c.(handlers := Listeners.Unsubscribe(c.handlers, id))
  }

  /** A handler's unsubscribe function can be called again to no effect. */
  lemma {:induction false} UnsubscribeTwice<T, H>(c: Cell<T, H>, id: Id)
    requires Valid(c.handlers)
    ensures Unsubscribe(Unsubscribe(c, id), id) == Unsubscribe(c, id)
  {
    UnsubscribeIdempotent(c.handlers, id);
  }

  /** The value read back is the constructor's until a differing set: a
      run of sets returns the last value set, or the initial one when
      there were none. */
  function SetAll<T(==), H>(c: Cell<T, H>, vs: seq<T>): Cell<T, H>
    decreases |vs|
  {
    if |vs| == 0 then c else SetAll(Set(c, vs[0]).0, vs[1..])
  }

  lemma {:induction false} GetAfterSets<T, H>(c: Cell<T, H>, vs: seq<T>)
    ensures Get(SetAll(c, vs)) == if |vs| == 0 then Get(c) else vs[|vs| - 1]
    ensures SetAll(c, vs).handlers == c.handlers
    decreases |vs|
  {
    if |vs| > 0 {
      GetAfterSets(Set(c, vs[0]).0, vs[1..]);
    }
  }

  /** Setting the same value twice reports at most once. */
  lemma SetTwiceReportsOnce<T, H>(c: Cell<T, H>, v: T)
    ensures var (once, _) := Set(c, v);
            Set(once, v) == (once, [])
  {
  }
}
