/** The crawler's first-in first-out queue: an array that grows with `push` at its back and
    shrinks with `shift` at its front. */
module Queues {
  import opened Wrappers

  class Queue<T(==)> {
    /** The queued items, oldest first. */
    var items: seq<T>

    /** A new queue is empty. */
    constructor ()
      ensures items == []
    {
      items := [];
    }

    /** `enqueue`: the item goes to the back; the items before it stay in order. */
    method Enqueue(item: T)
      modifies this
      ensures items == old(items) + [item]
    {
      items := items + [item];
    }

    /** `dequeue`: the oldest item leaves the queue; an empty queue gives `undefined` and
        stays empty. */
    method Dequeue() returns (r: Option<T>)
      modifies this
      ensures old(items) == [] ==> r == None && items == []
      ensures old(items) != [] ==> r == Some(old(items)[0]) && items == old(items)[1..]
      ensures old(items) == (if r.Some? then [r.value] else []) + items
    {
      if items == [] {
        r := None;
      } else {
        r := Some(items[0]);
        items := items[1..];
      }
    }

    /** `isEmpty`: whether the queue holds nothing, which is whether its size is zero. */
    method IsEmpty() returns (b: bool)
      ensures b <==> |items| == 0
      ensures b <==> items == []
    {
      b := |items| == 0;
    }

    /** `size`: the number of queued items. */
    method Size() returns (n: nat)
      ensures n == |items|
    {
      n := |items|;
    }

    /** `contains`: whether some queued item equals `item`. */
    method Contains(item: T) returns (b: bool)
      ensures b <==> exists k :: 0 <= k < |items| && items[k] == item
    {
      b := item in items;
    }
  }
}
