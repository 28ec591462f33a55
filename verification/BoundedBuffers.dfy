/** The fixed-capacity drop-oldest buffer behind every in-memory history, together
    with the never-evicted stream it is a suffix of. */
module BoundedBuffers {
  import opened Common

  datatype BufferFault = CapacityBelowOne

  /** The retained items are exactly the stream without its first `dropped` items,
      and nothing is dropped before the buffer is full. */
  ghost predicate Retains<T>(items: seq<T>, dropped: nat, maxlen: nat, stream: seq<T>) {
    && dropped <= |stream|
    && items == stream[dropped..]
    && |items| <= maxlen
    && (dropped > 0 ==> |items| == maxlen)
  }

  class BoundedBuffer<T> {
    const maxlen: nat
    var items: seq<T>
    var dropped: nat
    ghost var stream: seq<T>

    ghost predicate Valid()
      reads this
    {
      maxlen >= 1 && Retains(items, dropped, maxlen, stream)
    }

    constructor (maxlen: nat)
      requires maxlen >= 1
      ensures Valid() && stream == [] && this.maxlen == maxlen
    {
      this.maxlen := maxlen;
      items, dropped, stream := [], 0, [];
    }

    static method Create(maxlen: int) returns (r: Result<BoundedBuffer<T>, BufferFault>)
      ensures r.Failure? <==> maxlen < 1
      ensures r.Success? ==> fresh(r.value) && r.value.Valid() && r.value.stream == [] && r.value.maxlen == maxlen
    {
      if maxlen < 1 {
        return Failure(CapacityBelowOne);
      }
      var buffer := new BoundedBuffer(maxlen);
      return Success(buffer);
    }

    method Append(item: T)
      requires Valid()
      modifies this
      ensures Valid() && stream == old(stream) + [item]
      ensures dropped == old(dropped) + if |old(items)| == maxlen then 1 else 0
    {
      if |items| == maxlen {
        dropped := dropped + 1;
        items := items[1..];
      }
      items := items + [item];
      stream := stream + [item];
    }

    /** The `count` most recent items, oldest first. Python's `items[-count:]` returns
        everything for a count of zero and drops from the front for a negative one. */
    function Latest(count: Option<int>): (r: seq<T>)
      requires Valid()
      reads this
      ensures count.None? || count.value == 0 ==> r == items
      ensures count.Some? && count.value > 0 ==>
                |r| == (if count.value <= |items| then count.value else |items|) && r == items[|items| - |r|..]
      ensures count.Some? && count.value < 0 ==>
                |r| == (if -count.value <= |items| then |items| + count.value else 0) && r == items[|items| - |r|..]
    {
      if count.None? || count.value == 0 then items
      else if count.value > 0 then
        (if count.value >= |items| then items else items[|items| - count.value..])
      else if -count.value >= |items| then []
      else items[-count.value..]
    }
  }
}
