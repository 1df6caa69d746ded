/** The unbounded first-in first-out channels that connect the components. */
module Channels {
  import opened Bytes

  class Channel<T> {
    var queue: seq<T>

    constructor ()
      ensures queue == []
    {
      queue := [];
    }

    method Send(x: T)
      modifies this
      ensures queue == old(queue) + [x]
    {
      queue := queue + [x];
    }

    /** try_recv: takes the oldest element, or reports that there is none. */
    method TryRecv() returns (r: Option<T>)
      modifies this
      ensures if old(queue) == [] then r == None && queue == []
              else r == Some(old(queue)[0]) && queue == old(queue)[1..]
    {
      if queue == [] {
        return None;
      }
      r := Some(queue[0]);
      queue := queue[1..];
    }
  }
}
