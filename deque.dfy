/** collections.deque of ints with a maxlen, reduced to the operations the
    locker uses: appendleft, pop and len. */
module Deques {

  /** The contents of a bounded deque after appendleft(x): x becomes the left
      end, and when the deque was already full the rightmost item falls off. */
  function PushedLeft(items: seq<int>, x: int, maxlen: nat): (r: seq<int>)
    requires |items| <= maxlen
    ensures |r| == if |items| < maxlen then |items| + 1 else maxlen
    ensures |r| > 0 ==> r[0] == x && r[1..] == items[..|r| - 1]
  {
    if |items| < maxlen then [x] + items
    else if maxlen == 0 then []
    else [x] + items[..maxlen - 1]
  }

  class Deque {
    /** The items from left to right. */
    var items: seq<int>
    const maxlen: nat

    ghost predicate Valid()
      reads this
    {
      |items| <= maxlen
    }

    constructor (maxlen: nat)
      ensures Valid() && this.maxlen == maxlen && items == []
    {
      this.maxlen := maxlen;
      items := [];
    }

    /** Inserts at the left end, then discards from the right end what no
        longer fits. */
    method AppendLeft(x: int)
      requires Valid()
      modifies this
      ensures Valid() && items == PushedLeft(old(items), x, maxlen)
    {
      items := [x] + items;
      if |items| > maxlen {
        items := items[..|items| - 1];
      }
    }

    /** Removes and returns the rightmost item. */
    method Pop() returns (x: int)
      requires Valid() && items != []
      modifies this
      ensures Valid()
      ensures x == old(items)[|old(items)| - 1] && items == old(items)[..|old(items)| - 1]
    {
      x := items[|items| - 1];
      items := items[..|items| - 1];
    }
  }
}
