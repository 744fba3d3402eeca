/** The bump allocator that holds the strings of one result. */
module StringPool {
  import opened Basics

  class Pool {
    const max: nat
    const buf: array<byte>
    var top: nat

    ghost predicate Valid()
      reads this
    {
      top <= max == buf.Length
    }

    /** pool_create: a request of zero bytes or fewer gets 100. */
    constructor (n: int)
      ensures Valid() && fresh(buf) && top == 0
      ensures max == if n <= 0 then 100 else n
    {
      max := if n <= 0 then 100 else n;
      buf := new byte[if n <= 0 then 100 else n](_ => 0);
      top := 0;
    }

    /** The offset of n fresh bytes, or None when fewer than n are left. */
    method Alloc(n: nat) returns (r: Option<nat>)
      requires Valid()
      modifies this`top
      ensures Valid()
      ensures r == if old(top) + n <= max then Some(old(top)) else None
      ensures top == if r.Some? then old(top) + n else old(top)
    {
      if top + n > max {
        return None;
      }
      r := Some(top);
      top := top + n;
    }
  }
}
