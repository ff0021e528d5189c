/** The drop-oldest frame ring of `ble_proto.c`: head, count and a fixed slot array. */
module FrameQueue {
  import opened Esp
  import opened ModClock

  /** `k` slots after `head`, around the ring. */
  function Slot(head: nat, k: nat, cap: nat): nat
    requires head < cap && k <= cap
  {
    if head + k < cap then head + k else head + k - cap
  }

  /** How far `p` lies behind `head`, around the ring. */
  function Offset(head: nat, p: nat, cap: nat): nat
    requires head < cap && p < cap
  {
    if p >= head then p - head else p + cap - head
  }

  lemma {:induction false} ModOnce(x: nat, cap: nat)
    requires x < 2 * cap
    ensures x % cap == if x < cap then x else x - cap
  {
    if x >= cap {
      assert x == cap * 1 + (x - cap);
      assert x / cap == 1;
    } else {
      assert x / cap == 0;
    }
  }

  /** A 32-bit event counter, one event later. */
  function OneMore(n: u32): u32 {
    (n + 1) % TWO32
  }

  lemma {:induction false} OneMoreWraps(n: nat)
    ensures OneMore(Wrap(n)) == Wrap(n + 1)
  {
    WrapOfSum(n, 1);
  }

  class FrameQueue<T> {
    const slots: array<Option<T>>
    var head: nat
    var count: nat
    var dropped: u32

    /** The slots in use are the `count` ones from `head`; every other slot is NULL. */
    ghost predicate Valid()
      reads this, slots
    {
      && count <= slots.Length
      && (if slots.Length == 0 then head == 0 else head < slots.Length)
      && forall p :: 0 <= p < slots.Length ==> (slots[p].Some? <==> Offset(head, p, slots.Length) < count)
    }

    ghost function Contents(): (c: seq<T>)
      requires Valid()
      reads this, slots
      ensures |c| == count
    {
      seq(count, k requires 0 <= k < count && Valid() reads this, slots => At(k))
    }

    /** The k-th oldest frame. */
    ghost function At(k: nat): T
      requires Valid() && k < count
      reads this, slots
    {
      assert Offset(head, Slot(head, k, slots.Length), slots.Length) == k;
      slots[Slot(head, k, slots.Length)].value
    }

    constructor (cap: nat)
      ensures Valid() && Contents() == [] && dropped == 0 && fresh(slots) && slots.Length == cap
    {
      slots := new Option<T>[cap](_ => None);
      head, count, dropped := 0, 0, 0;
    }

    method Push(frame: T) returns (evicted: bool)
      requires Valid()
      modifies this, slots
      ensures Valid()
      ensures evicted == (old(count) == slots.Length)
      ensures dropped == if evicted then OneMore(old(dropped)) else old(dropped)
      ensures Contents() == if slots.Length == 0 then []
                            else (if evicted then old(Contents())[1..] else old(Contents())) + [frame]
    {
      if slots.Length == 0 {
        dropped := OneMore(dropped);
        return true;
      }
      evicted := false;
      if count == slots.Length {
        var _ := Pop();
        dropped := OneMore(dropped);
        evicted := true;
      }
      Append(frame);
    }

    method Append(frame: T)
      requires Valid() && count < slots.Length
      modifies this`count, slots
      ensures Valid() && Contents() == old(Contents()) + [frame]
    {
      ModOnce(head + count, slots.Length);
      ghost var before := Contents();
      slots[(head + count) % slots.Length] := Some(frame);
      count := count + 1;
      assert Contents() == before + [frame];
    }

    method Pop() returns (frame: Option<T>)
      requires Valid()
      modifies this`head, this`count, slots
      ensures Valid()
      ensures old(count) == 0 ==> frame == None && Contents() == old(Contents())
      ensures old(count) > 0 ==> frame == Some(old(Contents())[0]) && Contents() == old(Contents())[1..]
    {
      if count == 0 { return None; }
      ghost var before := Contents();
      assert before[0] == At(0);
      frame := slots[head];
      slots[head] := None;
      ModOnce(head + 1, slots.Length);
      head := (head + 1) % slots.Length;
      count := count - 1;
      assert Contents() == before[1..];
    }

    method Unshift(frame: T) returns (kept: bool)
      requires Valid()
      modifies this, slots
      ensures Valid()
      ensures kept == (old(count) < slots.Length)
      ensures dropped == if kept then old(dropped) else OneMore(old(dropped))
      ensures Contents() == if kept then [frame] + old(Contents()) else old(Contents())
    {
      if count == slots.Length {
        dropped := OneMore(dropped);
        return false;
      }
      ghost var before := Contents();
      ModOnce(head + slots.Length - 1, slots.Length);
      head := (head + slots.Length - 1) % slots.Length;
      slots[head] := Some(frame);
      count := count + 1;
      assert Contents() == [frame] + before;
      return true;
    }

    method Clear()
      requires Valid()
      modifies this`head, this`count, slots
      ensures Valid() && Contents() == []
    {
      while count > 0
        invariant Valid()
        decreases count
      {
        var _ := Pop();
      }
      head := 0;
    }
  }
}
