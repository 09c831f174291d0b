/** The LIFO free list of frame addresses behind one direction of a socket (pool.go). */
module FramePools {
  import opened Common

  /** Frame `i` of the UMEM starts at `i * frameSize`; a pool covers `count` frames from `base`. */
  function FrameAddrs(base: nat, count: nat, frameSize: nat): (r: seq<nat>)
    ensures |r| == count
    ensures forall i :: 0 <= i < count ==> r[i] == (base + i) * frameSize
  {
    seq(count, i requires 0 <= i < count => (base + i) * frameSize)
  }

  class FramePool {
    var free: seq<nat>

    constructor (base: nat, count: nat, frameSize: nat)
      ensures free == FrameAddrs(base, count, frameSize)
    {
      var slots := seq(count, i => 0);
      for i := 0 to count
        invariant |slots| == count
        invariant forall j :: 0 <= j < i ==> slots[j] == (base + j) * frameSize
      {
        slots := slots[i := (base + i) * frameSize];
      }
      free := slots;
    }

    /** The last `Min(n, |free|)` addresses leave the pool, in pool order, after `dst`. */
    method Pop(n: nat, dst: seq<nat>) returns (out: seq<nat>)
      modifies this
      ensures |out| == |dst| + Min(n, |old(free)|) && dst <= out
      ensures free + out[|dst|..] == old(free)
    {
      var k := n;
      if k > |free| {
        k := |free|;
      }
      if k == 0 {
        return dst;
      }
      var start := |free| - k;
      out := dst + free[start..];
      free := free[..start];
    }

    method Push(addr: nat)
      modifies this
      ensures free == old(free) + [addr]
    {
      free := free + [addr];
    }
  }

  /** What is pushed last is popped first, so a push followed by a pop of one changes nothing. */
  method PushThenPop(p: FramePool, addr: nat) returns (got: seq<nat>)
    modifies p
    ensures got == [addr] && p.free == old(p.free)
  {
    p.Push(addr);
    got := p.Pop(1, []);
    assert p.free == old(p.free) && got == [addr] by {
      assert |p.free| == |old(p.free)|;
      assert (p.free + got)[|p.free|] == addr;
      assert (p.free + got)[..|p.free|] == old(p.free);
    }
  }
}
