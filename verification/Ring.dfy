/** The single-producer single-consumer rings shared with the kernel (socket.go):
    a descriptor array indexed through a mask by free-running 32-bit producer and
    consumer counters. The class refines a FIFO queue, whatever the counters wrap to. */
module Rings {
  import opened Bits

  type u32 = x: int | 0 <= x < 0x1_0000_0000
  const TWO32 := 0x1_0000_0000

  function Add32(x: u32, y: u32): u32 { (x + y) % TWO32 }
  function Sub32(x: u32, y: u32): u32 { (x - y) % TWO32 }

  /** Unsigned 32-bit difference recovers a distance below 2^32. */
  lemma WrappedDistance(head: nat, tail: nat)
    requires head <= tail < head + TWO32
    ensures Sub32(tail % TWO32, head % TWO32) == tail - head
  {
  }

  lemma {:induction false} Pow2Divides(e: nat, n: nat)
    requires e <= n
    ensures exists k: nat :: Pow2(n) == Pow2(e) * k
  {
    if e == n {
      assert Pow2(n) == Pow2(e) * 1;
    } else {
      Pow2Divides(e, n - 1);
      var k: nat :| Pow2(n - 1) == Pow2(e) * k;
      assert Pow2(n) == Pow2(e) * (2 * k);
    }
  }

  lemma MulRules(d: nat, a: nat, b: nat)
    ensures d * (a + b) == d * a + d * b && (d * a) * b == d * (a * b)
  {
  }

  lemma ModMod(x: nat, d: nat, k: nat, n: nat)
    requires d > 0 && n > 0 && n == d * k
    ensures (x % n) % d == x % d
  {
    var q, r := x / n, x % n;
    var s, t := r / d, r % d;
    assert x == n * q + r;
    assert r == d * s + t;
    assert x == d * (k * q + s) + t by {
      MulRules(d, k, q);
      MulRules(d, k * q, s);
    }
    DivModUnique(x, d, k * q + s, t);
  }

  /** `(t mod 2^32) & (2^e - 1)` is `t mod 2^e`: the mask index never jumps at a wrap. */
  lemma MaskIndex(t: nat, e: nat)
    requires e <= 32
    ensures BitAnd(t % TWO32, Pow2(e) - 1) == t % Pow2(e)
  {
    Pow2Values();
    AndLowMask(e, t % TWO32);
    Pow2Divides(e, 32);
    var k: nat :| Pow2(32) == Pow2(e) * k;
    ModMod(t, Pow2(e), k, TWO32);
  }

  /** Indices closer than the size fall into different slots. */
  lemma SlotsDiffer(i: nat, j: nat, size: nat)
    requires i < j < i + size
    ensures i % size != j % size
  {
    if i % size == j % size {
      var qi, qj := i / size, j / size;
      assert j - i == size * qj - size * qi;
      MulGap(size, qi, qj);
      MulGap(size, qj, qi);
    }
  }

  lemma {:induction false} AndSelf(v: nat)
    ensures BitAnd(v, v) == v
  {
    if v != 0 { AndSelf(v / 2); }
  }

  predicate IsPow2(v: nat) { exists e: nat :: e <= v && Pow2(e) == v }

  lemma {:induction false} ExponentBelow(e: nat)
    ensures e < Pow2(e)
  {
    if e > 0 { ExponentBelow(e - 1); }
  }

  lemma Pow2Even(e: nat)
    ensures e == 0 || Pow2(e) % 2 == 0
  {
  }

  lemma HalfIsPow2(u: nat)
    requires u > 0
    ensures IsPow2(2 * u) <==> IsPow2(u)
    ensures !IsPow2(2 * u + 1)
  {
    if IsPow2(2 * u) {
      var e: nat :| e <= 2 * u && Pow2(e) == 2 * u;
      ExponentBelow(e - 1);
      assert Pow2(e - 1) == u;
    }
    if IsPow2(u) {
      var e: nat :| e <= u && Pow2(e) == u;
      assert Pow2(e + 1) == 2 * u;
    }
    forall e: nat | e <= 2 * u + 1 ensures Pow2(e) != 2 * u + 1 {
      Pow2Even(e);
    }
  }

  /** NewSocket's test: clearing the lowest set bit leaves nothing exactly for powers of two. */
  lemma {:induction false} PowerOfTwoTest(v: nat)
    requires v > 0
    ensures BitAnd(v, v - 1) == 0 <==> IsPow2(v)
    decreases v
  {
    var u := v / 2;
    if v == 1 {
      assert Pow2(0) == 1;
    } else {
      HalfIsPow2(u);
      hide IsPow2; hide Pow2;
      if v % 2 == 0 {
        PowerOfTwoTest(u);
        assert (v - 1) / 2 == u - 1 && v == 2 * u;
      } else {
        AndSelf(u);
        assert (v - 1) / 2 == u && v == 2 * u + 1;
      }
    }
  }

  class Ring<T(0)> {
    ghost const exp: nat
    const size: nat
    var prod: u32
    var cons: u32
    const descs: array<T>

    /** Descriptors ever published and consumed, and those written but not published. */
    ghost var tail: nat
    ghost var head: nat
    ghost var staged: seq<T>

    /** The queue: what has been published and not yet consumed. */
    ghost var queue: seq<T>

    ghost predicate Valid()
      reads this, descs
    {
      && exp <= 31 && size == Pow2(exp) == descs.Length
      && head <= tail && |queue| == tail - head && |queue| + |staged| <= size
      && prod == tail % TWO32 && cons == head % TWO32
      && (forall i: nat :: i < |queue| ==> Slot(head + i) == queue[i])
      && (forall i: nat :: i < |staged| ==> Slot(tail + i) == staged[i])
    }

    ghost function Slot(i: nat): T
      requires descs.Length == size > 0
      reads descs
    {
      descs[i % size]
    }

    constructor (n: nat, ghost e: nat)
      requires e <= 31 && n == Pow2(e)
      ensures Valid() && fresh(descs) && size == n && queue == [] && staged == []
    {
      exp, size := e, n;
      prod, cons := 0, 0;
      descs := new T[n];
      tail, head, staged, queue := 0, 0, [], [];
    }

    lemma SizeFits()
      requires Valid()
      ensures 0 < size < TWO32
    {
      Pow2Monotone(exp, 31);
      Pow2Values();
      assert Pow2(32) == 2 * Pow2(31);
    }

    lemma ProducerIs()
      requires Valid()
      ensures prod == tail % TWO32 && cons == head % TWO32 && |queue| + |staged| <= size
    {
    }

    /** NumFreeFillSlots, NumFreeTxSlots: the fallback branch is dead. */
    method Free() returns (n: nat)
      requires Valid()
      ensures n == size - |queue|
    {
      SizeFits();
      WrappedDistance(head, tail);
      var max: u32 := size;
      var left := Sub32(max, Sub32(prod, cons));
      if left <= max {
        n := left;
      } else {
        assert false;
        n := size;
      }
    }

    /** NumReceived, NumCompleted: the clamp is dead. */
    method Avail() returns (n: nat)
      requires Valid()
      ensures n == |queue|
    {
      SizeFits();
      WrappedDistance(head, tail);
      n := Sub32(prod, cons);
      if n > size {
        assert false;
        n := size;
      }
    }

    /** Producer: write the slot at local counter `p`. Nothing the consumer can see changes. */
    method WriteSlot(p: u32, x: T)
      requires Valid() && |queue| + |staged| < size && p == (tail + |staged|) % TWO32
      modifies this`staged, descs
      ensures Valid() && staged == old(staged) + [x]
    {
      hide Pow2; hide BitAnd;
      SizeFits();
      MaskIndex(tail + |staged|, exp);
      ghost var at := tail + |staged|;
      forall i | head <= i < at ensures i % size != at % size { SlotsDiffer(i, at, size); }
      descs[BitAnd(p, size - 1)] := x;
      staged := staged + [x];
      assert forall i :: head <= i < at ==> Slot(i) == old(Slot(i));
    }

    /** Producer: store the producer counter; everything staged becomes visible at once. */
    method Publish(p: u32)
      requires Valid() && p == (tail + |staged|) % TWO32
      modifies this`prod, this`tail, this`staged, this`queue
      ensures Valid() && staged == [] && queue == old(queue) + old(staged) && tail == old(tail) + |old(staged)|
    {
      hide Pow2; hide Slot;
      SizeFits();
      queue := queue + staged;
      prod := p;
      tail := tail + |staged|;
      staged := [];
    }

    /** Consumer: read the slot at local counter `c`, `k` past the consumer counter. */
    method ReadSlot(c: u32, ghost k: nat) returns (x: T)
      requires Valid() && k < |queue| && c == (head + k) % TWO32
      ensures x == queue[k]
    {
      hide Pow2; hide BitAnd;
      SizeFits();
      MaskIndex(head + k, exp);
      x := descs[BitAnd(c, size - 1)];
    }

    /** Consumer: store the consumer counter; the first `k` slots may be reused. */
    method Release(c: u32, ghost k: nat)
      requires Valid() && k <= |queue| && c == (head + k) % TWO32
      modifies this`cons, this`head, this`queue
      ensures Valid() && queue == old(queue)[k..] && head == old(head) + k
    {
      hide Pow2; hide Slot;
      SizeFits();
      queue := queue[k..];
      cons := c;
      head := head + k;
    }
  }

  /** ringCounter: a wrapping ring index extended to a 64-bit count. */
  class RingCounter {
    var last: u32
    var total: nat

    constructor ()
      ensures last == 0 && total == 0
    {
      last, total := 0, 0;
    }

    /** If the true index has moved by less than 2^32 since the last sample, the
        counter again equals it (modulo the 64 bits it is kept in). */
    method Update(cur: u32, ghost was: nat, ghost now: nat) returns (r: nat)
      requires last == was % TWO32 && total == was % 0x1_0000_0000_0000_0000
      requires was <= now < was + TWO32 && cur == now % TWO32
      modifies this
      ensures last == now % TWO32 && r == total == now % 0x1_0000_0000_0000_0000
    {
      WrappedDistance(was, now);
      total := (total + Sub32(cur, last)) % 0x1_0000_0000_0000_0000;
      last := cur;
      r := total;
    }
  }
}
