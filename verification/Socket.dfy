/** The socket object itself (socket.go): pools, rings and counters updated in place,
    while the kernel moves frames between any two memory accesses. Each method is shown
    to act as kernel steps and one atomic protocol action, so what holds of every run
    of the protocol holds of the code. */
module Sockets {
  import opened Common
  import opened Bits
  import opened FramePools
  import opened Rings
  import opened SocketProtocol
  import opened FrameConservation
  import opened UmemFrames

  /** The kernel's end of a socket: the frames it has taken and not yet returned. */
  class Kernel {
    var rxHeld: multiset<nat>
    var txHeld: multiset<nat>
    /** What the NEED_WAKEUP flag of the tx ring said, each time it was read. */
    ghost var flags: seq<bool>

    constructor ()
      ensures rxHeld == multiset{} && txHeld == multiset{} && flags == []
    {
      rxHeld, txHeld, flags := multiset{}, multiset{}, [];
    }

    /** The driver sets the flag when it parks and clears it while it drains the ring. */
    method NeedsWakeupTx() returns (parked: bool)
      modifies this`flags
      ensures flags == old(flags) + [parked]
    {
      parked := *;
      flags := flags + [parked];
    }
  }

  predicate RxKernelSteps(acts: seq<Action>) {
    forall a :: a in acts ==> a.KernelTakeFill? || a.KernelDeliver?
  }

  predicate TxKernelSteps(acts: seq<Action>) {
    forall a :: a in acts ==> a.KernelTakeTx? || a.KernelComplete?
  }

  predicate Aligned(c: Config, q: seq<nat>)
    requires c.Valid()
  {
    forall a :: a in q ==> a % c.frameSize == 0
  }

  /** Kernel steps, then `n` completions are reclaimed. */
  predicate Reclaims(acts: seq<Action>, n: nat) {
    acts != [] && acts[|acts| - 1] == Action.Complete(n) && TxKernelSteps(acts[..|acts| - 1])
  }

  lemma NoSteps(c: Config, s: State)
    requires c.Valid()
    ensures Runs(c, s, [], s) && RxKernelSteps([]) && TxKernelSteps([])
  {
  }

  // -------- What each publication does to the protocol state --------

  lemma FillIs(c: Config, v: State, left: seq<nat>, moved: seq<nat>, t: State)
    requires c.Valid() && |v.rx.fill| + |moved| <= c.fillSize && v.rx.pool == left + moved
    requires t.tx == v.tx
    requires t.rx == v.rx.(pool := left, fill := v.rx.fill + moved, numFilled := v.rx.numFilled + |moved|)
    ensures Enabled(c, v, Action.Fill(|moved|)) && Step(c, v, Action.Fill(|moved|)) == t
  {
    var k := |v.rx.pool| - |moved|;
    assert v.rx.pool[k..] == moved && v.rx.pool[..k] == left;
  }

  lemma ReceiveIs(c: Config, v: State, n: nat, t: State)
    requires c.Valid() && n <= |v.rx.ring| && t.tx == v.tx
    requires t.rx == v.rx.(ring := v.rx.ring[n..], app := v.rx.app + multiset(Bases(c, v.rx.ring[..n])),
                           numFilled := v.rx.numFilled - n)
    ensures Enabled(c, v, Action.Receive(n)) && Step(c, v, Action.Receive(n)) == t
  {
  }

  lemma RecycleIs(c: Config, v: State, ds: seq<Desc>, t: State)
    requires c.Valid() && multiset(Bases(c, ds)) <= v.rx.app && t.tx == v.tx
    requires t.rx == v.rx.(app := v.rx.app - multiset(Bases(c, ds)), pool := v.rx.pool + Bases(c, ds))
    ensures Enabled(c, v, Action.Recycle(ds)) && Step(c, v, Action.Recycle(ds)) == t
  {
  }

  lemma AllocIs(c: Config, v: State, left: seq<nat>, moved: seq<nat>, t: State)
    requires c.Valid() && v.tx.pool == left + moved && t.rx == v.rx
    requires t.tx == v.tx.(pool := left, app := v.tx.app + multiset(moved))
    ensures Enabled(c, v, Action.Alloc(|moved|)) && Step(c, v, Action.Alloc(|moved|)) == t
  {
    var k := |v.tx.pool| - |moved|;
    assert v.tx.pool[k..] == moved && v.tx.pool[..k] == left;
  }

  lemma TransmitIs(c: Config, v: State, ds: seq<Desc>, t: State)
    requires c.Valid() && |v.tx.ring| + |ds| <= c.txSize && multiset(Bases(c, ds)) <= Sendable(c, v)
    requires t.rx == if c.reuse then v.rx.(app := v.rx.app - multiset(Bases(c, ds))) else v.rx
    requires t.tx == v.tx.(app := v.tx.app - multiset(Bases(c, ds)), ring := v.tx.ring + ds,
                           numTransmitted := v.tx.numTransmitted + |ds|)
    ensures Enabled(c, v, Action.Transmit(ds)) && Step(c, v, Action.Transmit(ds)) == t
  {
  }

  lemma CompleteIs(c: Config, v: State, n: nat, t: State)
    requires c.Valid() && n <= |v.tx.comp|
    requires t.rx == v.rx.(pool := v.rx.pool + ToRx(c, v.tx.comp[..n]))
    requires t.tx == v.tx.(comp := v.tx.comp[n..], pool := v.tx.pool + ToTx(c, v.tx.comp[..n]),
                           numTransmitted := v.tx.numTransmitted - n)
    ensures Enabled(c, v, Action.Complete(n)) && Step(c, v, Action.Complete(n)) == t
  {
  }

  lemma RoutingSnoc(c: Config, addrs: seq<nat>, addr: nat)
    requires c.Valid()
    ensures var f := FrameBase(c, addr); var home := c.reuse && f < c.TxStart();
      && ToRx(c, addrs + [addr]) == ToRx(c, addrs) + (if home then [f] else [])
      && ToTx(c, addrs + [addr]) == ToTx(c, addrs) + (if home then [] else [f])
  {
    var q, q' := BasesOf(c, addrs), BasesOf(c, addrs + [addr]);
    assert q' == q + [FrameBase(c, addr)];
    assert q'[..|q'| - 1] == q;
  }

  lemma {:induction false} RoutingAligned(c: Config, addrs: seq<nat>)
    requires c.Valid()
    ensures Aligned(c, ToTx(c, addrs))
  {
    if addrs == [] {
      assert BasesOf(c, addrs) == [];
    } else {
      var most, last := addrs[..|addrs| - 1], addrs[|addrs| - 1];
      assert addrs == most + [last];
      RoutingAligned(c, most);
      RoutingSnoc(c, most, last);
    }
  }

  datatype SendResult =
    | RingFull(kicked: bool)
    | BadLength(at: nat)
    | Sent(n: nat, kicked: bool)
  {
    /** The call got as far as asking whether to kick. */
    predicate Asks() { RingFull? || (Sent? && n > 0) }
  }

  predicate ValidLength(c: Config, n: int) { 0 <= n <= c.frameSize }

  /** `built` is `descs` with the lengths `build` chose; nothing else differs. */
  predicate Built(c: Config, descs: seq<Desc>, build: int -> int, built: seq<Desc>) {
    && |built| == |descs|
    && forall j :: 0 <= j < |built| ==>
         ValidLength(c, build(j)) && built[j] == descs[j].(len := build(j))
  }

  lemma BuiltBases(c: Config, descs: seq<Desc>, build: int -> int, built: seq<Desc>)
    requires c.Valid() && Built(c, descs, build, built)
    ensures Bases(c, built) == Bases(c, descs)
  {
  }

  lemma BuiltLength(c: Config, descs: seq<Desc>, build: int -> int, built: seq<Desc>)
    requires Built(c, descs, build, built)
    ensures |built| == |descs|
  {
  }

  /** Runs the builder over the allocated frames in order, up to the first bad length: each
      call writes into its frame (`fill`, which sees what the frame held) and returns a length. */
  method BuildFrames(c: Config, umem: array<byte>, descs: seq<Desc>, build: int -> int, fill: (int, seq<byte>) -> seq<byte>)
    returns (built: seq<Desc>, bad: int)
    requires c.frameSize > 0 && Slots(c.frameSize, umem.Length, descs)
    modifies umem
    ensures -1 <= bad < |descs| && SameAddrs(built, descs)
    ensures bad == -1 ==> Built(c, descs, build, built)
    ensures bad >= 0 ==> !ValidLength(c, build(bad)) && forall j :: 0 <= j < bad ==> ValidLength(c, build(j))
    ensures bad == -1 ==> Painted(old(umem[..]), umem[..], c.frameSize, descs, fill, |descs|)
    ensures Untouched(old(umem[..]), umem[..], c.frameSize, descs, |descs|)
  {
    hide Painted; hide Untouched; hide Slots;
    built := descs;
    ghost var u := umem[..];
    NothingPainted(u, c.frameSize, descs, fill);
    for i := 0 to |descs|
      invariant |built| == |descs| && built[i..] == descs[i..] && SameAddrs(built, descs)
      invariant Built(c, descs[..i], build, built[..i])
      invariant Painted(u, umem[..], c.frameSize, descs, fill, i) && Untouched(u, umem[..], c.frameSize, descs, i)
    {
      PaintOne(umem, c.frameSize, descs, fill, i, u);
      var n := build(i);
      if !(0 <= n <= c.frameSize) {
        UntouchedMore(u, umem[..], c.frameSize, descs, i + 1, |descs|);
        return built, i;
      }
      built := built[i := built[i].(len := n)];
    }
    assert built[..|descs|] == built && descs[..|descs|] == descs;
    bad := -1;
  }

  /** What a send leaves in the UMEM: each queued frame holds what the builder made of it and
      no other frame changed; an abandoned batch changed only frames of the transmit pool. */
  predicate BytesOutcome(fs: nat, u: seq<byte>, v: seq<byte>, pool: seq<nat>, fill: (int, seq<byte>) -> seq<byte>,
                         r: SendResult, batch: seq<Desc>)
  {
    |u| == |v| && fs > 0 &&
    match r
    case RingFull(_) => v == u
    case BadLength(_) => forall b: nat :: b % fs == 0 && b + fs <= |u| && b !in pool ==> Frame(v, fs, b) == Frame(u, fs, b)
    case Sent(_, _) => Slots(fs, |u|, batch) && Painted(u, v, fs, batch, fill, |batch|) && Untouched(u, v, fs, batch, |batch|)
  }

  lemma AbandonedBytes(fs: nat, u: seq<byte>, v: seq<byte>, pool: seq<nat>, fill: (int, seq<byte>) -> seq<byte>, bad: nat,
                       descs: seq<Desc>)
    requires |u| == |v| && fs > 0 && Untouched(u, v, fs, descs, |descs|) && forall j :: 0 <= j < |descs| ==> descs[j].addr in pool
    ensures BytesOutcome(fs, u, v, pool, fill, BadLength(bad), [])
  {
    hide Frame;
  }

  lemma SentBytes(fs: nat, u: seq<byte>, v: seq<byte>, pool: seq<nat>, fill: (int, seq<byte>) -> seq<byte>, n: nat, kicked: bool,
                  descs: seq<Desc>, batch: seq<Desc>)
    requires |u| == |v| && Slots(fs, |u|, descs) && SameAddrs(batch, descs)
    requires Painted(u, v, fs, descs, fill, |descs|) && Untouched(u, v, fs, descs, |descs|)
    ensures BytesOutcome(fs, u, v, pool, fill, Sent(n, kicked), batch)
  {
    hide Painted; hide Untouched; hide Slots;
    PaintedSame(u, v, fs, descs, batch, fill);
    assert fs > 0 by { SlotsSize(fs, |u|, descs); }
  }

  lemma SlotsSize(fs: nat, size: nat, ds: seq<Desc>)
    requires Slots(fs, size, ds)
    ensures fs > 0
  {
  }

  lemma InPool(c: Config, left: seq<nat>, descs: seq<Desc>, pool: seq<nat>)
    requires c.Valid() && left + Bases(c, descs) == pool && forall i :: 0 <= i < |descs| ==> descs[i].addr == Bases(c, descs)[i]
    ensures forall j :: 0 <= j < |descs| ==> descs[j].addr in pool
  {
    hide Bases;
    forall j | 0 <= j < |descs| ensures descs[j].addr in pool {
      assert pool[|left| + j] == Bases(c, descs)[j];
    }
  }

  /** The result SendFunc reports and the transmit state it leaves, from the state in which
      it found room in the ring. `batch` is what it queued, and `parked` what the NEED_WAKEUP
      flag of the tx ring said when it was read. */
  predicate SendOutcome(c: Config, needWakeup: bool, parked: bool, count: nat, build: int -> int, before: TxState,
                        r: SendResult, after: TxState, batch: seq<Desc>)
    requires c.Valid() && |before.ring| <= c.txSize
  {
    var most := Min(Min(count, |before.pool|), c.txSize - |before.ring|);
    && after.app == before.app
    && match r
       case RingFull(_) => false
       case BadLength(i) =>
         && i < most && !ValidLength(c, build(i)) && (forall j :: 0 <= j < i ==> ValidLength(c, build(j)))
         && after.pool == before.pool && after.numTransmitted == before.numTransmitted
       case Sent(n, kicked) =>
         && n == most == |batch| && after.numTransmitted == before.numTransmitted + n
         && (forall j :: 0 <= j < n ==> ValidLength(c, build(j)) && batch[j].len == build(j) && !batch[j].contd)
         && after.pool + Bases(c, batch) == before.pool
         && (kicked <==> n > 0 && (!needWakeup || parked))
  }

  /** The whole of a SendFunc call, from the state in which it read the ring: with the ring
      full it kicks unless the driver says it is awake, and only the kernel moves. */
  predicate CallOutcome(c: Config, needWakeup: bool, parked: bool, count: nat, build: int -> int, at: TxState, post: seq<Action>,
                        r: SendResult, after: TxState, batch: seq<Desc>)
    requires c.Valid() && |at.ring| <= c.txSize
  {
    if |at.ring| == c.txSize then r == RingFull(!needWakeup || parked) && TxKernelSteps(post)
    else SendOutcome(c, needWakeup, parked, count, build, at, r, after, batch)
  }

  lemma FullOutcome(c: Config, needWakeup: bool, parked: bool, count: nat, build: int -> int, at: TxState, post: seq<Action>,
                    after: TxState, u: seq<byte>, pool: seq<nat>, fill: (int, seq<byte>) -> seq<byte>)
    requires c.Valid() && |at.ring| == c.txSize && TxKernelSteps(post)
    ensures var r := RingFull(!needWakeup || parked);
      && CallOutcome(c, needWakeup, parked, count, build, at, post, r, after, [])
      && BytesOutcome(c.frameSize, u, u, pool, fill, r, [])
  {
  }

  lemma RoomOutcome(c: Config, needWakeup: bool, parked: bool, count: nat, build: int -> int, at: TxState, post: seq<Action>,
                    r: SendResult, after: TxState, batch: seq<Desc>)
    requires c.Valid() && |at.ring| < c.txSize && SendOutcome(c, needWakeup, parked, count, build, at, r, after, batch)
    ensures CallOutcome(c, needWakeup, parked, count, build, at, post, r, after, batch)
  {
  }

  lemma BadOutcome(c: Config, needWakeup: bool, parked: bool, count: nat, build: int -> int, before: TxState,
                   bad: nat, after: TxState, batch: seq<Desc>)
    requires c.Valid() && |before.ring| <= c.txSize
    requires bad < Min(Min(count, |before.pool|), c.txSize - |before.ring|)
    requires !ValidLength(c, build(bad)) && forall j :: 0 <= j < bad ==> ValidLength(c, build(j))
    requires after.app == before.app && after.pool == before.pool && after.numTransmitted == before.numTransmitted
    ensures SendOutcome(c, needWakeup, parked, count, build, before, BadLength(bad), after, batch)
  {
  }

  lemma SentOutcome(c: Config, needWakeup: bool, parked: bool, count: nat, build: int -> int, before: TxState,
                    r: SendResult, after: TxState, descs: seq<Desc>, batch: seq<Desc>)
    requires c.Valid() && |before.ring| <= c.txSize
    requires r.Sent? && r.n == |batch| == Min(Min(count, |before.pool|), c.txSize - |before.ring|)
    requires Built(c, descs, build, batch) && (r.kicked <==> r.n > 0 && (!needWakeup || parked))
    requires forall j :: 0 <= j < |descs| ==> !descs[j].contd
    requires after.app == before.app && after.numTransmitted == before.numTransmitted + r.n
    requires after.pool + Bases(c, batch) == before.pool
    ensures SendOutcome(c, needWakeup, parked, count, build, before, r, after, batch)
  {
  }

  lemma GiveBackIs(c: Config, v: State, fs: seq<nat>, t: State)
    requires c.Valid() && multiset(fs) <= v.tx.app && t.rx == v.rx
    requires t.tx == v.tx.(app := v.tx.app - multiset(fs), pool := v.tx.pool + fs)
    ensures Enabled(c, v, Action.GiveBack(fs)) && Step(c, v, Action.GiveBack(fs)) == t
  {
  }

  // -------- What NewSocket accepts --------

  datatype Options = Options(
    numFrames: int, frameSize: nat, txFrames: int, fill: int, rx: int, tx: int, comp: int,
    reuse: bool, multiBuffer: bool, needWakeup: bool)

  const DEFAULTS := Options(8192, 2048, 4096, 4096, 4096, 4096, 4096, false, false, false)

  function Or(v: int, d: int): (r: int)
    ensures d != 0 ==> r != 0
  {
    if v == 0 then d else v
  }

  /** withDefaults: what a zero, or no options at all, stands for. */
  function WithDefaults(o: Option<Options>): (d: Options)
    ensures d.frameSize != 0 && d.fill != 0 && d.rx != 0 && d.tx != 0 && d.comp != 0
    ensures o.None? ==> d == Options(8192, 2048, 4096, 4096, 4096, 4096, 4096, false, false, false)
    ensures o.Some? ==> var v := o.value;
      && d.numFrames == (if v.numFrames == 0 then 8192 else v.numFrames)
      && d.frameSize == (if v.frameSize == 0 then 2048 else v.frameSize)
      && (v.txFrames != 0 ==> d.txFrames == v.txFrames)
      && (v.txFrames == 0 && d.numFrames >= 0 ==> d.numFrames - 1 <= 2 * d.txFrames <= d.numFrames)
      && d.fill == (if v.fill == 0 then 4096 else v.fill) && d.rx == (if v.rx == 0 then 4096 else v.rx)
      && d.tx == (if v.tx == 0 then 4096 else v.tx) && d.comp == (if v.comp == 0 then 4096 else v.comp)
      && d.reuse == v.reuse && d.multiBuffer == v.multiBuffer && d.needWakeup == v.needWakeup
  {
    if o.None? then DEFAULTS else Filled(o.value)
  }

  function Filled(o: Options): (d: Options)
    ensures d.frameSize != 0 && d.fill != 0 && d.rx != 0 && d.tx != 0 && d.comp != 0
  {
    var n := Or(o.numFrames, DEFAULTS.numFrames);
    Options(n, if o.frameSize == 0 then DEFAULTS.frameSize else o.frameSize, Or(o.txFrames, HalfTruncated(n)),
            Or(o.fill, DEFAULTS.fill), Or(o.rx, DEFAULTS.rx), Or(o.tx, DEFAULTS.tx), Or(o.comp, DEFAULTS.comp),
            o.reuse, o.multiBuffer, o.needWakeup)
  }

  /** Division by two toward zero. */
  function HalfTruncated(n: int): int { if n >= 0 then n / 2 else -(-n / 2) }

  datatype OpenError = FramesNotPositive | TxFramesOutOfRange | ReuseWithMultiBuffer | NotPowerOfTwo | FillTooDeep | KernelRefuses

  /** A negative number and its predecessor share the sign bit. */
  predicate BadSize(v: int) { v != 0 && (v < 0 || BitAnd(v, v - 1) != 0) }

  function FirstError(o: Options): Option<OpenError> {
    if o.numFrames <= 0 then Some(FramesNotPositive)
    else if o.txFrames <= 0 || o.txFrames >= o.numFrames then Some(TxFramesOutOfRange)
    else if o.reuse && o.multiBuffer then Some(ReuseWithMultiBuffer)
    else if BadSize(o.fill) || BadSize(o.rx) || BadSize(o.tx) || BadSize(o.comp) then Some(NotPowerOfTwo)
    else if o.fill > o.numFrames - o.txFrames then Some(FillTooDeep)
    else None
  }

  predicate SizeOk(v: int) { v == 0 || (v > 0 && IsPow2(v)) }

  predicate Acceptable(o: Options) {
    && 0 < o.txFrames < o.numFrames && !(o.reuse && o.multiBuffer)
    && SizeOk(o.fill) && SizeOk(o.rx) && SizeOk(o.tx) && SizeOk(o.comp)
    && o.fill + o.txFrames <= o.numFrames
  }

  lemma SizeTest(v: int)
    ensures !BadSize(v) <==> SizeOk(v)
  {
    if v > 0 { PowerOfTwoTest(v); }
  }

  /** The checks pass exactly for such options, zero ring sizes included; but since zeros have
      been replaced by then, every ring that is asked for is a positive power of two. */
  lemma Accepted(o: Options)
    ensures FirstError(o).None? <==> Acceptable(o)
    ensures Acceptable(o) <==>
      && 0 < o.txFrames < o.numFrames && o.fill <= o.numFrames - o.txFrames && !(o.reuse && o.multiBuffer)
      && (o.fill == 0 || (o.fill > 0 && IsPow2(o.fill))) && (o.rx == 0 || (o.rx > 0 && IsPow2(o.rx)))
      && (o.tx == 0 || (o.tx > 0 && IsPow2(o.tx))) && (o.comp == 0 || (o.comp > 0 && IsPow2(o.comp)))
  {
    hide BadSize; hide IsPow2;
    SizeTest(o.fill);
    SizeTest(o.rx);
    SizeTest(o.tx);
    SizeTest(o.comp);
  }

  function ConfigOf(o: Options): (c: Config)
    requires Acceptable(o) && o.frameSize != 0 && o.fill != 0 && o.rx != 0 && o.tx != 0 && o.comp != 0
    ensures c.Valid()
  {
    Config(o.frameSize, o.numFrames, o.txFrames, o.fill, o.rx, o.tx, o.comp, o.reuse)
  }

  /** Ring indices are 32-bit: setsockopt would truncate these sizes to zero. */
  predicate TooWide(o: Options) { o.fill >= TWO32 || o.rx >= TWO32 || o.tx >= TWO32 || o.comp >= TWO32 }

  lemma TooWideIs(o: Options)
    ensures TooWide(o) <==> exists v :: v in [o.fill, o.rx, o.tx, o.comp] && v >= 0x1_0000_0000
  {
    var q := [o.fill, o.rx, o.tx, o.comp];
    assert q[0] in q && q[1] in q && q[2] in q && q[3] in q;
  }

  /** A fresh ring of a power-of-two size below 2^32. */
  method NewRing<T(0)>(size: nat) returns (r: Ring<T>)
    requires IsPow2(size) && size < TWO32
    ensures r.Valid() && r.size == size && r.queue == [] && r.staged == [] && fresh(r) && fresh(r.descs)
  {
    ghost var e: nat :| Pow2(e) == size;
    ExponentFits(e);
    r := new Ring<T>(size, e);
  }

  lemma ExponentFits(e: nat)
    requires Pow2(e) < TWO32
    ensures e <= 31
  {
    Pow2Values();
    if e >= 32 {
      Pow2Monotone(32, e);
    }
  }

  /** Maps the four rings and splits the frames into the two pools. */
  method MakeSocket(c: Config, needWakeup: bool) returns (xsk: Socket)
    requires c.Valid() && IsPow2(c.fillSize) && IsPow2(c.rxSize) && IsPow2(c.txSize) && IsPow2(c.compSize)
    requires c.fillSize < TWO32 && c.rxSize < TWO32 && c.txSize < TWO32 && c.compSize < TWO32
    ensures fresh(xsk) && fresh(xsk.fillRing) && fresh(xsk.fillRing.descs) && fresh(xsk.rxPool) && fresh(xsk.kernel)
    ensures fresh(xsk.rxRing) && fresh(xsk.rxRing.descs)
    ensures xsk.RxValid() && xsk.TxValid() && xsk.RxIdle() && xsk.TxIdle()
    ensures xsk.c == c && xsk.View() == Init(c) && xsk.needWakeup == needWakeup
  {
    hide Ring.Valid; hide IsPow2; hide FrameAddrs; hide Init; hide Socket.View; hide Aligned;
    var fill := NewRing<nat>(c.fillSize);
    var rx := NewRing<Desc>(c.rxSize);
    var tx := NewRing<Desc>(c.txSize);
    var comp := NewRing<nat>(c.compSize);
    var rxPool := new FramePool(0, c.RxFrames(), c.frameSize);
    var txPool := new FramePool(c.RxFrames(), c.txFrames, c.frameSize);
    var kernel := new Kernel();
    xsk := new Socket(c, needWakeup, fill, rx, tx, comp, rxPool, txPool, kernel);
  }

  /** Defaults filled in, either the first failing check, or the kernel's refusal, or a socket
      whose rings, frames and flags are each what was asked for, or its default, and whose fill
      ring holds all it can. */
  method NewSocket(o: Option<Options>) returns (err: Option<OpenError>, xsk: Socket?, ghost refused: bool)
    ensures var d := WithDefaults(o);
      && (FirstError(d).Some? ==> err == FirstError(d))
      && (FirstError(d).None? ==>
            err == if refused || exists v :: v in [d.fill, d.rx, d.tx, d.comp] && v >= 0x1_0000_0000
                   then Some(KernelRefuses) else None)
      && (err.None? ==> Acceptable(d)) && (err.None? <==> xsk != null)
    ensures xsk != null ==> fresh(xsk) && xsk.RxValid() && xsk.TxValid() && xsk.RxIdle() && xsk.TxIdle()
    ensures xsk != null ==> var d := WithDefaults(o);
      xsk.c == ConfigOf(d) && Runs(xsk.c, Init(xsk.c), [Action.Fill(d.fill)], xsk.View())
    ensures xsk != null && o.None? ==>
      && xsk.c.numFrames == 8192 && xsk.c.frameSize == 2048 && xsk.c.txFrames == 4096
      && xsk.fillRing.size == xsk.rxRing.size == xsk.txRing.size == xsk.compRing.size == 4096
      && !xsk.c.reuse && !xsk.needWakeup
    ensures xsk != null && o.Some? ==> var v := o.value;
      && xsk.c.numFrames == (if v.numFrames == 0 then 8192 else v.numFrames)
      && xsk.c.frameSize == (if v.frameSize == 0 then 2048 else v.frameSize)
      && xsk.c.txFrames == (if v.txFrames == 0 then xsk.c.numFrames / 2 else v.txFrames)
      && xsk.fillRing.size == (if v.fill == 0 then 4096 else v.fill)
      && xsk.rxRing.size == (if v.rx == 0 then 4096 else v.rx)
      && xsk.txRing.size == (if v.tx == 0 then 4096 else v.tx)
      && xsk.compRing.size == (if v.comp == 0 then 4096 else v.comp)
      && xsk.c.reuse == v.reuse && xsk.needWakeup == v.needWakeup
  {
    hide Ring.Valid; hide IsPow2; hide FrameAddrs; hide Runs; hide Enabled; hide Step; hide FirstError; hide WithDefaults;
    hide Socket.RxValid; hide Socket.TxValid; hide Socket.RxIdle; hide Socket.TxIdle; hide Socket.View; hide Init; hide ConfigOf;
    var d := WithDefaults(o);
    Accepted(d);
    err, xsk, refused := FirstError(d), null, false;
    if err.None? {
      var no: bool := *;
      refused := no;
      TooWideIs(d);
      if no || TooWide(d) {
        return Some(KernelRefuses), null, refused;
      }
      xsk := StartSocket(d);
    }
  }

  /** The socket those options describe, its fill ring filled before anything is bound. */
  method StartSocket(d: Options) returns (xsk: Socket)
    requires Acceptable(d) && d.frameSize != 0 && d.fill != 0 && d.rx != 0 && d.tx != 0 && d.comp != 0 && !TooWide(d)
    ensures fresh(xsk) && xsk.RxValid() && xsk.TxValid() && xsk.RxIdle() && xsk.TxIdle()
    ensures xsk.c == ConfigOf(d) && Runs(xsk.c, Init(xsk.c), [Action.Fill(d.fill)], xsk.View())
    ensures xsk.c.numFrames == d.numFrames && xsk.c.frameSize == d.frameSize && xsk.c.txFrames == d.txFrames
    ensures xsk.fillRing.size == d.fill && xsk.rxRing.size == d.rx
    ensures xsk.txRing.size == d.tx && xsk.compRing.size == d.comp
    ensures xsk.c.reuse == d.reuse && xsk.needWakeup == d.needWakeup
  {
    hide Ring.Valid; hide IsPow2; hide FrameAddrs; hide Runs; hide Enabled; hide Step;
    var c := ConfigOf(d);
    xsk := MakeSocket(c, d.needWakeup);
    PoolSizes(c);
    var m, ks := xsk.Fill(d.fill);
    BeforeBind(c, ks, m, xsk.View());
  }

  lemma PoolSizes(c: Config)
    requires c.Valid()
    ensures |Init(c).rx.pool| == c.RxFrames() && Init(c).rx.fill == []
  {
  }

  lemma FirstStep(c: Config, s: State, xs: seq<Action>, ys: seq<Action>, t: State)
    requires c.Valid() && xs != [] && Runs(c, s, xs + ys, t)
    ensures Enabled(c, s, xs[0])
  {
    assert (xs + ys)[0] == xs[0];
  }

  lemma NothingToTake(c: Config, a: Action)
    requires c.Valid() && (a.KernelTakeFill? || a.KernelDeliver?)
    ensures !Enabled(c, Init(c), a)
  {
  }

  /** Nothing is on any ring yet, so the kernel has no receive step to take before the first Fill. */
  lemma BeforeBind(c: Config, ks: seq<Action>, m: nat, t: State)
    requires c.Valid() && RxKernelSteps(ks) && Runs(c, Init(c), ks + [Action.Fill(m)], t)
    ensures ks == [] && Runs(c, Init(c), [Action.Fill(m)], t)
  {
    hide Enabled; hide Init; hide Runs; hide Step;
    if ks != [] {
      FirstStep(c, Init(c), ks, [Action.Fill(m)], t);
      NothingToTake(c, ks[0]);
      assert false;
    }
    assert [] + [Action.Fill(m)] == [Action.Fill(m)];
  }

  class Socket {
    const c: Config
    const fillRing: Ring<nat>
    const rxRing: Ring<Desc>
    const txRing: Ring<Desc>
    const compRing: Ring<nat>
    const rxPool: FramePool
    const txPool: FramePool
    const kernel: Kernel
    /** Bound with XDP_USE_NEED_WAKEUP. */
    const needWakeup: bool
    var numFilled: int
    var numTransmitted: int

    /** Frames the application holds. */
    ghost var rxApp: multiset<nat>
    ghost var txApp: multiset<nat>

    /** The pools as the protocol sees them: brought up to date when an operation takes effect. */
    ghost var rxFree: seq<nat>
    ghost var txFree: seq<nat>

    ghost predicate Wired() {
      && c.Valid()
      && fillRing != compRing && rxRing != txRing && rxPool != txPool
      && fillRing.descs != compRing.descs && rxRing.descs != txRing.descs
      && fillRing.size == c.fillSize && rxRing.size == c.rxSize
      && txRing.size == c.txSize && compRing.size == c.compSize
    }

    ghost predicate RxValid()
      reads fillRing, fillRing.descs, rxRing, rxRing.descs
    {
      Wired() && fillRing.Valid() && rxRing.Valid() && rxRing.staged == []
    }

    ghost predicate TxValid()
      reads this`txFree, txRing, txRing.descs, compRing, compRing.descs
    {
      Wired() && txRing.Valid() && compRing.Valid() && compRing.staged == [] && Aligned(c, txFree)
    }

    /** Between two calls nothing is half done. */
    ghost predicate RxIdle()
      reads this`rxFree, rxPool, fillRing`staged
    {
      fillRing.staged == [] && rxFree == rxPool.free
    }

    ghost predicate TxIdle()
      reads this`txFree, txPool, txRing`staged
    {
      txRing.staged == [] && txFree == txPool.free
    }

    ghost function RxView(): RxState
      reads this`numFilled, this`rxApp, this`rxFree, kernel`rxHeld, fillRing`queue, rxRing`queue
    {
      RxState(rxFree, fillRing.queue, kernel.rxHeld, rxRing.queue, rxApp, numFilled)
    }

    ghost function TxView(): TxState
      reads this`numTransmitted, this`txApp, this`txFree, kernel`txHeld, txRing`queue, compRing`queue
    {
      TxState(txFree, txApp, txRing.queue, kernel.txHeld, compRing.queue, numTransmitted)
    }

    ghost function View(): State
      reads this`numFilled, this`rxApp, this`rxFree, kernel`rxHeld, kernel`txHeld, fillRing`queue, rxRing`queue
      reads this`numTransmitted, this`txApp, this`txFree, txRing`queue, compRing`queue
    {
      State(RxView(), TxView())
    }

    constructor (c: Config, needWakeup: bool, fill: Ring<nat>, rx: Ring<Desc>, tx: Ring<Desc>, comp: Ring<nat>,
                 rxPool: FramePool, txPool: FramePool, kernel: Kernel)
      requires c.Valid() && fill != comp && rx != tx && rxPool != txPool
      requires fill.descs != comp.descs && rx.descs != tx.descs
      requires fill.Valid() && fill.size == c.fillSize && fill.queue == [] && fill.staged == []
      requires rx.Valid() && rx.size == c.rxSize && rx.queue == [] && rx.staged == []
      requires tx.Valid() && tx.size == c.txSize && tx.queue == [] && tx.staged == []
      requires comp.Valid() && comp.size == c.compSize && comp.queue == [] && comp.staged == []
      requires rxPool.free == FrameAddrs(0, c.RxFrames(), c.frameSize)
      requires txPool.free == FrameAddrs(c.RxFrames(), c.txFrames, c.frameSize)
      requires kernel.rxHeld == kernel.txHeld == multiset{}
      ensures RxValid() && TxValid() && RxIdle() && TxIdle() && this.c == c && View() == Init(c)
      ensures this.needWakeup == needWakeup
      ensures this.fillRing == fill && this.rxRing == rx && this.txRing == tx && this.compRing == comp
      ensures this.rxPool == rxPool && this.txPool == txPool && this.kernel == kernel
    {
      this.c, this.needWakeup := c, needWakeup;
      fillRing, rxRing, txRing, compRing := fill, rx, tx, comp;
      this.rxPool, this.txPool, this.kernel := rxPool, txPool, kernel;
      numFilled, numTransmitted := 0, 0;
      rxApp, txApp := multiset{}, multiset{};
      rxFree, txFree := rxPool.free, txPool.free;
      FramesAligned(c);
    }

    // -------- The kernel, on the receive rings --------

    method KernelTakeFill()
      requires RxValid() && |fillRing.queue| > 0
      modifies fillRing`cons, fillRing`head, fillRing`queue, kernel`rxHeld
      ensures RxValid() && fillRing.queue == old(fillRing.queue)[1..]
      ensures Enabled(c, old(View()), Action.KernelTakeFill) && View() == Step(c, old(View()), Action.KernelTakeFill)
    {
      hide Pow2; hide BitAnd; hide FrameBase; hide Bases; hide BasesOf; hide ToRx; hide ToTx; hide Ring.Valid;
      fillRing.ProducerIs();
      var f := fillRing.ReadSlot(fillRing.cons, 0);
      fillRing.Release(Add32(fillRing.cons, 1), 1);
      kernel.rxHeld := kernel.rxHeld + multiset{f};
    }

    method KernelDeliver(d: Desc)
      requires RxValid() && |rxRing.queue| < c.rxSize && FrameBase(c, d.addr) in kernel.rxHeld
      modifies rxRing`prod, rxRing`tail, rxRing`staged, rxRing`queue, rxRing.descs, kernel`rxHeld
      ensures RxValid() && rxRing.queue == old(rxRing.queue) + [d]
      ensures Enabled(c, old(View()), Action.KernelDeliver(d)) && View() == Step(c, old(View()), Action.KernelDeliver(d))
    {
      hide Pow2; hide BitAnd; hide FrameBase; hide Bases; hide BasesOf; hide ToRx; hide ToTx; hide Ring.Valid;
      rxRing.ProducerIs();
      rxRing.WriteSlot(rxRing.prod, d);
      rxRing.Publish(Add32(rxRing.prod, 1));
      kernel.rxHeld := kernel.rxHeld - multiset{FrameBase(c, d.addr)};
    }

    /** The kernel runs for a while: any number of its receive-side steps, in any order. */
    method RxInterfere(ghost s0: State, ghost ks: seq<Action>) returns (ghost ks': seq<Action>)
      requires RxValid() && RxKernelSteps(ks) && Runs(c, s0, ks, View())
      modifies fillRing`cons, fillRing`head, fillRing`queue, kernel`rxHeld
      modifies rxRing`prod, rxRing`tail, rxRing`staged, rxRing`queue, rxRing.descs
      ensures RxValid() && RxKernelSteps(ks') && Runs(c, s0, ks', View())
      ensures |fillRing.queue| <= |old(fillRing.queue)|
      ensures old(rxRing.queue) <= rxRing.queue
    {
      hide FrameBase; hide Runs; hide Step; hide Enabled; hide Ring.Valid;
      ks' := ks;
      var rounds: nat :| true;
      for i := 0 to rounds
        invariant RxValid() && RxKernelSteps(ks') && Runs(c, s0, ks', View())
        invariant |fillRing.queue| <= |old(fillRing.queue)|
        invariant old(rxRing.queue) <= rxRing.queue
      {
        ghost var v := View();
        if * {
          var n := fillRing.Avail();
          if n > 0 {
            KernelTakeFill();
            RunsThen(c, s0, ks', v, Action.KernelTakeFill);
            ks' := ks' + [Action.KernelTakeFill];
          }
        } else {
          var d: Desc := *;
          var room := rxRing.Free();
          if room > 0 && FrameBase(c, d.addr) in kernel.rxHeld {
            KernelDeliver(d);
            RunsThen(c, s0, ks', v, Action.KernelDeliver(d));
            ks' := ks' + [Action.KernelDeliver(d)];
          }
        }
      }
    }

    // -------- Receive side --------

    method PopFill(k: nat) returns (addrs: seq<nat>)
      requires RxIdle()
      modifies rxPool
      ensures rxPool.free + addrs == rxFree && |addrs| == Min(k, |old(rxPool.free)|)
    {
      addrs := rxPool.Pop(k, []);
      assert addrs[0..] == addrs;
    }

    method StageFill(prod: u32, addr: nat)
      requires RxValid() && |fillRing.queue| + |fillRing.staged| < c.fillSize
      requires prod == (fillRing.tail + |fillRing.staged|) % TWO32
      modifies fillRing`staged, fillRing.descs
      ensures RxValid() && fillRing.staged == old(fillRing.staged) + [addr] && View() == old(View())
    {
      hide Pow2; hide BitAnd; hide Ring.Slot; hide Ring.Valid;
      fillRing.WriteSlot(prod, addr);
    }

    method WriteFillSlot(ghost s0: State, ghost ks: seq<Action>, prod: u32, addr: nat)
      returns (prod': u32, ghost ks': seq<Action>)
      requires RxValid() && RxKernelSteps(ks) && Runs(c, s0, ks, View())
      requires |fillRing.queue| + |fillRing.staged| < c.fillSize
      requires prod == (fillRing.tail + |fillRing.staged|) % TWO32
      modifies fillRing`cons, fillRing`head, fillRing`queue, fillRing`staged, fillRing.descs, kernel`rxHeld
      modifies rxRing`prod, rxRing`tail, rxRing`staged, rxRing`queue, rxRing.descs
      ensures RxValid() && RxKernelSteps(ks') && Runs(c, s0, ks', View())
      ensures fillRing.staged == old(fillRing.staged) + [addr]
      ensures prod' == (fillRing.tail + |fillRing.staged|) % TWO32
      ensures |fillRing.queue| <= |old(fillRing.queue)|
    {
      hide Runs; hide Step; hide Enabled; hide Ring.Valid; hide Socket.View; hide RxKernelSteps;
      StageFill(prod, addr);
      prod' := Add32(prod, 1);
      ks' := RxInterfere(s0, ks);
    }

    /** Writes popped frames into fill slots; the kernel runs meanwhile but cannot see them yet. */
    method WriteFill(ghost s0: State, ghost ks: seq<Action>, addrs: seq<nat>)
      returns (prod: u32, ghost ks': seq<Action>)
      requires RxValid() && RxKernelSteps(ks) && Runs(c, s0, ks, View())
      requires fillRing.staged == [] && |fillRing.queue| + |addrs| <= c.fillSize
      modifies fillRing`cons, fillRing`head, fillRing`queue, fillRing`staged, fillRing.descs, kernel`rxHeld
      modifies rxRing`prod, rxRing`tail, rxRing`staged, rxRing`queue, rxRing.descs
      ensures RxValid() && RxKernelSteps(ks') && Runs(c, s0, ks', View())
      ensures fillRing.staged == addrs && prod == (fillRing.tail + |addrs|) % TWO32
      ensures |fillRing.queue| + |addrs| <= c.fillSize
    {
      hide Runs; hide Step; hide Enabled; hide Ring.Valid; hide Socket.View; hide RxKernelSteps;
      ks' := ks;
      prod := fillRing.prod;
      assert prod == fillRing.tail % TWO32 by { fillRing.ProducerIs(); }
      for i := 0 to |addrs|
        invariant RxValid() && RxKernelSteps(ks') && Runs(c, s0, ks', View())
        invariant fillRing.staged == addrs[..i] && prod == (fillRing.tail + i) % TWO32
        invariant |fillRing.queue| + |addrs| <= c.fillSize
      {
        prod, ks' := WriteFillSlot(s0, ks', prod, addrs[i]);
      }
    }

    method PublishFill(prod: u32, addrs: seq<nat>)
      requires RxValid() && fillRing.staged == addrs && prod == (fillRing.tail + |addrs|) % TWO32
      requires |fillRing.queue| + |addrs| <= c.fillSize && rxPool.free + addrs == rxFree
      modifies this`numFilled, this`rxFree, fillRing`prod, fillRing`tail, fillRing`staged, fillRing`queue
      ensures RxValid() && RxIdle()
      ensures Enabled(c, old(View()), Action.Fill(|addrs|))
      ensures View() == Step(c, old(View()), Action.Fill(|addrs|))
    {
      hide Pow2; hide BitAnd; hide Enabled; hide Step; hide Ring.Slot; hide Ring.Valid;
      ghost var v := View();
      fillRing.Publish(prod);
      numFilled := numFilled + |addrs|;
      rxFree := rxPool.free;
      FillIs(c, v, rxFree, addrs, View());
    }

    lemma NothingToFill()
      requires RxValid()
      ensures Enabled(c, View(), Action.Fill(0)) && Step(c, View(), Action.Fill(0)) == View()
    {
      hide Pow2; hide Enabled; hide Step; hide Ring.Valid;
      fillRing.ProducerIs();
      FillIs(c, View(), rxFree, [], View());
    }

    /** Moves `m` frames from the rx pool to the fill ring: as many as asked for, unless
        the pool runs out or the ring has no more room than it had at the start. */
    method Fill(n: nat) returns (m: nat, ghost ks: seq<Action>)
      requires RxValid() && RxIdle()
      modifies this`numFilled, this`rxFree, rxPool, fillRing, fillRing.descs, kernel`rxHeld
      modifies rxRing`prod, rxRing`tail, rxRing`staged, rxRing`queue, rxRing.descs
      ensures RxValid() && RxIdle() && RxKernelSteps(ks) && Runs(c, old(View()), ks + [Action.Fill(m)], View())
      ensures m == Min(Min(n, |old(rxFree)|), c.fillSize - |old(fillRing.queue)|)
    {
      hide Runs; hide Step; hide Enabled; hide Ring.Valid; hide Socket.View; hide RxKernelSteps;
      ghost var s0 := View();
      NoSteps(c, s0);
      var k := n;
      var free := fillRing.Free();
      if k > free {
        k := free;
      }
      ks := RxInterfere(s0, []);
      var addrs := PopFill(k);
      m := |addrs|;
      if m == 0 {
        NothingToFill();
        RunsThen(c, s0, ks, View(), Action.Fill(0));
        return;
      }
      var prod;
      prod, ks := WriteFill(s0, ks, addrs);
      ghost var v := View();
      PublishFill(prod, addrs);
      RunsThen(c, s0, ks, v, Action.Fill(m));
    }

    method ReadRxSlot(ghost s0: State, ghost ks: seq<Action>, cons: u32, ghost i: nat)
      returns (d: Desc, cons': u32, ghost ks': seq<Action>)
      requires RxValid() && RxKernelSteps(ks) && Runs(c, s0, ks, View())
      requires i < |rxRing.queue| && cons == (rxRing.head + i) % TWO32
      modifies fillRing`cons, fillRing`head, fillRing`queue, kernel`rxHeld
      modifies rxRing`prod, rxRing`tail, rxRing`staged, rxRing`queue, rxRing.descs
      ensures RxValid() && RxKernelSteps(ks') && Runs(c, s0, ks', View())
      ensures old(rxRing.queue) <= rxRing.queue && d == old(rxRing.queue)[i]
      ensures cons' == (rxRing.head + i + 1) % TWO32
    {
      hide Runs; hide Step; hide Enabled; hide Ring.Valid; hide Socket.View; hide RxKernelSteps;
      d := rxRing.ReadSlot(cons, i);
      cons' := Add32(cons, 1);
      ks' := RxInterfere(s0, ks);
    }

    /** Copies descriptors out of rx slots while the kernel goes on delivering. */
    method ReadRx(ghost s0: State, ghost ks: seq<Action>, n: nat)
      returns (descs: seq<Desc>, cons: u32, ghost ks': seq<Action>)
      requires RxValid() && RxKernelSteps(ks) && Runs(c, s0, ks, View()) && n <= |rxRing.queue|
      modifies fillRing`cons, fillRing`head, fillRing`queue, kernel`rxHeld
      modifies rxRing`prod, rxRing`tail, rxRing`staged, rxRing`queue, rxRing.descs
      ensures RxValid() && RxKernelSteps(ks') && Runs(c, s0, ks', View())
      ensures old(rxRing.queue) <= rxRing.queue && descs == rxRing.queue[..n]
      ensures cons == (rxRing.head + n) % TWO32
    {
      hide Runs; hide Step; hide Enabled; hide Ring.Valid; hide Socket.View; hide RxKernelSteps;
      ks' := ks;
      descs := [];
      cons := rxRing.cons;
      assert cons == rxRing.head % TWO32 by { rxRing.ProducerIs(); }
      for i := 0 to n
        invariant RxValid() && RxKernelSteps(ks') && Runs(c, s0, ks', View())
        invariant old(rxRing.queue) <= rxRing.queue && descs == rxRing.queue[..i]
        invariant cons == (rxRing.head + i) % TWO32
      {
        var d;
        d, cons, ks' := ReadRxSlot(s0, ks', cons, i);
        descs := descs + [d];
      }
    }

    method ReleaseRx(cons: u32, n: nat)
      requires RxValid() && n <= |rxRing.queue| && cons == (rxRing.head + n) % TWO32
      modifies this`numFilled, this`rxApp, rxRing`cons, rxRing`head, rxRing`queue
      ensures RxValid() && rxRing.queue == old(rxRing.queue)[n..]
      ensures Enabled(c, old(View()), Action.Receive(n))
      ensures View() == Step(c, old(View()), Action.Receive(n))
    {
      hide Pow2; hide BitAnd; hide Enabled; hide Step; hide Ring.Slot; hide Ring.Valid; hide Bases;
      ghost var v := View();
      rxRing.Release(cons, n);
      numFilled := numFilled - n;
      rxApp := rxApp + multiset(Bases(c, v.rx.ring[..n]));
      ReceiveIs(c, v, n, View());
    }

    /** The next descriptors in delivery order: as many as asked for, or all there were. */
    method Receive(max: nat) returns (descs: seq<Desc>, ghost ks: seq<Action>)
      requires RxValid()
      modifies this`numFilled, this`rxApp, fillRing`cons, fillRing`head, fillRing`queue, kernel`rxHeld
      modifies rxRing, rxRing.descs
      ensures RxValid() && RxKernelSteps(ks)
      ensures Runs(c, old(View()), ks + [Action.Receive(|descs|)], View())
      ensures |descs| == Min(max, |old(rxRing.queue)|) && descs == old(rxRing.queue)[..|descs|]
      ensures old(rxRing.queue)[|descs|..] <= rxRing.queue
    {
      hide Runs; hide Step; hide Enabled; hide Ring.Valid; hide Socket.View; hide RxKernelSteps;
      ghost var s0 := View();
      NoSteps(c, s0);
      var n := max;
      var avail := rxRing.Avail();
      if n > avail {
        n := avail;
      }
      ks := RxInterfere(s0, []);
      var cons;
      descs, cons, ks := ReadRx(s0, ks, n);
      ghost var v := View();
      ReleaseRx(cons, n);
      RunsThen(c, s0, ks, v, Action.Receive(n));
    }

    method PushBases(pool: FramePool, descs: seq<Desc>)
      requires c.Valid()
      modifies pool
      ensures pool.free == old(pool.free) + Bases(c, descs)
    {
      hide FrameBase;
      for i := 0 to |descs|
        invariant pool.free == old(pool.free) + Bases(c, descs)[..i]
      {
        pool.Push(FrameBase(c, descs[i].addr));
      }
    }

    /** Returns received frames to the pool, in order. */
    method Recycle(descs: seq<Desc>)
      requires RxValid() && RxIdle() && multiset(Bases(c, descs)) <= rxApp
      modifies this`rxApp, this`rxFree, rxPool
      ensures RxIdle() && Enabled(c, old(View()), Action.Recycle(descs))
      ensures View() == Step(c, old(View()), Action.Recycle(descs))
    {
      hide Enabled; hide Step; hide Ring.Valid; hide Bases;
      ghost var v := View();
      PushBases(rxPool, descs);
      rxApp := rxApp - multiset(Bases(c, descs));
      rxFree := rxPool.free;
      RecycleIs(c, v, descs, View());
    }

    // -------- The kernel, on the transmit rings --------

    method KernelTakeTx()
      requires TxValid() && |txRing.queue| > 0
      modifies txRing`cons, txRing`head, txRing`queue, kernel`txHeld
      ensures TxValid() && txRing.queue == old(txRing.queue)[1..]
      ensures Enabled(c, old(View()), Action.KernelTakeTx) && View() == Step(c, old(View()), Action.KernelTakeTx)
    {
      hide Pow2; hide BitAnd; hide FrameBase; hide Bases; hide BasesOf; hide ToRx; hide ToTx; hide Ring.Valid;
      txRing.ProducerIs();
      var d := txRing.ReadSlot(txRing.cons, 0);
      txRing.Release(Add32(txRing.cons, 1), 1);
      kernel.txHeld := kernel.txHeld + multiset{FrameBase(c, d.addr)};
    }

    method KernelComplete(addr: nat)
      requires TxValid() && |compRing.queue| < c.compSize && FrameBase(c, addr) in kernel.txHeld
      modifies compRing`prod, compRing`tail, compRing`staged, compRing`queue, compRing.descs, kernel`txHeld
      ensures TxValid() && compRing.queue == old(compRing.queue) + [addr]
      ensures Enabled(c, old(View()), Action.KernelComplete(addr))
      ensures View() == Step(c, old(View()), Action.KernelComplete(addr))
    {
      hide Pow2; hide BitAnd; hide FrameBase; hide Bases; hide BasesOf; hide ToRx; hide ToTx; hide Ring.Valid;
      compRing.ProducerIs();
      compRing.WriteSlot(compRing.prod, addr);
      compRing.Publish(Add32(compRing.prod, 1));
      kernel.txHeld := kernel.txHeld - multiset{FrameBase(c, addr)};
    }

    /** The kernel runs for a while: any number of its transmit-side steps, in any order. */
    method TxInterfere(ghost s0: State, ghost ks: seq<Action>) returns (ghost ks': seq<Action>)
      requires TxValid() && TxKernelSteps(ks) && Runs(c, s0, ks, View())
      modifies txRing`cons, txRing`head, txRing`queue, kernel`txHeld
      modifies compRing`prod, compRing`tail, compRing`staged, compRing`queue, compRing.descs
      ensures TxValid() && TxKernelSteps(ks') && Runs(c, s0, ks', View())
      ensures |txRing.queue| <= |old(txRing.queue)|
      ensures old(compRing.queue) <= compRing.queue
    {
      hide FrameBase; hide Runs; hide Step; hide Enabled; hide Ring.Valid;
      ks' := ks;
      var rounds: nat :| true;
      for i := 0 to rounds
        invariant TxValid() && TxKernelSteps(ks') && Runs(c, s0, ks', View())
        invariant |txRing.queue| <= |old(txRing.queue)|
        invariant old(compRing.queue) <= compRing.queue
      {
        ghost var v := View();
        if * {
          var n := txRing.Avail();
          if n > 0 {
            KernelTakeTx();
            RunsThen(c, s0, ks', v, Action.KernelTakeTx);
            ks' := ks' + [Action.KernelTakeTx];
          }
        } else {
          var addr: nat :| true;
          var room := compRing.Free();
          if room > 0 && FrameBase(c, addr) in kernel.txHeld {
            KernelComplete(addr);
            RunsThen(c, s0, ks', v, Action.KernelComplete(addr));
            ks' := ks' + [Action.KernelComplete(addr)];
          }
        }
      }
    }

    // -------- Transmit side --------

    /** `m` frames leave the tx pool, last pushed first out, as descriptors of full frames. */
    method Alloc(n: nat) returns (descs: seq<Desc>, ghost ks: seq<Action>)
      requires TxValid() && TxIdle()
      modifies this`txApp, this`txFree, txPool, txRing`cons, txRing`head, txRing`queue, kernel`txHeld
      modifies compRing`prod, compRing`tail, compRing`staged, compRing`queue, compRing.descs
      ensures TxValid() && TxIdle() && TxKernelSteps(ks)
      ensures Runs(c, old(View()), ks + [Action.Alloc(|descs|)], View())
      ensures |descs| == Min(Min(n, |old(txFree)|), c.txSize - |old(txRing.queue)|)
      ensures |txRing.queue| <= |old(txRing.queue)|
      ensures txFree + Bases(c, descs) == old(txFree) && txApp == old(txApp) + multiset(Bases(c, descs))
      ensures forall i :: 0 <= i < |descs| ==> descs[i] == Desc(Bases(c, descs)[i], c.frameSize, false)
    {
      hide Runs; hide Step; hide Enabled; hide Ring.Valid; hide Socket.View; hide TxKernelSteps; hide FrameBase;
      ghost var s0 := View();
      NoSteps(c, s0);
      var k := n;
      var free := txRing.Free();
      if k > free {
        k := free;
      }
      ks := TxInterfere(s0, []);
      var addrs := txPool.Pop(k, []);
      assert addrs[0..] == addrs;
      descs := [];
      for i := 0 to |addrs|
        invariant |descs| == i && forall j :: 0 <= j < i ==> descs[j] == Desc(addrs[j], c.frameSize, false)
      {
        descs := descs + [Desc(addrs[i], c.frameSize, false)];
      }
      AddrsAreBases(addrs, descs);
      ghost var v := View();
      TakeFrames(addrs);
      RunsThen(c, s0, ks, v, Action.Alloc(|descs|));
    }

    ghost method TakeFrames(addrs: seq<nat>)
      requires TxValid() && txPool.free + addrs == txFree
      modifies this`txApp, this`txFree
      ensures TxValid() && txFree == txPool.free && txApp == old(txApp) + multiset(addrs)
      ensures Enabled(c, old(View()), Action.Alloc(|addrs|))
      ensures View() == Step(c, old(View()), Action.Alloc(|addrs|))
    {
      hide Enabled; hide Step; hide Ring.Valid;
      ghost var v := View();
      assert forall a :: a in txPool.free ==> a in txPool.free + addrs;
      txApp := txApp + multiset(addrs);
      txFree := txPool.free;
      AllocIs(c, v, txFree, addrs, View());
    }

    lemma AddrsAreBases(addrs: seq<nat>, descs: seq<Desc>)
      requires TxValid() && txPool.free + addrs == txFree && |descs| == |addrs|
      requires forall j :: 0 <= j < |addrs| ==> descs[j].addr == addrs[j]
      ensures Bases(c, descs) == addrs
    {
      hide Ring.Valid;
      forall j | 0 <= j < |addrs| ensures Bases(c, descs)[j] == addrs[j] {
        assert addrs[j] in txPool.free + addrs;
      }
    }

    method StageTx(prod: u32, d: Desc)
      requires TxValid() && |txRing.queue| + |txRing.staged| < c.txSize
      requires prod == (txRing.tail + |txRing.staged|) % TWO32
      modifies txRing`staged, txRing.descs
      ensures TxValid() && txRing.staged == old(txRing.staged) + [d] && View() == old(View())
    {
      hide Pow2; hide BitAnd; hide Ring.Slot; hide Ring.Valid;
      txRing.WriteSlot(prod, d);
    }

    method WriteTxSlot(ghost s0: State, ghost ks: seq<Action>, prod: u32, d: Desc)
      returns (prod': u32, ghost ks': seq<Action>)
      requires TxValid() && TxKernelSteps(ks) && Runs(c, s0, ks, View())
      requires |txRing.queue| + |txRing.staged| < c.txSize
      requires prod == (txRing.tail + |txRing.staged|) % TWO32
      modifies txRing`cons, txRing`head, txRing`queue, txRing`staged, txRing.descs, kernel`txHeld
      modifies compRing`prod, compRing`tail, compRing`staged, compRing`queue, compRing.descs
      ensures TxValid() && TxKernelSteps(ks') && Runs(c, s0, ks', View())
      ensures txRing.staged == old(txRing.staged) + [d]
      ensures prod' == (txRing.tail + |txRing.staged|) % TWO32
      ensures |txRing.queue| <= |old(txRing.queue)|
    {
      hide Runs; hide Step; hide Enabled; hide Ring.Valid; hide Socket.View; hide TxKernelSteps;
      StageTx(prod, d);
      prod' := Add32(prod, 1);
      ks' := TxInterfere(s0, ks);
    }

    method WriteTx(ghost s0: State, ghost ks: seq<Action>, descs: seq<Desc>)
      returns (prod: u32, ghost ks': seq<Action>)
      requires TxValid() && TxKernelSteps(ks) && Runs(c, s0, ks, View())
      requires txRing.staged == [] && |txRing.queue| + |descs| <= c.txSize
      modifies txRing`cons, txRing`head, txRing`queue, txRing`staged, txRing.descs, kernel`txHeld
      modifies compRing`prod, compRing`tail, compRing`staged, compRing`queue, compRing.descs
      ensures TxValid() && TxKernelSteps(ks') && Runs(c, s0, ks', View())
      ensures txRing.staged == descs && prod == (txRing.tail + |descs|) % TWO32
      ensures |txRing.queue| + |descs| <= c.txSize
    {
      hide Runs; hide Step; hide Enabled; hide Ring.Valid; hide Socket.View; hide TxKernelSteps;
      ks' := ks;
      prod := txRing.prod;
      assert prod == txRing.tail % TWO32 by { txRing.ProducerIs(); }
      for i := 0 to |descs|
        invariant TxValid() && TxKernelSteps(ks') && Runs(c, s0, ks', View())
        invariant txRing.staged == descs[..i] && prod == (txRing.tail + i) % TWO32
        invariant |txRing.queue| + |descs| <= c.txSize
      {
        prod, ks' := WriteTxSlot(s0, ks', prod, descs[i]);
      }
    }

    method PublishTx(prod: u32, descs: seq<Desc>)
      requires TxValid() && txRing.staged == descs && prod == (txRing.tail + |descs|) % TWO32
      requires |txRing.queue| + |descs| <= c.txSize && multiset(Bases(c, descs)) <= Outgoing()
      modifies this`numTransmitted, this`txApp, txRing`prod, txRing`tail, txRing`staged, txRing`queue
      modifies (if c.reuse then {this} else {})`rxApp
      ensures TxValid() && txRing.staged == []
      ensures txApp == old(txApp) - multiset(Bases(c, descs)) && numTransmitted == old(numTransmitted) + |descs|
      ensures Enabled(c, old(View()), Action.Transmit(descs))
      ensures View() == Step(c, old(View()), Action.Transmit(descs))
    {
      hide Aligned; hide Pow2; hide BitAnd; hide Enabled; hide Step; hide Ring.Slot; hide Ring.Valid; hide Bases;
      ghost var v := View();
      txRing.Publish(prod);
      assert TxValid();
      numTransmitted := numTransmitted + |descs|;
      txApp := txApp - multiset(Bases(c, descs));
      if c.reuse {
        rxApp := rxApp - multiset(Bases(c, descs));
      }
      TransmitIs(c, v, descs, View());
    }

    /** The frames the application may hand to Transmit. */
    ghost function Outgoing(): multiset<nat>
      reads this`rxApp, this`txApp
    {
      if c.reuse then rxApp + txApp else txApp
    }

    /** kickNeeded and Kick: without need-wakeup every send kicks; with it exactly when the flag
        read from the tx ring says that the driver has parked. */
    method Wake(ghost s0: State, ghost ks: seq<Action>) returns (kicked: bool, ghost parked: bool, ghost ks': seq<Action>)
      requires TxValid() && TxKernelSteps(ks) && Runs(c, s0, ks, View())
      modifies txRing`cons, txRing`head, txRing`queue, kernel`txHeld, kernel`flags
      modifies compRing`prod, compRing`tail, compRing`staged, compRing`queue, compRing.descs
      ensures TxValid() && TxKernelSteps(ks') && Runs(c, s0, ks', View())
      ensures (kicked <==> !needWakeup || parked) && (!kicked ==> ks' == ks)
      ensures kernel.flags == old(kernel.flags) + if needWakeup then [parked] else []
    {
      kicked, parked := true, false;
      if needWakeup {
        kicked := kernel.NeedsWakeupTx();
        parked := kicked;
      }
      ks' := ks;
      if kicked {
        ks' := TxInterfere(s0, ks);
      }
    }

    /** Makes the written descriptors visible and kicks, unless there are none. */
    method PublishAndWake(ghost s0: State, ghost ks: seq<Action>, prod: u32, batch: seq<Desc>)
      returns (kicked: bool, ghost parked: bool, ghost ks': seq<Action>)
      requires TxValid() && txRing.staged == batch && prod == (txRing.tail + |batch|) % TWO32
      requires |txRing.queue| + |batch| <= c.txSize && multiset(Bases(c, batch)) <= Outgoing() && Runs(c, s0, ks, View())
      modifies this`numTransmitted, this`txApp, txRing, kernel`txHeld, kernel`flags
      modifies compRing`prod, compRing`tail, compRing`staged, compRing`queue, compRing.descs
      modifies (if c.reuse then {this} else {})`rxApp
      ensures TxValid() && txRing.staged == [] && TxKernelSteps(ks')
      ensures Runs(c, s0, ks + [Action.Transmit(batch)] + ks', View())
      ensures txApp == old(txApp) - multiset(Bases(c, batch)) && numTransmitted == old(numTransmitted) + |batch|
      ensures kicked <==> batch != [] && (!needWakeup || parked)
      ensures kernel.flags == old(kernel.flags) + if needWakeup && batch != [] then [parked] else []
    {
      hide Runs; hide Step; hide Enabled; hide Ring.Valid; hide Socket.View; hide TxKernelSteps; hide Bases;
      ghost var v := View();
      PublishTx(prod, batch);
      ghost var mid := View();
      RunsThen(c, s0, ks, v, Action.Transmit(batch));
      NoSteps(c, mid);
      kicked, parked, ks' := false, false, [];
      if batch != [] {
        kicked, parked, ks' := Wake(mid, []);
      }
      RunsAppend(c, s0, ks + [Action.Transmit(batch)], mid, ks', View());
    }

    /** Queues the longest prefix that fits; the kernel owns those frames from then on. It is
        kicked exactly when something was queued and the driver does not say it is awake. */
    method Transmit(descs: seq<Desc>)
      returns (sent: nat, kicked: bool, ghost parked: bool, ghost ks: seq<Action>, ghost ks': seq<Action>)
      requires TxValid() && txRing.staged == [] && multiset(Bases(c, descs)) <= Outgoing()
      modifies this`numTransmitted, this`txApp, txRing, txRing.descs, kernel`txHeld, kernel`flags
      modifies compRing`prod, compRing`tail, compRing`staged, compRing`queue, compRing.descs
      modifies (if c.reuse then {this} else {})`rxApp
      ensures TxValid() && txRing.staged == [] && TxKernelSteps(ks) && TxKernelSteps(ks')
      ensures sent == Min(|descs|, c.txSize - |old(txRing.queue)|)
      ensures Runs(c, old(View()), ks + [Action.Transmit(descs[..sent])] + ks', View())
      ensures txApp == old(txApp) - multiset(Bases(c, descs[..sent])) && numTransmitted == old(numTransmitted) + sent
      ensures kicked <==> sent > 0 && (!needWakeup || parked)
      ensures kernel.flags == old(kernel.flags) + if needWakeup && sent > 0 then [parked] else []
    {
      hide Runs; hide Step; hide Enabled; hide Ring.Valid; hide Socket.View; hide TxKernelSteps; hide Bases;
      ghost var s0 := View();
      NoSteps(c, s0);
      var free := txRing.Free();
      sent := |descs|;
      if sent > free {
        sent := free;
      }
      var batch := descs[..sent];
      PrefixBases(c, descs, sent);
      ks := TxInterfere(s0, []);
      var prod;
      prod, ks := WriteTx(s0, ks, batch);
      kicked, parked, ks' := PublishAndWake(s0, ks, prod, batch);
    }

    method ReclaimSlot(ghost s0: State, ghost ks: seq<Action>, cons: u32, ghost i: nat)
      returns (cons': u32, ghost ks': seq<Action>)
      requires TxValid() && TxKernelSteps(ks) && Runs(c, s0, ks, View())
      requires i < |compRing.queue| && cons == (compRing.head + i) % TWO32
      modifies txRing`cons, txRing`head, txRing`queue, kernel`txHeld, txPool, if c.reuse then {rxPool} else {}
      modifies compRing`prod, compRing`tail, compRing`staged, compRing`queue, compRing.descs
      ensures TxValid() && TxKernelSteps(ks') && Runs(c, s0, ks', View())
      ensures old(compRing.queue) <= compRing.queue && cons' == (compRing.head + i + 1) % TWO32
      ensures var f := FrameBase(c, old(compRing.queue)[i]); var home := c.reuse && f < c.TxStart();
        && txPool.free == old(txPool.free) + (if home then [] else [f])
        && rxPool.free == old(rxPool.free) + (if home then [f] else [])
    {
      hide Runs; hide Step; hide Enabled; hide Ring.Valid; hide Socket.View; hide TxKernelSteps; hide FrameBase;
      var addr := compRing.ReadSlot(cons, i);
      cons' := Add32(cons, 1);
      var base := FrameBase(c, addr);
      if c.reuse && base < c.TxStart() {
        rxPool.Push(base);
      } else {
        txPool.Push(base);
      }
      ks' := TxInterfere(s0, ks);
    }

    /** Reads `n` completions, pushing each frame to the pool it belongs to. */
    method ReadComp(ghost s0: State, ghost ks: seq<Action>, n: nat)
      returns (cons: u32, ghost ks': seq<Action>)
      requires TxValid() && TxKernelSteps(ks) && Runs(c, s0, ks, View()) && n <= |compRing.queue|
      modifies txRing`cons, txRing`head, txRing`queue, kernel`txHeld, txPool, if c.reuse then {rxPool} else {}
      modifies compRing`prod, compRing`tail, compRing`staged, compRing`queue, compRing.descs
      ensures TxValid() && TxKernelSteps(ks') && Runs(c, s0, ks', View())
      ensures old(compRing.queue) <= compRing.queue && cons == (compRing.head + n) % TWO32
      ensures txPool.free == old(txPool.free) + ToTx(c, compRing.queue[..n])
      ensures rxPool.free == old(rxPool.free) + ToRx(c, compRing.queue[..n])
    {
      hide Runs; hide Step; hide Enabled; hide Ring.Valid; hide Socket.View; hide TxKernelSteps;
      hide FrameBase; hide ToRx; hide ToTx;
      ks' := ks;
      cons := compRing.cons;
      assert cons == compRing.head % TWO32 by { compRing.ProducerIs(); }
      assert compRing.queue[..0] == [] && ToTx(c, []) == [] && ToRx(c, []) == [] by { NothingRouted(c); }
      for i := 0 to n
        invariant TxValid() && TxKernelSteps(ks') && Runs(c, s0, ks', View())
        invariant old(compRing.queue) <= compRing.queue && cons == (compRing.head + i) % TWO32
        invariant txPool.free == old(txPool.free) + ToTx(c, compRing.queue[..i])
        invariant rxPool.free == old(rxPool.free) + ToRx(c, compRing.queue[..i])
      {
        ghost var q := compRing.queue;
        cons, ks' := ReclaimSlot(s0, ks', cons, i);
        RoutingSnoc(c, q[..i], q[i]);
        assert q[..i + 1] == q[..i] + [q[i]] && compRing.queue[..i + 1] == q[..i + 1];
      }
    }

    method ReleaseComp(cons: u32, n: nat)
      requires TxValid() && n <= |compRing.queue| && cons == (compRing.head + n) % TWO32
      requires txPool.free == txFree + ToTx(c, compRing.queue[..n])
      requires rxPool.free == rxFree + ToRx(c, compRing.queue[..n])
      modifies this`numTransmitted, this`txFree, compRing`cons, compRing`head, compRing`queue
      modifies (if c.reuse then {this} else {})`rxFree
      ensures TxValid() && txFree == txPool.free && rxFree == rxPool.free
      ensures Enabled(c, old(View()), Action.Complete(n))
      ensures View() == Step(c, old(View()), Action.Complete(n))
    {
      hide Pow2; hide BitAnd; hide Enabled; hide Step; hide Ring.Slot; hide Ring.Valid; hide ToTx;
      ghost var v := View();
      RoutingAligned(c, compRing.queue[..n]);
      compRing.Release(cons, n);
      numTransmitted := numTransmitted - n;
      txFree := txPool.free;
      if c.reuse {
        rxFree := rxPool.free;
      }
      CompleteIs(c, v, n, View());
    }

    /** Reclaims the oldest completions: as many as asked for, or all there were. */
    method Complete(n: nat) returns (m: nat, ghost ks: seq<Action>)
      requires TxValid() && TxIdle() && rxFree == rxPool.free
      modifies this`numTransmitted, this`txFree, txRing`cons, txRing`head, txRing`queue, kernel`txHeld
      modifies compRing, compRing.descs, txPool
      modifies (if c.reuse then {this} else {})`rxFree, if c.reuse then {rxPool} else {}
      ensures TxValid() && TxIdle() && rxFree == rxPool.free && TxKernelSteps(ks)
      ensures m == Min(n, |old(compRing.queue)|)
      ensures Runs(c, old(View()), ks + [Action.Complete(m)], View())
    {
      hide ToRx; hide ToTx; hide Aligned; hide Socket.TxView; hide Runs; hide Step; hide Enabled; hide Ring.Valid; hide Socket.View; hide TxKernelSteps;
      ghost var s0 := View();
      NoSteps(c, s0);
      m := n;
      var avail := compRing.Avail();
      if m > avail {
        m := avail;
      }
      ks := TxInterfere(s0, []);
      ks := TakeComp(s0, ks, m);
    }

    /** Reads and releases completions that are there. */
    method TakeComp(ghost s0: State, ghost ks0: seq<Action>, m: nat) returns (ghost ks: seq<Action>)
      requires TxValid() && TxIdle() && rxFree == rxPool.free && TxKernelSteps(ks0) && Runs(c, s0, ks0, View())
      requires m <= |compRing.queue|
      modifies this`numTransmitted, this`txFree, txRing`cons, txRing`head, txRing`queue, kernel`txHeld
      modifies compRing, compRing.descs, txPool
      modifies (if c.reuse then {this} else {})`rxFree, if c.reuse then {rxPool} else {}
      ensures TxValid() && TxIdle() && rxFree == rxPool.free && TxKernelSteps(ks)
      ensures Runs(c, s0, ks + [Action.Complete(m)], View())
    {
      hide ToRx; hide ToTx; hide Aligned; hide Socket.TxView; hide Runs; hide Step; hide Enabled; hide Ring.Valid; hide Socket.View; hide TxKernelSteps;
      var cons;
      cons, ks := ReadComp(s0, ks0, m);
      ghost var v := View();
      ReleaseComp(cons, m);
      RunsThen(c, s0, ks, v, Action.Complete(m));
    }

    /** Hands allocated frames back unsent. */
    method GiveBack(descs: seq<Desc>)
      requires TxValid() && TxIdle() && multiset(Bases(c, descs)) <= txApp
      modifies this`txApp, this`txFree, txPool
      ensures TxValid() && TxIdle()
      ensures txApp == old(txApp) - multiset(Bases(c, descs)) && txFree == old(txFree) + Bases(c, descs)
      ensures Enabled(c, old(View()), Action.GiveBack(Bases(c, descs)))
      ensures View() == Step(c, old(View()), Action.GiveBack(Bases(c, descs)))
    {
      hide Enabled; hide Step; hide Ring.Valid; hide Bases; hide Aligned;
      ghost var v := View();
      PushBases(txPool, descs);
      TakeBack(descs);
      GiveBackIs(c, v, Bases(c, descs), View());
    }

    ghost method TakeBack(descs: seq<Desc>)
      requires TxValid() && multiset(Bases(c, descs)) <= txApp && txPool.free == txFree + Bases(c, descs)
      modifies this`txApp, this`txFree
      ensures TxValid() && txFree == txPool.free && txFree == old(txFree) + Bases(c, descs)
      ensures txApp == old(txApp) - multiset(Bases(c, descs))
    {
      hide Ring.Valid; hide Bases; hide Aligned;
      BasesAligned(c, descs);
      AlignedConcat(c, txFree, Bases(c, descs));
      txApp := txApp - multiset(Bases(c, descs));
      txFree := txPool.free;
    }

    method SendBuilt(ghost s0: State, ghost acts: seq<Action>, built: seq<Desc>)
      returns (r: SendResult, ghost parked: bool, ghost acts': seq<Action>)
      requires TxValid() && txRing.staged == [] && |built| <= c.txSize - |txRing.queue|
      requires multiset(Bases(c, built)) <= txApp && Runs(c, s0, acts, View())
      modifies this`txApp, this`numTransmitted, txRing, txRing.descs, kernel`txHeld, kernel`flags
      modifies compRing`prod, compRing`tail, compRing`staged, compRing`queue, compRing.descs
      modifies (if c.reuse then {this} else {})`rxApp
      ensures TxValid() && txRing.staged == [] && Runs(c, s0, acts', View())
      ensures txApp == old(txApp) - multiset(Bases(c, built)) && numTransmitted == old(numTransmitted) + |built|
      ensures Action.Transmit(built) in acts'
      ensures r == Sent(|built|, |built| > 0 && (!needWakeup || parked))
      ensures kernel.flags == old(kernel.flags) + if needWakeup && r.Asks() then [parked] else []
    {
      hide Runs; hide Step; hide Enabled; hide Ring.Valid; hide Socket.View; hide TxKernelSteps; hide Bases;
      ghost var v := View();
      var sent, kicked, flag, k1, k2 := Transmit(built);
      parked := flag;
      assert built[..sent] == built;
      RunsAppend(c, s0, acts, v, k1 + [Action.Transmit(built)] + k2, View());
      acts' := acts + (k1 + [Action.Transmit(built)] + k2);
      r := Sent(sent, kicked);
    }

    method Abandon(ghost s0: State, ghost acts: seq<Action>, descs: seq<Desc>) returns (ghost acts': seq<Action>)
      requires TxValid() && TxIdle() && multiset(Bases(c, descs)) <= txApp && Runs(c, s0, acts, View())
      modifies this`txApp, this`txFree, txPool
      ensures TxValid() && TxIdle() && Runs(c, s0, acts', View())
      ensures txApp == old(txApp) - multiset(Bases(c, descs)) && txFree == old(txFree) + Bases(c, descs)
    {
      hide Runs; hide Step; hide Enabled; hide Ring.Valid; hide Socket.View; hide Bases; hide Aligned;
      ghost var v := View();
      GiveBack(descs);
      RunsThen(c, s0, acts, v, Action.GiveBack(Bases(c, descs)));
      acts' := acts + [Action.GiveBack(Bases(c, descs))];
    }

    /** SendFunc's second half, once the ring has room: allocate, build, queue. */
    method BuildAndSend(umem: array<byte>, count: nat, free: nat, build: int -> int, fill: (int, seq<byte>) -> seq<byte>)
      returns (r: SendResult, ghost parked: bool, ghost post: seq<Action>, ghost batch: seq<Desc>)
      requires TxValid() && TxIdle() && free == c.txSize - |txRing.queue|
      requires Inv(c, View()) && umem.Length == c.numFrames * c.frameSize
      modifies umem, this`txApp, this`txFree, this`numTransmitted, txPool, txRing, txRing.descs
      modifies kernel`txHeld, kernel`flags
      modifies compRing`prod, compRing`tail, compRing`staged, compRing`queue, compRing.descs
      modifies (if c.reuse then {this} else {})`rxApp
      ensures TxValid() && TxIdle() && Runs(c, old(View()), post, View())
      ensures SendOutcome(c, needWakeup, parked, count, build, old(TxView()), r, TxView(), batch)
      ensures kernel.flags == old(kernel.flags) + if needWakeup && r.Asks() then [parked] else []
      ensures BytesOutcome(c.frameSize, old(umem[..]), umem[..], old(txFree), fill, r, batch)
      ensures r.Sent? ==> Action.Transmit(batch) in post
    {
      hide Runs; hide Step; hide Enabled; hide Ring.Valid; hide Socket.View; hide Bases; hide SendOutcome; hide Aligned;
      hide Inv; hide Slots; hide BytesOutcome;
      ghost var s0, before := View(), TxView();
      PoolSeen();
      var descs, ks := Alloc(Min(count, free));
      TakenSlots(c, s0, txFree, descs, umem.Length);
      InPool(c, txFree, descs, before.pool);
      r, parked, post, batch := FillAndSend(umem, s0, ks + [Action.Alloc(|descs|)], before, count, descs, build, fill);
    }

    lemma PoolSeen()
      ensures View().tx.pool == txFree && TxView().pool == txFree
    {
    }

    /** With the frames in hand: build every packet, then queue them or hand them back. */
    method FillAndSend(umem: array<byte>, ghost s0: State, ghost acts: seq<Action>, ghost before: TxState, count: nat,
                       descs: seq<Desc>, build: int -> int, fill: (int, seq<byte>) -> seq<byte>)
      returns (r: SendResult, ghost parked: bool, ghost post: seq<Action>, ghost batch: seq<Desc>)
      requires TxValid() && TxIdle() && Runs(c, s0, acts, View()) && |descs| <= c.txSize - |txRing.queue|
      requires |before.ring| <= c.txSize && |descs| == Min(Min(count, |before.pool|), c.txSize - |before.ring|)
      requires txFree + Bases(c, descs) == before.pool && txApp == before.app + multiset(Bases(c, descs))
      requires numTransmitted == before.numTransmitted && Slots(c.frameSize, umem.Length, descs)
      requires forall j :: 0 <= j < |descs| ==> descs[j].addr in before.pool && !descs[j].contd
      modifies umem, this`txApp, this`txFree, this`numTransmitted, txPool, txRing, txRing.descs
      modifies kernel`txHeld, kernel`flags
      modifies compRing`prod, compRing`tail, compRing`staged, compRing`queue, compRing.descs
      modifies (if c.reuse then {this} else {})`rxApp
      ensures TxValid() && TxIdle() && Runs(c, s0, post, View())
      ensures SendOutcome(c, needWakeup, parked, count, build, before, r, TxView(), batch)
      ensures kernel.flags == old(kernel.flags) + if needWakeup && r.Asks() then [parked] else []
      ensures BytesOutcome(c.frameSize, old(umem[..]), umem[..], before.pool, fill, r, batch)
      ensures r.Sent? ==> Action.Transmit(batch) in post
    {
      hide Built; hide Runs; hide Step; hide Enabled; hide Ring.Valid; hide Socket.View; hide Bases; hide SendOutcome; hide Aligned;
      hide ValidLength; hide Slots; hide Painted; hide Untouched; hide BytesOutcome;
      ghost var u := umem[..];
      var built, bad := BuildFrames(c, umem, descs, build, fill);
      ghost var v := umem[..];
      if bad >= 0 {
        AbandonedBytes(c.frameSize, u, v, before.pool, fill, bad, descs);
        r, parked, batch := BadLength(bad), false, [];
        post := DropFrames(s0, acts, before, count, descs, build, bad, parked);
      } else {
        batch := built;
        r, parked, post := SendFilled(s0, acts, before, count, descs, build, built);
        SentBytes(c.frameSize, u, v, before.pool, fill, r.n, r.kicked, descs, built);
      }
    }

    /** Hands every frame back after a bad length. */
    method DropFrames(ghost s0: State, ghost acts: seq<Action>, ghost before: TxState, ghost count: nat, descs: seq<Desc>,
                      ghost build: int -> int, ghost bad: nat, ghost parked: bool)
      returns (ghost post: seq<Action>)
      requires TxValid() && TxIdle() && Runs(c, s0, acts, View())
      requires |before.ring| <= c.txSize && |descs| == Min(Min(count, |before.pool|), c.txSize - |before.ring|)
      requires txFree + Bases(c, descs) == before.pool && txApp == before.app + multiset(Bases(c, descs))
      requires numTransmitted == before.numTransmitted && bad < |descs|
      requires !ValidLength(c, build(bad)) && forall j :: 0 <= j < bad ==> ValidLength(c, build(j))
      modifies this`txApp, this`txFree, txPool
      ensures TxValid() && TxIdle() && Runs(c, s0, post, View())
      ensures SendOutcome(c, needWakeup, parked, count, build, before, BadLength(bad), TxView(), [])
    {
      hide Runs; hide Step; hide Enabled; hide Ring.Valid; hide Socket.View; hide Bases; hide SendOutcome; hide Aligned;
      hide ValidLength;
      post := Abandon(s0, acts, descs);
      BadOutcome(c, needWakeup, parked, count, build, before, bad, TxView(), []);
    }

    /** Queues the packets once all are built. */
    method SendFilled(ghost s0: State, ghost acts: seq<Action>, ghost before: TxState, count: nat, ghost descs: seq<Desc>,
                      ghost build: int -> int, built: seq<Desc>)
      returns (r: SendResult, ghost parked: bool, ghost post: seq<Action>)
      requires TxValid() && TxIdle() && Runs(c, s0, acts, View()) && |descs| <= c.txSize - |txRing.queue|
      requires |before.ring| <= c.txSize && |descs| == Min(Min(count, |before.pool|), c.txSize - |before.ring|)
      requires txFree + Bases(c, descs) == before.pool && txApp == before.app + multiset(Bases(c, descs))
      requires numTransmitted == before.numTransmitted && Built(c, descs, build, built)
      requires forall j :: 0 <= j < |descs| ==> !descs[j].contd
      modifies this`txApp, this`numTransmitted, txRing, txRing.descs, kernel`txHeld, kernel`flags
      modifies compRing`prod, compRing`tail, compRing`staged, compRing`queue, compRing.descs
      modifies (if c.reuse then {this} else {})`rxApp
      ensures TxValid() && TxIdle() && Runs(c, s0, post, View())
      ensures r.Sent? && SendOutcome(c, needWakeup, parked, count, build, before, r, TxView(), built)
      ensures kernel.flags == old(kernel.flags) + if needWakeup && r.Asks() then [parked] else []
      ensures Action.Transmit(built) in post
    {
      hide Built; hide Runs; hide Step; hide Enabled; hide Ring.Valid; hide Socket.View; hide Bases; hide SendOutcome; hide Aligned;
      BuiltBases(c, descs, build, built);
      BuiltLength(c, descs, build, built);
      r, parked, post := SendBuilt(s0, acts, built);
      SentOutcome(c, needWakeup, parked, count, build, before, r, TxView(), descs, built);
    }

    /** Reclaims completions, then queues what fits, or kicks when the ring is full. `at` is the
        state in which the free room was read. */
    method SendFunc(umem: array<byte>, count: nat, build: int -> int, fill: (int, seq<byte>) -> seq<byte>)
      returns (r: SendResult, ghost parked: bool,
               ghost pre: seq<Action>, ghost at: State, ghost post: seq<Action>, ghost batch: seq<Desc>)
      requires TxValid() && TxIdle() && rxFree == rxPool.free
      requires Inv(c, View()) && umem.Length == c.numFrames * c.frameSize
      modifies umem, this`txApp, this`txFree, this`numTransmitted, txPool, txRing, txRing.descs
      modifies kernel`txHeld, kernel`flags
      modifies compRing, compRing.descs
      modifies (if c.reuse then {this} else {})`rxApp
      modifies (if c.reuse then {this} else {})`rxFree, if c.reuse then {rxPool} else {}
      ensures TxValid() && TxIdle() && rxFree == rxPool.free
      ensures Runs(c, old(View()), pre, at) && Runs(c, at, post, View())
      ensures Reclaims(pre, |old(compRing.queue)|) && |at.tx.ring| <= c.txSize
      ensures CallOutcome(c, needWakeup, parked, count, build, at.tx, post, r, TxView(), batch)
      ensures kernel.flags == old(kernel.flags) + if needWakeup && r.Asks() then [parked] else []
      ensures BytesOutcome(c.frameSize, old(umem[..]), umem[..], at.tx.pool, fill, r, batch)
    {
      hide Runs; hide Step; hide Enabled; hide Ring.Valid; hide SendOutcome; hide TxKernelSteps; hide Aligned; hide Reclaims;
      hide Socket.View; hide Inv; hide Slots; hide CallOutcome; hide BytesOutcome;
      ghost var s0 := View();
      var free;
      free, pre, at := Begin();
      RunKeepsInv(c, s0, pre, at);
      if free == 0 {
        var kicked;
        kicked, parked, post := Wake(at, []);
        r, batch := RingFull(kicked), [];
        FullOutcome(c, needWakeup, parked, count, build, at.tx, post, TxView(), umem[..], at.tx.pool, fill);
      } else {
        PoolSeen();
        r, parked, post, batch := BuildAndSend(umem, count, free, build, fill);
        RoomOutcome(c, needWakeup, parked, count, build, at.tx, post, r, TxView(), batch);
      }
    }

    /** What every send starts with: reclaim all visible completions and read the free room. */
    method Begin() returns (free: nat, ghost pre: seq<Action>, ghost at: State)
      requires TxValid() && TxIdle() && rxFree == rxPool.free
      modifies this`numTransmitted, this`txFree, txRing`cons, txRing`head, txRing`queue, kernel`txHeld
      modifies compRing, compRing.descs, txPool
      modifies (if c.reuse then {this} else {})`rxFree, if c.reuse then {rxPool} else {}
      ensures TxValid() && TxIdle() && rxFree == rxPool.free && Runs(c, old(View()), pre, at)
      ensures Reclaims(pre, |old(compRing.queue)|)
      ensures at == View() && at.tx == TxView() && Runs(c, at, [], at) && TxKernelSteps([])
      ensures free == c.txSize - |txRing.queue|
    {
      hide Runs; hide Step; hide Enabled; hide Ring.Valid; hide TxKernelSteps; hide Aligned; hide Reclaims;
      pre := Reclaim();
      at := View();
      NoSteps(c, at);
      free := txRing.Free();
    }

    method Reclaim() returns (ghost acts: seq<Action>)
      requires TxValid() && TxIdle() && rxFree == rxPool.free
      modifies this`numTransmitted, this`txFree, txRing`cons, txRing`head, txRing`queue, kernel`txHeld
      modifies compRing, compRing.descs, txPool
      modifies (if c.reuse then {this} else {})`rxFree, if c.reuse then {rxPool} else {}
      ensures TxValid() && TxIdle() && rxFree == rxPool.free && Runs(c, old(View()), acts, View())
      ensures Reclaims(acts, |old(compRing.queue)|)
    {
      hide Runs; hide Step; hide Enabled; hide Ring.Valid; hide Aligned; hide Socket.View;
      var done := compRing.Avail();
      var m, ks := Complete(done);
      acts := ks + [Action.Complete(m)];
      assert acts[..|acts| - 1] == ks;
    }
  }

  lemma BasesAligned(c: Config, ds: seq<Desc>)
    requires c.Valid()
    ensures Aligned(c, Bases(c, ds))
  {
  }

  lemma AlignedConcat(c: Config, a: seq<nat>, b: seq<nat>)
    requires c.Valid() && Aligned(c, a) && Aligned(c, b)
    ensures Aligned(c, a + b)
  {
  }

  lemma PrefixBases(c: Config, ds: seq<Desc>, n: nat)
    requires c.Valid() && n <= |ds|
    ensures multiset(Bases(c, ds[..n])) <= multiset(Bases(c, ds))
  {
    assert Bases(c, ds) == Bases(c, ds[..n]) + Bases(c, ds[n..]);
  }

  lemma NothingRouted(c: Config)
    requires c.Valid()
    ensures ToTx(c, []) == [] && ToRx(c, []) == []
  {
  }

  lemma FramesAligned(c: Config)
    requires c.Valid()
    ensures Aligned(c, FrameAddrs(c.RxFrames(), c.txFrames, c.frameSize))
  {
    var q := FrameAddrs(c.RxFrames(), c.txFrames, c.frameSize);
    forall a | a in q ensures a % c.frameSize == 0 {
      var i :| 0 <= i < |q| && q[i] == a;
      MultipleAligned(c.RxFrames() + i, c.frameSize);
    }
  }

  lemma MultipleAligned(k: nat, fs: nat)
    requires fs > 0
    ensures (k * fs) % fs == 0
  {
    DivModUnique(k * fs, fs, k, 0);
  }
}
