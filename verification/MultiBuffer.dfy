/** The multi-buffer calls of a socket (multibuffer.go), working on the UMEM in place. */
module MultiBuffer {
  import opened Common
  import opened Bits
  import opened Rings
  import opened SocketProtocol
  import opened FrameConservation
  import opened UmemFrames
  import opened Sockets
  import opened Segments

  const MAX_TX_SEGS := 18

  // -------- Receiving --------

  class PacketReader {
    const xsk: Socket
    var pktPartial: seq<Desc>

    /** Every descriptor ever taken off the rx ring, and every packet returned for them. */
    ghost var stream: seq<Desc>
    ghost var returned: seq<seq<Desc>>

    constructor (xsk: Socket)
      ensures this.xsk == xsk && pktPartial == [] && stream == [] && returned == []
    {
      this.xsk := xsk;
      pktPartial, stream, returned := [], [], [];
    }

    ghost predicate Valid()
      reads this
    {
      Group(stream) == Grouped(returned, pktPartial)
    }

    /** However the rx ring is read in batches, the packets returned so far and the fragments
        held back are the grouping of the whole stream received. */
    method ReceivePackets(maxFrames: nat) returns (pkts: seq<seq<Desc>>, ghost descs: seq<Desc>, ghost ks: seq<Action>)
      requires Valid() && xsk.RxValid()
      modifies this, xsk`numFilled, xsk`rxApp, xsk.fillRing`cons, xsk.fillRing`head, xsk.fillRing`queue
      modifies xsk.kernel`rxHeld, xsk.rxRing, xsk.rxRing.descs
      ensures Valid() && xsk.RxValid()
      ensures stream == old(stream) + descs && returned == old(returned) + pkts
      ensures |descs| == Min(maxFrames, |old(xsk.rxRing.queue)|) && descs == old(xsk.rxRing.queue)[..|descs|]
      ensures RxKernelSteps(ks) && Runs(xsk.c, old(xsk.View()), ks + [Action.Receive(|descs|)], xsk.View())
    {
      hide Group; hide Runs; hide Ring.Valid; hide Socket.View;
      var got;
      got, ks := xsk.Receive(maxFrames);
      descs := got;
      GroupAppend(stream, descs);
      stream := stream + descs;
      var buf := pktPartial + got;
      pkts, pktPartial := Regroup(buf);
      returned := returned + pkts;
    }

    method PushPackets(pkts: seq<seq<Desc>>)
      requires xsk.c.Valid()
      modifies xsk.rxPool
      ensures xsk.rxPool.free == old(xsk.rxPool.free) + Bases(xsk.c, Flatten(pkts))
    {
      hide Flatten; hide Bases;
      NothingFlat(xsk.c);
      assert pkts[..0] == [];
      for i := 0 to |pkts|
        invariant xsk.rxPool.free == old(xsk.rxPool.free) + Bases(xsk.c, Flatten(pkts[..i]))
      {
        xsk.PushBases(xsk.rxPool, pkts[i]);
        FlattenSnoc(pkts[..i], pkts[i]);
        assert pkts[..i + 1] == pkts[..i] + [pkts[i]];
        BasesAppend(xsk.c, Flatten(pkts[..i]), pkts[i]);
      }
      assert pkts[..|pkts|] == pkts;
    }

    /** RecyclePackets: every fragment of every packet goes back to the receive pool. */
    method RecyclePackets(pkts: seq<seq<Desc>>)
      requires xsk.RxValid() && xsk.RxIdle() && multiset(Bases(xsk.c, Flatten(pkts))) <= xsk.rxApp
      modifies xsk`rxApp, xsk`rxFree, xsk.rxPool
      ensures xsk.RxIdle()
      ensures Enabled(xsk.c, old(xsk.View()), Action.Recycle(Flatten(pkts)))
      ensures xsk.View() == Step(xsk.c, old(xsk.View()), Action.Recycle(Flatten(pkts)))
    {
      hide Flatten; hide Bases; hide Enabled; hide Step; hide Ring.Valid;
      ghost var v := xsk.View();
      PushPackets(pkts);
      xsk.rxApp := xsk.rxApp - multiset(Bases(xsk.c, Flatten(pkts)));
      xsk.rxFree := xsk.rxPool.free;
      RecycleIs(xsk.c, v, Flatten(pkts), xsk.View());
    }
  }

  lemma NothingFlat(c: Config)
    requires c.Valid()
    ensures Bases(c, Flatten([])) == []
  {
  }

  lemma GroupNone(buf: seq<Desc>)
    ensures Group(buf[..0]) == Grouped([], buf[0..0])
  {
    assert buf[..0] == buf[0..0] == [];
  }

  lemma SliceNext(buf: seq<Desc>, start: nat, i: nat)
    requires start <= i < |buf|
    ensures buf[start..i + 1] == buf[start..i] + [buf[i]] && buf[i + 1..i + 1] == []
    ensures buf[..i + 1] == buf[0..i + 1] && buf[..i] == buf[0..i]
  {
  }

  /** Slices whole packets out of a run of descriptors; the incomplete tail stays behind. */
  method Regroup(buf: seq<Desc>) returns (pkts: seq<seq<Desc>>, rest: seq<Desc>)
    ensures Grouped(pkts, rest) == Group(buf)
  {
    pkts := [];
    var start := 0;
    GroupNone(buf);
    hide Group;
    for i := 0 to |buf|
      invariant start <= i && Group(buf[..i]) == Grouped(pkts, buf[start..i])
    {
      SliceNext(buf, 0, i);
      SliceNext(buf, start, i);
      GroupSnoc(buf[..i], buf[i]);
      if !buf[i].contd {
        pkts := pkts + [buf[start..i + 1]];
        start := i + 1;
      }
    }
    assert buf[..|buf|] == buf;
    rest := [];
    if start < |buf| {
      rest := buf[start..];
    }
  }

  function PacketLen(p: seq<Desc>): nat {
    if p == [] then 0 else PacketLen(p[..|p| - 1]) + p[|p| - 1].len
  }

  lemma {:induction false} BytesLength(umem: seq<byte>, p: seq<Desc>)
    requires InUmem(umem, p)
    ensures |Bytes(umem, p)| == PacketLen(p)
    decreases |p|
  {
    if p != [] { BytesLength(umem, p[..|p| - 1]); }
  }

  lemma {:induction false} BytesPrefix(umem: seq<byte>, p: seq<Desc>, n: nat)
    requires InUmem(umem, p) && n <= |p|
    ensures Bytes(umem, p[..n]) <= Bytes(umem, p)
    decreases |p| - n
  {
    if n < |p| {
      BytesPrefix(umem, p, n + 1);
      assert p[..n + 1][..n] == p[..n];
    } else {
      assert p[..n] == p;
    }
  }

  /** copy(dst[n:], src). */
  method CopyTail(dst: array<byte>, n: nat, src: seq<byte>) returns (k: nat)
    requires n <= dst.Length
    modifies dst
    ensures k == Min(|src|, dst.Length - n)
    ensures dst[..n + k] == old(dst[..n]) + src[..k] && dst[n + k..] == old(dst[n + k..])
  {
    k := Min(|src|, dst.Length - n);
    forall j | 0 <= j < k { dst[n + j] := src[j]; }
  }

  /** Flattens a packet into `dst`: its leading bytes, as many as fit. */
  method CopyOut(umem: seq<byte>, p: seq<Desc>, dst: array<byte>) returns (n: nat)
    requires InUmem(umem, p)
    modifies dst
    ensures |Bytes(umem, p)| == PacketLen(p) && n == Min(PacketLen(p), dst.Length)
    ensures dst[..n] == Bytes(umem, p)[..n] && dst[n..] == old(dst[n..])
  {
    n := 0;
    var i := 0;
    assert p[..0] == [];
    while i < |p|
      invariant i <= |p| && n == Min(|Bytes(umem, p[..i])|, dst.Length)
      invariant dst[..n] == Bytes(umem, p[..i])[..n] && dst[n..] == old(dst[n..])
    {
      ghost var done := Bytes(umem, p[..i]);
      assert p[..i + 1][..i] == p[..i];
      BytesPrefix(umem, p, i);
      if n >= dst.Length {
        break;
      }
      var frame := Data(umem, p[i]);
      var k := CopyTail(dst, n, frame);
      n := n + k;
      i := i + 1;
      assert Bytes(umem, p[..i]) == done + frame;
    }
    BytesPrefix(umem, p, i);
    BytesLength(umem, p);
    assert i == |p| ==> p[..i] == p;
  }

  // -------- Sending --------

  function TotalFrames(fs: nat, ps: seq<seq<byte>>): nat
    requires fs > 0
  {
    if ps == [] then 0 else TotalFrames(fs, ps[..|ps| - 1]) + Frames(fs, |ps[|ps| - 1]|)
  }

  lemma TotalSnoc(fs: nat, ps: seq<seq<byte>>, n: nat)
    requires fs > 0 && n < |ps|
    ensures TotalFrames(fs, ps[..n + 1]) == TotalFrames(fs, ps[..n]) + Frames(fs, |ps[n]|)
  {
    assert ps[..n + 1][..n] == ps[..n];
  }

  lemma {:induction false} TotalMonotone(fs: nat, ps: seq<seq<byte>>, m: nat, n: nat)
    requires fs > 0 && m <= n <= |ps|
    ensures TotalFrames(fs, ps[..m]) + (n - m) <= TotalFrames(fs, ps[..n])
    decreases n - m
  {
    if m < n {
      TotalMonotone(fs, ps, m, n - 1);
      TotalSnoc(fs, ps, n - 1);
    }
  }

  /** `n` payloads are the longest prefix that fits into `budget` frames. */
  predicate Fits(fs: nat, ps: seq<seq<byte>>, budget: nat, n: nat)
    requires fs > 0
  {
    && n <= |ps| && TotalFrames(fs, ps[..n]) <= budget
    && (n < |ps| ==> budget < TotalFrames(fs, ps[..n + 1]))
  }

  lemma FitsUnique(fs: nat, ps: seq<seq<byte>>, budget: nat, m: nat, n: nat)
    requires fs > 0 && Fits(fs, ps, budget, m) && Fits(fs, ps, budget, n)
    ensures m == n
  {
    if m < n {
      TotalMonotone(fs, ps, m + 1, n);
    } else if n < m {
      TotalMonotone(fs, ps, n + 1, m);
    }
  }

  /** A tighter budget that still covers the fit changes nothing. */
  lemma FitsTighter(fs: nat, ps: seq<seq<byte>>, loose: nat, tight: nat, n: nat)
    requires fs > 0 && Fits(fs, ps, loose, n) && TotalFrames(fs, ps[..n]) <= tight <= loose
    ensures Fits(fs, ps, tight, n)
  {
  }

  method Fit(fs: nat, ps: seq<seq<byte>>, budget: nat) returns (nFrames: nat, nPkts: nat)
    requires fs > 0
    ensures Fits(fs, ps, budget, nPkts) && nFrames == TotalFrames(fs, ps[..nPkts])
  {
    nFrames, nPkts := 0, 0;
    while nPkts < |ps|
      invariant nPkts <= |ps| && nFrames == TotalFrames(fs, ps[..nPkts]) <= budget
    {
      var f := Frames(fs, |ps[nPkts]|);
      TotalSnoc(fs, ps, nPkts);
      if nFrames + f > budget {
        break;
      }
      nFrames, nPkts := nFrames + f, nPkts + 1;
    }
  }

  /** Fragment `i` of payload `p`, in place. */
  predicate Fragment(u: seq<byte>, fs: nat, d: Desc, p: seq<byte>, i: nat)
    requires fs > 0
  {
    && d.len == |Chunk(fs, p, i)| && (d.contd <==> i + 1 < Frames(fs, |p|))
    && d.addr + d.len <= |u| && Data(u, d) == Chunk(fs, p, i)
  }

  lemma FragmentKept(u: seq<byte>, v: seq<byte>, fs: nat, d: Desc, p: seq<byte>, i: nat)
    requires fs > 0 && |u| == |v| && d.addr + fs <= |u| && Frame(u, fs, d.addr) == Frame(v, fs, d.addr)
    requires Fragment(u, fs, d, p, i)
    ensures Fragment(v, fs, d, p, i)
  {
    assert Data(u, d) == Frame(u, fs, d.addr)[..d.len];
    assert Data(v, d) == Frame(v, fs, d.addr)[..d.len];
  }

  /** Fragments [0, j) of `p` are in the descriptors from `k` on. */
  predicate Filled(u: seq<byte>, fs: nat, ds: seq<Desc>, p: seq<byte>, k: nat, j: nat)
    requires fs > 0 && k + j <= |ds|
  {
    forall m: nat :: k <= m < k + j ==> Fragment(u, fs, ds[m], p, m - k)
  }

  lemma FilledChain(u: seq<byte>, fs: nat, ds: seq<Desc>, p: seq<byte>, k: nat)
    requires fs > 0 && k + Frames(fs, |p|) <= |ds| && Filled(u, fs, ds, p, k, Frames(fs, |p|))
    ensures Chain(u, fs, ds[k..k + Frames(fs, |p|)], p)
  {
    hide Chunk; hide Frames;
    var q := ds[k..k + Frames(fs, |p|)];
    forall j: nat | j < |q| ensures Fragment(u, fs, q[j], p, j) {
      assert q[j] == ds[k + j];
    }
  }

  /** Every frame outside [lo, hi) of `ds` still holds what it held. */
  predicate OthersKept(u: seq<byte>, v: seq<byte>, fs: nat, ds: seq<Desc>, lo: nat, hi: nat)
    requires Slots(fs, |u|, ds) && |u| == |v|
  {
    forall m :: 0 <= m < |ds| && !(lo <= m < hi) ==> Frame(u, fs, ds[m].addr) == Frame(v, fs, ds[m].addr)
  }

  /** One payload into the frames from `k` on. */
  method SplitOne(umem: array<byte>, fs: nat, p: seq<byte>, descs: seq<Desc>, k: nat) returns (out: seq<Desc>)
    requires Slots(fs, umem.Length, descs) && k + Frames(fs, |p|) <= |descs|
    modifies umem
    ensures SameAddrs(out, descs) && out[..k] == descs[..k]
    ensures out[k + Frames(fs, |p|)..] == descs[k + Frames(fs, |p|)..]
    ensures Chain(umem[..], fs, out[k..k + Frames(fs, |p|)], p)
    ensures OthersKept(old(umem[..]), umem[..], fs, descs, k, k + Frames(fs, |p|))
  {
    hide Chunk; hide Frames; hide Frame; hide Fragment; hide Chain;
    var f := Frames(fs, |p|);
    FramesExact(fs, |p|);
    out := descs;
    var off := 0;
    for j := 0 to f
      invariant SameAddrs(out, descs) && out[..k] == descs[..k] && out[k + f..] == descs[k + f..]
      invariant off == Min(fs * j, |p|)
      invariant Filled(umem[..], fs, out, p, k, j)
      invariant OthersKept(old(umem[..]), umem[..], fs, descs, k, k + j)
    {
      out, off := SplitStep(umem, fs, p, descs, out, k, j, off);
    }
    FilledChain(umem[..], fs, out, p, k);
  }

  method SplitStep(umem: array<byte>, fs: nat, p: seq<byte>, ghost descs: seq<Desc>, out: seq<Desc>, k: nat, j: nat, off: nat)
    returns (out': seq<Desc>, off': nat)
    requires Slots(fs, umem.Length, descs) && SameAddrs(out, descs)
    requires j < Frames(fs, |p|) && k + Frames(fs, |p|) <= |out|
    requires off == Min(fs * j, |p|) && Filled(umem[..], fs, out, p, k, j)
    modifies umem
    ensures SameAddrs(out', descs) && out'[..k] == out[..k]
    ensures out'[k + Frames(fs, |p|)..] == out[k + Frames(fs, |p|)..]
    ensures off' == Min(fs * (j + 1), |p|) && Filled(umem[..], fs, out', p, k, j + 1)
    ensures OthersKept(old(umem[..]), umem[..], fs, descs, k + j, k + j + 1)
  {
    hide Chunk; hide Frames; hide Frame; hide Fragment;
    ghost var u := umem[..];
    assert out[k + j].addr == descs[k + j].addr;
    var a := out[k + j].addr;
    var n := CopyIn(umem, fs, a, p[off..]);
    out' := out[k + j := Desc(a, n, j < Frames(fs, |p|) - 1)];
    CopiedFragment(umem[..], fs, out'[k + j], p, j, off, n);
    KeptFragments(u, umem[..], fs, descs, out, p, k, j);
    off' := off + n;
  }

  lemma CopiedFragment(u: seq<byte>, fs: nat, d: Desc, p: seq<byte>, j: nat, off: nat, n: nat)
    requires fs > 0 && off == Min(fs * j, |p|) && n == Min(fs, |p| - off) && j < Frames(fs, |p|)
    requires d.addr + n <= |u| && u[d.addr..d.addr + n] == p[off..][..n]
    requires d.len == n && d.contd == (j < Frames(fs, |p|) - 1)
    ensures Fragment(u, fs, d, p, j) && off + n == Min(fs * (j + 1), |p|)
  {
    hide Frames;
    MulNext(fs, j);
    assert Chunk(fs, p, j) == p[off..off + n] == p[off..][..n];
  }

  lemma KeptFragments(u: seq<byte>, v: seq<byte>, fs: nat, descs: seq<Desc>, out: seq<Desc>, p: seq<byte>, k: nat, j: nat)
    requires |u| == |v| && Slots(fs, |u|, descs) && SameAddrs(out, descs) && k + j < |descs|
    requires forall b: nat :: b % fs == 0 && b != descs[k + j].addr && b + fs <= |u| ==> Frame(u, fs, b) == Frame(v, fs, b)
    requires Filled(u, fs, out, p, k, j)
    ensures Filled(v, fs, out, p, k, j) && OthersKept(u, v, fs, descs, k + j, k + j + 1)
  {
    hide Fragment; hide Frame;
    forall m | 0 <= m < |descs| && m != k + j ensures Frame(u, fs, descs[m].addr) == Frame(v, fs, descs[m].addr) {
      assert descs[m].addr != descs[k + j].addr;
    }
    forall m: nat | k <= m < k + j ensures Fragment(v, fs, out[m], p, m - k) {
      assert out[m].addr == descs[m].addr;
      FragmentKept(u, v, fs, out[m], p, m - k);
    }
  }

  // -------- A whole batch --------

  /** Where payload `i`'s chain starts. */
  function ChainStart(fs: nat, ps: seq<seq<byte>>, i: nat): (r: nat)
    requires fs > 0 && i <= |ps|
  {
    TotalFrames(fs, ps[..i])
  }

  lemma ChainEnd(fs: nat, ps: seq<seq<byte>>, i: nat, n: nat)
    requires fs > 0 && i < n <= |ps|
    ensures ChainStart(fs, ps, i + 1) == ChainStart(fs, ps, i) + Frames(fs, |ps[i]|) <= ChainStart(fs, ps, n)
  {
    TotalSnoc(fs, ps, i);
    TotalMonotone(fs, ps, i + 1, n);
  }

  function ChainOf(fs: nat, ds: seq<Desc>, ps: seq<seq<byte>>, i: nat): seq<Desc>
    requires fs > 0 && i < |ps| && |ds| >= ChainStart(fs, ps, |ps|)
  {
    ChainEnd(fs, ps, i, |ps|);
    ds[ChainStart(fs, ps, i)..ChainStart(fs, ps, i + 1)]
  }

  /** The first `n` payloads are laid out in the descriptors, one chain after the other. */
  predicate Laid(u: seq<byte>, fs: nat, ds: seq<Desc>, ps: seq<seq<byte>>, n: nat)
    requires fs > 0 && n <= |ps| && |ds| >= ChainStart(fs, ps, |ps|)
  {
    forall i: nat :: i < n ==> Chain(u, fs, ChainOf(fs, ds, ps, i), ps[i])
  }

  lemma ChainKept(u: seq<byte>, v: seq<byte>, fs: nat, ds: seq<Desc>, p: seq<byte>)
    requires fs > 0 && |u| == |v| && Chain(u, fs, ds, p)
    requires forall d :: d in ds ==> d.addr + fs <= |u| && Frame(u, fs, d.addr) == Frame(v, fs, d.addr)
    ensures Chain(v, fs, ds, p)
  {
    hide Chunk;
    forall j: nat | j < |ds| ensures Data(v, ds[j]) == Chunk(fs, p, j) {
      assert ds[j] in ds;
      assert Data(u, ds[j]) == Frame(u, fs, ds[j].addr)[..ds[j].len];
      assert Data(v, ds[j]) == Frame(v, fs, ds[j].addr)[..ds[j].len];
    }
  }

  lemma SliceOfPrefix(q: seq<Desc>, k: nat, s: nat, e: nat)
    requires s <= e <= k <= |q|
    ensures q[..k][s..e] == q[s..e]
  {
    var a, b := q[..k][s..e], q[s..e];
    assert forall i :: 0 <= i < |a| ==> a[i] == b[i];
    assert a == b;
  }

  lemma LaidStep(u: seq<byte>, v: seq<byte>, fs: nat, descs: seq<Desc>, ds: seq<Desc>, ds': seq<Desc>,
                 ps: seq<seq<byte>>, n: nat)
    requires fs > 0 && n < |ps| && |ds| >= ChainStart(fs, ps, |ps|) && |u| == |v| && Laid(u, fs, ds, ps, n)
    requires Slots(fs, |u|, descs) && SameAddrs(ds, descs) && SameAddrs(ds', descs)
    requires ChainStart(fs, ps, n) + Frames(fs, |ps[n]|) <= |ds| && ds'[..ChainStart(fs, ps, n)] == ds[..ChainStart(fs, ps, n)]
    requires OthersKept(u, v, fs, descs, ChainStart(fs, ps, n), ChainStart(fs, ps, n) + Frames(fs, |ps[n]|))
    requires Chain(v, fs, ChainOf(fs, ds', ps, n), ps[n])
    ensures Laid(v, fs, ds', ps, n + 1)
  {
    hide Chain; hide Frame; hide TotalFrames; hide Frames;
    var k := ChainStart(fs, ps, n);
    ChainEnd(fs, ps, n, |ps|);
    forall i: nat | i < n ensures Chain(v, fs, ChainOf(fs, ds', ps, i), ps[i]) {
      ChainEnd(fs, ps, i, n);
      var s, e := ChainStart(fs, ps, i), ChainStart(fs, ps, i + 1);
      SliceOfPrefix(ds', k, s, e);
      SliceOfPrefix(ds, k, s, e);
      var q := ds[s..e];
      forall d | d in q ensures d.addr + fs <= |u| && Frame(u, fs, d.addr) == Frame(v, fs, d.addr) {
        var m :| 0 <= m < |q| && q[m] == d;
        assert ds[s + m] == d && ds[s + m].addr == descs[s + m].addr;
      }
      ChainKept(u, v, fs, q, ps[i]);
    }
  }

  /** Every payload into its own frames, in order. */
  method SplitAll(umem: array<byte>, fs: nat, ps: seq<seq<byte>>, descs: seq<Desc>) returns (out: seq<Desc>)
    requires Slots(fs, umem.Length, descs) && |descs| == TotalFrames(fs, ps)
    modifies umem
    ensures SameAddrs(out, descs) && ps[..|ps|] == ps && Laid(umem[..], fs, out, ps, |ps|)
  {
    hide Chain; hide Frame; hide TotalFrames; hide Frames; hide Fragment; hide OthersKept;
    assert ps[..|ps|] == ps;
    out := descs;
    var k := 0;
    StartIsZero(fs, ps);
    for i := 0 to |ps|
      invariant k == ChainStart(fs, ps, i) && |out| == ChainStart(fs, ps, |ps|)
      invariant SameAddrs(out, descs) && Laid(umem[..], fs, out, ps, i)
    {
      ghost var u, before := umem[..], out;
      ChainEnd(fs, ps, i, |ps|);
      SameSlots(fs, umem.Length, descs, out);
      out := SplitOne(umem, fs, ps[i], out, k);
      SameOthers(u, umem[..], fs, descs, before, k, k + Frames(fs, |ps[i]|));
      LaidStep(u, umem[..], fs, descs, before, out, ps, i);
      k := k + Frames(fs, |ps[i]|);
    }
  }

  lemma StartIsZero(fs: nat, ps: seq<seq<byte>>)
    requires fs > 0
    ensures ChainStart(fs, ps, 0) == 0
  {
    assert ps[..0] == [];
  }

  lemma SameOthers(u: seq<byte>, v: seq<byte>, fs: nat, xs: seq<Desc>, ys: seq<Desc>, lo: nat, hi: nat)
    requires |u| == |v| && Slots(fs, |u|, xs) && Slots(fs, |u|, ys) && SameAddrs(ys, xs) && OthersKept(u, v, fs, ys, lo, hi)
    ensures OthersKept(u, v, fs, xs, lo, hi)
  {
    hide Frame;
    forall m | 0 <= m < |xs| && !(lo <= m < hi) ensures Frame(u, fs, xs[m].addr) == Frame(v, fs, xs[m].addr) {
      assert ys[m].addr == xs[m].addr;
    }
  }

  /** A laid-out batch is exactly the chains of its payloads, end to end. */
  lemma {:induction false} LaidChains(u: seq<byte>, fs: nat, ds: seq<Desc>, ps: seq<seq<byte>>, n: nat)
    returns (chains: seq<seq<Desc>>)
    requires fs > 0 && n <= |ps| && |ds| == ChainStart(fs, ps, |ps|) && Laid(u, fs, ds, ps, n)
    ensures Carries(u, fs, chains, ps[..n])
    ensures ChainStart(fs, ps, n) <= |ds| && Flatten(chains) == ds[..ChainStart(fs, ps, n)]
    decreases n
  {
    hide Chain;
    TotalMonotone(fs, ps, n, |ps|);
    if n == 0 {
      chains := [];
      StartIsZero(fs, ps);
    } else {
      var most := LaidChains(u, fs, ds, ps, n - 1);
      var last := ChainOf(fs, ds, ps, n - 1);
      chains := most + [last];
      FlattenSnoc(most, last);
      ChainEnd(fs, ps, n - 1, |ps|);
      var s, e := ChainStart(fs, ps, n - 1), ChainStart(fs, ps, n);
      assert ds[..e] == ds[..s] + ds[s..e];
      forall i | 0 <= i < n ensures Chain(u, fs, chains[i], ps[..n][i]) {
        assert i < n - 1 ==> ps[..n - 1][i] == ps[i];
      }
    }
  }

  function Ends(ds: seq<Desc>): nat {
    if ds == [] then 0 else Ends(ds[..|ds| - 1]) + (if ds[|ds| - 1].contd then 0 else 1)
  }

  lemma {:induction false} EndsAppend(x: seq<Desc>, y: seq<Desc>)
    ensures Ends(x + y) == Ends(x) + Ends(y)
    decreases |y|
  {
    if y == [] {
      assert x + y == x;
    } else {
      EndsAppend(x, y[..|y| - 1]);
      assert (x + y)[..|x + y| - 1] == x + y[..|y| - 1];
    }
  }

  lemma {:induction false} NoEnds(ds: seq<Desc>)
    requires AllContinue(ds)
    ensures Ends(ds) == 0
    decreases |ds|
  {
    if ds != [] { NoEnds(ds[..|ds| - 1]); }
  }

  lemma {:induction false} EndsOfWhole(pkts: seq<seq<Desc>>)
    requires forall p :: p in pkts ==> Whole(p)
    ensures Ends(Flatten(pkts)) == |pkts|
    decreases |pkts|
  {
    if pkts != [] {
      var most, p := pkts[..|pkts| - 1], pkts[|pkts| - 1];
      EndsOfWhole(most);
      EndsAppend(Flatten(most), p);
      assert p in pkts && Whole(p);
      var body := p[..|p| - 1];
      forall x | x in body ensures x.contd {
        var j :| 0 <= j < |body| && body[j] == x;
        assert p[j] == x;
      }
      NoEnds(body);
    }
  }

  /** The count sendBatchSG returns: descriptors that end a packet. */
  method CountEnds(ds: seq<Desc>) returns (queued: nat)
    ensures queued == Ends(ds)
  {
    queued := 0;
    assert ds[..0] == [];
    for i := 0 to |ds|
      invariant queued == Ends(ds[..i])
    {
      assert ds[..i + 1][..i] == ds[..i];
      if !ds[i].contd {
        queued := queued + 1;
      }
    }
    assert ds[..|ds|] == ds;
  }

  datatype SGResult =
    | NoRoom(kicked: bool)
    | TooLong(at: nat)
    | Queued(n: nat, kicked: bool)

  predicate Oversized(fs: nat, p: seq<byte>)
    requires fs > 0
  {
    Frames(fs, |p|) > MAX_TX_SEGS
  }

  /** A packet may carry at most 18 frames' worth of payload. */
  lemma OversizedExactly(fs: nat, p: seq<byte>)
    requires fs > 0
    ensures Oversized(fs, p) <==> |p| > 18 * fs
  {
    hide Frames;
    FramesExact(fs, |p|);
    FramesAgainst(fs, |p|, Frames(fs, |p|));
  }

  lemma FramesAgainst(fs: nat, len: nat, n: nat)
    requires fs > 0 && len <= fs * n && (len > 0 ==> fs * (n - 1) < len) && (len == 0 ==> n == 1)
    ensures n > 18 <==> len > 18 * fs
  {
    if n > 18 {
      MulGap(fs, 17, n - 1);
    } else {
      MulGap(fs, n, 18);
    }
  }

  /** The first payload no packet may carry, or -1. */
  method FirstOversized(fs: nat, ps: seq<seq<byte>>) returns (bad: int)
    requires fs > 0
    ensures -1 <= bad < |ps|
    ensures bad == -1 ==> forall i :: 0 <= i < |ps| ==> !Oversized(fs, ps[i])
    ensures bad >= 0 ==> Oversized(fs, ps[bad]) && forall i :: 0 <= i < bad ==> !Oversized(fs, ps[i])
  {
    for i := 0 to |ps|
      invariant forall j :: 0 <= j < i ==> !Oversized(fs, ps[j])
    {
      if Frames(fs, |ps[i]|) > MAX_TX_SEGS {
        return i;
      }
    }
    bad := -1;
  }

  /** Keeps the first `n` allocated frames and hands the others back. */
  method KeepFirst(xsk: Socket, ghost s0: State, ghost acts: seq<Action>, all: seq<Desc>, n: nat)
    returns (descs: seq<Desc>, ghost acts': seq<Action>)
    requires xsk.TxValid() && xsk.TxIdle() && n <= |all| && Runs(xsk.c, s0, acts, xsk.View())
    requires multiset(Bases(xsk.c, all)) <= xsk.txApp
    modifies xsk`txApp, xsk`txFree, xsk.txPool
    ensures xsk.TxValid() && xsk.TxIdle() && Runs(xsk.c, s0, acts', xsk.View()) && descs == all[..n]
    ensures xsk.txApp == old(xsk.txApp) - multiset(Bases(xsk.c, all)) + multiset(Bases(xsk.c, descs))
    ensures |xsk.txFree| == |old(xsk.txFree)| + |all| - n
  {
    hide Runs; hide Ring.Valid; hide Socket.View; hide Bases; hide Aligned;
    BasesSplit(xsk.c, all, n);
    acts' := xsk.Abandon(s0, acts, all[n..]);
    descs := all[..n];
  }

  /** Takes frames for as many whole payloads as both the ring and the pool allow, and hands
      back the rest: no frame is kept that no payload will use. */
  method ReserveFrames(xsk: Socket, ghost size: nat, ps: seq<seq<byte>>, free: nat)
    returns (descs: seq<Desc>, nPkts: nat, ghost acts: seq<Action>)
    requires xsk.TxValid() && xsk.TxIdle() && Inv(xsk.c, xsk.View())
    requires free == xsk.c.txSize - |xsk.txRing.queue| && size == xsk.c.numFrames * xsk.c.frameSize
    modifies xsk`txApp, xsk`txFree, xsk.txPool, xsk.txRing`cons, xsk.txRing`head, xsk.txRing`queue, xsk.kernel`txHeld
    modifies xsk.compRing`prod, xsk.compRing`tail, xsk.compRing`staged, xsk.compRing`queue, xsk.compRing.descs
    ensures xsk.TxValid() && xsk.TxIdle() && Runs(xsk.c, old(xsk.View()), acts, xsk.View())
    ensures Fits(xsk.c.frameSize, ps, Min(free, |old(xsk.txFree)|), nPkts)
    ensures |descs| == TotalFrames(xsk.c.frameSize, ps[..nPkts]) && |xsk.txRing.queue| + |descs| <= xsk.c.txSize
    ensures Slots(xsk.c.frameSize, size, descs) && |xsk.txFree| + |descs| == |old(xsk.txFree)|
    ensures xsk.txApp == old(xsk.txApp) + multiset(Bases(xsk.c, descs))
  {
    hide Runs; hide Step; hide Enabled; hide Ring.Valid; hide Socket.View; hide TotalFrames; hide Bases; hide Inv;
    hide Aligned; hide Slots; hide TxKernelSteps; hide Fits;
    var c := xsk.c;
    ghost var v0 := xsk.View();
    PoolIs(xsk);
    var nFrames;
    nFrames, nPkts := Fit(c.frameSize, ps, free);
    if nPkts == 0 {
      NothingFits(c, ps, free, Min(free, |xsk.txFree|));
      NoSteps(c, v0);
      return [], 0, [];
    }
    var all, ks := xsk.Alloc(nFrames);
    acts := ks + [Action.Alloc(|all|)];
    TakenSlots(c, v0, xsk.txFree, all, size);
    descs := all;
    if |all| < nFrames {
      nFrames, nPkts := Fit(c.frameSize, ps, |all|);
      SlotsPrefix(c.frameSize, size, all, nFrames);
      descs, acts := KeepFirst(xsk, v0, acts, all, nFrames);
    } else {
      FitBound(c.frameSize, ps, free, nPkts);
      FitsTighter(c.frameSize, ps, free, Min(free, |old(xsk.txFree)|), nPkts);
    }
  }

  lemma PoolIs(xsk: Socket)
    ensures xsk.View().tx.pool == xsk.txFree
  {
  }

  lemma NothingFits(c: Config, ps: seq<seq<byte>>, loose: nat, tight: nat)
    requires c.Valid() && Fits(c.frameSize, ps, loose, 0) && tight <= loose
    ensures Fits(c.frameSize, ps, tight, 0) && TotalFrames(c.frameSize, ps[..0]) == 0
    ensures Slots(c.frameSize, c.numFrames * c.frameSize, []) && Bases(c, []) == []
  {
    assert ps[..0] == [];
  }

  /** The payload prefix went out as one chain each, and nothing else did. */
  ghost predicate WentOut(c: Config, u: seq<byte>, ps: seq<seq<byte>>, n: nat, chains: seq<seq<Desc>>,
                          batch: seq<Desc>, before: TxState, after: TxState)
    requires c.Valid() && n <= |ps|
  {
    && Carries(u, c.frameSize, chains, ps[..n]) && batch == Flatten(chains)
    && |batch| == TotalFrames(c.frameSize, ps[..n])
    && after.app == before.app && after.numTransmitted == before.numTransmitted + |batch|
    && |after.pool| + |batch| == |before.pool|
  }

  /** Splits, queues and counts a batch whose frames have been reserved. */
  method SplitAndSend(xsk: Socket, umem: array<byte>, ps: seq<seq<byte>>, descs: seq<Desc>,
                      ghost s0: State, ghost acts: seq<Action>)
    returns (queued: nat, kicked: bool, ghost parked: bool,
             ghost chains: seq<seq<Desc>>, ghost batch: seq<Desc>, ghost acts': seq<Action>)
    requires xsk.TxValid() && xsk.txRing.staged == [] && Runs(xsk.c, s0, acts, xsk.View())
    requires Slots(xsk.c.frameSize, umem.Length, descs) && |descs| == TotalFrames(xsk.c.frameSize, ps)
    requires |xsk.txRing.queue| + |descs| <= xsk.c.txSize && multiset(Bases(xsk.c, descs)) <= xsk.txApp
    modifies umem, xsk`txApp, xsk`numTransmitted, xsk.txRing, xsk.txRing.descs
    modifies xsk.kernel`txHeld, xsk.kernel`flags
    modifies xsk.compRing`prod, xsk.compRing`tail, xsk.compRing`staged, xsk.compRing`queue, xsk.compRing.descs
    modifies (if xsk.c.reuse then {xsk} else {})`rxApp
    ensures xsk.TxValid() && xsk.txRing.staged == [] && Runs(xsk.c, s0, acts', xsk.View())
    ensures queued == |ps| && Carries(umem[..], xsk.c.frameSize, chains, ps) && batch == Flatten(chains)
    ensures |batch| == |descs| && Action.Transmit(batch) in acts'
    ensures xsk.txApp == old(xsk.txApp) - multiset(Bases(xsk.c, descs))
    ensures xsk.numTransmitted == old(xsk.numTransmitted) + |batch|
    ensures kicked <==> |batch| > 0 && (!xsk.needWakeup || parked)
    ensures xsk.kernel.flags == old(xsk.kernel.flags) + if xsk.needWakeup && |batch| > 0 then [parked] else []
  {
    hide Runs; hide Step; hide Enabled; hide Ring.Valid; hide Socket.View; hide TotalFrames; hide Bases;
    hide Aligned; hide Slots; hide Laid; hide Chain; hide Flatten; hide Ends; hide Carries; hide Whole;
    var out := SplitAll(umem, xsk.c.frameSize, ps, descs);
    chains := LaidChains(umem[..], xsk.c.frameSize, out, ps, |ps|);
    assert out[..|out|] == out;
    batch := out;
    SameBases(xsk.c, out, descs);
    var r;
    r, parked, acts' := xsk.SendBuilt(s0, acts, out);
    kicked := r.kicked;
    queued := CountEnds(out);
    ChainsAreWhole(umem[..], xsk.c.frameSize, chains, ps);
    EndsOfWhole(chains);
  }

  lemma SameBases(c: Config, xs: seq<Desc>, ys: seq<Desc>)
    requires c.Valid() && SameAddrs(xs, ys)
    ensures Bases(c, xs) == Bases(c, ys)
  {
  }

  lemma ChainsAreWhole(u: seq<byte>, fs: nat, chains: seq<seq<Desc>>, ps: seq<seq<byte>>)
    requires fs > 0 && Carries(u, fs, chains, ps)
    ensures |chains| == |ps| && forall p :: p in chains ==> Whole(p)
  {
  }

  /** What SendBatch promises on a multi-buffer socket, from the state in which it found room. */
  ghost predicate SGOutcome(c: Config, needWakeup: bool, parked: bool, u0: seq<byte>, u: seq<byte>, ps: seq<seq<byte>>,
                            before: TxState, r: SGResult, after: TxState, chains: seq<seq<Desc>>, batch: seq<Desc>)
    requires c.Valid() && |before.ring| <= c.txSize
  {
    match r
    case NoRoom(_) => false
    case TooLong(i) =>
      && i < |ps| && Oversized(c.frameSize, ps[i])
      && (forall j :: 0 <= j < i ==> !Oversized(c.frameSize, ps[j]))
      && after == before && u == u0
    case Queued(n, kicked) =>
      && (forall j :: 0 <= j < |ps| ==> !Oversized(c.frameSize, ps[j]))
      && Fits(c.frameSize, ps, Min(c.txSize - |before.ring|, |before.pool|), n)
      && WentOut(c, u, ps, n, chains, batch, before, after)
      && (kicked <==> n > 0 && (!needWakeup || parked))
  }

  /** Queues a prefix of whole payloads: the longest that the ring room and the pool allow. */
  method QueuePayloads(xsk: Socket, umem: array<byte>, ps: seq<seq<byte>>, free: nat)
    returns (n: nat, kicked: bool, ghost parked: bool,
             ghost post: seq<Action>, ghost chains: seq<seq<Desc>>, ghost batch: seq<Desc>)
    requires xsk.TxValid() && xsk.TxIdle() && Inv(xsk.c, xsk.View()) && !xsk.c.reuse
    requires free == xsk.c.txSize - |xsk.txRing.queue| && umem.Length == xsk.c.numFrames * xsk.c.frameSize
    modifies umem, xsk`txApp, xsk`txFree, xsk`numTransmitted, xsk.txPool, xsk.txRing, xsk.txRing.descs
    modifies xsk.kernel`txHeld, xsk.kernel`flags
    modifies xsk.compRing`prod, xsk.compRing`tail, xsk.compRing`staged, xsk.compRing`queue, xsk.compRing.descs
    ensures xsk.TxValid() && xsk.TxIdle() && Runs(xsk.c, old(xsk.View()), post, xsk.View())
    ensures Fits(xsk.c.frameSize, ps, Min(free, |old(xsk.txFree)|), n)
    ensures WentOut(xsk.c, umem[..], ps, n, chains, batch, old(xsk.TxView()), xsk.TxView())
    ensures (n > 0 ==> Action.Transmit(batch) in post) && (kicked <==> n > 0 && (!xsk.needWakeup || parked))
    ensures xsk.kernel.flags == old(xsk.kernel.flags) + if xsk.needWakeup && n > 0 then [parked] else []
  {
    hide Runs; hide Step; hide Enabled; hide Ring.Valid; hide Socket.View; hide TotalFrames; hide Bases; hide Inv;
    hide Aligned; hide Slots; hide Fits; hide Carries; hide Flatten; hide WentOut;
    ghost var s0, before := xsk.View(), xsk.TxView();
    var descs, nPkts;
    descs, nPkts, post := ReserveFrames(xsk, umem.Length, ps, free);
    n, kicked, parked := nPkts, false, false;
    FitBound(xsk.c.frameSize, ps, Min(free, |old(xsk.txFree)|), n);
    if nPkts == 0 {
      chains, batch := [], [];
      assert descs == [] by { NothingFitsLen(xsk.c, ps); }
      NothingWent(xsk.c, umem[..], ps, before, xsk.TxView());
      return;
    }
    var queued;
    queued, kicked, parked, chains, batch, post := SplitAndSend(xsk, umem, ps[..n], descs, s0, post);
    n := queued;
    SomeFrames(xsk.c.frameSize, ps, n);
    WentOutIs(xsk.c, umem[..], ps, n, chains, batch, before, xsk.TxView());
  }

  lemma FitBound(fs: nat, ps: seq<seq<byte>>, budget: nat, n: nat)
    requires fs > 0 && Fits(fs, ps, budget, n)
    ensures n <= |ps| && |ps[..n]| == n
  {
  }

  lemma NothingFitsLen(c: Config, ps: seq<seq<byte>>)
    requires c.Valid()
    ensures TotalFrames(c.frameSize, ps[..0]) == 0
  {
    assert ps[..0] == [];
  }

  lemma NothingWent(c: Config, u: seq<byte>, ps: seq<seq<byte>>, before: TxState, after: TxState)
    requires c.Valid() && after.app == before.app && after.numTransmitted == before.numTransmitted
    requires |after.pool| == |before.pool|
    ensures WentOut(c, u, ps, 0, [], [], before, after)
  {
    assert ps[..0] == [];
  }

  lemma SomeFrames(fs: nat, ps: seq<seq<byte>>, n: nat)
    requires fs > 0 && 0 < n <= |ps|
    ensures TotalFrames(fs, ps[..n]) > 0
  {
    TotalMonotone(fs, ps, 0, n);
  }

  lemma WentOutIs(c: Config, u: seq<byte>, ps: seq<seq<byte>>, n: nat, chains: seq<seq<Desc>>, batch: seq<Desc>,
                  before: TxState, after: TxState)
    requires c.Valid() && n <= |ps| && Carries(u, c.frameSize, chains, ps[..n]) && batch == Flatten(chains)
    requires |batch| == TotalFrames(c.frameSize, ps[..n]) && after.app == before.app
    requires after.numTransmitted == before.numTransmitted + |batch| && |after.pool| + |batch| == |before.pool|
    ensures WentOut(c, u, ps, n, chains, batch, before, after)
  {
  }

  lemma TooLongOutcome(c: Config, needWakeup: bool, parked: bool, u: seq<byte>, ps: seq<seq<byte>>, before: TxState, bad: nat)
    requires c.Valid() && |before.ring| <= c.txSize && bad < |ps| && Oversized(c.frameSize, ps[bad])
    requires forall j :: 0 <= j < bad ==> !Oversized(c.frameSize, ps[j])
    ensures SGOutcome(c, needWakeup, parked, u, u, ps, before, TooLong(bad), before, [], [])
  {
  }

  lemma QueuedOutcome(c: Config, needWakeup: bool, parked: bool, u0: seq<byte>, u: seq<byte>, ps: seq<seq<byte>>,
                      before: TxState, n: nat, kicked: bool, after: TxState, chains: seq<seq<Desc>>, batch: seq<Desc>)
    requires c.Valid() && |before.ring| <= c.txSize && forall j :: 0 <= j < |ps| ==> !Oversized(c.frameSize, ps[j])
    requires Fits(c.frameSize, ps, Min(c.txSize - |before.ring|, |before.pool|), n)
    requires WentOut(c, u, ps, n, chains, batch, before, after) && (kicked <==> n > 0 && (!needWakeup || parked))
    ensures SGOutcome(c, needWakeup, parked, u0, u, ps, before, Queued(n, kicked), after, chains, batch)
  {
  }

  /** sendBatchSG: reclaim, refuse an over-long payload, queue whole payloads only. */
  method SendBatchSG(xsk: Socket, umem: array<byte>, ps: seq<seq<byte>>)
    returns (r: SGResult, ghost parked: bool, ghost pre: seq<Action>, ghost at: State, ghost post: seq<Action>,
             ghost chains: seq<seq<Desc>>, ghost batch: seq<Desc>)
    requires xsk.TxValid() && xsk.TxIdle() && xsk.rxFree == xsk.rxPool.free
    requires Inv(xsk.c, xsk.View()) && !xsk.c.reuse && umem.Length == xsk.c.numFrames * xsk.c.frameSize
    modifies umem, xsk`txApp, xsk`txFree, xsk`numTransmitted, xsk.txPool, xsk.txRing, xsk.txRing.descs
    modifies xsk.kernel`txHeld, xsk.kernel`flags, xsk.compRing, xsk.compRing.descs
    ensures xsk.TxValid() && xsk.TxIdle() && Inv(xsk.c, xsk.View())
    ensures Runs(xsk.c, old(xsk.View()), pre, at) && Runs(xsk.c, at, post, xsk.View()) && |at.tx.ring| <= xsk.c.txSize
    ensures Reclaims(pre, |old(xsk.compRing.queue)|)
    ensures if |at.tx.ring| == xsk.c.txSize
      then r.NoRoom? && TxKernelSteps(post) && umem[..] == old(umem[..]) && (r.kicked <==> !xsk.needWakeup || parked)
      else SGOutcome(xsk.c, xsk.needWakeup, parked, old(umem[..]), umem[..], ps, at.tx, r, xsk.TxView(), chains, batch)
    ensures r.Queued? && r.n > 0 ==> Action.Transmit(batch) in post
    ensures xsk.kernel.flags == old(xsk.kernel.flags) + if xsk.needWakeup && (r.NoRoom? || (r.Queued? && r.n > 0)) then [parked] else []
  {
    hide Runs; hide Step; hide Enabled; hide Ring.Valid; hide Inv; hide Aligned; hide TxKernelSteps; hide WentOut;
    hide Fits; hide Oversized; hide Reclaims; hide SGOutcome;
    hide Socket.View;
    chains, batch := [], [];
    ghost var s0, u0 := xsk.View(), umem[..];
    var free;
    free, pre, at := xsk.Begin();
    ghost var before := xsk.TxView();
    RunKeepsInv(xsk.c, s0, pre, at);
    post := [];
    if free == 0 {
      var kicked;
      kicked, parked, post := xsk.Wake(at, []);
      r := NoRoom(kicked);
    } else {
      var bad := FirstOversized(xsk.c.frameSize, ps);
      if bad >= 0 {
        r, parked := TooLong(bad), false;
        TooLongOutcome(xsk.c, xsk.needWakeup, parked, u0, ps, before, bad);
      } else {
        var n, kicked;
        n, kicked, parked, post, chains, batch := QueuePayloads(xsk, umem, ps, free);
        r := Queued(n, kicked);
        QueuedOutcome(xsk.c, xsk.needWakeup, parked, u0, umem[..], ps, before, n, kicked, xsk.TxView(), chains, batch);
      }
    }
    RunKeepsInv(xsk.c, at, post, xsk.View());
  }

  /** End to end, at any point of a reader's history: if nothing was held back when a batch that
      went out began to arrive, then once all of it has been received, in however many reads,
      exactly its payloads have been returned since, and nothing is held back again. `u` and `v`
      are the two UMEMs while this batch is in them. */
  lemma ReadBack(reader: PacketReader, stream0: seq<Desc>, returned0: seq<seq<Desc>>, u: seq<byte>, fs: nat,
                 chains: seq<seq<Desc>>, ps: seq<seq<byte>>, v: seq<byte>, got: seq<Desc>)
    requires fs > 0 && Carries(u, fs, chains, ps) && Delivered(u, Flatten(chains), v, got)
    requires Group(stream0) == Grouped(returned0, []) && reader.Valid() && reader.stream == stream0 + got
    ensures reader.pktPartial == [] && returned0 <= reader.returned
    ensures var since := reader.returned[|returned0|..];
      (forall p :: p in since ==> InUmem(v, p)) && Payloads(v, since) == ps
  {
    hide Carries; hide Delivered; hide Group;
    RoundTrip(u, fs, chains, ps, v, got);
    GroupAppend(stream0, got);
    assert [] + got == got;
    assert reader.returned[|returned0|..] == Group(got).pkts;
  }
}
