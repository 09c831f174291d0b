/** No frame is ever lost, duplicated or moved to the wrong region, in any interleaving. */
module FrameConservation {
  import opened Bits
  import opened FramePools
  import opened SocketProtocol

  function RxTotal(c: Config, rx: RxState): multiset<nat>
    requires c.Valid()
  {
    multiset(rx.pool) + multiset(rx.fill) + rx.kernel + multiset(Bases(c, rx.ring)) + rx.app
  }

  function TxTotal(c: Config, tx: TxState): multiset<nat>
    requires c.Valid()
  {
    multiset(tx.pool) + tx.app + multiset(Bases(c, tx.ring)) + tx.kernel + multiset(BasesOf(c, tx.comp))
  }

  function AllFrames(c: Config): multiset<nat>
    requires c.Valid()
  {
    multiset(FrameAddrs(0, c.numFrames, c.frameSize))
  }

  predicate AllBelow(m: multiset<nat>, limit: nat) { forall f :: f in m ==> f < limit }
  predicate NoneBelow(m: multiset<nat>, limit: nat) { forall f :: f in m ==> limit <= f }

  /** Receive-side places hold receive frames only; the tx pool and allocated frames
      are transmit frames; so is everything on its way out, unless rx frames are reused. */
  predicate Regions(c: Config, s: State)
    requires c.Valid()
  {
    && AllBelow(RxTotal(c, s.rx), c.TxStart())
    && NoneBelow(multiset(s.tx.pool) + s.tx.app, c.TxStart())
    && (!c.reuse ==> NoneBelow(TxTotal(c, s.tx), c.TxStart()))
  }

  predicate Counters(c: Config, s: State) {
    && s.rx.numFilled == |s.rx.fill| + |s.rx.kernel| + |s.rx.ring|
    && s.tx.numTransmitted == |s.tx.ring| + |s.tx.kernel| + |s.tx.comp|
    && |s.rx.fill| <= c.fillSize && |s.rx.ring| <= c.rxSize
    && |s.tx.ring| <= c.txSize && |s.tx.comp| <= c.compSize
  }

  predicate Inv(c: Config, s: State)
    requires c.Valid()
  {
    RxTotal(c, s.rx) + TxTotal(c, s.tx) == AllFrames(c) && Regions(c, s) && Counters(c, s)
  }

  // -------- Sequences and multisets --------

  lemma SplitAt<T>(q: seq<T>, n: nat)
    requires n <= |q|
    ensures multiset(q) == multiset(q[..n]) + multiset(q[n..])
  {
    assert q == q[..n] + q[n..];
  }

  lemma BasesAppend(c: Config, x: seq<Desc>, y: seq<Desc>)
    requires c.Valid()
    ensures Bases(c, x + y) == Bases(c, x) + Bases(c, y)
    ensures multiset(Bases(c, x + y)) == multiset(Bases(c, x)) + multiset(Bases(c, y))
  {
    assert Bases(c, x + y) == Bases(c, x) + Bases(c, y);
  }

  lemma BasesOne(c: Config, d: Desc)
    requires c.Valid()
    ensures multiset(Bases(c, [d])) == multiset{FrameBase(c, d.addr)}
  {
    assert Bases(c, [d]) == [FrameBase(c, d.addr)];
  }

  lemma BasesSplit(c: Config, q: seq<Desc>, n: nat)
    requires c.Valid() && n <= |q|
    ensures multiset(Bases(c, q)) == multiset(Bases(c, q[..n])) + multiset(Bases(c, q[n..]))
  {
    assert q == q[..n] + q[n..];
    BasesAppend(c, q[..n], q[n..]);
  }

  lemma BasesOfSplit(c: Config, q: seq<nat>, n: nat)
    requires c.Valid() && n <= |q|
    ensures multiset(BasesOf(c, q)) == multiset(BasesOf(c, q[..n])) + multiset(BasesOf(c, q[n..]))
  {
    assert BasesOf(c, q) == BasesOf(c, q[..n]) + BasesOf(c, q[n..]);
  }

  lemma BasesOfAppend(c: Config, q: seq<nat>, addr: nat)
    requires c.Valid()
    ensures multiset(BasesOf(c, q + [addr])) == multiset(BasesOf(c, q)) + multiset{FrameBase(c, addr)}
  {
    assert BasesOf(c, q + [addr]) == BasesOf(c, q) + [FrameBase(c, addr)];
  }

  /** Routing by region splits a list of frames: each side gets exactly its own. */
  lemma {:induction false} RoutingSplits(q: seq<nat>, limit: nat)
    ensures multiset(Below(q, limit)) + multiset(NotBelow(q, limit)) == multiset(q)
    ensures AllBelow(multiset(Below(q, limit)), limit)
    ensures NoneBelow(multiset(NotBelow(q, limit)), limit)
    decreases |q|
  {
    hide Below; hide NotBelow;
    if q == [] {
      SplitNone(limit);
    } else {
      var q', f := q[..|q| - 1], q[|q| - 1];
      RoutingSplits(q', limit);
      SplitLast(q, limit);
      assert q == q' + [f];
      assert multiset(q) == multiset(q') + multiset{f};
    }
  }

  lemma SplitNone(limit: nat)
    ensures Below([], limit) == [] && NotBelow([], limit) == []
  {
  }

  /** What the last frame adds to its side. */
  lemma SplitLast(q: seq<nat>, limit: nat)
    requires q != []
    ensures var q', f := q[..|q| - 1], q[|q| - 1];
            if f < limit then Below(q, limit) == Below(q', limit) + [f] && NotBelow(q, limit) == NotBelow(q', limit)
            else Below(q, limit) == Below(q', limit) && NotBelow(q, limit) == NotBelow(q', limit) + [f]
  {
  }

  lemma RoutedFrames(c: Config, addrs: seq<nat>)
    requires c.Valid()
    ensures multiset(ToRx(c, addrs)) + multiset(ToTx(c, addrs)) == multiset(BasesOf(c, addrs))
    ensures AllBelow(multiset(ToRx(c, addrs)), c.TxStart())
    ensures c.reuse ==> NoneBelow(multiset(ToTx(c, addrs)), c.TxStart())
    ensures !c.reuse ==> ToRx(c, addrs) == []
  {
    RoutingSplits(BasesOf(c, addrs), c.TxStart());
  }

  // -------- Each step keeps the frames --------

  lemma RxCount(c: Config, rx: RxState, f: nat)
    requires c.Valid()
    ensures RxTotal(c, rx)[f] == multiset(rx.pool)[f] + multiset(rx.fill)[f] + rx.kernel[f]
                                 + multiset(Bases(c, rx.ring))[f] + rx.app[f]
  {
  }

  lemma TxCount(c: Config, tx: TxState, f: nat)
    requires c.Valid()
    ensures TxTotal(c, tx)[f] == multiset(tx.pool)[f] + tx.app[f] + multiset(Bases(c, tx.ring))[f]
                                 + tx.kernel[f] + multiset(BasesOf(c, tx.comp))[f]
  {
  }

  lemma Same(x: multiset<nat>, y: multiset<nat>)
    requires forall f :: x[f] == y[f]
    ensures x == y
  {
  }

  lemma RxStepSplits(c: Config, s: State, a: Action)
    requires c.Valid() && Enabled(c, s, a)
    ensures a.KernelTakeFill? ==> multiset(s.rx.fill) == multiset{s.rx.fill[0]} + multiset(s.rx.fill[1..])
    ensures a.KernelDeliver? ==>
      multiset(Bases(c, s.rx.ring + [a.desc])) == multiset(Bases(c, s.rx.ring)) + multiset{FrameBase(c, a.desc.addr)}
    ensures a.Fill? ==> var k := |s.rx.pool| - a.n;
      multiset(s.rx.pool) == multiset(s.rx.pool[..k]) + multiset(s.rx.pool[k..])
    ensures a.Receive? ==>
      multiset(Bases(c, s.rx.ring)) == multiset(Bases(c, s.rx.ring[..a.n])) + multiset(Bases(c, s.rx.ring[a.n..]))
  {
    match a
    case KernelTakeFill => SplitAt(s.rx.fill, 1); assert s.rx.fill[..1] == [s.rx.fill[0]];
    case KernelDeliver(d) => BasesAppend(c, s.rx.ring, [d]); BasesOne(c, d);
    case Fill(n) => SplitAt(s.rx.pool, |s.rx.pool| - n);
    case Receive(n) => BasesSplit(c, s.rx.ring, n);
    case _ =>
  }

  lemma RxKeptAt(c: Config, s: State, a: Action, f: nat)
    requires c.Valid() && Enabled(c, s, a) && !a.Transmit? && !a.Complete?
    ensures RxTotal(c, RxStep(c, s.rx, a))[f] == RxTotal(c, s.rx)[f]
  {
    if a.KernelTakeFill? || a.KernelDeliver? {
      RxKernelKeptAt(c, s, a, f);
    } else {
      RxOwnKeptAt(c, s, a, f);
    }
  }

  lemma RxKernelKeptAt(c: Config, s: State, a: Action, f: nat)
    requires c.Valid() && Enabled(c, s, a) && (a.KernelTakeFill? || a.KernelDeliver?)
    ensures RxTotal(c, RxStep(c, s.rx, a))[f] == RxTotal(c, s.rx)[f]
  {
    hide RxTotal; hide Bases; hide FrameBase;
    RxStepSplits(c, s, a);
    RxCount(c, s.rx, f);
    RxCount(c, RxStep(c, s.rx, a), f);
  }

  lemma RxOwnKeptAt(c: Config, s: State, a: Action, f: nat)
    requires c.Valid() && Enabled(c, s, a) && !a.Transmit? && !a.Complete? && !a.KernelTakeFill? && !a.KernelDeliver?
    ensures RxTotal(c, RxStep(c, s.rx, a))[f] == RxTotal(c, s.rx)[f]
  {
    hide RxTotal; hide Bases; hide FrameBase;
    RxStepSplits(c, s, a);
    RxCount(c, s.rx, f);
    RxCount(c, RxStep(c, s.rx, a), f);
  }

  lemma RxKept(c: Config, s: State, a: Action)
    requires c.Valid() && Enabled(c, s, a) && !a.Transmit? && !a.Complete?
    ensures RxTotal(c, Step(c, s, a).rx) == RxTotal(c, s.rx)
  {
    hide RxTotal; hide RxStep; hide TxStep; hide Enabled;
    forall f: nat ensures RxTotal(c, RxStep(c, s.rx, a))[f] == RxTotal(c, s.rx)[f] { RxKeptAt(c, s, a, f); }
    Same(RxTotal(c, RxStep(c, s.rx, a)), RxTotal(c, s.rx));
  }

  lemma TxStepSplits(c: Config, s: State, a: Action)
    requires c.Valid() && Enabled(c, s, a)
    ensures a.KernelTakeTx? ==>
      multiset(Bases(c, s.tx.ring)) == multiset{FrameBase(c, s.tx.ring[0].addr)} + multiset(Bases(c, s.tx.ring[1..]))
    ensures a.KernelComplete? ==>
      multiset(BasesOf(c, s.tx.comp + [a.addr])) == multiset(BasesOf(c, s.tx.comp)) + multiset{FrameBase(c, a.addr)}
    ensures a.Alloc? ==> var k := |s.tx.pool| - a.n;
      multiset(s.tx.pool) == multiset(s.tx.pool[..k]) + multiset(s.tx.pool[k..])
    ensures a.Transmit? ==>
      multiset(Bases(c, s.tx.ring + a.descs)) == multiset(Bases(c, s.tx.ring)) + multiset(Bases(c, a.descs))
    ensures a.Complete? ==>
      multiset(BasesOf(c, s.tx.comp)) == multiset(BasesOf(c, s.tx.comp[..a.n])) + multiset(BasesOf(c, s.tx.comp[a.n..]))
  {
    match a
    case KernelTakeTx =>
      BasesSplit(c, s.tx.ring, 1);
      assert s.tx.ring[..1] == [s.tx.ring[0]];
      BasesOne(c, s.tx.ring[0]);
    case KernelComplete(addr) => BasesOfAppend(c, s.tx.comp, addr);
    case Alloc(n) => SplitAt(s.tx.pool, |s.tx.pool| - n);
    case Transmit(ds) => BasesAppend(c, s.tx.ring, ds);
    case Complete(n) => BasesOfSplit(c, s.tx.comp, n);
    case _ =>
  }

  lemma TxKeptAt(c: Config, s: State, a: Action, f: nat)
    requires c.Valid() && Enabled(c, s, a) && !a.Transmit? && !a.Complete?
    ensures TxTotal(c, TxStep(c, s.tx, a))[f] == TxTotal(c, s.tx)[f]
  {
    if a.KernelTakeTx? || a.KernelComplete? {
      TxKernelKeptAt(c, s, a, f);
    } else {
      TxOwnKeptAt(c, s, a, f);
    }
  }

  lemma TxKernelKeptAt(c: Config, s: State, a: Action, f: nat)
    requires c.Valid() && Enabled(c, s, a) && (a.KernelTakeTx? || a.KernelComplete?)
    ensures TxTotal(c, TxStep(c, s.tx, a))[f] == TxTotal(c, s.tx)[f]
  {
    hide TxTotal; hide Bases; hide BasesOf; hide FrameBase; hide ToTx;
    TxStepSplits(c, s, a);
    TxCount(c, s.tx, f);
    TxCount(c, TxStep(c, s.tx, a), f);
  }

  lemma TxOwnKeptAt(c: Config, s: State, a: Action, f: nat)
    requires c.Valid() && Enabled(c, s, a) && !a.Transmit? && !a.Complete? && !a.KernelTakeTx? && !a.KernelComplete?
    ensures TxTotal(c, TxStep(c, s.tx, a))[f] == TxTotal(c, s.tx)[f]
  {
    hide TxTotal; hide Bases; hide BasesOf; hide FrameBase; hide ToTx;
    TxStepSplits(c, s, a);
    TxCount(c, s.tx, f);
    TxCount(c, TxStep(c, s.tx, a), f);
  }

  lemma TxKept(c: Config, s: State, a: Action)
    requires c.Valid() && Enabled(c, s, a) && !a.Transmit? && !a.Complete?
    ensures TxTotal(c, Step(c, s, a).tx) == TxTotal(c, s.tx)
  {
    hide TxTotal; hide RxStep; hide TxStep; hide Enabled;
    forall f: nat ensures TxTotal(c, TxStep(c, s.tx, a))[f] == TxTotal(c, s.tx)[f] { TxKeptAt(c, s, a, f); }
    Same(TxTotal(c, TxStep(c, s.tx, a)), TxTotal(c, s.tx));
  }

  /** A transmitted frame leaves the place its region says, so nothing is lost in hairpin mode. */
  lemma SentAt(c: Config, s: State, ds: seq<Desc>, f: nat)
    requires c.Valid() && Enabled(c, s, Transmit(ds)) && Regions(c, s)
    ensures var t, sent := Step(c, s, Transmit(ds)), multiset(Bases(c, ds))[f];
      && t.tx.app[f] + sent <= s.tx.app[f] + (if c.reuse then sent else 0)
      && t.rx.app[f] + t.tx.app[f] + sent == s.rx.app[f] + s.tx.app[f]
      && t.rx.app[f] <= s.rx.app[f]
      && (!c.reuse ==> t.rx == s.rx)
  {
    hide Bases;
    assert f in s.rx.app ==> f in RxTotal(c, s.rx);
    assert f in s.tx.app ==> f in multiset(s.tx.pool) + s.tx.app;
    assert multiset(Bases(c, ds))[f] <= Sendable(c, s)[f];
  }

  lemma TransmitKeptAt(c: Config, s: State, ds: seq<Desc>, f: nat)
    requires c.Valid() && Enabled(c, s, Transmit(ds)) && Regions(c, s)
    ensures var t := Step(c, s, Transmit(ds));
      && RxTotal(c, t.rx)[f] + TxTotal(c, t.tx)[f] == RxTotal(c, s.rx)[f] + TxTotal(c, s.tx)[f]
      && RxTotal(c, t.rx)[f] <= RxTotal(c, s.rx)[f]
      && (!c.reuse ==> TxTotal(c, t.tx)[f] == TxTotal(c, s.tx)[f])
  {
    var t := Step(c, s, Transmit(ds));
    SentAt(c, s, ds, f);
    TxStepSplits(c, s, Transmit(ds));
    hide RxTotal; hide TxTotal; hide Bases; hide BasesOf; hide Regions; hide Sendable;
    RxCount(c, s.rx, f);
    RxCount(c, t.rx, f);
    TxCount(c, s.tx, f);
    TxCount(c, t.tx, f);
  }

  lemma TransmitKept(c: Config, s: State, ds: seq<Desc>)
    requires c.Valid() && Enabled(c, s, Transmit(ds)) && Regions(c, s)
    ensures var t := Step(c, s, Transmit(ds));
      && RxTotal(c, t.rx) + TxTotal(c, t.tx) == RxTotal(c, s.rx) + TxTotal(c, s.tx)
      && RxTotal(c, t.rx) <= RxTotal(c, s.rx)
      && (!c.reuse ==> TxTotal(c, t.tx) == TxTotal(c, s.tx))
  {
    hide RxTotal; hide TxTotal; hide Regions; hide Enabled; hide Step;
    var t := Step(c, s, Transmit(ds));
    forall f: nat
      ensures (RxTotal(c, t.rx) + TxTotal(c, t.tx))[f] == (RxTotal(c, s.rx) + TxTotal(c, s.tx))[f]
      ensures RxTotal(c, t.rx)[f] <= RxTotal(c, s.rx)[f]
      ensures !c.reuse ==> TxTotal(c, t.tx)[f] == TxTotal(c, s.tx)[f]
    {
      TransmitKeptAt(c, s, ds, f);
    }
  }

  lemma CompleteKeptAt(c: Config, s: State, n: nat, f: nat)
    requires c.Valid() && Enabled(c, s, Complete(n))
    ensures var t := Step(c, s, Complete(n));
      && RxTotal(c, t.rx)[f] + TxTotal(c, t.tx)[f] == RxTotal(c, s.rx)[f] + TxTotal(c, s.tx)[f]
      && RxTotal(c, t.rx)[f] == RxTotal(c, s.rx)[f] + multiset(ToRx(c, s.tx.comp[..n]))[f]
      && TxTotal(c, t.tx)[f] <= TxTotal(c, s.tx)[f]
  {
    var t := Step(c, s, Complete(n));
    TxStepSplits(c, s, Complete(n));
    RoutedFrames(c, s.tx.comp[..n]);
    hide ToRx; hide ToTx; hide Bases; hide BasesOf; hide RxTotal; hide TxTotal;
    assert (multiset(ToRx(c, s.tx.comp[..n])) + multiset(ToTx(c, s.tx.comp[..n])))[f]
      == multiset(BasesOf(c, s.tx.comp[..n]))[f];
    RxCount(c, s.rx, f);
    RxCount(c, t.rx, f);
    TxCount(c, s.tx, f);
    TxCount(c, t.tx, f);
  }

  lemma CompleteKept(c: Config, s: State, n: nat)
    requires c.Valid() && Enabled(c, s, Complete(n)) && Regions(c, s)
    ensures var t := Step(c, s, Complete(n));
      && RxTotal(c, t.rx) + TxTotal(c, t.tx) == RxTotal(c, s.rx) + TxTotal(c, s.tx)
      && RxTotal(c, t.rx) == RxTotal(c, s.rx) + multiset(ToRx(c, s.tx.comp[..n]))
      && TxTotal(c, t.tx) <= TxTotal(c, s.tx)
  {
    EnabledComplete(c, s, n);
    hide RxTotal; hide TxTotal; hide Regions; hide Enabled; hide Step; hide ToRx; hide ToTx; hide Bases; hide BasesOf;
    var t := Step(c, s, Complete(n));
    CompleteSums(c, s, n, RxTotal(c, t.rx), TxTotal(c, t.tx), RxTotal(c, s.rx), TxTotal(c, s.tx), multiset(ToRx(c, s.tx.comp[..n])));
  }

  lemma CompleteSums(c: Config, s: State, n: nat, a: multiset<nat>, b: multiset<nat>, x: multiset<nat>, y: multiset<nat>,
                     z: multiset<nat>)
    requires c.Valid() && Enabled(c, s, Complete(n)) && n <= |s.tx.comp| && z == multiset(ToRx(c, s.tx.comp[..n]))
    requires var t := Step(c, s, Complete(n)); a == RxTotal(c, t.rx) && b == TxTotal(c, t.tx)
    requires x == RxTotal(c, s.rx) && y == TxTotal(c, s.tx)
    ensures a + b == x + y && a == x + z && b <= y
  {
    hide RxTotal; hide TxTotal; hide Enabled; hide Step; hide ToRx;
    forall f: nat ensures a[f] + b[f] == x[f] + y[f] && a[f] == x[f] + z[f] && b[f] <= y[f] {
      CompleteKeptAt(c, s, n, f);
    }
    SumsAgree(a, b, x, y, z);
  }

  lemma SumsAgree(a: multiset<nat>, b: multiset<nat>, x: multiset<nat>, y: multiset<nat>, z: multiset<nat>)
    requires forall f: nat :: a[f] + b[f] == x[f] + y[f]
    requires forall f: nat :: a[f] == x[f] + z[f]
    requires forall f: nat :: b[f] <= y[f]
    ensures a + b == x + y && a == x + z && b <= y
  {
  }

  lemma EnabledComplete(c: Config, s: State, n: nat)
    requires c.Valid() && Enabled(c, s, Complete(n))
    ensures n <= |s.tx.comp|
  {
  }

  lemma FramesKept(c: Config, s: State, a: Action)
    requires c.Valid() && Enabled(c, s, a) && Regions(c, s)
    ensures var t := Step(c, s, a);
      RxTotal(c, t.rx) + TxTotal(c, t.tx) == RxTotal(c, s.rx) + TxTotal(c, s.tx)
  {
    hide RxTotal; hide TxTotal; hide Step; hide Enabled; hide Regions;
    if a.Transmit? {
      TransmitKept(c, s, a.descs);
    } else if a.Complete? {
      CompleteKept(c, s, a.n);
    } else {
      RxKept(c, s, a);
      TxKept(c, s, a);
    }
  }

  lemma RxRegionKept(c: Config, s: State, a: Action)
    requires c.Valid() && Enabled(c, s, a) && Regions(c, s)
    ensures AllBelow(RxTotal(c, Step(c, s, a).rx), c.TxStart())
  {
    hide RxTotal; hide TxTotal; hide Step; hide Enabled; hide ToRx; hide ToTx;
    if a.Transmit? {
      TransmitKept(c, s, a.descs);
    } else if a.Complete? {
      CompleteKept(c, s, a.n);
      EnabledComplete(c, s, a.n);
      RoutedFrames(c, s.tx.comp[..a.n]);
    } else {
      RxKept(c, s, a);
    }
  }

  lemma TxRegionKept(c: Config, s: State, a: Action)
    requires c.Valid() && Enabled(c, s, a) && Regions(c, s) && !c.reuse
    ensures NoneBelow(TxTotal(c, Step(c, s, a).tx), c.TxStart())
  {
    hide RxTotal; hide TxTotal; hide Step; hide Enabled;
    if a.Transmit? {
      TransmitKept(c, s, a.descs);
    } else if a.Complete? {
      CompleteKept(c, s, a.n);
    } else {
      TxKept(c, s, a);
    }
  }

  /** What a step may add to the transmit pool and to the allocated frames. */
  lemma PoolGains(c: Config, s: State, a: Action)
    requires c.Valid() && Enabled(c, s, a)
    ensures var p, p' := multiset(s.tx.pool) + s.tx.app, multiset(Step(c, s, a).tx.pool) + Step(c, s, a).tx.app;
      p' <= if a.Complete? && a.n <= |s.tx.comp| then p + multiset(ToTx(c, s.tx.comp[..a.n])) else p
  {
    hide ToTx; hide ToRx; hide Bases; hide BasesOf;
    if a.Alloc? {
      SplitAt(s.tx.pool, |s.tx.pool| - a.n);
    }
  }

  lemma TxOwnedKept(c: Config, s: State, a: Action)
    requires c.Valid() && Enabled(c, s, a) && Regions(c, s)
    ensures NoneBelow(multiset(Step(c, s, a).tx.pool) + Step(c, s, a).tx.app, c.TxStart())
  {
    hide RxTotal; hide Step; hide Enabled; hide ToTx; hide ToRx; hide Bases; hide BasesOf;
    if c.reuse {
      PoolGains(c, s, a);
      if a.Complete? {
        EnabledComplete(c, s, a.n);
        RoutedFrames(c, s.tx.comp[..a.n]);
      }
    } else {
      TxRegionKept(c, s, a);
      var t := Step(c, s, a);
      forall f | f in multiset(t.tx.pool) + t.tx.app ensures c.TxStart() <= f {
        assert f in TxTotal(c, t.tx);
      }
    }
  }

  lemma CountersKept(c: Config, s: State, a: Action)
    requires c.Valid() && Enabled(c, s, a) && Counters(c, s)
    ensures Counters(c, Step(c, s, a))
  {
    RxCountersKept(c, s, a);
    TxCountersKept(c, s, a);
  }

  lemma RxCountersKept(c: Config, s: State, a: Action)
    requires c.Valid() && Enabled(c, s, a) && Counters(c, s)
    ensures var rx := Step(c, s, a).rx;
      rx.numFilled == |rx.fill| + |rx.kernel| + |rx.ring| && |rx.fill| <= c.fillSize && |rx.ring| <= c.rxSize
  {
    hide ToTx; hide ToRx; hide TxStep; hide FrameBase; hide Bases; hide Sendable;
  }

  lemma TxCountersKept(c: Config, s: State, a: Action)
    requires c.Valid() && Enabled(c, s, a) && Counters(c, s)
    ensures var tx := Step(c, s, a).tx;
      tx.numTransmitted == |tx.ring| + |tx.kernel| + |tx.comp| && |tx.ring| <= c.txSize && |tx.comp| <= c.compSize
  {
    hide ToTx; hide ToRx; hide RxStep; hide FrameBase; hide Bases; hide Sendable;
  }

  lemma StepKeepsInv(c: Config, s: State, a: Action)
    requires c.Valid() && Enabled(c, s, a) && Inv(c, s)
    ensures Inv(c, Step(c, s, a))
  {
    hide RxTotal; hide TxTotal; hide Step; hide Enabled; hide Counters;
    FramesKept(c, s, a);
    RxRegionKept(c, s, a);
    TxOwnedKept(c, s, a);
    if !c.reuse {
      TxRegionKept(c, s, a);
    }
    CountersKept(c, s, a);
  }

  lemma {:induction false} RunKeepsInv(c: Config, s: State, acts: seq<Action>, t: State)
    requires c.Valid() && Inv(c, s) && Runs(c, s, acts, t)
    ensures Inv(c, t)
    decreases |acts|
  {
    hide Inv; hide Step; hide Enabled;
    if acts != [] {
      StepKeepsInv(c, s, acts[0]);
      RunKeepsInv(c, Step(c, s, acts[0]), acts[1..], t);
    }
  }

  lemma InitInv(c: Config)
    requires c.Valid()
    ensures Inv(c, Init(c))
  {
    var s := Init(c);
    var whole := FrameAddrs(0, c.numFrames, c.frameSize);
    assert whole == s.rx.pool + s.tx.pool;
    assert RxTotal(c, s.rx) == multiset(s.rx.pool);
    assert TxTotal(c, s.tx) == multiset(s.tx.pool);
    forall f | f in multiset(s.rx.pool) ensures f < c.TxStart() {
      var i :| 0 <= i < |s.rx.pool| && s.rx.pool[i] == f;
      MulLess(i, c.RxFrames(), c.frameSize);
    }
    forall f | f in multiset(s.tx.pool) ensures c.TxStart() <= f {
      var i :| 0 <= i < |s.tx.pool| && s.tx.pool[i] == f;
      MulMore(c.RxFrames() + i, c.RxFrames(), c.frameSize);
    }
  }

  lemma MulLess(i: nat, n: nat, d: nat)
    requires i < n && d > 0
    ensures i * d < n * d
  {
  }

  lemma MulMore(i: nat, n: nat, d: nat)
    requires n <= i
    ensures n * d <= i * d
  {
  }

  // -------- What conservation means for one frame --------

  function Places(c: Config, s: State): (r: seq<multiset<nat>>)
    requires c.Valid()
    ensures |r| == 10
  {
    [multiset(s.rx.pool), multiset(s.rx.fill), s.rx.kernel, multiset(Bases(c, s.rx.ring)), s.rx.app,
     multiset(s.tx.pool), s.tx.app, multiset(Bases(c, s.tx.ring)), s.tx.kernel, multiset(BasesOf(c, s.tx.comp))]
  }

  lemma {:induction false} FramesDistinct(base: nat, count: nat, fs: nat, i: nat)
    requires fs > 0 && i < count
    ensures multiset(FrameAddrs(base, count, fs))[(base + i) * fs] == 1
    decreases count
  {
    var q := FrameAddrs(base, count, fs);
    var head, last := FrameAddrs(base, count - 1, fs), (base + count - 1) * fs;
    assert q == head + [last];
    if i < count - 1 {
      FramesDistinct(base, count - 1, fs, i);
      MulLess(base + i, base + count - 1, fs);
    } else if last in head {
      var k :| 0 <= k < |head| && head[k] == last;
      MulLess(base + k, base + count - 1, fs);
    }
  }

  function Sum(ps: seq<multiset<nat>>, f: nat): nat {
    if ps == [] then 0 else ps[0][f] + Sum(ps[1..], f)
  }

  lemma {:induction false} SumIsOne(ps: seq<multiset<nat>>, f: nat)
    requires Sum(ps, f) == 1
    ensures exists p :: 0 <= p < |ps| && ps[p][f] == 1 && forall o :: 0 <= o < |ps| && o != p ==> f !in ps[o]
  {
    if ps[0][f] == 1 {
      SumIsZero(ps[1..], f);
      assert forall o :: 0 < o < |ps| ==> ps[o] == ps[1..][o - 1];
    } else {
      SumIsOne(ps[1..], f);
      var p :| 0 <= p < |ps[1..]| && ps[1..][p][f] == 1
        && forall o :: 0 <= o < |ps[1..]| && o != p ==> f !in ps[1..][o];
      assert ps[p + 1] == ps[1..][p];
      forall o | 0 <= o < |ps| && o != p + 1 ensures f !in ps[o] {
        if o > 0 { assert ps[o] == ps[1..][o - 1]; }
      }
    }
  }

  lemma {:induction false} SumIsZero(ps: seq<multiset<nat>>, f: nat)
    requires Sum(ps, f) == 0
    ensures forall o :: 0 <= o < |ps| ==> f !in ps[o]
  {
    if ps != [] {
      SumIsZero(ps[1..], f);
      assert forall o :: 0 < o < |ps| ==> ps[o] == ps[1..][o - 1];
    }
  }

  lemma SumTail(ps: seq<multiset<nat>>, i: nat, f: nat)
    requires i < |ps|
    ensures Sum(ps[i..], f) == ps[i][f] + Sum(ps[i + 1..], f)
  {
    assert ps[i..][1..] == ps[i + 1..];
  }

  lemma SumTen(p: seq<multiset<nat>>, f: nat)
    requires |p| == 10
    ensures Sum(p, f) == p[0][f] + p[1][f] + p[2][f] + p[3][f] + p[4][f] + p[5][f] + p[6][f] + p[7][f] + p[8][f] + p[9][f]
  {
    forall i: nat | i < 10 ensures Sum(p[i..], f) == p[i][f] + Sum(p[i + 1..], f) { SumTail(p, i, f); }
    hide Sum;
    assert p[0..] == p;
    assert Sum(p[10..], f) == 0 by { SumNone(p[10..], f); }
  }

  lemma SumNone(p: seq<multiset<nat>>, f: nat)
    requires p == []
    ensures Sum(p, f) == 0
  {
  }

  lemma TotalIsSum(c: Config, s: State, f: nat)
    requires c.Valid()
    ensures Sum(Places(c, s), f) == (RxTotal(c, s.rx) + TxTotal(c, s.tx))[f]
  {
    hide RxTotal; hide TxTotal; hide Bases; hide BasesOf;
    RxCount(c, s.rx, f);
    TxCount(c, s.tx, f);
    SumTen(Places(c, s), f);
  }

  lemma ReachableInv(c: Config, acts: seq<Action>, s: State)
    requires c.Valid() && Runs(c, Init(c), acts, s)
    ensures Inv(c, s)
  {
    hide Inv; hide Init; hide Runs;
    InitInv(c);
    RunKeepsInv(c, Init(c), acts, s);
  }

  /** Receive-side places (0 to 4) hold receive frames; the tx pool and allocated frames
      (5 and 6) are transmit frames; so are the rest unless received frames may be sent. */
  lemma HomeRegion(c: Config, s: State, f: nat, p: nat)
    requires c.Valid() && Regions(c, s) && p < 10 && f in Places(c, s)[p]
    ensures p < 5 ==> f < c.TxStart()
    ensures p == 5 || p == 6 || (p > 6 && !c.reuse) ==> c.TxStart() <= f
  {
    hide Bases; hide BasesOf;
    if p < 5 {
      assert f in RxTotal(c, s.rx);
    } else if p <= 6 {
      assert f in multiset(s.tx.pool) + s.tx.app;
    } else {
      assert f in TxTotal(c, s.tx);
    }
  }

  /** In every reachable state each frame of the UMEM is in exactly one place, once. */
  lemma OneOwner(c: Config, acts: seq<Action>, s: State, i: nat)
    requires c.Valid() && Runs(c, Init(c), acts, s) && i < c.numFrames
    ensures var f := i * c.frameSize; var ps := Places(c, s);
      exists p :: 0 <= p < 10 && ps[p][f] == 1 && forall o :: 0 <= o < 10 && o != p ==> f !in ps[o]
  {
    hide Init; hide Runs; hide Regions; hide Counters; hide Places; hide RxTotal; hide TxTotal;
    ReachableInv(c, acts, s);
    FramesDistinct(0, c.numFrames, c.frameSize, i);
    TotalIsSum(c, s, i * c.frameSize);
    SumIsOne(Places(c, s), i * c.frameSize);
  }

  lemma {:induction false} AtMostOnce(q: seq<nat>, i: nat, j: nat)
    requires i < j < |q| && q[i] == q[j]
    ensures multiset(q)[q[i]] >= 2
  {
    assert q == q[..j] + [q[j]] + q[j + 1..];
    assert q[i] in q[..j];
  }

  lemma FrameIndex(c: Config, f: nat)
    requires c.Valid() && f in AllFrames(c)
    ensures f % c.frameSize == 0 && f + c.frameSize <= c.numFrames * c.frameSize && AllFrames(c)[f] == 1
  {
    var q := FrameAddrs(0, c.numFrames, c.frameSize);
    var i :| 0 <= i < |q| && q[i] == f;
    FramesDistinct(0, c.numFrames, c.frameSize, i);
    DivModUnique(f, c.frameSize, i, 0);
    MulMore(c.numFrames, i + 1, c.frameSize);
  }

  /** The transmit pool holds whole, aligned frames of the UMEM, none twice. */
  lemma PoolDistinct(c: Config, s: State)
    requires c.Valid() && Inv(c, s)
    ensures forall i :: 0 <= i < |s.tx.pool| ==>
      s.tx.pool[i] % c.frameSize == 0 && s.tx.pool[i] + c.frameSize <= c.numFrames * c.frameSize
    ensures forall i, j :: 0 <= i < j < |s.tx.pool| ==> s.tx.pool[i] != s.tx.pool[j]
  {
    hide RxTotal; hide AllFrames; hide Bases; hide BasesOf; hide Regions; hide Counters;
    var q := s.tx.pool;
    forall i | 0 <= i < |q|
      ensures q[i] % c.frameSize == 0 && q[i] + c.frameSize <= c.numFrames * c.frameSize
      ensures multiset(q)[q[i]] <= 1
    {
      TxCount(c, s.tx, q[i]);
      assert (RxTotal(c, s.rx) + TxTotal(c, s.tx))[q[i]] == AllFrames(c)[q[i]];
      assert q[i] in AllFrames(c);
      FrameIndex(c, q[i]);
    }
    forall i, j | 0 <= i < j < |q| ensures q[i] != q[j] {
      if q[i] == q[j] { AtMostOnce(q, i, j); }
    }
  }

  // -------- One goroutine on each side --------

  predicate RxSide(a: Action) {
    a.KernelTakeFill? || a.KernelDeliver? || a.Fill? || a.Receive? || a.Recycle?
  }

  /** Why no lock is needed: a receive-side step and a transmit-side step that are both
      possible can happen in either order, with the same result. */
  lemma SidesCommute(c: Config, s: State, a: Action, b: Action)
    requires c.Valid() && !c.reuse && RxSide(a) && !RxSide(b) && Enabled(c, s, a) && Enabled(c, s, b)
    ensures Enabled(c, Step(c, s, a), b) && Enabled(c, Step(c, s, b), a)
    ensures Step(c, Step(c, s, a), b) == Step(c, Step(c, s, b), a)
  {
    RxStepAlone(c, s, a);
    TxStepAlone(c, s, b);
    hide RxStep; hide TxStep; hide Bases; hide BasesOf;
  }

  lemma RxStepAlone(c: Config, s: State, a: Action)
    requires c.Valid() && RxSide(a)
    ensures Step(c, s, a) == State(RxStep(c, s.rx, a), s.tx)
  {
  }

  lemma TxStepAlone(c: Config, s: State, a: Action)
    requires c.Valid() && !c.reuse && !RxSide(a)
    ensures Step(c, s, a) == State(s.rx, TxStep(c, s.tx, a))
  {
    assert s.rx.(pool := s.rx.pool + []) == s.rx;
  }
}
