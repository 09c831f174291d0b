/** When SendFunc is sure to make progress (socket.go:694-702, 738-751, 907-951). */
module SendProgress {
  import opened FramePools
  import opened SocketProtocol
  import opened FrameConservation
  import opened Sockets

  function TxRegion(c: Config): seq<nat>
    requires c.Valid()
  {
    FrameAddrs(c.RxFrames(), c.txFrames, c.frameSize)
  }

  lemma RegionBounds(base: nat, count: nat, fs: nat, limit: nat)
    requires limit <= base
    ensures NoneBelow(multiset(FrameAddrs(base, count, fs)), limit * fs)
  {
    var q := FrameAddrs(base, count, fs);
    forall f | f in multiset(q) ensures limit * fs <= f {
      var i :| 0 <= i < |q| && q[i] == f;
      MulMore(base + i, limit, fs);
    }
  }

  lemma RegionBelow(count: nat, fs: nat)
    requires fs > 0
    ensures AllBelow(multiset(FrameAddrs(0, count, fs)), count * fs)
  {
    var q := FrameAddrs(0, count, fs);
    forall f | f in multiset(q) ensures f < count * fs {
      var i :| 0 <= i < |q| && q[i] == f;
      MulLess(i, count, fs);
    }
  }

  /** Two splits of one multiset by the same bound are the same split. */
  lemma SameSplit(a: multiset<nat>, b: multiset<nat>, x: multiset<nat>, y: multiset<nat>, limit: nat)
    requires a + b == x + y
    requires AllBelow(a, limit) && AllBelow(x, limit) && NoneBelow(b, limit) && NoneBelow(y, limit)
    ensures b == y
  {
    forall f: nat ensures b[f] == y[f] {
      assert (a + b)[f] == (x + y)[f];
      assert f in a ==> f < limit;
      assert f in x ==> f < limit;
      assert f in b ==> limit <= f;
      assert f in y ==> limit <= f;
    }
    Same(b, y);
  }

  /** Without frame reuse the transmit side holds exactly its own region, always. */
  lemma TxHoldsItsRegion(c: Config, s: State)
    requires c.Valid() && !c.reuse && Inv(c, s)
    ensures TxTotal(c, s.tx) == multiset(TxRegion(c))
  {
    hide RxTotal; hide TxTotal;
    var rx := FrameAddrs(0, c.RxFrames(), c.frameSize);
    assert FrameAddrs(0, c.numFrames, c.frameSize) == rx + TxRegion(c);
    RegionBelow(c.RxFrames(), c.frameSize);
    RegionBounds(c.RxFrames(), c.txFrames, c.frameSize, c.RxFrames());
    SameSplit(RxTotal(c, s.rx), TxTotal(c, s.tx), multiset(rx), multiset(TxRegion(c)), c.TxStart());
  }

  /** So its places always add up to TxFrames frames. */
  lemma TxFrameCount(c: Config, s: State)
    requires c.Valid() && !c.reuse && Inv(c, s)
    ensures |s.tx.pool| + |s.tx.app| + |s.tx.ring| + |s.tx.kernel| + |s.tx.comp| == c.txFrames
  {
    TxHoldsItsRegion(c, s);
    assert |TxTotal(c, s.tx)| == |multiset(TxRegion(c))| == c.txFrames;
  }

  /** No transmit frame is with the application, inside the kernel, or waiting to be reclaimed. */
  predicate Settled(s: State) {
    s.tx.app == multiset{} && s.tx.kernel == multiset{} && s.tx.comp == []
  }

  ghost predicate NeverStarves(c: Config)
    requires c.Valid()
  {
    forall acts: seq<Action>, s: State ::
      Runs(c, Init(c), acts, s) && Settled(s) && |s.tx.ring| < c.txSize ==> s.tx.pool != []
  }

  function FullFrames(c: Config, addrs: seq<nat>): (r: seq<Desc>)
    ensures |r| == |addrs| && forall i :: 0 <= i < |addrs| ==> r[i] == Desc(addrs[i], c.frameSize, false)
  {
    seq(|addrs|, i requires 0 <= i < |addrs| => Desc(addrs[i], c.frameSize, false))
  }

  function AllSent(c: Config): State
    requires c.Valid()
  {
    var s := Init(c);
    s.(tx := s.tx.(pool := [], ring := FullFrames(c, TxRegion(c)), numTransmitted := c.txFrames))
  }

  lemma RegionBases(c: Config)
    requires c.Valid()
    ensures Bases(c, FullFrames(c, TxRegion(c))) == TxRegion(c)
  {
    FramesAligned(c);
    var q := TxRegion(c);
    forall i | 0 <= i < |q| ensures Bases(c, FullFrames(c, q))[i] == q[i] {
      assert q[i] in q;
    }
  }

  /** Its two steps: every transmit frame is allocated, then queued. */
  lemma AllSentSteps(c: Config) returns (m: State)
    requires c.Valid() && !c.reuse && c.txFrames <= c.txSize
    ensures Enabled(c, Init(c), Action.Alloc(c.txFrames)) && Step(c, Init(c), Action.Alloc(c.txFrames)) == m
    ensures var a := Action.Transmit(FullFrames(c, TxRegion(c))); Enabled(c, m, a) && Step(c, m, a) == AllSent(c)
  {
    hide Enabled; hide Step;
    var s, q := Init(c), TxRegion(c);
    m := s.(tx := s.tx.(pool := [], app := multiset(q)));
    RegionBases(c);
    AllocIs(c, s, [], q, m);
    TransmitIs(c, m, FullFrames(c, q), AllSent(c));
  }

  /** Sending every transmit frame at once is a possible run when the ring is that deep. */
  lemma AllSentReached(c: Config)
    requires c.Valid() && !c.reuse && c.txFrames <= c.txSize
    ensures Runs(c, Init(c), [Action.Alloc(c.txFrames), Action.Transmit(FullFrames(c, TxRegion(c)))], AllSent(c))
  {
    hide Init; hide Enabled; hide Step; hide TxRegion; hide Runs; hide AllSent; hide FullFrames;
    var s, ds := Init(c), FullFrames(c, TxRegion(c));
    var m := AllSentSteps(c);
    NoSteps(c, s);
    RunsThen(c, s, [], s, Action.Alloc(c.txFrames));
    assert [] + [Action.Alloc(c.txFrames)] == [Action.Alloc(c.txFrames)];
    RunsThen(c, s, [Action.Alloc(c.txFrames)], m, Action.Transmit(ds));
    assert [Action.Alloc(c.txFrames)] + [Action.Transmit(ds)] == [Action.Alloc(c.txFrames), Action.Transmit(ds)];
  }

  /** A settled socket with ring room can always allocate, exactly when there are at least
      as many transmit frames as tx ring slots. */
  lemma StarvationExactly(c: Config)
    requires c.Valid() && !c.reuse
    ensures NeverStarves(c) <==> c.txFrames >= c.txSize
  {
    hide Init; hide Inv; hide Runs;
    if c.txFrames >= c.txSize {
      forall acts: seq<Action>, s: State | Runs(c, Init(c), acts, s) && Settled(s) && |s.tx.ring| < c.txSize
        ensures s.tx.pool != []
      {
        ReachableInv(c, acts, s);
        TxFrameCount(c, s);
      }
    } else {
      AllSentReached(c);
      assert Settled(AllSent(c)) by { InitSettled(c); }
      assert |AllSent(c).tx.ring| == c.txFrames;
    }
  }

  lemma InitSettled(c: Config)
    requires c.Valid()
    ensures Settled(Init(c))
  {
  }

  /** A call got somewhere: it queued a packet or found the ring full, and either kicked the
      driver or, on a socket bound with need-wakeup, read from the tx ring that it is awake and
      draining. `parked` is what the flag said when it was read. */
  predicate Progress(needWakeup: bool, parked: bool, r: SendResult) {
    match r
    case Sent(n, kicked) => n > 0 && (kicked || (needWakeup && !parked))
    case RingFull(kicked) => kicked || (needWakeup && !parked)
    case BadLength(_) => false
  }

  /** SendFunc's no-stall guarantee: whatever reachable state it read the ring in, a call with
      something to send and valid lengths makes progress. */
  lemma NoStall(c: Config, acts: seq<Action>, at: State, needWakeup: bool, parked: bool, count: nat, build: int -> int,
                post: seq<Action>, r: SendResult, after: TxState, batch: seq<Desc>)
    requires c.Valid() && !c.reuse && c.txFrames >= c.txSize && Runs(c, Init(c), acts, at) && Settled(at)
    requires count > 0 && forall j :: 0 <= j < count ==> ValidLength(c, build(j))
    requires |at.tx.ring| <= c.txSize && CallOutcome(c, needWakeup, parked, count, build, at.tx, post, r, after, batch)
    ensures Progress(needWakeup, parked, r)
  {
    hide Init; hide Inv; hide Runs;
    if |at.tx.ring| < c.txSize {
      ReachableInv(c, acts, at);
      TxFrameCount(c, at);
    }
  }

  /** With fewer frames than slots the same call can queue nothing and kick nothing. */
  lemma CanStall(c: Config, count: nat, build: int -> int, needWakeup: bool, parked: bool)
    requires c.Valid() && !c.reuse && c.txFrames < c.txSize
    ensures exists acts: seq<Action> :: Runs(c, Init(c), acts, AllSent(c))
    ensures Settled(AllSent(c)) && |AllSent(c).tx.ring| < c.txSize
    ensures CallOutcome(c, needWakeup, parked, count, build, AllSent(c).tx, [], Sent(0, false), AllSent(c).tx, [])
    ensures !Progress(needWakeup, parked, Sent(0, false))
  {
    AllSentReached(c);
    assert Bases(c, []) == [];
  }
}
