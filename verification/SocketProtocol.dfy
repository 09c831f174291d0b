/** A socket, its two goroutines and the kernel as one state machine over frames
    (socket.go, pool.go). Every atomic step of either goroutine or of the kernel is
    an `Action`; an execution is any sequence of enabled actions. */
module SocketProtocol {
  import opened Bits
  import opened FramePools

  /** A ring descriptor: byte address in the UMEM, length, and the XDP_PKT_CONTD option bit. */
  datatype Desc = Desc(addr: nat, len: nat, contd: bool)

  datatype Config = Config(
    frameSize: nat, numFrames: nat, txFrames: nat,
    fillSize: nat, rxSize: nat, txSize: nat, compSize: nat, reuse: bool)
  {
    /** What NewSocket checks before it creates anything. */
    predicate Valid() { frameSize > 0 && 0 < txFrames < numFrames && fillSize <= numFrames - txFrames }

    function RxFrames(): nat requires Valid() { numFrames - txFrames }

    /** First byte of the transmit region. */
    function TxStart(): nat requires Valid() { RxFrames() * frameSize }
  }

  datatype RxState = RxState(
    pool: seq<nat>, fill: seq<nat>, kernel: multiset<nat>, ring: seq<Desc>, app: multiset<nat>,
    numFilled: int)

  datatype TxState = TxState(
    pool: seq<nat>, app: multiset<nat>, ring: seq<Desc>, kernel: multiset<nat>, comp: seq<nat>,
    numTransmitted: int)

  datatype State = State(rx: RxState, tx: TxState)

  datatype Action =
    | KernelTakeFill
    | KernelDeliver(desc: Desc)
    | KernelTakeTx
    | KernelComplete(addr: nat)
    | Fill(n: nat)
    | Receive(n: nat)
    | Recycle(descs: seq<Desc>)
    | Alloc(n: nat)
    | GiveBack(frames: seq<nat>)
    | Transmit(descs: seq<Desc>)
    | Complete(n: nat)

  function FrameBase(c: Config, addr: nat): (r: nat)
    requires c.Valid()
    ensures r <= addr < r + c.frameSize && r % c.frameSize == 0
  {
    BaseAligned(addr, c.frameSize);
    addr - addr % c.frameSize
  }

  lemma BaseAligned(addr: nat, fs: nat)
    requires fs > 0
    ensures (addr - addr % fs) % fs == 0 && 0 <= addr % fs <= addr
  {
    var q := addr / fs;
    assert addr - addr % fs == fs * q;
    DivModUnique(fs * q, fs, q, 0);
  }

  /** Every byte of frame `i` has that frame's base. */
  lemma BaseOfFrame(c: Config, i: nat, addr: nat)
    requires c.Valid() && i * c.frameSize <= addr < (i + 1) * c.frameSize
    ensures FrameBase(c, addr) == i * c.frameSize
  {
    DivModUnique(addr, c.frameSize, i, addr - i * c.frameSize);
  }

  function Bases(c: Config, ds: seq<Desc>): (r: seq<nat>)
    requires c.Valid()
    ensures |r| == |ds|
    ensures forall i :: 0 <= i < |ds| ==> r[i] == FrameBase(c, ds[i].addr)
  {
    seq(|ds|, i requires 0 <= i < |ds| => FrameBase(c, ds[i].addr))
  }

  function BasesOf(c: Config, addrs: seq<nat>): (r: seq<nat>)
    requires c.Valid()
    ensures |r| == |addrs|
    ensures forall i :: 0 <= i < |addrs| ==> r[i] == FrameBase(c, addrs[i])
  {
    seq(|addrs|, i requires 0 <= i < |addrs| => FrameBase(c, addrs[i]))
  }

  /** The frames of `q` below `limit`, and the others, both in order. */
  function Below(q: seq<nat>, limit: nat): seq<nat> {
    if q == [] then []
    else Below(q[..|q| - 1], limit) + (if q[|q| - 1] < limit then [q[|q| - 1]] else [])
  }

  function NotBelow(q: seq<nat>, limit: nat): seq<nat> {
    if q == [] then []
    else NotBelow(q[..|q| - 1], limit) + (if q[|q| - 1] < limit then [] else [q[|q| - 1]])
  }

  /** What may be transmitted: allocated frames, and in hairpin mode received ones too. */
  function Sendable(c: Config, s: State): multiset<nat> {
    if c.reuse then s.rx.app + s.tx.app else s.tx.app
  }

  predicate Enabled(c: Config, s: State, a: Action)
    requires c.Valid()
  {
    match a
    case KernelTakeFill => |s.rx.fill| > 0
    case KernelDeliver(d) => FrameBase(c, d.addr) in s.rx.kernel && |s.rx.ring| < c.rxSize
    case KernelTakeTx => |s.tx.ring| > 0
    case KernelComplete(addr) => FrameBase(c, addr) in s.tx.kernel && |s.tx.comp| < c.compSize
    case Fill(n) => n <= |s.rx.pool| && |s.rx.fill| + n <= c.fillSize
    case Receive(n) => n <= |s.rx.ring|
    case Recycle(ds) => multiset(Bases(c, ds)) <= s.rx.app
    case Alloc(n) => n <= |s.tx.pool|
    case GiveBack(fs) => multiset(fs) <= s.tx.app
    case Transmit(ds) => |s.tx.ring| + |ds| <= c.txSize && multiset(Bases(c, ds)) <= Sendable(c, s)
    case Complete(n) => n <= |s.tx.comp|
  }

  function RxStep(c: Config, rx: RxState, a: Action): RxState
    requires c.Valid()
  {
    match a
    case KernelTakeFill =>
      if rx.fill == [] then rx else rx.(fill := rx.fill[1..], kernel := rx.kernel + multiset{rx.fill[0]})
    case KernelDeliver(d) =>
      rx.(kernel := rx.kernel - multiset{FrameBase(c, d.addr)}, ring := rx.ring + [d])
    case Fill(n) =>
      if n > |rx.pool| then rx else
        rx.(pool := rx.pool[..|rx.pool| - n], fill := rx.fill + rx.pool[|rx.pool| - n..],
            numFilled := rx.numFilled + n)
    case Receive(n) =>
      if n > |rx.ring| then rx else
        rx.(ring := rx.ring[n..], app := rx.app + multiset(Bases(c, rx.ring[..n])),
            numFilled := rx.numFilled - n)
    case Recycle(ds) =>
      rx.(app := rx.app - multiset(Bases(c, ds)), pool := rx.pool + Bases(c, ds))
    case Transmit(ds) =>
      if c.reuse then rx.(app := rx.app - multiset(Bases(c, ds))) else rx
    case _ => rx
  }

  function TxStep(c: Config, tx: TxState, a: Action): TxState
    requires c.Valid()
  {
    match a
    case KernelTakeTx =>
      if tx.ring == [] then tx else
        tx.(ring := tx.ring[1..], kernel := tx.kernel + multiset{FrameBase(c, tx.ring[0].addr)})
    case KernelComplete(addr) =>
      tx.(kernel := tx.kernel - multiset{FrameBase(c, addr)}, comp := tx.comp + [addr])
    case Alloc(n) =>
      if n > |tx.pool| then tx else
        tx.(pool := tx.pool[..|tx.pool| - n], app := tx.app + multiset(tx.pool[|tx.pool| - n..]))
    case GiveBack(fs) =>
      tx.(app := tx.app - multiset(fs), pool := tx.pool + fs)
    case Transmit(ds) =>
      tx.(app := tx.app - multiset(Bases(c, ds)), ring := tx.ring + ds,
          numTransmitted := tx.numTransmitted + |ds|)
    case Complete(n) =>
      if n > |tx.comp| then tx else
        tx.(comp := tx.comp[n..], pool := tx.pool + ToTx(c, tx.comp[..n]),
            numTransmitted := tx.numTransmitted - n)
    case _ => tx
  }

  /** Where Complete returns frames: by region in hairpin mode, else all to the tx pool. */
  function ToTx(c: Config, addrs: seq<nat>): seq<nat>
    requires c.Valid()
  {
    if c.reuse then NotBelow(BasesOf(c, addrs), c.TxStart()) else BasesOf(c, addrs)
  }

  function ToRx(c: Config, addrs: seq<nat>): seq<nat>
    requires c.Valid()
  {
    if c.reuse then Below(BasesOf(c, addrs), c.TxStart()) else []
  }

  function Step(c: Config, s: State, a: Action): State
    requires c.Valid()
  {
    var rx := RxStep(c, s.rx, a);
    State(if a.Complete? && a.n <= |s.tx.comp| then rx.(pool := rx.pool + ToRx(c, s.tx.comp[..a.n])) else rx,
          TxStep(c, s.tx, a))
  }

  /** `t` is reached from `s` by the enabled actions `acts`, in order. */
  predicate Runs(c: Config, s: State, acts: seq<Action>, t: State)
    requires c.Valid()
    decreases |acts|
  {
    if acts == [] then s == t
    else Enabled(c, s, acts[0]) && Runs(c, Step(c, s, acts[0]), acts[1..], t)
  }

  function Init(c: Config): State
    requires c.Valid()
  {
    State(RxState(FrameAddrs(0, c.RxFrames(), c.frameSize), [], multiset{}, [], multiset{}, 0),
          TxState(FrameAddrs(c.RxFrames(), c.txFrames, c.frameSize), multiset{}, [], multiset{}, [], 0))
  }

  lemma {:induction false} RunsAppend(c: Config, s: State, xs: seq<Action>, m: State, ys: seq<Action>, t: State)
    requires c.Valid() && Runs(c, s, xs, m) && Runs(c, m, ys, t)
    ensures Runs(c, s, xs + ys, t)
    decreases |xs|
  {
    hide Step; hide Enabled;
    if xs == [] {
      assert xs + ys == ys;
    } else {
      RunsAppend(c, Step(c, s, xs[0]), xs[1..], m, ys, t);
      assert (xs + ys)[1..] == xs[1..] + ys;
    }
  }

  lemma RunsThen(c: Config, s: State, xs: seq<Action>, m: State, a: Action)
    requires c.Valid() && Runs(c, s, xs, m) && Enabled(c, m, a)
    ensures Runs(c, s, xs + [a], Step(c, m, a))
  {
    hide Enabled; hide Step;
    var t := Step(c, m, a);
    assert [a][1..] == [];
    assert Runs(c, t, [], t);
    assert Runs(c, m, [a], t);
    RunsAppend(c, s, xs, m, [a], t);
  }
}
