/** SendBatch on a socket without multi-buffer (socket.go): every packet queued is a payload,
    byte for byte, in a frame of its own. */
module Batches {
  import opened Common
  import opened Rings
  import opened SocketProtocol
  import opened FrameConservation
  import opened UmemFrames
  import opened Sockets
  import opened Segments

  datatype BatchResult = TooBig(at: nat) | Tried(send: SendResult)

  /** The builder SendBatch hands to SendFunc: copy payload j, return its length. */
  function LengthOf(ps: seq<seq<byte>>): int -> int {
    (j: int) => if 0 <= j < |ps| then |ps[j]| else 0
  }

  function CopyOf(ps: seq<seq<byte>>): (int, seq<byte>) -> seq<byte> {
    (j: int, f: seq<byte>) => if 0 <= j < |ps| then ps[j] else []
  }

  /** The first payload longer than a frame, or -1. */
  method FirstTooBig(fs: nat, ps: seq<seq<byte>>) returns (bad: int)
    ensures -1 <= bad < |ps|
    ensures bad == -1 ==> forall i :: 0 <= i < |ps| ==> |ps[i]| <= fs
    ensures bad >= 0 ==> |ps[bad]| > fs && forall i :: 0 <= i < bad ==> |ps[i]| <= fs
  {
    for i := 0 to |ps|
      invariant forall j :: 0 <= j < i ==> |ps[j]| <= fs
    {
      if |ps[i]| > fs {
        return i;
      }
    }
    bad := -1;
  }

  /** The descriptors are the first payloads, one whole packet each. */
  predicate CarriesEach(u: seq<byte>, batch: seq<Desc>, ps: seq<seq<byte>>) {
    |batch| <= |ps| && forall j :: 0 <= j < |batch| ==>
      batch[j].addr + batch[j].len <= |u| && Data(u, batch[j]) == ps[j] && !batch[j].contd
  }

  lemma CopiedPayloads(c: Config, u: seq<byte>, v: seq<byte>, batch: seq<Desc>, ps: seq<seq<byte>>)
    requires |u| == |v| && Slots(c.frameSize, |u|, batch) && |batch| <= |ps|
    requires Painted(u, v, c.frameSize, batch, CopyOf(ps), |batch|)
    requires forall j :: 0 <= j < |batch| ==> batch[j].len == |ps[j]| <= c.frameSize && !batch[j].contd
    ensures CarriesEach(v, batch, ps)
  {
    forall j | 0 <= j < |batch|
      ensures batch[j].addr + batch[j].len <= |v| && Data(v, batch[j]) == ps[j] && !batch[j].contd
    {
      var a, f := batch[j].addr, Frame(u, c.frameSize, batch[j].addr);
      assert Frame(v, c.frameSize, a) == Overlaid(f, ps[j]);
      assert Data(v, batch[j]) == Frame(v, c.frameSize, a)[..|ps[j]|];
      assert Overlaid(f, ps[j])[..|ps[j]|] == ps[j];
    }
  }

  /** What the caller learns from the two outcomes of SendFunc. */
  lemma BatchSent(c: Config, needWakeup: bool, parked: bool, ps: seq<seq<byte>>, at: TxState, post: seq<Action>,
                  r: SendResult, after: TxState, batch: seq<Desc>, u: seq<byte>, v: seq<byte>)
    requires c.Valid() && |at.ring| <= c.txSize && forall i :: 0 <= i < |ps| ==> |ps[i]| <= c.frameSize
    requires CallOutcome(c, needWakeup, parked, |ps|, LengthOf(ps), at, post, r, after, batch)
    requires BytesOutcome(c.frameSize, u, v, at.pool, CopyOf(ps), r, batch)
    ensures !r.BadLength?
    ensures r.Sent? ==> r.n == |batch| && CarriesEach(v, batch, ps)
  {
    hide Painted; hide Untouched; hide Slots; hide CarriesEach;
    if r.Sent? { CopiedPayloads(c, u, v, batch, ps); }
  }

  /** SendBatch: a payload that does not fit a frame refuses the whole batch and changes nothing;
      otherwise the payloads queued are a prefix, each byte for byte in its own frame, and no
      other frame changed. */
  method SendBatch(xsk: Socket, umem: array<byte>, ps: seq<seq<byte>>)
    returns (r: BatchResult, ghost parked: bool,
             ghost pre: seq<Action>, ghost at: State, ghost post: seq<Action>, ghost batch: seq<Desc>)
    requires xsk.TxValid() && xsk.TxIdle() && xsk.rxFree == xsk.rxPool.free
    requires Inv(xsk.c, xsk.View()) && umem.Length == xsk.c.numFrames * xsk.c.frameSize
    modifies umem, xsk`txApp, xsk`txFree, xsk`numTransmitted, xsk.txPool, xsk.txRing, xsk.txRing.descs
    modifies xsk.kernel`txHeld, xsk.kernel`flags
    modifies xsk.compRing, xsk.compRing.descs
    modifies (if xsk.c.reuse then {xsk} else {})`rxApp
    modifies (if xsk.c.reuse then {xsk} else {})`rxFree, if xsk.c.reuse then {xsk.rxPool} else {}
    ensures xsk.TxValid() && xsk.TxIdle() && xsk.rxFree == xsk.rxPool.free
    ensures r.TooBig? <==> exists i :: 0 <= i < |ps| && |ps[i]| > xsk.c.frameSize
    ensures r.TooBig? ==>
      && r.at < |ps| && |ps[r.at]| > xsk.c.frameSize && (forall i :: 0 <= i < r.at ==> |ps[i]| <= xsk.c.frameSize)
      && umem[..] == old(umem[..]) && xsk.View() == old(xsk.View())
    ensures r.Tried? ==> Runs(xsk.c, old(xsk.View()), pre, at) && Runs(xsk.c, at, post, xsk.View()) && |at.tx.ring| <= xsk.c.txSize
    ensures r.Tried? ==> CallOutcome(xsk.c, xsk.needWakeup, parked, |ps|, LengthOf(ps), at.tx, post, r.send, xsk.TxView(), batch)
    ensures r.Tried? ==> !r.send.BadLength?
    ensures xsk.kernel.flags ==
      old(xsk.kernel.flags) + if xsk.needWakeup && r.Tried? && r.send.Asks() then [parked] else []
    ensures r.Tried? && r.send.Sent? ==>
      && r.send.n == |batch| && CarriesEach(umem[..], batch, ps)
      && Untouched(old(umem[..]), umem[..], xsk.c.frameSize, batch, |batch|)
  {
    hide Runs; hide Step; hide Enabled; hide Ring.Valid; hide Inv; hide Socket.View; hide Aligned; hide CallOutcome;
    hide Painted; hide Untouched; hide CarriesEach; hide Reclaims;
    parked, pre, post, batch, at := false, [], [], [], xsk.View();
    var bad := FirstTooBig(xsk.c.frameSize, ps);
    if bad >= 0 {
      return TooBig(bad), parked, pre, at, post, batch;
    }
    ghost var u := umem[..];
    var s;
    s, parked, pre, at, post, batch := xsk.SendFunc(umem, |ps|, LengthOf(ps), CopyOf(ps));
    BatchSent(xsk.c, xsk.needWakeup, parked, ps, at.tx, post, s, xsk.TxView(), batch, u, umem[..]);
    r := Tried(s);
  }
}
