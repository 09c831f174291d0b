/** Packets that span several frames (multibuffer.go): how a payload becomes a chain of
    descriptors, and how a stream of descriptors becomes packets again. */
module Segments {
  import opened Common
  import opened Bits
  import opened SocketProtocol


  /** Frames a payload needs; an empty one still takes a descriptor. */
  function Frames(fs: nat, len: nat): (n: nat)
    requires fs > 0
    ensures n >= 1
  {
    var n := (len + fs - 1) / fs;
    if n > 0 then n else 1
  }

  lemma CeilDiv(fs: nat, len: nat)
    requires fs > 0
    ensures var q := (len + fs - 1) / fs; q >= 0 && fs * q < len + fs && len <= fs * q
  {
    var x, q := len + fs - 1, (len + fs - 1) / fs;
    assert x == fs * q + x % fs;
  }

  /** The frame count is exact: the frames hold the payload and all but the last are full. */
  lemma FramesExact(fs: nat, len: nat)
    requires fs > 0
    ensures var n := Frames(fs, len);
      len <= fs * n && (len > 0 ==> fs * (n - 1) < len) && (len == 0 ==> n == 1)
  {
    CeilDiv(fs, len);
    var q := (len + fs - 1) / fs;
    if len > 0 {
      assert q > 0;
      assert fs * (q - 1) == fs * q - fs;
    } else {
      assert fs * q < fs;
      assert q == 0 by { MulGap(fs, 0, q); }
    }
  }

  lemma MulNext(fs: nat, j: nat)
    ensures fs * (j + 1) == fs * j + fs && fs * j >= 0
  {
  }

  /** What goes into the `j`-th frame. */
  function Chunk(fs: nat, p: seq<byte>, j: nat): (r: seq<byte>)
    requires fs > 0
    ensures |r| <= fs
  {
    MulNext(fs, j);
    p[Min(fs * j, |p|)..Min(fs * (j + 1), |p|)]
  }

  function Chunks(fs: nat, p: seq<byte>, n: nat): seq<byte>
    requires fs > 0
  {
    if n == 0 then [] else Chunks(fs, p, n - 1) + Chunk(fs, p, n - 1)
  }

  /** Chunks put back together are the payload's first bytes. */
  lemma {:induction false} ChunksJoin(fs: nat, p: seq<byte>, n: nat)
    requires fs > 0
    ensures fs * n >= 0 && Chunks(fs, p, n) == p[..Min(fs * n, |p|)]
  {
    if n > 0 {
      ChunksJoin(fs, p, n - 1);
      MulNext(fs, n - 1);
    }
  }

  /** The bytes a descriptor refers to. */
  function Data(umem: seq<byte>, d: Desc): (r: seq<byte>)
    requires d.addr + d.len <= |umem|
    ensures |r| == d.len
  {
    umem[d.addr..d.addr + d.len]
  }

  predicate InUmem(umem: seq<byte>, ds: seq<Desc>) {
    forall d :: d in ds ==> d.addr + d.len <= |umem|
  }

  /** The packet a chain of descriptors stands for. */
  function Bytes(umem: seq<byte>, ds: seq<Desc>): seq<byte>
    requires InUmem(umem, ds)
  {
    if ds == [] then [] else Bytes(umem, ds[..|ds| - 1]) + Data(umem, ds[|ds| - 1])
  }

  /** A whole packet: XDP_PKT_CONTD on every fragment but the last. */
  predicate Whole(ds: seq<Desc>) {
    ds != [] && forall j :: 0 <= j < |ds| ==> (ds[j].contd <==> j < |ds| - 1)
  }

  /** `ds` is payload `p`, split over the fewest frames. */
  predicate Chain(umem: seq<byte>, fs: nat, ds: seq<Desc>, p: seq<byte>)
    requires fs > 0
  {
    && |ds| == Frames(fs, |p|) && Whole(ds) && InUmem(umem, ds)
    && forall j: nat :: j < |ds| ==> ds[j].len <= fs && Data(umem, ds[j]) == Chunk(fs, p, j)
  }

  lemma {:induction false} BytesOfChunks(umem: seq<byte>, fs: nat, ds: seq<Desc>, p: seq<byte>)
    requires fs > 0 && InUmem(umem, ds)
    requires forall j: nat :: j < |ds| ==> Data(umem, ds[j]) == Chunk(fs, p, j)
    ensures Bytes(umem, ds) == Chunks(fs, p, |ds|)
    decreases |ds|
  {
    if ds != [] {
      BytesOfChunks(umem, fs, ds[..|ds| - 1], p);
    }
  }

  /** A chain carries its payload, byte for byte. */
  lemma ChainBytes(umem: seq<byte>, fs: nat, ds: seq<Desc>, p: seq<byte>)
    requires fs > 0 && Chain(umem, fs, ds, p)
    ensures Bytes(umem, ds) == p
  {
    BytesOfChunks(umem, fs, ds, p);
    ChunksJoin(fs, p, |ds|);
    FramesExact(fs, |p|);
  }

  // -------- Several packets in a row --------

  function Flatten(pkts: seq<seq<Desc>>): seq<Desc> {
    if pkts == [] then [] else Flatten(pkts[..|pkts| - 1]) + pkts[|pkts| - 1]
  }

  lemma FlattenSnoc(pkts: seq<seq<Desc>>, p: seq<Desc>)
    ensures Flatten(pkts + [p]) == Flatten(pkts) + p
  {
    assert (pkts + [p])[..|pkts|] == pkts;
  }

  lemma {:induction false} FlattenAppend(x: seq<seq<Desc>>, y: seq<seq<Desc>>)
    ensures Flatten(x + y) == Flatten(x) + Flatten(y)
    decreases |y|
  {
    if y == [] {
      assert x + y == x;
    } else {
      var most, p := y[..|y| - 1], y[|y| - 1];
      FlattenAppend(x, most);
      FlattenSnoc(x + most, p);
      FlattenSnoc(most, p);
      hide Flatten;
      assert x + y == (x + most) + [p] && y == most + [p];
      assert Flatten(x) + (Flatten(most) + p) == (Flatten(x) + Flatten(most)) + p;
    }
  }

  /** Whole packets read off a stream of descriptors, and the fragments left over. */
  datatype Grouped = Grouped(pkts: seq<seq<Desc>>, partial: seq<Desc>)

  function Group(stream: seq<Desc>): Grouped {
    if stream == [] then Grouped([], [])
    else
      var g, d := Group(stream[..|stream| - 1]), stream[|stream| - 1];
      if d.contd then Grouped(g.pkts, g.partial + [d]) else Grouped(g.pkts + [g.partial + [d]], [])
  }

  lemma GroupSnoc(stream: seq<Desc>, d: Desc)
    ensures var g := Group(stream);
      Group(stream + [d]) == if d.contd then Grouped(g.pkts, g.partial + [d]) else Grouped(g.pkts + [g.partial + [d]], [])
  {
    assert (stream + [d])[..|stream|] == stream;
  }

  predicate AllContinue(ds: seq<Desc>) { forall d :: d in ds ==> d.contd }

  predicate Keeps(g: Grouped, stream: seq<Desc>) {
    && Flatten(g.pkts) + g.partial == stream && AllContinue(g.partial)
    && forall p :: p in g.pkts ==> Whole(p)
  }

  lemma KeepsSnoc(g: Grouped, stream: seq<Desc>, d: Desc)
    requires Keeps(g, stream)
    ensures d.contd ==> Keeps(Grouped(g.pkts, g.partial + [d]), stream + [d])
    ensures !d.contd ==> Keeps(Grouped(g.pkts + [g.partial + [d]], []), stream + [d])
  {
    var p := g.partial + [d];
    FlattenSnoc(g.pkts, p);
    hide Flatten;
    assert Flatten(g.pkts) + p == stream + [d];
    if !d.contd {
      assert Whole(p) by {
        forall j | 0 <= j < |p| ensures p[j].contd <==> j < |p| - 1 {
          assert j < |p| - 1 ==> p[j] in g.partial;
        }
      }
    }
  }

  /** Grouping neither drops nor reorders a descriptor, returns only whole packets, and
      holds back only fragments whose packet has not ended. */
  lemma {:induction false} GroupKeeps(stream: seq<Desc>)
    ensures Keeps(Group(stream), stream)
    decreases |stream|
  {
    hide Keeps;
    if stream == [] {
      KeepsNothing();
    } else {
      var most, d := stream[..|stream| - 1], stream[|stream| - 1];
      GroupKeeps(most);
      KeepsSnoc(Group(most), most, d);
      assert stream == most + [d];
    }
  }

  lemma KeepsNothing()
    ensures Keeps(Grouped([], []), [])
  {
  }

  /** Where the stream is cut does not matter: the held-back fragments are all the state there is. */
  lemma {:induction false} GroupAppend(x: seq<Desc>, y: seq<Desc>)
    ensures var g := Group(x); var h := Group(g.partial + y);
      Group(x + y) == Grouped(g.pkts + h.pkts, h.partial)
    decreases |y|
  {
    var g := Group(x);
    if y == [] {
      assert x + y == x && g.partial + y == g.partial;
      GroupKeeps(x);
      GroupPartial(g.partial);
    } else {
      var most, d := y[..|y| - 1], y[|y| - 1];
      GroupAppend(x, most);
      assert x + y == (x + most) + [d] && g.partial + y == (g.partial + most) + [d];
      GroupSnoc(x + most, d);
      GroupSnoc(g.partial + most, d);
    }
  }

  lemma {:induction false} GroupPartial(ds: seq<Desc>)
    requires AllContinue(ds)
    ensures Group(ds) == Grouped([], ds)
    decreases |ds|
  {
    if ds != [] {
      GroupPartial(ds[..|ds| - 1]);
      assert ds == ds[..|ds| - 1] + [ds[|ds| - 1]];
    }
  }

  lemma GroupOne(p: seq<Desc>)
    requires Whole(p)
    ensures Group(p) == Grouped([p], [])
  {
    var most, d := p[..|p| - 1], p[|p| - 1];
    forall x | x in most ensures x.contd {
      var j :| 0 <= j < |most| && most[j] == x;
      assert p[j] == x;
    }
    GroupPartial(most);
    assert most + [d] == p;
  }

  lemma GroupNext(stream: seq<Desc>, most: seq<seq<Desc>>, p: seq<Desc>)
    requires Group(stream) == Grouped(most, []) && Whole(p)
    ensures Group(stream + p) == Grouped(most + [p], [])
  {
    hide Group; hide Whole;
    GroupAppend(stream, p);
    GroupOne(p);
    assert [] + p == p;
  }

  /** A stream of whole packets groups back into exactly those packets. */
  lemma {:induction false} GroupFlatten(pkts: seq<seq<Desc>>)
    requires forall p :: p in pkts ==> Whole(p)
    ensures Group(Flatten(pkts)) == Grouped(pkts, [])
    decreases |pkts|
  {
    hide Group; hide Whole;
    if pkts == [] {
      NothingGrouped();
    } else {
      var most, p := pkts[..|pkts| - 1], pkts[|pkts| - 1];
      GroupFlatten(most);
      GroupNext(Flatten(most), most, p);
      assert pkts == most + [p];
    }
  }

  lemma NothingGrouped()
    ensures Group([]) == Grouped([], [])
  {
  }

  /** Delivered in order and without loss: fragment by fragment the same bytes and the same
      continuation bit, in whatever frames the receiver's kernel chose. */
  predicate Delivered(txUmem: seq<byte>, sent: seq<Desc>, rxUmem: seq<byte>, got: seq<Desc>) {
    && |sent| == |got| && InUmem(txUmem, sent) && InUmem(rxUmem, got)
    && forall i :: 0 <= i < |sent| ==>
         sent[i].contd == got[i].contd && Data(txUmem, sent[i]) == Data(rxUmem, got[i])
  }

  lemma {:induction false} DeliveredBytes(u: seq<byte>, a: seq<Desc>, v: seq<byte>, b: seq<Desc>)
    requires Delivered(u, a, v, b)
    ensures Bytes(u, a) == Bytes(v, b)
    decreases |a|
  {
    if a != [] {
      DeliveredBytes(u, a[..|a| - 1], v, b[..|b| - 1]);
    }
  }

  /** `chains` are the payloads `ps`, in order. */
  predicate Carries(umem: seq<byte>, fs: nat, chains: seq<seq<Desc>>, ps: seq<seq<byte>>)
    requires fs > 0
  {
    |chains| == |ps| && forall i :: 0 <= i < |ps| ==> Chain(umem, fs, chains[i], ps[i])
  }

  /** What the receiver reads back out of a grouped stream. */
  function Payloads(umem: seq<byte>, pkts: seq<seq<Desc>>): (r: seq<seq<byte>>)
    requires forall p :: p in pkts ==> InUmem(umem, p)
    ensures |r| == |pkts| && forall i :: 0 <= i < |pkts| ==> r[i] == Bytes(umem, pkts[i])
  {
    seq(|pkts|, i requires 0 <= i < |pkts| => Bytes(umem, pkts[i]))
  }

  lemma DeliveredSplit(u: seq<byte>, a: seq<Desc>, b: seq<Desc>, v: seq<byte>, got: seq<Desc>)
    requires Delivered(u, a + b, v, got)
    ensures Delivered(u, a, v, got[..|a|]) && Delivered(u, b, v, got[|a|..])
  {
    hide Data;
    assert InUmem(u, a) by {
      forall d | d in a ensures d.addr + d.len <= |u| { assert d in a + b; }
    }
    assert InUmem(u, b) by {
      forall d | d in b ensures d.addr + d.len <= |u| { assert d in a + b; }
    }
    forall i | 0 <= i < |a| ensures a[i].contd == got[i].contd && Data(u, a[i]) == Data(v, got[i]) {
      assert (a + b)[i] == a[i];
    }
    forall i | 0 <= i < |b| ensures b[i].contd == got[|a|..][i].contd && Data(u, b[i]) == Data(v, got[|a|..][i]) {
      assert (a + b)[|a| + i] == b[i];
    }
  }

  lemma DeliveredWhole(u: seq<byte>, a: seq<Desc>, v: seq<byte>, b: seq<Desc>)
    requires Delivered(u, a, v, b) && Whole(a)
    ensures Whole(b) && InUmem(v, b)
  {
  }

  /** Cut a delivered stream where the sender's chains end. */
  lemma {:induction false} CutDelivered(u: seq<byte>, fs: nat, chains: seq<seq<Desc>>, ps: seq<seq<byte>>,
                                        v: seq<byte>, got: seq<Desc>)
    returns (pkts: seq<seq<Desc>>)
    requires fs > 0 && Carries(u, fs, chains, ps) && Delivered(u, Flatten(chains), v, got)
    ensures Flatten(pkts) == got && |pkts| == |ps|
    ensures forall i :: 0 <= i < |ps| ==> Whole(pkts[i]) && InUmem(v, pkts[i]) && Bytes(v, pkts[i]) == ps[i]
    decreases |chains|
  {
    hide Delivered; hide Bytes; hide InUmem; hide Whole;
    if chains == [] {
      pkts := [];
      assert got == [] by { NothingDelivered(u, v, got); }
    } else {
      var n := |chains| - 1;
      var front, last := Flatten(chains[..n]), chains[n];
      DeliveredLength(u, front + last, v, got);
      DeliveredSplit(u, front, last, v, got);
      var head, tail := got[..|front|], got[|front|..];
      var most := CutDelivered(u, fs, chains[..n], ps[..n], v, head);
      ChainIsWhole(u, fs, last, ps[n]);
      DeliveredWhole(u, last, v, tail);
      DeliveredBytes(u, last, v, tail);
      ChainBytes(u, fs, last, ps[n]);
      pkts := most + [tail];
      FlattenSnoc(most, tail);
      assert got == head + tail;
    }
  }

  lemma NothingDelivered(u: seq<byte>, v: seq<byte>, got: seq<Desc>)
    requires Delivered(u, [], v, got)
    ensures got == []
  {
  }

  lemma DeliveredLength(u: seq<byte>, a: seq<Desc>, v: seq<byte>, b: seq<Desc>)
    requires Delivered(u, a, v, b)
    ensures |a| == |b| && InUmem(u, a) && InUmem(v, b)
  {
  }

  lemma ChainIsWhole(umem: seq<byte>, fs: nat, ds: seq<Desc>, p: seq<byte>)
    requires fs > 0 && Chain(umem, fs, ds, p)
    ensures Whole(ds) && InUmem(umem, ds)
  {
  }

  /** The multi-buffer round trip: whatever frames it lands in, a delivered stream of chains
      regroups into exactly the payloads that were sent, with nothing left over. */
  lemma RoundTrip(u: seq<byte>, fs: nat, chains: seq<seq<Desc>>, ps: seq<seq<byte>>, v: seq<byte>, got: seq<Desc>)
    requires fs > 0 && Carries(u, fs, chains, ps) && Delivered(u, Flatten(chains), v, got)
    ensures var g := Group(got);
      && g.partial == [] && (forall p :: p in g.pkts ==> InUmem(v, p)) && Payloads(v, g.pkts) == ps
  {
    var pkts := CutDelivered(u, fs, chains, ps, v, got);
    assert forall p :: p in pkts ==> Whole(p);
    GroupFlatten(pkts);
  }
}
