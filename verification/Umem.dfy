/** Frames of the UMEM as byte ranges: which descriptors name whole separate frames, and
    what writing into them leaves. */
module UmemFrames {
  import opened Common
  import opened Bits
  import opened SocketProtocol
  import opened FrameConservation

  /** Distinct, aligned, whole frames inside the UMEM: what Alloc hands out. */
  predicate Slots(fs: nat, size: nat, ds: seq<Desc>) {
    && fs > 0
    && (forall i :: 0 <= i < |ds| ==> ds[i].addr % fs == 0 && ds[i].addr + fs <= size)
    && forall i, j :: 0 <= i < j < |ds| ==> ds[i].addr != ds[j].addr
  }

  lemma SlotsPrefix(fs: nat, size: nat, ds: seq<Desc>, n: nat)
    requires Slots(fs, size, ds) && n <= |ds|
    ensures Slots(fs, size, ds[..n])
  {
  }

  /** Frames just taken off the transmit pool are slots. */
  lemma TakenSlots(c: Config, s: State, left: seq<nat>, ds: seq<Desc>, size: nat)
    requires c.Valid() && Inv(c, s) && s.tx.pool == left + Bases(c, ds) && size == c.numFrames * c.frameSize
    requires forall i :: 0 <= i < |ds| ==> ds[i].addr == Bases(c, ds)[i]
    ensures Slots(c.frameSize, size, ds)
  {
    hide Inv; hide Bases;
    PoolDistinct(c, s);
    forall i | 0 <= i < |ds| ensures ds[i].addr == s.tx.pool[|left| + i] {
    }
  }

  predicate SameAddrs(xs: seq<Desc>, ys: seq<Desc>) {
    |xs| == |ys| && forall i :: 0 <= i < |xs| ==> xs[i].addr == ys[i].addr
  }

  lemma SameSlots(fs: nat, size: nat, xs: seq<Desc>, ys: seq<Desc>)
    requires Slots(fs, size, xs) && SameAddrs(ys, xs)
    ensures Slots(fs, size, ys)
  {
  }

  function Frame(u: seq<byte>, fs: nat, a: nat): (f: seq<byte>)
    requires a + fs <= |u|
    ensures |f| == fs
  {
    u[a..a + fs]
  }

  lemma FramesApart(fs: nat, a: nat, b: nat)
    requires fs > 0 && a % fs == 0 && b % fs == 0 && a != b
    ensures a + fs <= b || b + fs <= a
  {
    var x, y := a / fs, b / fs;
    assert a == fs * x && b == fs * y;
    MulGap(fs, x, y);
    MulGap(fs, y, x);
  }

  /** A frame after as much of `src` as fits was written to its start. */
  function Overlaid(f: seq<byte>, src: seq<byte>): (r: seq<byte>)
    ensures |r| == |f|
  {
    if |src| >= |f| then src[..|f|] else src + f[|src|..]
  }

  /** Copies as much of `src` as fits into a frame, as Go's copy does. */
  method CopyIn(umem: array<byte>, fs: nat, a: nat, src: seq<byte>) returns (n: nat)
    requires fs > 0 && a % fs == 0 && a + fs <= umem.Length
    modifies umem
    ensures n == Min(fs, |src|) && umem[a..a + n] == src[..n]
    ensures Frame(umem[..], fs, a) == Overlaid(Frame(old(umem[..]), fs, a), src)
    ensures forall b: nat :: b % fs == 0 && b != a && b + fs <= umem.Length ==>
      Frame(umem[..], fs, b) == Frame(old(umem[..]), fs, b)
  {
    hide Frame; hide Overlaid;
    n := Min(fs, |src|);
    ghost var before := umem[..];
    forall j | 0 <= j < n { umem[a + j] := src[j]; }
    ghost var after := umem[..];
    CopiedFrame(before, after, fs, a, src, n);
    forall b: nat | b % fs == 0 && b != a && b + fs <= umem.Length
      ensures Frame(after, fs, b) == Frame(before, fs, b)
    {
      OtherFrame(before, after, fs, a, b);
    }
  }

  lemma CopiedFrame(u: seq<byte>, v: seq<byte>, fs: nat, a: nat, src: seq<byte>, n: nat)
    requires |u| == |v| && a + fs <= |u| && n == Min(fs, |src|)
    requires forall k :: a <= k < a + n ==> v[k] == src[k - a]
    requires forall k :: a + n <= k < a + fs ==> v[k] == u[k]
    ensures v[a..a + n] == src[..n] && Frame(v, fs, a) == Overlaid(Frame(u, fs, a), src)
  {
    var f, r := Frame(v, fs, a), Overlaid(Frame(u, fs, a), src);
    forall i | 0 <= i < fs ensures f[i] == r[i] {
      assert f[i] == v[a + i];
      if i >= n { assert Frame(u, fs, a)[i] == u[a + i]; }
    }
  }

  lemma OtherFrame(u: seq<byte>, v: seq<byte>, fs: nat, a: nat, b: nat)
    requires |u| == |v| && fs > 0 && a % fs == 0 && b % fs == 0 && a != b && b + fs <= |u|
    requires forall k :: 0 <= k < |u| && !(a <= k < a + fs) ==> v[k] == u[k]
    ensures Frame(v, fs, b) == Frame(u, fs, b)
  {
    FramesApart(fs, a, b);
  }

  // -------- Filling frames in place --------

  /** The first `n` frames hold what `fill` made of them. */
  predicate Painted(u: seq<byte>, v: seq<byte>, fs: nat, ds: seq<Desc>, fill: (int, seq<byte>) -> seq<byte>, n: nat)
    requires Slots(fs, |u|, ds) && |u| == |v| && n <= |ds|
  {
    forall j :: 0 <= j < n ==>
      Frame(v, fs, ds[j].addr) == Overlaid(Frame(u, fs, ds[j].addr), fill(j, Frame(u, fs, ds[j].addr)))
  }

  /** Every frame but the first `n` holds what it held. */
  predicate Untouched(u: seq<byte>, v: seq<byte>, fs: nat, ds: seq<Desc>, n: nat)
    requires |u| == |v| && n <= |ds| && fs > 0
  {
    forall b: nat :: b % fs == 0 && b + fs <= |u| && (forall j :: 0 <= j < n ==> ds[j].addr != b) ==>
      Frame(v, fs, b) == Frame(u, fs, b)
  }

  lemma NothingPainted(u: seq<byte>, fs: nat, ds: seq<Desc>, fill: (int, seq<byte>) -> seq<byte>)
    requires Slots(fs, |u|, ds)
    ensures Painted(u, u, fs, ds, fill, 0) && Untouched(u, u, fs, ds, 0)
  {
  }

  /** The i-th frame is filled in place. */
  method PaintOne(umem: array<byte>, fs: nat, ds: seq<Desc>, fill: (int, seq<byte>) -> seq<byte>, i: nat, ghost u: seq<byte>)
    requires |u| == umem.Length && Slots(fs, |u|, ds) && i < |ds|
    requires Painted(u, umem[..], fs, ds, fill, i) && Untouched(u, umem[..], fs, ds, i)
    modifies umem
    ensures Painted(u, umem[..], fs, ds, fill, i + 1) && Untouched(u, umem[..], fs, ds, i + 1)
  {
    hide Frame; hide Overlaid;
    ghost var before := umem[..];
    var a := ds[i].addr;
    FrameIs(umem[..], fs, a);
    assert Frame(before, fs, a) == Frame(u, fs, a);
    var _ := CopyIn(umem, fs, a, fill(i, umem[a..a + fs]));
    PaintedStep(u, before, umem[..], fs, ds, fill, i);
  }

  lemma FrameIs(u: seq<byte>, fs: nat, a: nat)
    requires a + fs <= |u|
    ensures Frame(u, fs, a) == u[a..a + fs]
  {
  }

  lemma PaintedStep(u: seq<byte>, m: seq<byte>, v: seq<byte>, fs: nat, ds: seq<Desc>, fill: (int, seq<byte>) -> seq<byte>, i: nat)
    requires |u| == |m| == |v| && Slots(fs, |u|, ds) && i < |ds|
    requires Painted(u, m, fs, ds, fill, i) && Untouched(u, m, fs, ds, i)
    requires Frame(v, fs, ds[i].addr) == Overlaid(Frame(u, fs, ds[i].addr), fill(i, Frame(u, fs, ds[i].addr)))
    requires forall b: nat :: b % fs == 0 && b != ds[i].addr && b + fs <= |u| ==> Frame(v, fs, b) == Frame(m, fs, b)
    ensures Painted(u, v, fs, ds, fill, i + 1) && Untouched(u, v, fs, ds, i + 1)
  {
    hide Frame; hide Overlaid;
    forall j | 0 <= j < i
      ensures Frame(v, fs, ds[j].addr) == Overlaid(Frame(u, fs, ds[j].addr), fill(j, Frame(u, fs, ds[j].addr)))
    {
      assert ds[j].addr != ds[i].addr;
      assert Frame(v, fs, ds[j].addr) == Frame(m, fs, ds[j].addr);
    }
    forall b: nat | b % fs == 0 && b + fs <= |u| && (forall j :: 0 <= j < i + 1 ==> ds[j].addr != b)
      ensures Frame(v, fs, b) == Frame(u, fs, b)
    {
      assert ds[i].addr != b;
      assert forall j :: 0 <= j < i ==> ds[j].addr != b;
      assert Frame(v, fs, b) == Frame(m, fs, b);
    }
  }

  lemma UntouchedMore(u: seq<byte>, v: seq<byte>, fs: nat, ds: seq<Desc>, m: nat, n: nat)
    requires |u| == |v| && m <= n <= |ds| && fs > 0 && Untouched(u, v, fs, ds, m)
    ensures Untouched(u, v, fs, ds, n)
  {
    hide Frame;
  }

  lemma PaintedSame(u: seq<byte>, v: seq<byte>, fs: nat, xs: seq<Desc>, ys: seq<Desc>, fill: (int, seq<byte>) -> seq<byte>)
    requires |u| == |v| && Slots(fs, |u|, xs) && SameAddrs(ys, xs)
    requires Painted(u, v, fs, xs, fill, |xs|) && Untouched(u, v, fs, xs, |xs|)
    ensures Slots(fs, |u|, ys) && Painted(u, v, fs, ys, fill, |ys|) && Untouched(u, v, fs, ys, |ys|)
  {
    hide Frame; hide Overlaid;
    forall j | 0 <= j < |ys|
      ensures Frame(v, fs, ys[j].addr) == Overlaid(Frame(u, fs, ys[j].addr), fill(j, Frame(u, fs, ys[j].addr)))
    {
      assert ys[j].addr == xs[j].addr;
    }
    forall b: nat | b % fs == 0 && b + fs <= |u| && (forall j :: 0 <= j < |ys| ==> ys[j].addr != b)
      ensures Frame(v, fs, b) == Frame(u, fs, b)
    {
      assert forall j :: 0 <= j < |xs| ==> ys[j].addr == xs[j].addr;
    }
  }
}
