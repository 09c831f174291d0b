/** The CIDR test is exact: the emitted loads, masks and compares fall through
    precisely when the leading bits of the address agree with the prefix. */
module Cidr {
  import opened Bits
  import opened Ebpf
  import opened Wire
  import opened Builders
  import opened Fragments

  /** How many bits of byte `j` the prefix covers. */
  function Covered(bits: nat, j: nat): (k: nat)
    ensures k <= 8
  {
    if bits >= 8 * (j + 1) then 8 else if bits <= 8 * j then 0 else bits - 8 * j
  }

  /** Equal quotients mean equal leading bits. */
  lemma {:induction false} LeadingBits(x: u8, y: u8, k: nat)
    requires k <= 8
    ensures x / Pow2(8 - k) == y / Pow2(8 - k) <==> forall i :: 0 <= i < k ==> ByteBit(x, i) == ByteBit(y, i)
  {
    if k == 0 {
      Pow2Values();
    } else {
      LeadingBits(x, y, k - 1);
      var p := Pow2(8 - k);
      assert Pow2(8 - (k - 1)) == 2 * p;
      DivTwice(x, p);
      DivTwice(y, p);
      SameQuotient(x, y, p, k);
    }
  }

  lemma SameQuotient(x: u8, y: u8, p: nat, k: nat)
    requires 1 <= k <= 8 && p == Pow2(8 - k)
    ensures x / p == y / p <==> (x / p) / 2 == (y / p) / 2 && ByteBit(x, k - 1) == ByteBit(y, k - 1)
  {
    hide Pow2;
    var qx, qy := x / p, y / p;
    assert 7 - (k - 1) == 8 - k;
    assert ByteBit(x, k - 1) == qx % 2 && ByteBit(y, k - 1) == qy % 2;
    assert qx == 2 * (qx / 2) + qx % 2 && qy == 2 * (qy / 2) + qy % 2;
  }

  lemma DivTwice(x: nat, p: nat)
    requires p > 0
    ensures x / (2 * p) == (x / p) / 2
  {
    var q := x / p;
    assert x == p * q + x % p;
    assert p * q == (2 * p) * (q / 2) + p * (q % 2) by {
      assert q == 2 * (q / 2) + q % 2;
      assert p * (2 * (q / 2)) == (2 * p) * (q / 2);
    }
    DivModUnique(x, 2 * p, q / 2, p * (q % 2) + x % p);
  }

  predicate ByteAgrees(p: Prefix, a: seq<u8>, j: nat)
    requires |a| == |p.addr| && j < |a|
  {
    forall k :: 8 * j <= k < 8 * j + 8 && k < p.bits ==> AddrBit(a, k) == AddrBit(p.addr, k)
  }

  lemma MaskIs(bits: nat, j: nat)
    ensures MaskByte(bits, j) == Pow2(8) - Pow2(8 - Covered(bits, j)) && Pow2(8) == 256
  {
    hide Pow2;
    Pow2Values();
    PowZero();
    if 8 * j < bits < 8 * (j + 1) { assert 8 * (j + 1) - bits == 8 - Covered(bits, j); }
  }

  lemma PowZero()
    ensures Pow2(0) == 1
  {
  }

  lemma MaskedByte(bits: nat, j: nat, x: nat)
    requires x < 256
    ensures BitAnd(x, MaskByte(bits, j)) == Shl(8 - Covered(bits, j), Shr(8 - Covered(bits, j), x))
  {
    hide MaskByte; hide Covered; hide BitAnd; hide Shl; hide Pow2;
    MaskIs(bits, j);
    AndHighMask(8, 8 - Covered(bits, j), x);
  }

  lemma CoveredBits(p: Prefix, a: seq<u8>, j: nat)
    requires |a| == |p.addr| && j < |a|
    ensures ByteAgrees(p, a, j) <==>
            forall i :: 0 <= i < Covered(p.bits, j) ==> ByteBit(a[j], i) == ByteBit(p.addr[j], i)
  {
    hide ByteBit;
    forall i | 0 <= i < 8
      ensures ByteBit(a[j], i) == AddrBit(a, 8 * j + i) && ByteBit(p.addr[j], i) == AddrBit(p.addr, 8 * j + i)
    {
      assert (8 * j + i) / 8 == j && (8 * j + i) % 8 == i;
    }
    if forall i :: 0 <= i < Covered(p.bits, j) ==> ByteBit(a[j], i) == ByteBit(p.addr[j], i) {
      forall q | 8 * j <= q < 8 * j + 8 && q < p.bits ensures AddrBit(a, q) == AddrBit(p.addr, q) {
        assert ByteBit(a[j], q - 8 * j) == ByteBit(p.addr[j], q - 8 * j);
      }
    }
  }

  lemma ByteTest(p: Prefix, a: seq<u8>, j: nat)
    requires |a| == |p.addr| && j < |a|
    ensures BitAnd(a[j], MaskByte(p.bits, j)) == BitAnd(p.addr[j], MaskByte(p.bits, j)) <==> ByteAgrees(p, a, j)
  {
    hide *;
    var k := Covered(p.bits, j);
    var x, y := a[j], p.addr[j];
    MaskedByte(p.bits, j, x);
    MaskedByte(p.bits, j, y);
    ShlInjective(8 - k, Shr(8 - k, x), Shr(8 - k, y));
    ShrIsDiv(8 - k, x);
    ShrIsDiv(8 - k, y);
    LeadingBits(x, y, k);
    CoveredBits(p, a, j);
  }

  lemma AndWords(x0: u8, x1: u8, x2: u8, x3: u8, m0: u8, m1: u8, m2: u8, m3: u8)
    ensures BitAnd(Word32(x0, x1, x2, x3), Word32(m0, m1, m2, m3))
         == BitAnd(x0, m0) + 256 * BitAnd(x1, m1) + 0x1_0000 * BitAnd(x2, m2) + 0x100_0000 * BitAnd(x3, m3)
  {
    hide BitAnd;
    var xa, ma := x2 + 256 * x3, m2 + 256 * m3;
    var xb, mb := x1 + 256 * xa, m1 + 256 * ma;
    AndByte(x2, x3, m2, m3);
    AndByte(x1, xa, m1, ma);
    AndByte(x0, xb, m0, mb);
  }

  lemma AndByte(xl: u8, xh: nat, ml: u8, mh: nat)
    ensures BitAnd(xl + 256 * xh, ml + 256 * mh) == BitAnd(xl, ml) + 256 * BitAnd(xh, mh)
  {
    Pow2Values();
    ShlIsMul(8, xh);
    ShlIsMul(8, mh);
    ShlIsMul(8, BitAnd(xh, mh));
    AndFields(8, xl, xh, ml, mh);
  }

  /** The 64-bit AND with a sign-extended mask is the 32-bit AND. */
  lemma AndExtended(x: nat, mw: nat)
    requires x < WORD32 && mw < WORD32
    ensures BitAnd(x, Extend(Signed32(mw))) == BitAnd(x, mw)
  {
    hide BitAnd;
    Pow2Values();
    var hi := if mw < 0x8000_0000 then 0 else WORD32 - 1;
    assert Shl(32, hi) == WORD32 * hi by { ShlIsMul(32, hi); }
    assert Extend(Signed32(mw)) == mw + Shl(32, hi);
    AndAtMost(0, hi);
    AndFields(32, x, 0, mw, hi);
    assert Shl(32, 0) == 0;
  }

  predicate WordAgrees(p: Prefix, a: seq<u8>, w: nat)
    requires |a| == |p.addr| && 4 * w + 4 <= |a|
  {
    forall k :: 32 * w <= k < 32 * w + 32 && k < p.bits ==> AddrBit(a, k) == AddrBit(p.addr, k)
  }

  lemma WordIsBytes(p: Prefix, a: seq<u8>, w: nat)
    requires |a| == |p.addr| && 4 * w + 4 <= |a|
    ensures WordAgrees(p, a, w) <==> (forall j :: 4 * w <= j < 4 * w + 4 ==> ByteAgrees(p, a, j))
  {
    hide AddrBit;
    if forall j :: 4 * w <= j < 4 * w + 4 ==> ByteAgrees(p, a, j) {
      forall k | 32 * w <= k < 32 * w + 32 && k < p.bits ensures AddrBit(a, k) == AddrBit(p.addr, k) {
        assert ByteAgrees(p, a, k / 8);
      }
    }
  }

  /** Masked words are equal exactly when the covered bits of the word agree. */
  lemma WordTest(p: Prefix, a: seq<u8>, w: nat)
    requires |a| == |p.addr| && 4 * w + 4 <= |a|
    ensures (BitAnd(Word32(a[4 * w], a[4 * w + 1], a[4 * w + 2], a[4 * w + 3]), MaskWord(p, w))
             == BitAnd(AddrWord(p, w), MaskWord(p, w))) <==> WordAgrees(p, a, w)
  {
    hide BitAnd; hide MaskByte; hide ByteAgrees; hide WordAgrees;
    var i := 4 * w;
    var m0, m1, m2, m3 := MaskByte(p.bits, i), MaskByte(p.bits, i + 1), MaskByte(p.bits, i + 2), MaskByte(p.bits, i + 3);
    AndWords(a[i], a[i + 1], a[i + 2], a[i + 3], m0, m1, m2, m3);
    AndWords(p.addr[i], p.addr[i + 1], p.addr[i + 2], p.addr[i + 3], m0, m1, m2, m3);
    ByteTest(p, a, i);
    ByteTest(p, a, i + 1);
    ByteTest(p, a, i + 2);
    ByteTest(p, a, i + 3);
    WordIsBytes(p, a, w);
    AndAtMost(a[i], m0); AndAtMost(a[i + 1], m1); AndAtMost(a[i + 2], m2); AndAtMost(a[i + 3], m3);
    AndAtMost(p.addr[i], m0); AndAtMost(p.addr[i + 1], m1); AndAtMost(p.addr[i + 2], m2); AndAtMost(p.addr[i + 3], m3);
  }

  /** A zero mask word covers no bit, so skipping it loses nothing. */
  lemma ZeroMask(p: Prefix, a: seq<u8>, w: nat)
    requires |a| == |p.addr| && 4 * w + 4 <= |a| && MaskWord(p, w) == 0
    ensures WordAgrees(p, a, w)
  {
    hide BitAnd; hide WordAgrees;
    WordTest(p, a, w);
    AndZero(Word32(a[4 * w], a[4 * w + 1], a[4 * w + 2], a[4 * w + 3]));
    AndZero(AddrWord(p, w));
  }

  /** The `n` packet bytes at `i`. */
  function Field(pkt: seq<u8>, i: nat, n: nat): (r: seq<u8>)
    requires i + n <= |pkt|
    ensures |r| == n
  {
    pkt[i..i + n]
  }

  lemma CidrWordFlow(b: seq<Insn>, env: Env, k: nat, m: Machine, t: nat, off: nat, p: Prefix, a: seq<u8>, w: nat, fail: string,
                     frag: seq<Insn>)
    returns (m': Machine)
    requires 4 * w + 4 <= |p.addr| && frag == CidrWord(off, p, w, fail) && Has(b, k, frag) && !Labelled(b, fail)
    requires Based(env, m, t) && t + off + |p.addr| <= |m.pkt| && a == Field(m.pkt, t + off, |p.addr|)
    ensures Kept(m, m') && Based(env, m', t)
    ensures Flow(b, env, k, m) == if WordAgrees(p, a, w) then Flow(b, env, k + |frag|, m') else Left(fail, m')
  {
    hide Flow; hide Find; hide BitAnd; hide MaskWord; hide WordAgrees;
    var mw := MaskWord(p, w);
    m' := m;
    if mw == 0 {
      ZeroMask(p, a, w);
    } else {
      assert b[k].op == frag[0].op && b[k + 1].op == frag[1].op && b[k + 2].op == frag[2].op;
      assert |frag| == 3;
      hide CidrWord; hide Has; hide Labelled; hide Kept; hide AddrWord;
      AndAtMost(AddrWord(p, w), mw);
      var m1 := LoadFlow(b, env, k, m, t, off + 4 * w, Word);
      assert m1.regs[R3] == Word32(a[4 * w], a[4 * w + 1], a[4 * w + 2], a[4 * w + 3]);
      m' := MaskFlow(b, env, k + 1, m1, t, mw, BitAnd(AddrWord(p, w), mw), fail);
      KeptTwice(m, m1, m');
      WordTest(p, a, w);
    }
  }

  lemma KeptTwice(m: Machine, m1: Machine, m2: Machine)
    requires Kept(m, m1) && Kept(m1, m2)
    ensures Kept(m, m2)
  {
  }

  /** Mask the loaded word and leave unless it is `nw`. */
  lemma MaskFlow(b: seq<Insn>, env: Env, k: nat, m: Machine, t: nat, mw: nat, nw: nat, fail: string) returns (m': Machine)
    requires mw < WORD32 && nw < WORD32 && m.regs[R3] < WORD32 && k + 2 < |b| && !Labelled(b, fail) && Based(env, m, t)
    requires b[k].op == Alu(And, R3, Imm(Signed32(mw))) && b[k + 1].op == Branch(JNE, false, R3, Imm(Signed32(nw)), fail)
    ensures Kept(m, m') && Based(env, m', t)
    ensures Flow(b, env, k, m) == if BitAnd(m.regs[R3], mw) == nw then Flow(b, env, k + 2, m') else Left(fail, m')
  {
    hide Flow; hide Find; hide BitAnd; hide Labelled;
    var x := m.regs[R3];
    m' := AluFlow(b, env, k, m, And, R3, Imm(Signed32(mw)));
    AndExtended(x, mw);
    AndAtMost(x, mw);
    assert m'.regs[R3] == BitAnd(x, mw) < WORD32;
    assert Extend(Signed32(nw)) % WORD32 == nw;
    BranchFlow(b, env, k + 1, m', JNE, false, R3, Imm(Signed32(nw)), fail);
  }

  predicate AgreesFrom(p: Prefix, a: seq<u8>, w: nat)
    requires |a| == |p.addr|
  {
    forall k :: 32 * w <= k < p.bits ==> AddrBit(a, k) == AddrBit(p.addr, k)
  }

  lemma AgreesEnd(p: Prefix, a: seq<u8>, w: nat)
    requires |a| == |p.addr| && 4 * w == |a|
    ensures AgreesFrom(p, a, w)
  {
  }

  lemma AgreesSplit(p: Prefix, a: seq<u8>, w: nat)
    requires |a| == |p.addr| && 4 * w + 4 <= |a|
    ensures AgreesFrom(p, a, w) <==> WordAgrees(p, a, w) && AgreesFrom(p, a, w + 1)
  {
    hide AddrBit;
  }

  lemma {:induction false} CidrFrom(b: seq<Insn>, env: Env, k: nat, m: Machine, t: nat, off: nat, p: Prefix, a: seq<u8>, w: nat, fail: string)
    returns (m': Machine)
    requires 4 * w <= |p.addr| && Has(b, k, CidrTest(off, p, w, fail)) && !Labelled(b, fail)
    requires Based(env, m, t) && t + off + |p.addr| <= |m.pkt|
    requires a == Field(m.pkt, t + off, |p.addr|)
    ensures Kept(m, m') && Based(env, m', t)
    ensures Flow(b, env, k, m) ==
            if AgreesFrom(p, a, w) then Flow(b, env, k + |CidrTest(off, p, w, fail)|, m') else Left(fail, m')
    decreases |p.addr| - 4 * w
  {
    hide Flow; hide Find; hide CidrWord; hide WordAgrees;
    hide AgreesFrom; hide Has; hide Labelled;
    m' := m;
    if 4 * w == |p.addr| {
      AgreesEnd(p, a, w);
    } else {
      var head, tail := CidrWord(off, p, w, fail), CidrTest(off, p, w + 1, fail);
      HasConcat(b, k, head, tail);
      m' := CidrWordFlow(b, env, k, m, t, off, p, a, w, fail, head);
      AgreesSplit(p, a, w);
      if WordAgrees(p, a, w) {
        m' := CidrFrom(b, env, k + |head|, m', t, off, p, a, w + 1, fail);
      }
    }
  }

  /** cidrTest falls through exactly when the address is inside the prefix. */
  lemma CidrFlow(b: seq<Insn>, env: Env, k: nat, m: Machine, t: nat, off: nat, p: Prefix, fail: string)
    returns (m': Machine)
    requires Has(b, k, CidrTest(off, p, 0, fail)) && !Labelled(b, fail)
    requires Based(env, m, t) && t + off + |p.addr| <= |m.pkt|
    ensures Kept(m, m') && Based(env, m', t)
    ensures Flow(b, env, k, m) ==
            if InPrefix(p, Field(m.pkt, t + off, |p.addr|))
            then Flow(b, env, k + |CidrTest(off, p, 0, fail)|, m') else Left(fail, m')
  {
    hide Flow; hide Find; hide CidrTest; hide AddrBit;
    m' := CidrFrom(b, env, k, m, t, off, p, Field(m.pkt, t + off, |p.addr|), 0, fail);
  }
}
