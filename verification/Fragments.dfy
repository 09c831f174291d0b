/** What each fragment of a built-in block does, as equations about the
    forward-only run `Flow` of the block that contains it. */
module Fragments {
  import opened Bits
  import opened Ebpf
  import opened Wire
  import opened Builders

  /** Block `b` holds the operations of `frag` from index `k`, and more after it. */
  predicate Has(b: seq<Insn>, k: nat, frag: seq<Insn>) {
    k + |frag| < |b| && forall i :: 0 <= i < |frag| ==> b[k + i].op == frag[i].op
  }

  lemma HasConcat(b: seq<Insn>, k: nat, x: seq<Insn>, y: seq<Insn>)
    requires Has(b, k, x + y)
    ensures Has(b, k, x) && Has(b, k + |x|, y)
  {
    assert forall i :: 0 <= i < |x| ==> x[i] == (x + y)[i];
    assert forall i :: 0 <= i < |y| ==> y[i] == (x + y)[|x| + i];
  }

  /** The registers later blocks and the tails depend on are unchanged, and memory
      keeps its extent. */
  predicate Preserved(m: Machine, m': Machine) {
    && m'.regs[R6] == m.regs[R6] && m'.regs[R7] == m.regs[R7]
    && m'.regs[R8] == m.regs[R8] && m'.regs[RFP] == m.regs[RFP]
    && |m'.pkt| == |m.pkt| && |m'.stack| == |m.stack|
  }

  /** And so is the packet. */
  predicate Kept(m: Machine, m': Machine) { Preserved(m, m') && m'.pkt == m.pkt }

  /** R6 and R7 delimit the packet, which ends well below the top of memory. */
  predicate Entry(env: Env, m: Machine) {
    && env.data + |m.pkt| + 0x1_0000 <= WORD64
    && m.regs[R7] == env.data && m.regs[R6] == env.data + |m.pkt|
  }

  /** R9 points `t` bytes into the packet, and fields of the inner frame sit at
      their usual offsets from it. */
  predicate Based(env: Env, m: Machine, t: nat) {
    && Entry(env, m) && m.regs[R9] == env.data + t && t <= |m.pkt|
  }

  // ------------------------------------------------------ one instruction

  lemma AluFlow(b: seq<Insn>, env: Env, k: nat, m: Machine, fn: AluFn, dst: Reg, arg: Operand)
    returns (m': Machine)
    requires k + 1 < |b| && b[k].op == Alu(fn, dst, arg) && dst != RFP
    ensures m' == Set(m, dst, AluValue(fn, m.regs[dst], ArgValue(m, arg)))
    ensures Flow(b, env, k, m) == Flow(b, env, k + 1, m')
  {
    m' := Set(m, dst, AluValue(fn, m.regs[dst], ArgValue(m, arg)));
    assert StepLocal(b, env, k, m) == In(k + 1, m');
  }

  lemma BranchFlow(b: seq<Insn>, env: Env, k: nat, m: Machine, c: Cond, wide: bool, dst: Reg, arg: Operand, target: string)
    requires k + 1 < |b| && b[k].op == Branch(c, wide, dst, arg, target)
    ensures !Taken(m, c, wide, dst, arg) ==> Flow(b, env, k, m) == Flow(b, env, k + 1, m)
    ensures Taken(m, c, wide, dst, arg) && !Labelled(b, target) ==> Flow(b, env, k, m) == Left(target, m)
    ensures Taken(m, c, wide, dst, arg) && k < Find(b, target) < |b| ==> Flow(b, env, k, m) == Flow(b, env, Find(b, target), m)
  {
  }

  lemma JaFlow(b: seq<Insn>, env: Env, k: nat, m: Machine, target: string)
    requires k < |b| && b[k].op == Ja(target) && !Labelled(b, target)
    ensures Flow(b, env, k, m) == Left(target, m)
  {
  }

  /** `LoadField` puts the field into R3. */
  lemma LoadFlow(b: seq<Insn>, env: Env, k: nat, m: Machine, t: nat, off: nat, size: Size)
    returns (m': Machine)
    requires k + 1 < |b| && b[k].op == LoadField(off, size).op
    requires Based(env, m, t) && t + off + size.Bytes() <= |m.pkt|
    ensures Kept(m, m') && Based(env, m', t) && m'.regs[R3] == Le(m.pkt, t + off, size)
    ensures Flow(b, env, k, m) == Flow(b, env, k + 1, m')
  {
    m' := Set(m, R3, Le(m.pkt, t + off, size));
    assert StepLocal(b, env, k, m) == In(k + 1, m');
  }

  // -------------------------------------------------------------- fragments

  lemma BoundsFlow(b: seq<Insn>, env: Env, k: nat, m: Machine, t: nat, n: i32, next: string)
    returns (m': Machine)
    requires Has(b, k, BoundsFrom(R9, n, next)) && !Labelled(b, next)
    requires Based(env, m, t) && 0 <= n < 0x1000 && t <= 4
    ensures Kept(m, m') && Based(env, m', t)
    ensures Flow(b, env, k, m) ==
            if t + n > |m.pkt| then Left(next, m') else Flow(b, env, k + 3, m')
  {
    hide Flow; hide Find;
    var frag := BoundsFrom(R9, n, next);
    assert b[k].op == frag[0].op && b[k + 1].op == frag[1].op && b[k + 2].op == frag[2].op;
    var m1 := AluFlow(b, env, k, m, Mov, R2, Src(R9));
    m' := AluFlow(b, env, k + 1, m1, Add, R2, Imm(n));
    BranchFlow(b, env, k + 2, m', JGT, true, R2, Src(R6), next);
  }

  lemma NetShortSound(b0: u8, b1: u8, v: u16)
    ensures b0 + 256 * (b1 as int) == NetShort(v) <==> 256 * (b0 as int) + b1 == v
  {
  }

  lemma RequireFlow(b: seq<Insn>, env: Env, k: nat, m: Machine, t: nat, off: nat, size: Size, v: i32, next: string)
    returns (m': Machine)
    requires Has(b, k, Require(off, size, v, next)) && !Labelled(b, next)
    requires Based(env, m, t) && t + off + size.Bytes() <= |m.pkt| && v >= 0
    ensures Kept(m, m') && Based(env, m', t)
    ensures Flow(b, env, k, m) ==
            if Le(m.pkt, t + off, size) != v then Left(next, m') else Flow(b, env, k + 2, m')
  {
    hide Flow; hide Find; hide Le;
    var frag := Require(off, size, v, next);
    assert b[k].op == frag[0].op && b[k + 1].op == frag[1].op;
    m' := LoadFlow(b, env, k, m, t, off, size);
    BranchFlow(b, env, k + 1, m', JNE, true, R3, Imm(v), next);
  }

  lemma RequireHalf(b: seq<Insn>, env: Env, k: nat, m: Machine, t: nat, off: nat, v: u16, next: string)
    returns (m': Machine)
    requires Has(b, k, Require(off, Half, NetShort(v), next)) && !Labelled(b, next)
    requires Based(env, m, t) && t + off + 2 <= |m.pkt|
    ensures Kept(m, m') && Based(env, m', t)
    ensures Flow(b, env, k, m) ==
            if Be16(m.pkt, t + off) != v then Left(next, m') else Flow(b, env, k + 2, m')
  {
    hide Flow; hide Find;
    NetShortSound(m.pkt[t + off], m.pkt[t + off + 1], v);
    m' := RequireFlow(b, env, k, m, t, off, Half, NetShort(v), next);
  }

  lemma AndFragmentMask(b0: u8, b1: u8)
    ensures BitAnd(b0 + 256 * (b1 as int), NetShort(0x1fff)) == 0 <==> (256 * (b0 as int) + b1) % 8192 == 0
  {
    hide BitAnd;
    Pow2Values();
    assert Shl(8, b1) == 256 * b1 && Shl(8, 255) == 256 * 255 by { ShlIsMul(8, b1); ShlIsMul(8, 255); }
    AndFields(8, b0, b1, 31, 255);
    assert BitAnd(b0, 31) == b0 % 32 by { AndLowMask(5, b0); assert Pow2(5) == 32; }
    assert BitAnd(b1, 255) == b1 by { AndOnes(8, b1); }
    assert BitAnd(b0 + 256 * b1, 31 + 256 * 255) == b0 % 32 + 256 * b1;
    assert NetShort(0x1fff) == 31 + 256 * 255;
    OffsetBits(b0, b1);
  }

  lemma OffsetBits(b0: u8, b1: u8)
    ensures b0 % 32 + 256 * (b1 as int) == 0 <==> (256 * (b0 as int) + b1) % 8192 == 0
  {
    DivModUnique(256 * b0 + b1, 8192, b0 / 32, 256 * (b0 % 32) + b1);
  }

  lemma GuardFlow(b: seq<Insn>, env: Env, k: nat, m: Machine, t: nat, next: string)
    returns (m': Machine)
    requires Has(b, k, Ipv4Guard(next)) && !Labelled(b, next)
    requires Based(env, m, t) && t + 22 <= |m.pkt|
    ensures Kept(m, m') && Based(env, m', t)
    ensures Flow(b, env, k, m) ==
            if m.pkt[t + 14] != 0x45 || Be16(m.pkt, t + 20) % 8192 != 0
            then Left(next, m') else Flow(b, env, k + 5, m')
  {
    hide Flow; hide Find; hide BitAnd;
    var frag := Ipv4Guard(next);
    assert b[k + 2].op == frag[2].op && b[k + 3].op == frag[3].op && b[k + 4].op == frag[4].op;
    assert forall i :: 0 <= i < 2 ==> frag[i] == Require(14, Byte, 0x45, next)[i];
    m' := RequireFlow(b, env, k, m, t, 14, Byte, 0x45, next);
    if m.pkt[t + 14] == 0x45 {
      assert b[k + 2].op == LoadField(20, Half).op;
      var m2 := LoadFlow(b, env, k + 2, m', t, 20, Half);
      m' := AluFlow(b, env, k + 3, m2, And, R3, Imm(NetShort(0x1fff)));
      BranchFlow(b, env, k + 4, m', JNE, true, R3, Imm(0), next);
      AndFragmentMask(m.pkt[t + 20], m.pkt[t + 21]);
    }
  }

  /** The base register ends up on the frame, or 4 bytes on for a tagged one. */
  lemma BaseFlow(b: seq<Insn>, env: Env, m: Machine, prefix: string, next: string)
    returns (m': Machine, t: nat)
    requires Has(b, 0, L3Base(prefix, next)) && !Labelled(b, next)
    requires Find(b, prefix + "_notag") == 7 && Entry(env, m)
    ensures Kept(m, m')
    ensures if |m.pkt| < 14 then Flow(b, env, 0, m) == Left(next, m')
            else t == (if Be16(m.pkt, 12) == ETH_VLAN then 4 else 0) && Based(env, m', t)
                 && Flow(b, env, 0, m) == Flow(b, env, 8, m')
  {
    hide Flow; hide Find;
    var frag := L3Base(prefix, next);
    assert b[0].op == frag[0].op && b[4].op == frag[4].op && b[5].op == frag[5].op;
    assert b[6].op == frag[6].op && b[7].op == frag[7].op;
    assert Has(b, 1, BoundsFrom(R9, 14, next)) by {
      assert forall i :: 0 <= i < 3 ==> frag[1 + i] == BoundsFrom(R9, 14, next)[i];
    }
    t := 0;
    var m1 := AluFlow(b, env, 0, m, Mov, R9, Src(R7));
    m' := BoundsFlow(b, env, 1, m1, 0, 14, next);
    if |m.pkt| >= 14 {
      m', t := TagFlow(b, env, m', prefix);
    }
  }

  /** Steps over a tag, if there is one. */
  lemma TagFlow(b: seq<Insn>, env: Env, m: Machine, prefix: string) returns (m': Machine, t: nat)
    requires |b| > 8 && b[4].op == LoadField(12, Half).op && b[5].op == JumpUnless(NetShort(ETH_VLAN), prefix + "_notag").op
    requires b[6].op == Alu(Add, R9, Imm(4)) && b[7].op == Alu(Mov, R9, Src(R9)) && Find(b, prefix + "_notag") == 7
    requires Based(env, m, 0) && |m.pkt| >= 14
    ensures Kept(m, m') && t == (if Be16(m.pkt, 12) == ETH_VLAN then 4 else 0) && Based(env, m', t)
    ensures Flow(b, env, 4, m) == Flow(b, env, 8, m')
  {
    hide Flow; hide Find; hide NetShort;
    t := 0;
    var m3 := LoadFlow(b, env, 4, m, 0, 12, Half);
    NetShortSound(m.pkt[12], m.pkt[13], ETH_VLAN);
    BranchFlow(b, env, 5, m3, JNE, true, R3, Imm(NetShort(ETH_VLAN)), prefix + "_notag");
    if Be16(m.pkt, 12) == ETH_VLAN {
      t := 4;
      m3 := AluFlow(b, env, 6, m3, Add, R9, Imm(4));
    }
    m' := AluFlow(b, env, 7, m3, Mov, R9, Src(R9));
  }

  lemma NetShortInjective(x: u16, y: u16)
    ensures NetShort(x) == NetShort(y) <==> x == y
    ensures 0 <= NetShort(x) < 0x1_0000 && 0 <= NetShort(y) < 0x1_0000
  {
  }

  lemma PortFlow(b: seq<Insn>, env: Env, k: nat, m: Machine, port: u16, field: u16, redirect: string)
    requires Has(b, k, [JumpIf(NetShort(port), redirect)]) && !Labelled(b, redirect)
    requires m.regs[R3] == NetShort(field)
    ensures Flow(b, env, k, m) == if field == port then Left(redirect, m) else Flow(b, env, k + 1, m)
  {
    hide Flow; hide Find; hide NetShort;
    HasFirst(b, k, [JumpIf(NetShort(port), redirect)]);
    NetShortInjective(field, port);
    BranchFlow(b, env, k, m, JEq, true, R3, Imm(NetShort(port)), redirect);
  }

  /** The port tests leave for `redirect` exactly when the loaded port is listed. */
  lemma {:induction false} PortsFlow(b: seq<Insn>, env: Env, k: nat, m: Machine, ports: seq<u16>, field: u16, redirect: string)
    requires Has(b, k, PortTests(ports, redirect)) && !Labelled(b, redirect)
    requires k + |ports| < |b| && m.regs[R3] == NetShort(field)
    ensures Flow(b, env, k, m) == if field in ports then Left(redirect, m) else Flow(b, env, k + |ports|, m)
    decreases ports
  {
    hide Flow; hide Find; hide Has; hide Labelled; hide NetShort;
    if ports != [] {
      var rest := ports[1..];
      HasConcat(b, k, [JumpIf(NetShort(ports[0]), redirect)], PortTests(rest, redirect));
      PortFlow(b, env, k, m, ports[0], field, redirect);
      assert field in ports <==> field == ports[0] || field in rest;
      if field != ports[0] {
        PortsFlow(b, env, k + 1, m, rest, field, redirect);
      }
    }
  }

  lemma HasFirst(b: seq<Insn>, k: nat, frag: seq<Insn>)
    requires Has(b, k, frag) && frag != []
    ensures k + 1 < |b| && b[k].op == frag[0].op
  {
  }
}
