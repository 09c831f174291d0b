/** Every built-in block decides its rule: from any register state it leaves for
    `redirect` when the rule holds of the packet and for `next` when it does not,
    without a load outside the packet and without touching R6, R7, R8 or memory. */
module Refinement {
  import opened Common
  import opened Bits
  import opened Ebpf
  import opened Wire
  import opened Symbols
  import opened Builders
  import opened Fragments
  import opened Cidr

  /** The block's run from its first instruction ends at the right target. */
  predicate Decided(b: seq<Insn>, env: Env, m: Machine, next: string, redirect: string, verdict: bool) {
    b != [] &&
    var o := Flow(b, env, 0, m);
    o.Left? && o.sym == (if verdict then redirect else next) && Kept(m, o.m)
  }

  /** R9 + i addresses byte i of the inner frame `f` for every i from 12 on. */
  predicate View(env: Env, m: Machine, t: nat, f: seq<u8>) {
    && Based(env, m, t) && t <= 4
    && |f| >= 14 && |m.pkt| == t + |f|
    && forall i :: 12 <= i < |f| ==> f[i] == m.pkt[t + i]
  }

  lemma HalfTest(b: seq<Insn>, env: Env, k: nat, m: Machine, t: nat, f: seq<u8>, off: nat, v: u16, next: string)
    returns (m': Machine)
    requires Has(b, k, Require(off, Half, NetShort(v), next)) && !Labelled(b, next)
    requires View(env, m, t, f) && 12 <= off && off + 2 <= |f|
    ensures Kept(m, m') && View(env, m', t, f)
    ensures Flow(b, env, k, m) == if Be16(f, off) != v then Left(next, m') else Flow(b, env, k + 2, m')
  {
    hide Flow; hide Find; hide Has;
    m' := RequireHalf(b, env, k, m, t, off, v, next);
  }

  lemma ByteTestAt(b: seq<Insn>, env: Env, k: nat, m: Machine, t: nat, f: seq<u8>, off: nat, v: u8, next: string)
    returns (m': Machine)
    requires Has(b, k, Require(off, Byte, v, next)) && !Labelled(b, next)
    requires View(env, m, t, f) && 12 <= off < |f|
    ensures Kept(m, m') && View(env, m', t, f)
    ensures Flow(b, env, k, m) == if f[off] != v then Left(next, m') else Flow(b, env, k + 2, m')
  {
    hide Flow; hide Find; hide Has;
    m' := RequireFlow(b, env, k, m, t, off, Byte, v, next);
  }

  lemma GuardTest(b: seq<Insn>, env: Env, k: nat, m: Machine, t: nat, f: seq<u8>, next: string)
    returns (m': Machine)
    requires Has(b, k, Ipv4Guard(next)) && !Labelled(b, next)
    requires View(env, m, t, f) && |f| >= 22
    ensures Kept(m, m') && View(env, m', t, f)
    ensures Flow(b, env, k, m) ==
            if Ipv4Version(f) == 4 && Ipv4Ihl(f) == 5 && Ipv4FragmentOffset(f) == 0
            then Flow(b, env, k + 5, m') else Left(next, m')
  {
    hide Flow; hide Find; hide Has;
    m' := GuardFlow(b, env, k, m, t, next);
  }

  /** The address of the prefix's family at `off` is inside the prefix. */
  predicate AddressAt(f: seq<u8>, off: nat, p: Prefix)
    requires off + |p.addr| <= |f|
  {
    InPrefix(p, f[off..off + |p.addr|])
  }

  lemma CidrAt(b: seq<Insn>, env: Env, k: nat, m: Machine, t: nat, f: seq<u8>, off: nat, p: Prefix, next: string)
    returns (m': Machine)
    requires Has(b, k, CidrTest(off, p, 0, next)) && !Labelled(b, next)
    requires View(env, m, t, f) && 12 <= off && off + |p.addr| <= |f|
    ensures Kept(m, m') && View(env, m', t, f)
    ensures Flow(b, env, k, m) ==
            if AddressAt(f, off, p)
            then Flow(b, env, k + |CidrTest(off, p, 0, next)|, m') else Left(next, m')
  {
    hide Flow; hide Find; hide Has; hide CidrTest; hide InPrefix;
    m' := CidrFlow(b, env, k, m, t, off, p, next);
    assert f[off..off + |p.addr|] == m.pkt[t + off..t + off + |p.addr|];
  }

  /** The common head: find the inner frame and check that `end` bytes of it are there. */
  lemma HeadFlow(b: seq<Insn>, env: Env, m: Machine, entry: string, end: i32, next: string)
    returns (m': Machine, t: nat)
    requires Has(b, 0, L3Base(entry, next)) && Has(b, 8, BoundsFrom(R9, end, next)) && !Labelled(b, next)
    requires Find(b, entry + "_notag") == 7 && Entry(env, m) && 14 <= end < 100
    ensures Kept(m, m')
    ensures if Inner(m.pkt).None? || |Inner(m.pkt).value| < end then Flow(b, env, 0, m) == Left(next, m')
            else View(env, m', t, Inner(m.pkt).value) && Flow(b, env, 0, m) == Flow(b, env, 11, m')
  {
    hide Flow; hide Find; hide Has;
    m', t := BaseFlow(b, env, m, entry, next);
    if |m.pkt| >= 14 {
      m' := BoundsFlow(b, env, 8, m', t, end, next);
    }
  }

  /** The only labels of a block without port branches are `entry` at 0 and the
      landing pad at 7. */
  predicate PlainSymbols(b: seq<Insn>, entry: string) {
    && |b| > 8 && b[0].symbol == entry && b[7].symbol == entry + "_notag"
    && forall i :: 0 < i < |b| && i != 7 ==> b[i].symbol == ""
  }

  lemma PlainLabels(b: seq<Insn>, entry: string, next: string, redirect: string)
    requires Names(entry, next, redirect) && PlainSymbols(b, entry)
    ensures Find(b, entry + "_notag") == 7 && !Labelled(b, next) && !Labelled(b, redirect) && Owned(b, entry)
  {
    StemOfLabel(entry, "_notag");
    assert |entry + "_notag"| > |entry|;
    assert b[0].symbol != b[7].symbol;
  }

  predicate Unlabelled(ins: seq<Insn>) {
    forall i :: 0 <= i < |ins| ==> ins[i].symbol == ""
  }

  /** Where the parts of head + tests + Ja sit. */
  lemma SimpleShape(end: i32, tests: seq<Insn>, entry: string, next: string, redirect: string)
    requires Names(entry, next, redirect)
    requires Unlabelled(tests)
    ensures var b := Simple(end, tests, entry, next, redirect);
            && |b| == 12 + |tests| && PlainSymbols(b, entry)
            && Has(b, 0, L3Base(entry, next)) && Has(b, 8, BoundsFrom(R9, end, next)) && Has(b, 11, tests)
            && b[11 + |tests|].op == Ja(redirect)
  {
    hide WithEntry; hide L3Base; hide BoundsFrom; hide Has; hide Unlabelled; hide PlainSymbols; hide Names;
    LabelledBase(entry, next);
    BoundsShape(end, next);
    FourPieces(WithEntry(entry, L3Base(entry, next)), BoundsFrom(R9, end, next), tests, I(Ja(redirect)), entry, L3Base(entry, next));
  }

  lemma LabelledBase(entry: string, next: string)
    ensures var c, f := WithEntry(entry, L3Base(entry, next)), L3Base(entry, next);
            && |c| == |f| == 8 && c[0].symbol == entry && c[7].symbol == entry + "_notag"
            && (forall i :: 0 < i < 7 ==> c[i].symbol == "") && forall i :: 0 <= i < 8 ==> c[i].op == f[i].op
  {
    hide NetShort;
  }

  lemma BoundsShape(end: i32, next: string)
    ensures Unlabelled(BoundsFrom(R9, end, next)) && |BoundsFrom(R9, end, next)| == 3
  {
  }

  lemma FourPieces(c1: seq<Insn>, c2: seq<Insn>, t: seq<Insn>, j: Insn, entry: string, f: seq<Insn>)
    requires |c1| == |f| == 8 && |c2| == 3 && Unlabelled(c2) && Unlabelled(t) && j.symbol == ""
    requires c1[0].symbol == entry && c1[7].symbol == entry + "_notag" && forall i :: 0 < i < 7 ==> c1[i].symbol == ""
    requires forall i :: 0 <= i < 8 ==> c1[i].op == f[i].op
    ensures var b := c1 + c2 + t + [j];
            |b| == 12 + |t| && PlainSymbols(b, entry) && Has(b, 0, f) && Has(b, 8, c2) && Has(b, 11, t) && b[11 + |t|] == j
  {
    var b := c1 + c2 + t + [j];
    assert forall i :: 0 <= i < 8 ==> b[i] == c1[i];
    assert forall i :: 0 <= i < 3 ==> b[8 + i] == c2[i];
    assert forall i :: 0 <= i < |t| ==> b[11 + i] == t[i];
    assert forall i :: 8 <= i < 11 ==> b[i] == c2[i - 8];
    assert forall i :: 11 <= i < 11 + |t| ==> b[i] == t[i - 11];
  }

  lemma AllDecided(env: Env, m: Machine, entry: string, next: string, redirect: string)
    requires Names(entry, next, redirect)
    ensures Decided(Code(All, entry, next, redirect), env, m, next, redirect, true)
    ensures Decided(Code(Nothing, entry, next, redirect), env, m, next, redirect, false)
  {
  }

  lemma EtherTypeDecided(env: Env, m: Machine, et: u16, entry: string, next: string, redirect: string)
    requires Names(entry, next, redirect) && Entry(env, m)
    ensures Decided(Code(EtherTypeIs(et), entry, next, redirect), env, m, next, redirect, Matches(EtherTypeIs(et), m.pkt))
  {
    hide Flow; hide Find; hide Has; hide Simple; hide Names; hide PlainSymbols; hide View;
    var tests := Require(12, Half, NetShort(et), next);
    var b := Simple(14, tests, entry, next, redirect);
    SimpleShape(14, tests, entry, next, redirect);
    PlainLabels(b, entry, next, redirect);
    var m1, t := HeadFlow(b, env, m, entry, 14, next);
    if Inner(m.pkt).Some? {
      var m2 := HalfTest(b, env, 11, m1, t, Inner(m.pkt).value, 12, et, next);
      JaFlow(b, env, 13, m2, redirect);
    }
  }

  lemma Ipv4ProtoDecided(env: Env, m: Machine, p: u8, entry: string, next: string, redirect: string)
    requires Names(entry, next, redirect) && Entry(env, m)
    ensures Decided(Code(Ipv4Proto(p), entry, next, redirect), env, m, next, redirect, Matches(Ipv4Proto(p), m.pkt))
  {
    hide Flow; hide Find; hide Has; hide Simple; hide Names; hide PlainSymbols; hide View;
    var tests := Require(12, Half, NetShort(ETH_IPV4), next) + Require(23, Byte, p, next);
    var b := Simple(24, tests, entry, next, redirect);
    SimpleShape(24, tests, entry, next, redirect);
    PlainLabels(b, entry, next, redirect);
    var m1, t := HeadFlow(b, env, m, entry, 24, next);
    if Inner(m.pkt).Some? && |Inner(m.pkt).value| >= 24 {
      var f := Inner(m.pkt).value;
      HasConcat(b, 11, Require(12, Half, NetShort(ETH_IPV4), next), Require(23, Byte, p, next));
      var m2 := HalfTest(b, env, 11, m1, t, f, 12, ETH_IPV4, next);
      if EtherType(f) == ETH_IPV4 {
        var m3 := ByteTestAt(b, env, 13, m2, t, f, 23, p, next);
        JaFlow(b, env, 15, m3, redirect);
      }
    }
  }

  lemma Ipv6NextHeaderDecided(env: Env, m: Machine, nh: u8, entry: string, next: string, redirect: string)
    requires Names(entry, next, redirect) && Entry(env, m)
    ensures Decided(Code(Ipv6NextHeader(nh), entry, next, redirect), env, m, next, redirect, Matches(Ipv6NextHeader(nh), m.pkt))
  {
    hide Flow; hide Find; hide Has; hide Simple; hide Names; hide PlainSymbols; hide View;
    var tests := Require(12, Half, NetShort(ETH_IPV6), next) + Require(20, Byte, nh, next);
    var b := Simple(21, tests, entry, next, redirect);
    SimpleShape(21, tests, entry, next, redirect);
    PlainLabels(b, entry, next, redirect);
    var m1, t := HeadFlow(b, env, m, entry, 21, next);
    if Inner(m.pkt).Some? && |Inner(m.pkt).value| >= 21 {
      var f := Inner(m.pkt).value;
      HasConcat(b, 11, Require(12, Half, NetShort(ETH_IPV6), next), Require(20, Byte, nh, next));
      var m2 := HalfTest(b, env, 11, m1, t, f, 12, ETH_IPV6, next);
      if EtherType(f) == ETH_IPV6 {
        var m3 := ByteTestAt(b, env, 13, m2, t, f, 20, nh, next);
        JaFlow(b, env, 15, m3, redirect);
      }
    }
  }

  lemma Icmpv4EchoDecided(env: Env, m: Machine, entry: string, next: string, redirect: string)
    requires Names(entry, next, redirect) && Entry(env, m)
    ensures Decided(Code(Icmpv4Echo, entry, next, redirect), env, m, next, redirect, Matches(Icmpv4Echo, m.pkt))
  {
    hide Flow; hide Find; hide Has; hide Simple; hide Names; hide PlainSymbols; hide View;
    var tests := Require(12, Half, NetShort(ETH_IPV4), next) + Ipv4Guard(next) +
                 Require(23, Byte, PROTO_ICMP, next) + Require(34, Byte, 8, next);
    var b := Simple(35, tests, entry, next, redirect);
    SimpleShape(35, tests, entry, next, redirect);
    PlainLabels(b, entry, next, redirect);
    var m1, t := HeadFlow(b, env, m, entry, 35, next);
    if Inner(m.pkt).Some? && |Inner(m.pkt).value| >= 35 {
      Echo4Flow(b, env, m1, t, Inner(m.pkt).value, next, redirect);
    }
  }

  lemma Echo4Flow(b: seq<Insn>, env: Env, m: Machine, t: nat, f: seq<u8>, next: string, redirect: string)
    requires var tests := Require(12, Half, NetShort(ETH_IPV4), next) + Ipv4Guard(next) +
                          Require(23, Byte, PROTO_ICMP, next) + Require(34, Byte, 8, next);
             Has(b, 11, tests) && |b| == 23 && b[22].op == Ja(redirect)
    requires !Labelled(b, next) && !Labelled(b, redirect) && View(env, m, t, f) && |f| >= 35
    ensures var o := Flow(b, env, 11, m);
            o.Left? && Kept(m, o.m) && o.sym == if HoldsOn(Icmpv4Echo, f) then redirect else next
  {
    hide Flow; hide Find; hide Has; hide View; hide NetShort; hide Ipv4Guard; hide Require;
    var c1, c2 := Require(12, Half, NetShort(ETH_IPV4), next), Ipv4Guard(next);
    var c3, c4 := Require(23, Byte, PROTO_ICMP, next), Require(34, Byte, 8, next);
    TestLengths(next);
    HasConcat(b, 11, c1 + c2 + c3, c4);
    HasConcat(b, 11, c1 + c2, c3);
    HasConcat(b, 11, c1, c2);
    var m2 := HalfTest(b, env, 11, m, t, f, 12, ETH_IPV4, next);
    if EtherType(f) == ETH_IPV4 {
      var m3 := GuardTest(b, env, 13, m2, t, f, next);
      if PlainIpv4(f, 1) {
        var m4 := ByteTestAt(b, env, 18, m3, t, f, 23, PROTO_ICMP, next);
        if Ipv4Protocol(f) == PROTO_ICMP {
          var m5 := ByteTestAt(b, env, 20, m4, t, f, 34, 8, next);
          JaFlow(b, env, 22, m5, redirect);
        }
      }
    }
  }

  lemma TestLengths(next: string)
    ensures |Ipv4Guard(next)| == 5 && |NdTests(next)| == 3
    ensures forall off: nat, size: Size, v: i32 :: |Require(off, size, v, next)| == 2
  {
  }

  lemma Icmpv6EchoDecided(env: Env, m: Machine, entry: string, next: string, redirect: string)
    requires Names(entry, next, redirect) && Entry(env, m)
    ensures Decided(Code(Icmpv6Echo, entry, next, redirect), env, m, next, redirect, Matches(Icmpv6Echo, m.pkt))
  {
    hide Flow; hide Find; hide Has; hide Simple; hide Names; hide PlainSymbols; hide View;
    var tests := Require(12, Half, NetShort(ETH_IPV6), next) + Require(20, Byte, PROTO_ICMPV6, next) +
                 Require(54, Byte, 128, next);
    var b := Simple(55, tests, entry, next, redirect);
    SimpleShape(55, tests, entry, next, redirect);
    PlainLabels(b, entry, next, redirect);
    var m1, t := HeadFlow(b, env, m, entry, 55, next);
    if Inner(m.pkt).Some? && |Inner(m.pkt).value| >= 55 {
      Echo6Flow(b, env, m1, t, Inner(m.pkt).value, next, redirect);
    }
  }

  lemma Echo6Flow(b: seq<Insn>, env: Env, m: Machine, t: nat, f: seq<u8>, next: string, redirect: string)
    requires var tests := Require(12, Half, NetShort(ETH_IPV6), next) + Require(20, Byte, PROTO_ICMPV6, next) +
                          Require(54, Byte, 128, next);
             Has(b, 11, tests) && |b| == 18 && b[17].op == Ja(redirect)
    requires !Labelled(b, next) && !Labelled(b, redirect) && View(env, m, t, f) && |f| >= 55
    ensures var o := Flow(b, env, 11, m);
            o.Left? && Kept(m, o.m) && o.sym == if HoldsOn(Icmpv6Echo, f) then redirect else next
  {
    hide Flow; hide Find; hide Has; hide View; hide NetShort; hide Require;
    var c1, c2, c3 := Require(12, Half, NetShort(ETH_IPV6), next), Require(20, Byte, PROTO_ICMPV6, next), Require(54, Byte, 128, next);
    TestLengths(next);
    HasConcat(b, 11, c1 + c2, c3);
    HasConcat(b, 11, c1, c2);
    var m2 := HalfTest(b, env, 11, m, t, f, 12, ETH_IPV6, next);
    if EtherType(f) == ETH_IPV6 {
      var m3 := ByteTestAt(b, env, 13, m2, t, f, 20, PROTO_ICMPV6, next);
      if Ipv6NextHeaderField(f) == PROTO_ICMPV6 {
        var m4 := ByteTestAt(b, env, 15, m3, t, f, 54, 128, next);
        JaFlow(b, env, 17, m4, redirect);
      }
    }
  }

  lemma NdFlow(b: seq<Insn>, env: Env, k: nat, m: Machine, t: nat, f: seq<u8>, next: string)
    returns (m': Machine)
    requires Has(b, k, NdTests(next)) && !Labelled(b, next)
    requires View(env, m, t, f) && |f| >= 55
    ensures Kept(m, m') && View(env, m', t, f)
    ensures Flow(b, env, k, m) == if 133 <= f[54] <= 137 then Flow(b, env, k + 3, m') else Left(next, m')
  {
    hide Flow; hide Find;
    var frag := NdTests(next);
    assert b[k].op == frag[0].op && b[k + 1].op == frag[1].op && b[k + 2].op == frag[2].op;
    m' := LoadFlow(b, env, k, m, t, 54, Byte);
    BranchFlow(b, env, k + 1, m', JLT, true, R3, Imm(133), next);
    BranchFlow(b, env, k + 2, m', JGT, true, R3, Imm(137), next);
  }

  lemma Icmpv6NdDecided(env: Env, m: Machine, entry: string, next: string, redirect: string)
    requires Names(entry, next, redirect) && Entry(env, m)
    ensures Decided(Code(Icmpv6Nd, entry, next, redirect), env, m, next, redirect, Matches(Icmpv6Nd, m.pkt))
  {
    hide Flow; hide Find; hide Has; hide Simple; hide Names; hide PlainSymbols; hide View;
    var tests := Require(12, Half, NetShort(ETH_IPV6), next) + Require(20, Byte, PROTO_ICMPV6, next) +
                 NdTests(next);
    var b := Simple(55, tests, entry, next, redirect);
    SimpleShape(55, tests, entry, next, redirect);
    PlainLabels(b, entry, next, redirect);
    var m1, t := HeadFlow(b, env, m, entry, 55, next);
    if Inner(m.pkt).Some? && |Inner(m.pkt).value| >= 55 {
      NdRuleFlow(b, env, m1, t, Inner(m.pkt).value, next, redirect);
    }
  }

  lemma NdRuleFlow(b: seq<Insn>, env: Env, m: Machine, t: nat, f: seq<u8>, next: string, redirect: string)
    requires var tests := Require(12, Half, NetShort(ETH_IPV6), next) + Require(20, Byte, PROTO_ICMPV6, next) + NdTests(next);
             Has(b, 11, tests) && |b| == 19 && b[18].op == Ja(redirect)
    requires !Labelled(b, next) && !Labelled(b, redirect) && View(env, m, t, f) && |f| >= 55
    ensures var o := Flow(b, env, 11, m);
            o.Left? && Kept(m, o.m) && o.sym == if HoldsOn(Icmpv6Nd, f) then redirect else next
  {
    hide Flow; hide Find; hide Has; hide View; hide NetShort; hide NdTests; hide Require;
    var c1, c2, c3 := Require(12, Half, NetShort(ETH_IPV6), next), Require(20, Byte, PROTO_ICMPV6, next), NdTests(next);
    TestLengths(next);
    HasConcat(b, 11, c1 + c2, c3);
    HasConcat(b, 11, c1, c2);
    var m2 := HalfTest(b, env, 11, m, t, f, 12, ETH_IPV6, next);
    if EtherType(f) == ETH_IPV6 {
      var m3 := ByteTestAt(b, env, 13, m2, t, f, 20, PROTO_ICMPV6, next);
      if Ipv6NextHeaderField(f) == PROTO_ICMPV6 {
        var m4 := NdFlow(b, env, 15, m3, t, f, next);
        JaFlow(b, env, 18, m4, redirect);
      }
    }
  }

  // ------------------------------------------------------------ address rules

  lemma CidrWordUnlabelled(off: nat, p: Prefix, w: nat, fail: string)
    requires 4 * w + 4 <= |p.addr|
    ensures Unlabelled(CidrWord(off, p, w, fail))
  {
    hide BitAnd; hide MaskWord; hide AddrWord;
  }

  lemma {:induction false} CidrUnlabelled(off: nat, p: Prefix, w: nat, fail: string)
    requires 4 * w <= |p.addr|
    ensures Unlabelled(CidrTest(off, p, w, fail))
    decreases |p.addr| - 4 * w
  {
    hide CidrWord;
    if 4 * w < |p.addr| {
      CidrWordUnlabelled(off, p, w, fail);
      CidrUnlabelled(off, p, w + 1, fail);
    }
  }

  /** The address and flow blocks are the common shape around their CIDR tests. */
  lemma AddressShape(p: Prefix, isSrc: bool, entry: string, next: string, redirect: string)
    ensures AddressBlock(p, isSrc, entry, next, redirect)
         == Simple(AddrEnd(p.Is4()), Require(12, Half, EtherTypeOf(p.Is4()), next) +
                   CidrTest(if isSrc then SrcOff(p.Is4()) else DstOff(p.Is4()), p, 0, next), entry, next, redirect)
  {
    hide CidrTest;
  }

  lemma FlowShape(s: Prefix, d: Prefix, entry: string, next: string, redirect: string)
    ensures FlowBlock(s, d, entry, next, redirect)
         == Simple(AddrEnd(s.Is4()), Require(12, Half, EtherTypeOf(s.Is4()), next) +
                   CidrTest(SrcOff(s.Is4()), s, 0, next) + CidrTest(DstOff(s.Is4()), d, 0, next), entry, next, redirect)
  {
    hide CidrTest;
  }

  /** The address at `off` of the inner frame is present and inside the prefix. */
  predicate AddressIn(pkt: seq<u8>, off: nat, p: Prefix)
    requires off + |p.addr| <= AddrEnd(p.Is4())
  {
    && Inner(pkt).Some? && HasAddresses(Inner(pkt).value, p.Is4())
    && AddressAt(Inner(pkt).value, off, p)
  }

  lemma AddressTest(env: Env, m: Machine, p: Prefix, off: nat, entry: string, next: string, redirect: string)
    requires Names(entry, next, redirect) && Entry(env, m)
    requires 12 <= off && off + |p.addr| <= AddrEnd(p.Is4())
    ensures var b := Simple(AddrEnd(p.Is4()), Require(12, Half, EtherTypeOf(p.Is4()), next) + CidrTest(off, p, 0, next),
                            entry, next, redirect);
            Decided(b, env, m, next, redirect, AddressIn(m.pkt, off, p))
  {
    hide Flow; hide Find; hide Has; hide Names; hide PlainSymbols; hide CidrTest; hide InPrefix; hide Simple; hide View;
    var v4, end := p.Is4(), AddrEnd(p.Is4());
    var c1, c2 := Require(12, Half, EtherTypeOf(v4), next), CidrTest(off, p, 0, next);
    var b := Simple(end, c1 + c2, entry, next, redirect);
    CidrUnlabelled(off, p, 0, next);
    SimpleShape(end, c1 + c2, entry, next, redirect);
    PlainLabels(b, entry, next, redirect);
    HasConcat(b, 11, c1, c2);
    var m1, t := HeadFlow(b, env, m, entry, end, next);
    if Inner(m.pkt).Some? && |Inner(m.pkt).value| >= end {
      var f := Inner(m.pkt).value;
      var et: u16 := if v4 then ETH_IPV4 else ETH_IPV6;
      var m2 := HalfTest(b, env, 11, m1, t, f, 12, et, next);
      if EtherType(f) == et {
        var m3 := CidrAt(b, env, 13, m2, t, f, off, p, next);
        JaFlow(b, env, 13 + |c2|, m3, redirect);
      }
    }
  }

  lemma AddressDecided(env: Env, m: Machine, p: Prefix, isSrc: bool, entry: string, next: string, redirect: string)
    requires Names(entry, next, redirect) && Entry(env, m)
    ensures var r := if isSrc then SrcIp(p) else DstIp(p);
            Decided(Code(r, entry, next, redirect), env, m, next, redirect, Matches(r, m.pkt))
  {
    hide Flow; hide CidrTest; hide InPrefix; hide Simple; hide AddressBlock;
    AddressShape(p, isSrc, entry, next, redirect);
    AddressTest(env, m, p, if isSrc then SrcOff(p.Is4()) else DstOff(p.Is4()), entry, next, redirect);
  }

  lemma FlowTest(env: Env, m: Machine, s: Prefix, d: Prefix, v4: bool, entry: string, next: string, redirect: string)
    requires Names(entry, next, redirect) && Entry(env, m) && s.Is4() == v4 && d.Is4() == v4
    ensures var b := Simple(AddrEnd(v4), Require(12, Half, EtherTypeOf(v4), next) +
                            CidrTest(SrcOff(v4), s, 0, next) + CidrTest(DstOff(v4), d, 0, next), entry, next, redirect);
            Decided(b, env, m, next, redirect, AddressIn(m.pkt, SrcOff(v4), s) && AddressIn(m.pkt, DstOff(v4), d))
  {
    hide Flow; hide Find; hide Has; hide Names; hide PlainSymbols; hide CidrTest; hide AddressAt; hide Simple; hide View;
    var c1, c2 := Require(12, Half, EtherTypeOf(v4), next), CidrTest(SrcOff(v4), s, 0, next);
    var c3, end := CidrTest(DstOff(v4), d, 0, next), AddrEnd(v4);
    var b := Simple(end, c1 + c2 + c3, entry, next, redirect);
    CidrUnlabelled(SrcOff(v4), s, 0, next);
    CidrUnlabelled(DstOff(v4), d, 0, next);
    SimpleShape(end, c1 + c2 + c3, entry, next, redirect);
    PlainLabels(b, entry, next, redirect);
    HasConcat(b, 11, c1 + c2, c3);
    HasConcat(b, 11, c1, c2);
    var m1, t := HeadFlow(b, env, m, entry, end, next);
    if Inner(m.pkt).Some? && |Inner(m.pkt).value| >= end {
      var f := Inner(m.pkt).value;
      var et: u16 := if v4 then ETH_IPV4 else ETH_IPV6;
      var m2 := HalfTest(b, env, 11, m1, t, f, 12, et, next);
      if EtherType(f) == et {
        var m3 := CidrAt(b, env, 13, m2, t, f, SrcOff(v4), s, next);
        if AddressAt(f, SrcOff(v4), s) {
          var m4 := CidrAt(b, env, 13 + |c2|, m3, t, f, DstOff(v4), d, next);
          JaFlow(b, env, 13 + |c2| + |c3|, m4, redirect);
        }
      }
    }
  }

  lemma FlowDecided(env: Env, m: Machine, s: Prefix, d: Prefix, entry: string, next: string, redirect: string)
    requires Names(entry, next, redirect) && Entry(env, m) && s.Is4() == d.Is4()
    ensures Decided(Code(FlowBetween(s, d), entry, next, redirect), env, m, next, redirect,
                    Matches(FlowBetween(s, d), m.pkt))
  {
    hide Flow; hide CidrTest; hide InPrefix; hide Simple; hide FlowBlock;
    FlowShape(s, d, entry, next, redirect);
    FlowTest(env, m, s, d, s.Is4(), entry, next, redirect);
  }

  // --------------------------------------------------------------- port rules

  predicate ProtocolOk(f: seq<u8>, v4: bool, proto: u8)
    requires |f| >= (if v4 then 24 else 21)
  {
    if v4 then Ipv4Version(f) == 4 && Ipv4Ihl(f) == 5 && Ipv4FragmentOffset(f) == 0 && Ipv4Protocol(f) == proto
    else Ipv6NextHeaderField(f) == proto
  }

  /** Protocol test and header guard of one family, at offset k. */
  lemma ProtocolTest(b: seq<Insn>, env: Env, k: nat, m: Machine, t: nat, f: seq<u8>, v4: bool, proto: u8, next: string)
    returns (m': Machine)
    requires Has(b, k, (if v4 then Ipv4Guard(next) else []) + Require(if v4 then 23 else 20, Byte, proto, next))
    requires !Labelled(b, next) && View(env, m, t, f) && |f| >= (if v4 then 24 else 21)
    ensures Kept(m, m') && View(env, m', t, f)
    ensures var n := if v4 then 7 else 2;
            Flow(b, env, k, m) == if ProtocolOk(f, v4, proto) then Flow(b, env, k + n, m') else Left(next, m')
  {
    hide Flow; hide Find; hide Has; hide View; hide Ipv4Guard; hide Require;
    TestLengths(next);
    HasConcat(b, k, if v4 then Ipv4Guard(next) else [], Require(if v4 then 23 else 20, Byte, proto, next));
    m' := m;
    if v4 {
      m' := GuardTest(b, env, k, m, t, f, next);
      if Ipv4Version(f) == 4 && Ipv4Ihl(f) == 5 && Ipv4FragmentOffset(f) == 0 {
        m' := ByteTestAt(b, env, k + 5, m', t, f, 23, proto, next);
      }
    } else {
      m' := ByteTestAt(b, env, k, m, t, f, 20, proto, next);
    }
  }

  function LocalPortTests(proto: u8, src: bool, port: u16, local: Option<Prefix>, v4: bool, next: string): seq<Insn> {
    Require(12, Half, EtherTypeOf(v4), next) +
    ((if v4 then Ipv4Guard(next) else []) + Require(if v4 then 23 else 20, Byte, proto, next)) +
    Require((if v4 then 34 else 54) + (if src then 0 else 2), Half, NetShort(port), next) +
    (if local.Some? then CidrTest(DstOff(v4), local.value, 0, next) else [])
  }

  function LocalPortEnd(src: bool, v4: bool): i32 {
    if v4 then (if src then 36 else 38) else (if src then 56 else 58)
  }

  lemma LocalPortShape(proto: u8, src: bool, port: u16, local: Option<Prefix>, family4: bool,
                       entry: string, next: string, redirect: string)
    ensures var v4 := if local.Some? then local.value.Is4() else family4;
            LocalPortBlock(proto, src, port, local, family4, entry, next, redirect) ==
            Simple(LocalPortEnd(src, v4), LocalPortTests(proto, src, port, local, v4, next), entry, next, redirect)
  {
    hide CidrTest;
  }

  lemma LocalPortUnlabelled(proto: u8, src: bool, port: u16, local: Option<Prefix>, v4: bool, next: string)
    ensures Unlabelled(LocalPortTests(proto, src, port, local, v4, next))
  {
    hide CidrTest;
    if local.Some? { CidrUnlabelled(DstOff(v4), local.value, 0, next); }
  }

  /** The local-address part of a port rule. */
  predicate LocalIs(f: seq<u8>, local: Option<Prefix>, v4: bool)
    requires (local.Some? ==> local.value.Is4() == v4) && |f| >= AddrEnd(v4)
  {
    local.Some? ==> AddressAt(f, DstOff(v4), local.value)
  }

  lemma LocalPortMeaning(f: seq<u8>, proto: u8, src: bool, port: u16, local: Option<Prefix>, family4: bool)
    requires |f| >= 14
    ensures var v4 := if local.Some? then local.value.Is4() else family4;
            HoldsOn(LocalPort(proto, src, port, local, family4), f) <==>
            && |f| >= LocalPortEnd(src, v4)
            && EtherType(f) == (if v4 then ETH_IPV4 else ETH_IPV6) && ProtocolOk(f, v4, proto)
            && Be16(f, (if v4 then 34 else 54) + (if src then 0 else 2)) == port
            && LocalIs(f, local, v4)
  {
    hide InPrefix;
  }

  lemma PortThenAddress(b: seq<Insn>, env: Env, k: nat, m: Machine, t: nat, f: seq<u8>, portOff: nat, port: u16,
                        local: Option<Prefix>, v4: bool, next: string, redirect: string)
    requires local.Some? ==> local.value.Is4() == v4
    requires var c := if local.Some? then CidrTest(DstOff(v4), local.value, 0, next) else [];
             && Has(b, k, Require(portOff, Half, NetShort(port), next)) && Has(b, k + 2, c)
             && k + 2 + |c| < |b| && b[k + 2 + |c|].op == Ja(redirect)
    requires !Labelled(b, next) && !Labelled(b, redirect)
    requires View(env, m, t, f) && 12 <= portOff && portOff + 2 <= |f| && |f| >= AddrEnd(v4)
    ensures var o := Flow(b, env, k, m);
            o.Left? && Kept(m, o.m) && o.sym == if Be16(f, portOff) == port && LocalIs(f, local, v4) then redirect else next
  {
    hide Flow; hide Find; hide Has; hide CidrTest; hide InPrefix; hide View; hide Labelled;
    var m1 := HalfTest(b, env, k, m, t, f, portOff, port, next);
    if Be16(f, portOff) == port {
      if local.Some? {
        var m2 := CidrAt(b, env, k + 2, m1, t, f, DstOff(v4), local.value, next);
        if LocalIs(f, local, v4) {
          JaFlow(b, env, k + 2 + |CidrTest(DstOff(v4), local.value, 0, next)|, m2, redirect);
        }
      } else {
        JaFlow(b, env, k + 2, m1, redirect);
      }
    }
  }

  /** Where the pieces of a local-port block sit. */
  lemma LocalPortLayout(proto: u8, src: bool, port: u16, local: Option<Prefix>, v4: bool,
                        entry: string, next: string, redirect: string)
    requires Names(entry, next, redirect)
    ensures var b := Simple(LocalPortEnd(src, v4), LocalPortTests(proto, src, port, local, v4, next), entry, next, redirect);
            var c := if local.Some? then CidrTest(DstOff(v4), local.value, 0, next) else [];
            var k := if v4 then 20 else 15;
            && Has(b, 0, L3Base(entry, next)) && Has(b, 8, BoundsFrom(R9, LocalPortEnd(src, v4), next))
            && Has(b, 11, Require(12, Half, EtherTypeOf(v4), next))
            && Has(b, 13, (if v4 then Ipv4Guard(next) else []) + Require(if v4 then 23 else 20, Byte, proto, next))
            && Has(b, k, Require((if v4 then 34 else 54) + (if src then 0 else 2), Half, NetShort(port), next))
            && Has(b, k + 2, c) && k + 2 + |c| < |b| && b[k + 2 + |c|].op == Ja(redirect)
            && PlainSymbols(b, entry)
  {
    hide Has; hide CidrTest; hide Simple; hide Names; hide PlainSymbols; hide BoundsFrom; hide L3Base;
    var g, c2 := if v4 then Ipv4Guard(next) else [], Require(if v4 then 23 else 20, Byte, proto, next);
    var c1 := Require(12, Half, EtherTypeOf(v4), next);
    var c3 := Require((if v4 then 34 else 54) + (if src then 0 else 2), Half, NetShort(port), next);
    var c4 := if local.Some? then CidrTest(DstOff(v4), local.value, 0, next) else [];
    var tests := LocalPortTests(proto, src, port, local, v4, next);
    var b := Simple(LocalPortEnd(src, v4), tests, entry, next, redirect);
    LocalPortUnlabelled(proto, src, port, local, v4, next);
    SimpleShape(LocalPortEnd(src, v4), tests, entry, next, redirect);
    HasConcat(b, 11, c1 + (g + c2) + c3, c4);
    HasConcat(b, 11, c1 + (g + c2), c3);
    HasConcat(b, 11, c1, g + c2);
  }

  lemma LocalPortTest(env: Env, m: Machine, proto: u8, src: bool, port: u16, local: Option<Prefix>, v4: bool,
                      entry: string, next: string, redirect: string)
    requires Names(entry, next, redirect) && Entry(env, m)
    requires local.Some? ==> local.value.Is4() == v4
    ensures var b := Simple(LocalPortEnd(src, v4), LocalPortTests(proto, src, port, local, v4, next), entry, next, redirect);
            Decided(b, env, m, next, redirect, Matches(LocalPort(proto, src, port, local, v4), m.pkt))
  {
    hide Flow; hide Find; hide Has; hide Names; hide PlainSymbols; hide CidrTest; hide InPrefix;
    hide Simple; hide View; hide Ipv4Guard; hide LocalPortTests; hide ProtocolOk; hide HoldsOn; hide LocalIs;
    var b := Simple(LocalPortEnd(src, v4), LocalPortTests(proto, src, port, local, v4, next), entry, next, redirect);
    LocalPortLayout(proto, src, port, local, v4, entry, next, redirect);
    PlainLabels(b, entry, next, redirect);
    var m1, t := HeadFlow(b, env, m, entry, LocalPortEnd(src, v4), next);
    if Inner(m.pkt).Some? {
      var f := Inner(m.pkt).value;
      LocalPortMeaning(f, proto, src, port, local, v4);
      if |f| >= LocalPortEnd(src, v4) {
        var et: u16 := if v4 then ETH_IPV4 else ETH_IPV6;
        var m2 := HalfTest(b, env, 11, m1, t, f, 12, et, next);
        if EtherType(f) == et {
          var m3 := ProtocolTest(b, env, 13, m2, t, f, v4, proto, next);
          if ProtocolOk(f, v4, proto) {
            PortThenAddress(b, env, if v4 then 20 else 15, m3, t, f, (if v4 then 34 else 54) + (if src then 0 else 2),
                            port, local, v4, next, redirect);
          }
        }
      }
    }
  }

  lemma LocalPortDecided(env: Env, m: Machine, proto: u8, src: bool, port: u16, local: Option<Prefix>, family4: bool,
                         entry: string, next: string, redirect: string)
    requires Names(entry, next, redirect) && Entry(env, m)
    ensures var r := LocalPort(proto, src, port, local, family4);
            Decided(Code(r, entry, next, redirect), env, m, next, redirect, Matches(r, m.pkt))
  {
    hide Flow; hide Simple; hide LocalPortBlock; hide LocalPortTests; hide InPrefix; hide Decided;
    LocalPortShape(proto, src, port, local, family4, entry, next, redirect);
    LocalPortTest(env, m, proto, src, port, local, if local.Some? then local.value.Is4() else family4, entry, next, redirect);
  }

  /** Where the pieces of one family's branch sit. */
  lemma FamilyLayout(b: seq<Insn>, k: nat, sym: string, v4: bool, proto: u8, portOff: i32, ports: seq<u16>,
                     next: string, redirect: string)
    requires 0 <= portOff < 100 && Has(b, k, FamilyTests(sym, v4, proto, portOff, ports, next, redirect))
    ensures var n := if v4 then 10 else 5;
            && Has(b, k, BoundsFrom(R9, portOff + 2, next))
            && Has(b, k + 3, (if v4 then Ipv4Guard(next) else []) + Require(if v4 then 23 else 20, Byte, proto, next))
            && (ports != [] ==> Has(b, k + n, [LoadField(portOff, Half)] + PortTests(ports, redirect)))
            && |FamilyTests(sym, v4, proto, portOff, ports, next, redirect)| == n + (if ports == [] then 0 else 1 + |ports|)
  {
    hide Has; hide Ipv4Guard; hide PortTests; hide NetShort;
    GuardLength(next);
    var c1, g := WithEntry(sym, BoundsFrom(R9, portOff + 2, next)), if v4 then Ipv4Guard(next) else [];
    var c2 := Require(if v4 then 23 else 20, Byte, proto, next);
    var c3 := if ports == [] then [] else [LoadField(portOff, Half)] + PortTests(ports, redirect);
    assert FamilyTests(sym, v4, proto, portOff, ports, next, redirect) == c1 + (g + c2) + c3;
    HasConcat(b, k, c1 + (g + c2), c3);
    HasConcat(b, k, c1, g + c2);
    HasWithEntry(b, k, sym, BoundsFrom(R9, portOff + 2, next));
  }

  /** The port-rule predicates, field by field. */
  lemma PortRuleMeaning(f: seq<u8>, v4: bool, proto: u8, src: bool, ports: seq<u16>)
    requires |f| >= 14 && EtherType(f) == if v4 then ETH_IPV4 else ETH_IPV6
    ensures var off := (if v4 then 34 else 54) + (if src then 0 else 2);
            (if v4 then PortRule4(f, proto, src, ports) else PortRule6(f, proto, src, ports)) <==>
            |f| >= off + 2 && ProtocolOk(f, v4, proto) && (ports == [] || Be16(f, off) in ports)
  {
  }

  /** One family's branch, entered with the EtherType already known. */
  lemma FamilyFlow(b: seq<Insn>, env: Env, k: nat, m: Machine, t: nat, f: seq<u8>, sym: string, v4: bool,
                   proto: u8, src: bool, portOff: i32, ports: seq<u16>, next: string, redirect: string)
    requires portOff == (if v4 then 34 else 54) + (if src then 0 else 2)
    requires var c := FamilyTests(sym, v4, proto, portOff, ports, next, redirect);
             Has(b, k, c) && k + |c| < |b| && b[k + |c|].op == Ja(if ports == [] then redirect else next)
    requires !Labelled(b, next) && !Labelled(b, redirect) && View(env, m, t, f) && |f| >= 14
    requires EtherType(f) == if v4 then ETH_IPV4 else ETH_IPV6
    ensures var o := Flow(b, env, k, m);
            && o.Left? && Kept(m, o.m)
            && o.sym == if (if v4 then PortRule4(f, proto, src, ports) else PortRule6(f, proto, src, ports))
                        then redirect else next
  {
    hide Flow; hide Find; hide Has; hide Labelled; hide PortTests; hide NetShort; hide FamilyTests;
    hide View; hide ProtocolOk; hide PortRule4; hide PortRule6; hide Ipv4Guard; hide Require; hide BoundsFrom;
    FamilyLayout(b, k, sym, v4, proto, portOff, ports, next, redirect);
    PortRuleMeaning(f, v4, proto, src, ports);
    var m1 := BoundsTest(b, env, k, m, t, f, portOff + 2, next);
    if |f| >= portOff + 2 {
      var m2 := ProtocolTest(b, env, k + 3, m1, t, f, v4, proto, next);
      if ProtocolOk(f, v4, proto) {
        var n := k + (if v4 then 10 else 5);
        if ports == [] {
          JaFlow(b, env, n, m2, redirect);
        } else {
          PortListFlow(b, env, n, m2, t, f, portOff, ports, next, redirect);
        }
      }
    }
  }

  lemma BoundsTest(b: seq<Insn>, env: Env, k: nat, m: Machine, t: nat, f: seq<u8>, n: i32, next: string)
    returns (m': Machine)
    requires Has(b, k, BoundsFrom(R9, n, next)) && !Labelled(b, next)
    requires View(env, m, t, f) && 0 <= n < 0x1000
    ensures Kept(m, m') && View(env, m', t, f)
    ensures Flow(b, env, k, m) == if |f| < n then Left(next, m') else Flow(b, env, k + 3, m')
  {
    hide Flow; hide Find; hide Has; hide BoundsFrom;
    m' := BoundsFlow(b, env, k, m, t, n, next);
  }

  lemma GuardLength(next: string)
    ensures |Ipv4Guard(next)| == 5
  {
  }

  lemma PortLoaded(b: seq<Insn>, env: Env, k: nat, m: Machine, t: nat, f: seq<u8>, portOff: nat) returns (m1: Machine)
    requires k + 1 < |b| && b[k].op == LoadField(portOff, Half).op
    requires View(env, m, t, f) && 12 <= portOff && portOff + 2 <= |f|
    ensures Kept(m, m1) && m1.regs[R3] == NetShort(Be16(f, portOff))
    ensures Flow(b, env, k, m) == Flow(b, env, k + 1, m1)
  {
    hide Flow; hide Find; hide NetShort; hide LoadField;
    m1 := LoadFlow(b, env, k, m, t, portOff, Half);
    LoadedPort(m.pkt[t + portOff], m.pkt[t + portOff + 1]);
  }

  lemma PortListFlow(b: seq<Insn>, env: Env, k: nat, m: Machine, t: nat, f: seq<u8>, portOff: nat, ports: seq<u16>,
                     next: string, redirect: string)
    requires Has(b, k, [LoadField(portOff, Half)] + PortTests(ports, redirect))
    requires k + 1 + |ports| < |b| && b[k + 1 + |ports|].op == Ja(next)
    requires !Labelled(b, next) && !Labelled(b, redirect)
    requires View(env, m, t, f) && 12 <= portOff && portOff + 2 <= |f|
    ensures var o := Flow(b, env, k, m);
            o.Left? && Kept(m, o.m) && o.sym == if Be16(f, portOff) in ports then redirect else next
  {
    hide Flow; hide Find; hide Has; hide Labelled; hide PortTests; hide NetShort; hide Unlabelled; hide LoadField;
    HasConcat(b, k, [LoadField(portOff, Half)], PortTests(ports, redirect));
    HasFirst(b, k, [LoadField(portOff, Half)]);
    var m1 := PortLoaded(b, env, k, m, t, f, portOff);
    hide View; hide Be16; hide Based;
    PortsFlow(b, env, k + 1, m1, ports, Be16(f, portOff), redirect);
    if Be16(f, portOff) !in ports {
      JaFlow(b, env, k + 1 + |ports|, m1, next);
    }
  }

  lemma LoadedPort(b0: u8, b1: u8)
    ensures b0 + 256 * (b1 as int) == NetShort(256 * (b0 as int) + b1)
  {
  }

  lemma HasWithEntry(b: seq<Insn>, k: nat, sym: string, frag: seq<Insn>)
    requires Has(b, k, WithEntry(sym, frag))
    ensures Has(b, k, frag)
  {
    assert forall i :: 0 <= i < |frag| ==> frag[i].op == WithEntry(sym, frag)[i].op;
  }

  // The two-family port block: entry at 0, landing pad at 7, IPv4 branch at 15,
  // IPv6 branch after it.

  function V4Tests(proto: u8, src: bool, ports: seq<u16>, entry: string, next: string, redirect: string): seq<Insn> {
    FamilyTests(entry + "_v4", true, proto, if src then 34 else 36, ports, next, redirect)
  }

  function V6Tests(proto: u8, src: bool, ports: seq<u16>, entry: string, next: string, redirect: string): seq<Insn> {
    FamilyTests(entry + "_v6", false, proto, if src then 54 else 56, ports, next, redirect)
  }

  lemma {:induction false} PortTestsUnlabelled(ports: seq<u16>, redirect: string)
    ensures Unlabelled(PortTests(ports, redirect))
  {
    if ports != [] { PortTestsUnlabelled(ports[1..], redirect); }
  }

  /** A branch's only label is on its first instruction. */
  lemma FamilyLabels(sym: string, v4: bool, proto: u8, portOff: i32, ports: seq<u16>, next: string, redirect: string)
    requires 0 <= portOff < 100
    ensures var c := FamilyTests(sym, v4, proto, portOff, ports, next, redirect);
            |c| > 0 && c[0].symbol == sym && Unlabelled(c[1..])
  {
    hide PortTests;
    PortTestsUnlabelled(ports, redirect);
  }

  lemma FivePieces(h: seq<Insn>, c4: seq<Insn>, c6: seq<Insn>, j: Insn)
    ensures var b := h + (c4 + [j]) + (c6 + [j]);
            && |b| == |h| + |c4| + |c6| + 2
            && (forall i :: 0 <= i < |h| ==> b[i] == h[i])
            && (forall i :: 0 <= i < |c4| ==> b[|h| + i] == c4[i]) && b[|h| + |c4|] == j
            && (forall i :: 0 <= i < |c6| ==> b[|h| + |c4| + 1 + i] == c6[i]) && b[|h| + |c4| + 1 + |c6|] == j
            && Has(b, |h|, c4) && Has(b, |h| + |c4| + 1, c6)
            && (Unlabelled([j]) && c4 != [] && c6 != [] && Unlabelled(c4[1..]) && Unlabelled(c6[1..]) ==>
                forall i :: |h| < i < |b| && i != |h| + |c4| + 1 ==> b[i].symbol == "")
  {
    var b := h + (c4 + [j]) + (c6 + [j]);
    assert [j][0] == j;
    hide Unlabelled;
    if Unlabelled([j]) && c4 != [] && c6 != [] && Unlabelled(c4[1..]) && Unlabelled(c6[1..]) {
      PiecesUnlabelled(h, c4, c6, j);
    }
  }

  lemma PiecesUnlabelled(h: seq<Insn>, c4: seq<Insn>, c6: seq<Insn>, j: Insn)
    requires Unlabelled([j]) && c4 != [] && c6 != [] && Unlabelled(c4[1..]) && Unlabelled(c6[1..])
    ensures var b := h + (c4 + [j]) + (c6 + [j]);
            forall i :: |h| < i < |b| && i != |h| + |c4| + 1 ==> b[i].symbol == ""
  {
    assert [j][0].symbol == "";
    assert forall i :: 1 <= i < |c4| ==> c4[i] == c4[1..][i - 1];
    assert forall i :: 1 <= i < |c6| ==> c6[i] == c6[1..][i - 1];
  }

  function L4PortHead(entry: string, next: string): seq<Insn> {
    WithEntry(entry, L3Base(entry, next)) + BoundsFrom(R9, 14, next) + FamilySwitch(entry, next)
  }

  lemma L4PortHeadLayout(entry: string, next: string)
    ensures var h := L4PortHead(entry, next);
            && |h| == 15 && h[0].symbol == entry && h[7].symbol == entry + "_notag"
            && (forall i :: 0 < i < 15 && i != 7 ==> h[i].symbol == "")
            && (forall i :: 0 <= i < 8 ==> h[i].op == L3Base(entry, next)[i].op)
            && (forall i :: 0 <= i < 3 ==> h[8 + i].op == BoundsFrom(R9, 14, next)[i].op)
            && (forall i :: 0 <= i < 4 ==> h[11 + i].op == FamilySwitch(entry, next)[i].op)
  {
  }

  lemma L4PortLayout(proto: u8, src: bool, ports: seq<u16>, entry: string, next: string, redirect: string)
    requires Names(entry, next, redirect)
    ensures var b := L4PortBlock(proto, src, ports, entry, next, redirect);
            var c4, c6 := V4Tests(proto, src, ports, entry, next, redirect), V6Tests(proto, src, ports, entry, next, redirect);
            var last := Ja(if ports == [] then redirect else next);
            var k6 := 16 + |c4|;
            && Has(b, 0, L3Base(entry, next)) && Has(b, 8, BoundsFrom(R9, 14, next)) && Has(b, 11, FamilySwitch(entry, next))
            && Has(b, 15, c4) && b[15 + |c4|].op == last
            && Has(b, k6, c6) && |b| == k6 + |c6| + 1 && b[k6 + |c6|].op == last
            && b[0].symbol == entry && b[7].symbol == entry + "_notag" && b[15].symbol == entry + "_v4"
            && b[k6].symbol == entry + "_v6"
            && forall i :: 0 <= i < |b| && i != 0 && i != 7 && i != 15 && i != k6 ==> b[i].symbol == ""
  {
    hide FamilyTests; hide NetShort; hide WithEntry; hide L3Base; hide BoundsFrom; hide FamilySwitch;
    FamilyLabels(entry + "_v4", true, proto, if src then 34 else 36, ports, next, redirect);
    FamilyLabels(entry + "_v6", false, proto, if src then 54 else 56, ports, next, redirect);
    var c4, c6 := V4Tests(proto, src, ports, entry, next, redirect), V6Tests(proto, src, ports, entry, next, redirect);
    var h, j := L4PortHead(entry, next), I(Ja(if ports == [] then redirect else next));
    L4PortHeadLayout(entry, next);
    FivePieces(h, c4, c6, j);
    assert L4PortBlock(proto, src, ports, entry, next, redirect) == h + (c4 + [j]) + (c6 + [j]);
    HeadLengths(entry, next);
  }

  lemma HeadLengths(entry: string, next: string)
    ensures |L3Base(entry, next)| == 8 && |BoundsFrom(R9, 14, next)| == 3 && |FamilySwitch(entry, next)| == 4
  {
  }

  lemma L4PortLabels(b: seq<Insn>, k6: nat, entry: string, next: string, redirect: string)
    requires Names(entry, next, redirect) && 15 < k6 < |b|
    requires b[0].symbol == entry && b[7].symbol == entry + "_notag" && b[15].symbol == entry + "_v4"
    requires b[k6].symbol == entry + "_v6"
    requires forall i :: 0 <= i < |b| && i != 0 && i != 7 && i != 15 && i != k6 ==> b[i].symbol == ""
    ensures Find(b, entry + "_notag") == 7 && Find(b, entry + "_v4") == 15 && Find(b, entry + "_v6") == k6
    ensures !Labelled(b, next) && !Labelled(b, redirect) && Owned(b, entry)
  {
    StemOfLabel(entry, "_notag");
    StemOfLabel(entry, "_v4");
    StemOfLabel(entry, "_v6");
    assert |entry + "_notag"| > |entry + "_v4"| > |entry|;
    assert (entry + "_v4")[|entry| + 2] != (entry + "_v6")[|entry| + 2];
  }

  lemma L4PortDecided(env: Env, m: Machine, proto: u8, src: bool, ports: seq<u16>, entry: string, next: string, redirect: string)
    requires Names(entry, next, redirect) && Entry(env, m)
    ensures var r := L4Port(proto, src, ports);
            Decided(Code(r, entry, next, redirect), env, m, next, redirect, Matches(r, m.pkt))
  {
    hide Flow; hide Find; hide Has; hide Names; hide FamilyTests; hide View; hide L4PortBlock; hide NetShort;
    var b := L4PortBlock(proto, src, ports, entry, next, redirect);
    var c4 := V4Tests(proto, src, ports, entry, next, redirect);
    L4PortLayout(proto, src, ports, entry, next, redirect);
    L4PortLabels(b, 16 + |c4|, entry, next, redirect);
    var m1, t := HeadFlow(b, env, m, entry, 14, next);
    hide V4Tests; hide V6Tests; hide Inner; hide HoldsOn; hide Labelled;
    if Inner(m.pkt).Some? {
      FamiliesFlow(b, env, m1, t, Inner(m.pkt).value, proto, src, ports, 16 + |c4|, entry, next, redirect);
    }
  }

  /** From the family switch on. */
  lemma FamiliesFlow(b: seq<Insn>, env: Env, m: Machine, t: nat, f: seq<u8>, proto: u8, src: bool, ports: seq<u16>, k6: nat,
                     entry: string, next: string, redirect: string)
    requires k6 == 16 + |V4Tests(proto, src, ports, entry, next, redirect)|
    requires Has(b, 11, FamilySwitch(entry, next)) && Has(b, 15, V4Tests(proto, src, ports, entry, next, redirect))
    requires Has(b, k6, V6Tests(proto, src, ports, entry, next, redirect))
    requires var j := Ja(if ports == [] then redirect else next);
             && b[k6 - 1].op == j && k6 + |V6Tests(proto, src, ports, entry, next, redirect)| < |b|
             && b[k6 + |V6Tests(proto, src, ports, entry, next, redirect)|].op == j
    requires Find(b, entry + "_v4") == 15 && Find(b, entry + "_v6") == k6 < |b| && !Labelled(b, next) && !Labelled(b, redirect)
    requires View(env, m, t, f) && |f| >= 14
    ensures var o := Flow(b, env, 11, m);
            o.Left? && Kept(m, o.m) && o.sym == if HoldsOn(L4Port(proto, src, ports), f) then redirect else next
  {
    hide Flow; hide Find; hide Has; hide FamilyTests; hide View; hide NetShort; hide FamilySwitch; hide PortIs;
    var m2 := SwitchFlow(b, env, m, t, f, entry, next, k6);
    if EtherType(f) == ETH_IPV4 {
      FamilyFlow(b, env, 15, m2, t, f, entry + "_v4", true, proto, src, if src then 34 else 36, ports, next, redirect);
    } else if EtherType(f) == ETH_IPV6 {
      FamilyFlow(b, env, k6, m2, t, f, entry + "_v6", false, proto, src, if src then 54 else 56, ports, next, redirect);
    }
  }

  lemma SwitchFlow(b: seq<Insn>, env: Env, m: Machine, t: nat, f: seq<u8>, entry: string, next: string, k6: nat)
    returns (m': Machine)
    requires Has(b, 11, FamilySwitch(entry, next)) && View(env, m, t, f)
    requires Find(b, entry + "_v4") == 15 && Find(b, entry + "_v6") == k6 && 15 < k6 < |b| && !Labelled(b, next)
    ensures Kept(m, m') && View(env, m', t, f)
    ensures Flow(b, env, 11, m) ==
            if EtherType(f) == ETH_IPV4 then Flow(b, env, 15, m')
            else if EtherType(f) == ETH_IPV6 then Flow(b, env, k6, m')
            else Left(next, m')
  {
    hide Flow; hide Find;
    var frag := FamilySwitch(entry, next);
    assert b[11].op == frag[0].op && b[12].op == frag[1].op && b[13].op == frag[2].op && b[14].op == frag[3].op;
    m' := LoadFlow(b, env, 11, m, t, 12, Half);
    NetShortSound(m.pkt[t + 12], m.pkt[t + 13], ETH_IPV4);
    NetShortSound(m.pkt[t + 12], m.pkt[t + 13], ETH_IPV6);
    BranchFlow(b, env, 12, m', JEq, true, R3, Imm(NetShort(ETH_IPV4)), entry + "_v4");
    BranchFlow(b, env, 13, m', JEq, true, R3, Imm(NetShort(ETH_IPV6)), entry + "_v6");
    if EtherType(f) != ETH_IPV4 && EtherType(f) != ETH_IPV6 {
      JaFlow(b, env, 14, m', next);
    }
  }

  // ----------------------------------------------------------------- the theorem

  predicate RuleOk(r: Rule) { r.FlowBetween? ==> r.src.Is4() == r.dst.Is4() }

  /** Compiler correctness for one block: for every rule, every packet of every
      length and every register state that delimits it, the block reaches
      `redirect` iff the rule holds of the packet, and `next` otherwise. */
  lemma BlockDecides(r: Rule, env: Env, m: Machine, entry: string, next: string, redirect: string)
    requires RuleOk(r) && Names(entry, next, redirect) && Entry(env, m)
    ensures Decided(Code(r, entry, next, redirect), env, m, next, redirect, Matches(r, m.pkt))
  {
    match r
    case All => AllDecided(env, m, entry, next, redirect);
    case Nothing => AllDecided(env, m, entry, next, redirect);
    case EtherTypeIs(et) => EtherTypeDecided(env, m, et, entry, next, redirect);
    case Ipv4Proto(p) => Ipv4ProtoDecided(env, m, p, entry, next, redirect);
    case Ipv6NextHeader(nh) => Ipv6NextHeaderDecided(env, m, nh, entry, next, redirect);
    case Icmpv4Echo => Icmpv4EchoDecided(env, m, entry, next, redirect);
    case Icmpv6Echo => Icmpv6EchoDecided(env, m, entry, next, redirect);
    case Icmpv6Nd => Icmpv6NdDecided(env, m, entry, next, redirect);
    case L4Port(p, src, ports) => L4PortDecided(env, m, p, src, ports, entry, next, redirect);
    case SrcIp(p) => AddressDecided(env, m, p, true, entry, next, redirect);
    case DstIp(p) => AddressDecided(env, m, p, false, entry, next, redirect);
    case FlowBetween(s, d) => FlowDecided(env, m, s, d, entry, next, redirect);
    case LocalPort(p, src, port, local, family4) =>
      LocalPortDecided(env, m, p, src, port, local, family4, entry, next, redirect);
  }
}
