/** The instruction lists the match builders emit (filter.go). Each block jumps
    to `redirect` on a match and to `next` otherwise; `entry` labels its first
    instruction and prefixes its own labels. */
module Builders {
  import opened Common
  import opened Bits
  import opened Ebpf
  import opened Wire

  /** A 16-bit field's network-order value as a little-endian load sees it. */
  function NetShort(v: u16): i32 { v / 256 + 256 * (v % 256) }

  /** int32(u): the same 32 bits, read as signed. */
  function Signed32(u: nat): i32
    requires u < WORD32
  {
    if u < 0x8000_0000 then u else u - WORD32
  }

  function I(op: Op): Insn { Insn("", op) }
  function LoadField(off: nat, size: Size): Insn { I(Load(R3, R9, off, size)) }
  function JumpUnless(v: i32, next: string): Insn { I(Branch(JNE, true, R3, Imm(v), next)) }
  function JumpIf(v: i32, target: string): Insn { I(Branch(JEq, true, R3, Imm(v), target)) }

  function WithEntry(entry: string, ins: seq<Insn>): seq<Insn> {
    if ins == [] then ins else ins[0 := ins[0].(symbol := entry)]
  }

  function BoundsFrom(base: Reg, n: i32, next: string): seq<Insn> {
    [I(Alu(Mov, R2, Src(base))), I(Alu(Add, R2, Imm(n))), I(Branch(JGT, true, R2, Src(R6), next))]
  }

  /** "if the field at `off` is not v goto next" */
  function Require(off: nat, size: Size, v: i32, next: string): seq<Insn> {
    [LoadField(off, size), JumpUnless(v, next)]
  }

  function Ipv4Guard(next: string): seq<Insn> {
    Require(14, Byte, 0x45, next) +
    [LoadField(20, Half), I(Alu(And, R3, Imm(NetShort(0x1fff)))), JumpUnless(0, next)]
  }

  function L3Base(prefix: string, next: string): seq<Insn> {
    [I(Alu(Mov, R9, Src(R7)))] + BoundsFrom(R9, 14, next) +
    [LoadField(12, Half), JumpUnless(NetShort(ETH_VLAN), prefix + "_notag"),
     I(Alu(Add, R9, Imm(4))), Insn(prefix + "_notag", Alu(Mov, R9, Src(R9)))]
  }

  // ------------------------------------------------------------- port rules

  function PortTests(ports: seq<u16>, redirect: string): (ins: seq<Insn>)
    ensures |ins| == |ports|
  {
    if ports == [] then [] else [JumpIf(NetShort(ports[0]), redirect)] + PortTests(ports[1..], redirect)
  }

  /** One address family's branch of a port match: bounds, header guard for IPv4,
      protocol test, port tests; then it leaves. */
  function FamilyTests(sym: string, v4: bool, proto: u8, portOff: i32, ports: seq<u16>,
                       next: string, redirect: string): seq<Insn>
    requires 0 <= portOff < 100
  {
    WithEntry(sym, BoundsFrom(R9, portOff + 2, next)) +
    (if v4 then Ipv4Guard(next) else []) +
    Require(if v4 then 23 else 20, Byte, proto, next) +
    (if ports == [] then [] else [LoadField(portOff, Half)] + PortTests(ports, redirect))
  }

  function Family(sym: string, v4: bool, proto: u8, portOff: i32, ports: seq<u16>,
                  next: string, redirect: string): seq<Insn>
    requires 0 <= portOff < 100
  {
    FamilyTests(sym, v4, proto, portOff, ports, next, redirect) +
    [I(Ja(if ports == [] then redirect else next))]
  }

  function FamilySwitch(entry: string, next: string): seq<Insn> {
    [LoadField(12, Half), JumpIf(NetShort(ETH_IPV4), entry + "_v4"),
     JumpIf(NetShort(ETH_IPV6), entry + "_v6"), I(Ja(next))]
  }

  function L4PortBlock(proto: u8, srcPort: bool, ports: seq<u16>,
                       entry: string, next: string, redirect: string): seq<Insn>
  {
    WithEntry(entry, L3Base(entry, next)) + BoundsFrom(R9, 14, next) + FamilySwitch(entry, next) +
    Family(entry + "_v4", true, proto, if srcPort then 34 else 36, ports, next, redirect) +
    Family(entry + "_v6", false, proto, if srcPort then 54 else 56, ports, next, redirect)
  }

  // ------------------------------------------------------------ address rules

  /** Byte `j` of net.CIDRMask(bits, _). */
  function MaskByte(bits: nat, j: nat): u8 {
    if bits >= 8 * (j + 1) then 255
    else if bits <= 8 * j then 0
    else Pow2Values(); Pow2Monotone(8 * (j + 1) - bits, 8); Pow2(8) - Pow2(8 * (j + 1) - bits)
  }

  function Word32(b0: u8, b1: u8, b2: u8, b3: u8): (w: nat)
    ensures w < WORD32
  {
    b0 + 256 * (b1 as int) + 0x1_0000 * (b2 as int) + 0x100_0000 * (b3 as int)
  }

  function MaskWord(p: Prefix, w: nat): (m: nat) ensures m < WORD32 {
    Word32(MaskByte(p.bits, 4 * w), MaskByte(p.bits, 4 * w + 1),
           MaskByte(p.bits, 4 * w + 2), MaskByte(p.bits, 4 * w + 3))
  }

  function AddrWord(p: Prefix, w: nat): (m: nat)
    requires 4 * w + 4 <= |p.addr|
    ensures m < WORD32
  {
    Word32(p.addr[4 * w], p.addr[4 * w + 1], p.addr[4 * w + 2], p.addr[4 * w + 3])
  }

  /** Load, mask and compare word `w` of the address at `off`; a word the prefix
      does not cover emits nothing. */
  function CidrWord(off: nat, p: Prefix, w: nat, fail: string): seq<Insn>
    requires 4 * w + 4 <= |p.addr|
  {
    var mw := MaskWord(p, w);
    if mw == 0 then [] else
    AndAtMost(AddrWord(p, w), mw);
    [LoadField(off + 4 * w, Word), I(Alu(And, R3, Imm(Signed32(mw)))),
     I(Branch(JNE, false, R3, Imm(Signed32(BitAnd(AddrWord(p, w), mw))), fail))]
  }

  /** The code for words `w` onwards. */
  function CidrTest(off: nat, p: Prefix, w: nat, fail: string): seq<Insn>
    requires 4 * w <= |p.addr|
    decreases |p.addr| - 4 * w
  {
    if 4 * w == |p.addr| then [] else CidrWord(off, p, w, fail) + CidrTest(off, p, w + 1, fail)
  }

  function SrcOff(v4: bool): nat { if v4 then 26 else 22 }
  function DstOff(v4: bool): nat { if v4 then 30 else 38 }
  function AddrEnd(v4: bool): i32 { if v4 then 34 else 54 }
  function EtherTypeOf(v4: bool): i32 { NetShort(if v4 then ETH_IPV4 else ETH_IPV6) }

  function AddressHead(v4: bool, entry: string, next: string): seq<Insn> {
    WithEntry(entry, L3Base(entry, next)) + BoundsFrom(R9, AddrEnd(v4), next) +
    Require(12, Half, EtherTypeOf(v4), next)
  }

  function AddressBlock(p: Prefix, isSrc: bool, entry: string, next: string, redirect: string): seq<Insn> {
    AddressHead(p.Is4(), entry, next) +
    CidrTest(if isSrc then SrcOff(p.Is4()) else DstOff(p.Is4()), p, 0, next) +
    [I(Ja(redirect))]
  }

  function FlowBlock(s: Prefix, d: Prefix, entry: string, next: string, redirect: string): seq<Insn> {
    AddressHead(s.Is4(), entry, next) +
    CidrTest(SrcOff(s.Is4()), s, 0, next) + CidrTest(DstOff(s.Is4()), d, 0, next) +
    [I(Ja(redirect))]
  }

  function LocalPortBlock(proto: u8, srcPort: bool, port: u16, local: Option<Prefix>, family4: bool,
                          entry: string, next: string, redirect: string): seq<Insn>
  {
    var v4 := if local.Some? then local.value.Is4() else family4;
    var portOff: i32 := (if v4 then 34 else 54) + (if srcPort then 0 else 2);
    var end := if portOff + 2 > AddrEnd(v4) then portOff + 2 else AddrEnd(v4);
    WithEntry(entry, L3Base(entry, next)) + BoundsFrom(R9, end, next) +
    Require(12, Half, EtherTypeOf(v4), next) +
    (if v4 then Ipv4Guard(next) else []) +
    Require(if v4 then 23 else 20, Byte, proto, next) +
    Require(portOff, Half, NetShort(port), next) +
    (if local.Some? then CidrTest(DstOff(v4), local.value, 0, next) else []) +
    [I(Ja(redirect))]
  }

  // -------------------------------------------------------------- every rule

  /** A block that bounds-checks `end` bytes and then runs `tests`. */
  function Simple(end: i32, tests: seq<Insn>, entry: string, next: string, redirect: string): seq<Insn> {
    WithEntry(entry, L3Base(entry, next)) + BoundsFrom(R9, end, next) + tests + [I(Ja(redirect))]
  }

  /** "if the ICMPv6 type is not in 133-137 goto next" */
  function NdTests(next: string): seq<Insn> {
    [LoadField(54, Byte), I(Branch(JLT, true, R3, Imm(133), next)), I(Branch(JGT, true, R3, Imm(137), next))]
  }

  /** The block built for a rule. */
  function Code(r: Rule, entry: string, next: string, redirect: string): seq<Insn> {
    match r
    case All => [Insn(entry, Ja(redirect))]
    case Nothing => [Insn(entry, Ja(next))]
    case EtherTypeIs(et) => Simple(14, Require(12, Half, NetShort(et), next), entry, next, redirect)
    case Ipv4Proto(p) =>
      Simple(24, Require(12, Half, NetShort(ETH_IPV4), next) + Require(23, Byte, p, next), entry, next, redirect)
    case Ipv6NextHeader(nh) =>
      Simple(21, Require(12, Half, NetShort(ETH_IPV6), next) + Require(20, Byte, nh, next), entry, next, redirect)
    case Icmpv4Echo =>
      Simple(35, Require(12, Half, NetShort(ETH_IPV4), next) + Ipv4Guard(next) +
                 Require(23, Byte, PROTO_ICMP, next) + Require(34, Byte, 8, next), entry, next, redirect)
    case Icmpv6Echo =>
      Simple(55, Require(12, Half, NetShort(ETH_IPV6), next) + Require(20, Byte, PROTO_ICMPV6, next) +
                 Require(54, Byte, 128, next), entry, next, redirect)
    case Icmpv6Nd =>
      Simple(55, Require(12, Half, NetShort(ETH_IPV6), next) + Require(20, Byte, PROTO_ICMPV6, next) +
                 NdTests(next), entry, next, redirect)
    case L4Port(p, src, ports) => L4PortBlock(p, src, ports, entry, next, redirect)
    case SrcIp(p) => AddressBlock(p, true, entry, next, redirect)
    case DstIp(p) => AddressBlock(p, false, entry, next, redirect)
    case FlowBetween(s, d) => FlowBlock(s, d, entry, next, redirect)
    case LocalPort(p, src, port, local, family4) =>
      LocalPortBlock(p, src, port, local, family4, entry, next, redirect)
  }

  // ------------------------------------------------- the loops that emit them

  /** matchL4Port's loop over its ports. */
  method EmitPortTests(ports: seq<u16>, redirect: string) returns (ins: seq<Insn>)
    ensures ins == PortTests(ports, redirect)
  {
    ins := [];
    for i := 0 to |ports|
      invariant ins + PortTests(ports[i..], redirect) == PortTests(ports, redirect)
    {
      assert ports[i..][0] == ports[i] && ports[i..][1..] == ports[i + 1..];
      ins := ins + [JumpIf(NetShort(ports[i]), redirect)];
    }
  }

  /** cidrTest's loop over the 32-bit words of the mask. */
  method EmitCidrTest(off: nat, p: Prefix, fail: string) returns (ins: seq<Insn>)
    ensures ins == CidrTest(off, p, 0, fail)
  {
    hide CidrWord;
    ins := [];
    var w := 0;
    while 4 * w < |p.addr|
      invariant 4 * w <= |p.addr|
      invariant ins + CidrTest(off, p, w, fail) == CidrTest(off, p, 0, fail)
    {
      ins := ins + CidrWord(off, p, w, fail);
      assert CidrTest(off, p, w, fail) == CidrWord(off, p, w, fail) + CidrTest(off, p, w + 1, fail);
      w := w + 1;
    }
  }
}
