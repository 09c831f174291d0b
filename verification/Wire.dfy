/** Packet headers as the standards lay them out, in network byte order, on the
    Ethernet frame with at most one 802.1Q tag removed. Nothing here mentions
    registers, offsets from a moving base, or little-endian loads. */
module Wire {
  import opened Common
  import opened Bits
  import opened Ebpf

  const ETH_IPV4: u16 := 0x0800
  const ETH_IPV6: u16 := 0x86DD
  const ETH_ARP: u16 := 0x0806
  const ETH_VLAN: u16 := 0x8100
  const PROTO_ICMP: u8 := 1
  const PROTO_TCP: u8 := 6
  const PROTO_UDP: u8 := 17
  const PROTO_ICMPV6: u8 := 58

  /** A 16-bit field in network byte order at offset `i`. */
  function Be16(f: seq<u8>, i: nat): u16
    requires i + 2 <= |f|
  {
    256 * (f[i] as int) + f[i + 1]
  }

  /** The frame with one C-VLAN tag (TPID 0x8100, IEEE 802.1Q clause 9) removed.
      A frame too short to hold an EtherType, before or after that, is `None`. */
  function Inner(pkt: seq<u8>): Option<seq<u8>> {
    if |pkt| < 14 then None
    else if Be16(pkt, 12) != ETH_VLAN then Some(pkt)
    else if |pkt| < 18 then None
    else Some(pkt[..12] + pkt[16..])
  }

  function EtherType(f: seq<u8>): u16 requires |f| >= 14 { Be16(f, 12) }

  // IPv4, RFC 791 section 3.1; the header starts at byte 14.
  function Ipv4Version(f: seq<u8>): nat requires |f| > 14 { f[14] / 16 }
  function Ipv4Ihl(f: seq<u8>): nat requires |f| > 14 { f[14] % 16 }
  function Ipv4FragmentOffset(f: seq<u8>): nat requires |f| >= 22 { Be16(f, 20) % 8192 }
  function Ipv4Protocol(f: seq<u8>): u8 requires |f| > 23 { f[23] }
  function Ipv4Source(f: seq<u8>): seq<u8> requires |f| >= 30 { f[26..30] }
  function Ipv4Destination(f: seq<u8>): seq<u8> requires |f| >= 34 { f[30..34] }

  // IPv6, RFC 8200 section 3: a fixed 40-byte header starting at byte 14.
  function Ipv6NextHeaderField(f: seq<u8>): u8 requires |f| > 20 { f[20] }
  function Ipv6Source(f: seq<u8>): seq<u8> requires |f| >= 38 { f[22..38] }
  function Ipv6Destination(f: seq<u8>): seq<u8> requires |f| >= 54 { f[38..54] }

  /** An IPv4 packet whose L4 header follows a 20-byte header: no options, and
      not a later fragment. `n` bytes of L4 header are present. */
  predicate PlainIpv4(f: seq<u8>, n: nat) {
    && |f| >= 34 + n && EtherType(f) == ETH_IPV4
    && Ipv4Version(f) == 4 && Ipv4Ihl(f) == 5 && Ipv4FragmentOffset(f) == 0
  }

  /** An IPv6 packet with `n` bytes after its fixed header. */
  predicate PlainIpv6(f: seq<u8>, n: nat) {
    |f| >= 54 + n && EtherType(f) == ETH_IPV6
  }

  /** An IPv4 or IPv6 address prefix. */
  datatype RawPrefix = Prefix(addr: seq<u8>, bits: nat) {
    predicate Is4() { |addr| == 4 }
  }
  type Prefix = p: RawPrefix | (|p.addr| == 4 || |p.addr| == 16) && p.bits <= 8 * |p.addr|
    witness Prefix([0, 0, 0, 0], 0)

  /** Bit `i` of a byte, counting from the most significant. */
  function ByteBit(x: u8, i: nat): nat
    requires i < 8
  {
    (x / Pow2(7 - i)) % 2
  }

  /** Bit `k` of an address, counting from the most significant. */
  function AddrBit(a: seq<u8>, k: nat): nat
    requires k < 8 * |a|
  {
    ByteBit(a[k / 8], k % 8)
  }

  /** The leading `bits` bits agree (RFC 4632 section 3.1, RFC 4291 section 2.3). */
  predicate InPrefix(p: Prefix, a: seq<u8>)
    requires |a| == |p.addr|
  {
    forall k :: 0 <= k < p.bits ==> AddrBit(a, k) == AddrBit(p.addr, k)
  }

  /** One packet-classification rule: what a Match builder is asked for. */
  datatype Rule =
    | All
    | Nothing
    | EtherTypeIs(et: u16)
    | Ipv4Proto(proto: u8)
    | Ipv6NextHeader(nh: u8)
    | Icmpv4Echo
    | Icmpv6Echo
    | Icmpv6Nd
    | L4Port(l4: u8, srcPort: bool, ports: seq<u16>)
    | SrcIp(prefix: Prefix)
    | DstIp(prefix: Prefix)
    | FlowBetween(src: Prefix, dst: Prefix)
    | LocalPort(l4: u8, srcPort: bool, port: u16, local: Option<Prefix>, family4: bool)

  function PortEnd(srcPort: bool): nat { if srcPort then 2 else 4 }

  predicate PortIs(f: seq<u8>, l4: nat, srcPort: bool, ports: seq<u16>)
    requires |f| >= l4 + PortEnd(srcPort)
  {
    ports == [] || (if srcPort then Be16(f, l4) else Be16(f, l4 + 2)) in ports
  }

  predicate PortRule4(f: seq<u8>, proto: u8, srcPort: bool, ports: seq<u16>) {
    PlainIpv4(f, PortEnd(srcPort)) && Ipv4Protocol(f) == proto && PortIs(f, 34, srcPort, ports)
  }

  predicate PortRule6(f: seq<u8>, proto: u8, srcPort: bool, ports: seq<u16>) {
    PlainIpv6(f, PortEnd(srcPort)) && Ipv6NextHeaderField(f) == proto && PortIs(f, 54, srcPort, ports)
  }

  /** Both addresses of the rule's family are present. */
  predicate HasAddresses(f: seq<u8>, v4: bool) {
    if v4 then |f| >= 34 && EtherType(f) == ETH_IPV4 else |f| >= 54 && EtherType(f) == ETH_IPV6
  }

  function Source(f: seq<u8>, v4: bool): seq<u8> requires HasAddresses(f, v4) {
    if v4 then Ipv4Source(f) else Ipv6Source(f)
  }

  function Destination(f: seq<u8>, v4: bool): seq<u8> requires HasAddresses(f, v4) {
    if v4 then Ipv4Destination(f) else Ipv6Destination(f)
  }

  predicate SourceIn(f: seq<u8>, p: Prefix) {
    HasAddresses(f, p.Is4()) && InPrefix(p, Source(f, p.Is4()))
  }

  predicate DestinationIn(f: seq<u8>, p: Prefix) {
    HasAddresses(f, p.Is4()) && InPrefix(p, Destination(f, p.Is4()))
  }

  /** What each rule says about a frame whose tag, if any, has been removed. */
  predicate HoldsOn(r: Rule, f: seq<u8>)
    requires |f| >= 14
  {
    match r
    case All => true
    case Nothing => false
    case EtherTypeIs(et) => EtherType(f) == et
    case Ipv4Proto(p) => |f| > 23 && EtherType(f) == ETH_IPV4 && Ipv4Protocol(f) == p
    case Ipv6NextHeader(nh) => |f| > 20 && EtherType(f) == ETH_IPV6 && Ipv6NextHeaderField(f) == nh
    case Icmpv4Echo => PlainIpv4(f, 1) && Ipv4Protocol(f) == PROTO_ICMP && f[34] == 8
    case Icmpv6Echo => PlainIpv6(f, 1) && Ipv6NextHeaderField(f) == PROTO_ICMPV6 && f[54] == 128
    case Icmpv6Nd => PlainIpv6(f, 1) && Ipv6NextHeaderField(f) == PROTO_ICMPV6 && 133 <= f[54] <= 137
    case L4Port(p, src, ports) => PortRule4(f, p, src, ports) || PortRule6(f, p, src, ports)
    case SrcIp(p) => SourceIn(f, p)
    case DstIp(p) => DestinationIn(f, p)
    case FlowBetween(s, d) => SourceIn(f, s) && DestinationIn(f, d)
    case LocalPort(p, src, port, local, family4) =>
      if local.Some? then
        DestinationIn(f, local.value) &&
        (if local.value.Is4() then PortRule4(f, p, src, [port]) else PortRule6(f, p, src, [port]))
      else if family4 then PortRule4(f, p, src, [port]) else PortRule6(f, p, src, [port])
  }

  /** The meaning of a rule on a received frame. MatchAll and MatchNone look at
      nothing; every other rule needs an EtherType to read. */
  predicate Matches(r: Rule, pkt: seq<u8>) {
    if r.All? then true
    else Inner(pkt).Some? && HoldsOn(r, Inner(pkt).value)
  }
}
