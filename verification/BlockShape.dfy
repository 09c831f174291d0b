/** What the assembler and checkBlock see of a built-in block: it passes the
    register contract, its labels are its own and distinct, and it jumps only to
    them and to its two targets. */
module BlockShape {
  import opened Common
  import opened Ebpf
  import opened Wire
  import opened Symbols
  import opened Builders
  import opened Fragments
  import opened Refinement
  import opened Classifier
  import opened Linking

  /** Register arithmetic, loads and jumps: no store, no helper, no map, and the frame
      pointer is never written. */
  predicate Plain(op: Op) {
    match op
    case Alu(_, dst, _) => dst != RFP
    case Load(dst, _, _, _) => dst != RFP
    case Branch(_, _, _, _, _) => true
    case Ja(_) => true
    case _ => false
  }

  predicate AllPlain(b: seq<Insn>) { forall i :: 0 <= i < |b| ==> Plain(b[i].op) }

  /** Every instruction honours the contract, is plain, and jumps only into `ts`. */
  predicate Only(ins: seq<Insn>, ts: set<string>) {
    forall i :: 0 <= i < |ins| ==>
      Violation(ins[i].op).None? && Plain(ins[i].op) && (Target(ins[i].op).Some? ==> Target(ins[i].op).value in ts)
  }

  lemma OnlyConcat(x: seq<Insn>, y: seq<Insn>, ts: set<string>)
    requires Only(x, ts) && Only(y, ts)
    ensures Only(x + y, ts)
  {
    hide Violation; hide Target; hide Plain;
  }

  lemma OnlyWithEntry(sym: string, x: seq<Insn>, ts: set<string>)
    requires Only(x, ts)
    ensures Only(WithEntry(sym, x), ts)
  {
    hide Violation; hide Target;
  }

  lemma FragmentsOnly(entry: string, end: i32, next: string, redirect: string, ts: set<string>)
    requires {next, redirect} <= ts
    ensures Only(L3Base(entry, next), ts + {entry + "_notag"}) && Only(BoundsFrom(R9, end, next), ts)
    ensures Only([I(Ja(redirect))], ts) && Only([I(Ja(next))], ts) && Only(Ipv4Guard(next), ts) && Only(NdTests(next), ts)
    ensures forall off: nat, size: Size, v: i32 :: Only(Require(off, size, v, next), ts)
    ensures Only([], ts)
  {
    hide Only; hide L3Base; hide BoundsFrom; hide Ipv4Guard; hide NdTests; hide Require;
    BaseOnly(entry, next, ts);
    BoundsOnly(R9, end, next, ts);
    JumpOnly(redirect, ts);
    JumpOnly(next, ts);
    GuardOnly(next, ts);
    NdOnly(next, ts);
    OnlyNil(ts);
    forall off: nat, size: Size, v: i32 ensures Only(Require(off, size, v, next), ts) { RequireOnly(off, size, v, next, ts); }
  }

  lemma BaseOnly(entry: string, next: string, ts: set<string>)
    requires next in ts
    ensures Only(L3Base(entry, next), ts + {entry + "_notag"})
  {
    hide NetShort;
  }

  lemma BoundsOnly(base: Reg, end: i32, next: string, ts: set<string>)
    requires next in ts && base != R8
    ensures Only(BoundsFrom(base, end, next), ts)
  {
  }

  lemma JumpOnly(t: string, ts: set<string>)
    requires t in ts
    ensures Only([I(Ja(t))], ts)
  {
  }

  lemma GuardOnly(next: string, ts: set<string>)
    requires next in ts
    ensures Only(Ipv4Guard(next), ts)
  {
    hide NetShort;
  }

  lemma NdOnly(next: string, ts: set<string>)
    requires next in ts
    ensures Only(NdTests(next), ts)
  {
  }

  lemma RequireOnly(off: nat, size: Size, v: i32, next: string, ts: set<string>)
    requires next in ts
    ensures Only(Require(off, size, v, next), ts)
  {
  }

  /** Past the common head a block without port branches jumps only out. */
  lemma SimpleOnly(end: i32, tests: seq<Insn>, entry: string, next: string, redirect: string)
    requires Only(tests, {next, redirect})
    ensures var b := Simple(end, tests, entry, next, redirect);
            && Only(b, {next, redirect, entry + "_notag"}) && |b| > 8 && Only(b[8..], {next, redirect})
            && b[7].op.Alu?
  {
    hide Only; hide WithEntry; hide L3Base; hide BoundsFrom; hide Require; hide Ipv4Guard;
    var ts := {next, redirect};
    FragmentsOnly(entry, end, next, redirect, ts);
    OnlyWithEntry(entry, L3Base(entry, next), ts + {entry + "_notag"});
    var c1, c2, c3 := WithEntry(entry, L3Base(entry, next)), BoundsFrom(R9, end, next), [I(Ja(redirect))];
    OnlyConcat(c2, tests, ts);
    OnlyConcat(c2 + tests, c3, ts);
    OnlyWiden(c2 + tests + c3, ts, ts + {entry + "_notag"});
    OnlyConcat(c1, c2 + tests + c3, ts + {entry + "_notag"});
    BaseLength(entry, next);
    assert Simple(end, tests, entry, next, redirect) == c1 + (c2 + tests + c3);
    assert ts + {entry + "_notag"} == {next, redirect, entry + "_notag"};
  }

  lemma OnlyWiden(x: seq<Insn>, ts: set<string>, us: set<string>)
    requires Only(x, ts) && ts <= us
    ensures Only(x, us)
  {
    hide Violation; hide Target; hide Plain;
  }

  lemma BaseLength(entry: string, next: string)
    ensures |WithEntry(entry, L3Base(entry, next))| == 8 && WithEntry(entry, L3Base(entry, next))[7].op.Alu?
  {
  }

  lemma {:induction false} CidrOnly(off: nat, p: Prefix, w: nat, fail: string, ts: set<string>)
    requires 4 * w <= |p.addr| && fail in ts
    ensures Only(CidrTest(off, p, w, fail), ts)
    decreases |p.addr| - 4 * w
  {
    hide CidrWord; hide Only;
    if 4 * w == |p.addr| {
      OnlyNil(ts);
    } else {
      CidrWordOnly(off, p, w, fail, ts);
      CidrOnly(off, p, w + 1, fail, ts);
      OnlyConcat(CidrWord(off, p, w, fail), CidrTest(off, p, w + 1, fail), ts);
    }
  }

  lemma OnlyNil(ts: set<string>) ensures Only([], ts) {}

  lemma CidrWordOnly(off: nat, p: Prefix, w: nat, fail: string, ts: set<string>)
    requires 4 * w + 4 <= |p.addr| && fail in ts
    ensures Only(CidrWord(off, p, w, fail), ts)
  {
  }

  lemma {:induction false} PortTestsOnly(ports: seq<u16>, redirect: string, ts: set<string>)
    requires redirect in ts
    ensures Only(PortTests(ports, redirect), ts)
  {
    if ports != [] {
      PortTestsOnly(ports[1..], redirect, ts);
      OnlyConcat([JumpIf(NetShort(ports[0]), redirect)], PortTests(ports[1..], redirect), ts);
    }
  }

  lemma FamilyOnly(sym: string, v4: bool, proto: u8, portOff: i32, ports: seq<u16>, entry: string, next: string,
                   redirect: string, ts: set<string>)
    requires 0 <= portOff < 100 && {next, redirect} <= ts
    ensures Only(Family(sym, v4, proto, portOff, ports, next, redirect), ts)
  {
    hide Only; hide PortTests; hide WithEntry; hide BoundsFrom; hide Require; hide Ipv4Guard; hide L3Base;
    FragmentsOnly(entry, portOff + 2, next, redirect, ts);
    PortTestsOnly(ports, redirect, ts);
    OnlyWithEntry(sym, BoundsFrom(R9, portOff + 2, next), ts);
    var c1, c2 := WithEntry(sym, BoundsFrom(R9, portOff + 2, next)), if v4 then Ipv4Guard(next) else [];
    var c3 := Require(if v4 then 23 else 20, Byte, proto, next);
    var c4 := if ports == [] then [] else [LoadField(portOff, Half)] + PortTests(ports, redirect);
    assert Only(c4, ts) by {
      if ports != [] {
        LoadOnly(portOff, ts);
        OnlyConcat([LoadField(portOff, Half)], PortTests(ports, redirect), ts);
      }
    }
    OnlyConcat(c1, c2, ts);
    OnlyConcat(c1 + c2, c3, ts);
    OnlyConcat(c1 + c2 + c3, c4, ts);
    OnlyConcat(c1 + c2 + c3 + c4, [I(Ja(if ports == [] then redirect else next))], ts);
  }

  lemma LoadOnly(off: nat, ts: set<string>) ensures Only([LoadField(off, Half)], ts) {}

  lemma L4PortOnly(proto: u8, src: bool, ports: seq<u16>, entry: string, next: string, redirect: string)
    ensures var b := L4PortBlock(proto, src, ports, entry, next, redirect);
            && |b| > 15 && Only(b, {next, redirect, entry + "_notag", entry + "_v4", entry + "_v6"})
            && Only(b[8..], {next, redirect, entry + "_v4", entry + "_v6"}) && Only(b[15..], {next, redirect})
            && b[7].op.Alu?
  {
    hide Only; hide Family; hide WithEntry; hide BoundsFrom; hide L3Base; hide FamilySwitch;
    hide Require; hide Ipv4Guard;
    var ts := {next, redirect};
    var us := {next, redirect, entry + "_v4", entry + "_v6"};
    var all := {next, redirect, entry + "_notag", entry + "_v4", entry + "_v6"};
    FragmentsOnly(entry, 14, next, redirect, ts);
    OnlyWithEntry(entry, L3Base(entry, next), ts + {entry + "_notag"});
    SwitchOnly(entry, next, us);
    var c1, c2, c3 := WithEntry(entry, L3Base(entry, next)), BoundsFrom(R9, 14, next), FamilySwitch(entry, next);
    var c4 := Family(entry + "_v4", true, proto, if src then 34 else 36, ports, next, redirect);
    var c6 := Family(entry + "_v6", false, proto, if src then 54 else 56, ports, next, redirect);
    FamilyOnly(entry + "_v4", true, proto, if src then 34 else 36, ports, entry, next, redirect, ts);
    FamilyOnly(entry + "_v6", false, proto, if src then 54 else 56, ports, entry, next, redirect, ts);
    OnlyConcat(c4, c6, ts);
    OnlyWiden(c2, ts, us);
    OnlyWiden(c4 + c6, ts, us);
    OnlyConcat(c2, c3, us);
    OnlyConcat(c2 + c3, c4 + c6, us);
    OnlyWiden(c1, ts + {entry + "_notag"}, all);
    OnlyWiden(c2 + c3 + (c4 + c6), us, all);
    OnlyConcat(c1, c2 + c3 + (c4 + c6), all);
    BaseLength(entry, next);
    HeadLengths(entry, next);
    var b := L4PortBlock(proto, src, ports, entry, next, redirect);
    assert b == c1 + (c2 + c3 + (c4 + c6));
    assert b[15..] == c4 + c6;
    FamilyNonEmpty(entry + "_v4", true, proto, if src then 34 else 36, ports, next, redirect);
  }

  lemma FamilyNonEmpty(sym: string, v4: bool, proto: u8, portOff: i32, ports: seq<u16>, next: string, redirect: string)
    requires 0 <= portOff < 100
    ensures Family(sym, v4, proto, portOff, ports, next, redirect) != []
  {
    hide FamilyTests;
  }

  lemma SwitchOnly(entry: string, next: string, ts: set<string>)
    requires {next, entry + "_v4", entry + "_v6"} <= ts
    ensures Only(FamilySwitch(entry, next), ts)
  {
  }

  /** Everything the assembler needs to know about a block. */
  predicate Shaped(b: seq<Insn>, entry: string, next: string, redirect: string) {
    && b != [] && b[0].symbol == entry && Owned(b, entry) && Unique(b)
    && forall i :: 0 <= i < |b| && Target(b[i].op).Some? ==>
         var t := Target(b[i].op).value; t == next || t == redirect || (t != "" && Labelled(b, t))
  }

  /** What holds of every built-in block besides: the register contract, no store and no
      helper call, and no jump back. */
  predicate WellShaped(b: seq<Insn>, entry: string, next: string, redirect: string) {
    Shaped(b, entry, next, redirect) && ContractOk(b) && AllPlain(b) && Forward(b)
  }

  lemma SimpleShaped(end: i32, tests: seq<Insn>, entry: string, next: string, redirect: string)
    requires Names(entry, next, redirect) && Unlabelled(tests) && Only(tests, {next, redirect})
    ensures WellShaped(Simple(end, tests, entry, next, redirect), entry, next, redirect)
  {
    hide Simple; hide Find; hide Violation; hide Target; hide Stem; hide Plain;
    var b := Simple(end, tests, entry, next, redirect);
    SimpleOnly(end, tests, entry, next, redirect);
    SimpleShape(end, tests, entry, next, redirect);
    PlainLabels(b, entry, next, redirect);
    assert |entry + "_notag"| > |entry|;
    NoTarget(b[7].op);
    HeadForward(b, entry, next, redirect);
  }

  lemma LeavesFrom(b: seq<Insn>, k: nat, ts: set<string>)
    requires k <= |b| && Only(b[k..], ts)
    ensures forall i :: k <= i < |b| && Target(b[i].op).Some? ==> Target(b[i].op).value in ts
  {
    hide Violation; hide Target; hide Plain;
    assert forall i :: k <= i < |b| ==> b[k..][i - k] == b[i];
  }

  /** The only inner jump of such a block is over the tag, from the head to the landing pad. */
  lemma HeadForward(b: seq<Insn>, entry: string, next: string, redirect: string)
    requires PlainSymbols(b, entry) && Only(b, {next, redirect, entry + "_notag"}) && Only(b[8..], {next, redirect})
    requires Find(b, entry + "_notag") == 7 && !Labelled(b, next) && !Labelled(b, redirect) && Target(b[7].op).None?
    ensures Forward(b)
  {
    hide Find; hide Violation; hide Target; hide Plain;
    LeavesFrom(b, 8, {next, redirect});
  }

  lemma L4PortShaped(proto: u8, src: bool, ports: seq<u16>, entry: string, next: string, redirect: string)
    requires Names(entry, next, redirect)
    ensures WellShaped(L4PortBlock(proto, src, ports, entry, next, redirect), entry, next, redirect)
  {
    hide L4PortBlock; hide Find; hide Violation; hide Target; hide Stem; hide Has; hide FamilyTests; hide Plain;
    var b := L4PortBlock(proto, src, ports, entry, next, redirect);
    var k6 := 16 + |V4Tests(proto, src, ports, entry, next, redirect)|;
    L4PortOnly(proto, src, ports, entry, next, redirect);
    L4PortLayout(proto, src, ports, entry, next, redirect);
    L4PortLabels(b, k6, entry, next, redirect);
    assert |entry + "_notag"| > |entry + "_v4"| > |entry|;
    assert (entry + "_v4")[|entry| + 2] != (entry + "_v6")[|entry| + 2];
    NoTarget(b[7].op);
    SwitchForward(b, k6, entry, next, redirect);
  }

  lemma NoTarget(op: Op)
    ensures op.Alu? ==> Target(op).None?
  {
  }

  /** The switch jumps forward into a family's branch, and the branches jump only out. */
  lemma SwitchForward(b: seq<Insn>, k6: nat, entry: string, next: string, redirect: string)
    requires 15 < k6 < |b| && Only(b, {next, redirect, entry + "_notag", entry + "_v4", entry + "_v6"})
    requires Only(b[8..], {next, redirect, entry + "_v4", entry + "_v6"}) && Only(b[15..], {next, redirect})
    requires Find(b, entry + "_notag") == 7 && Find(b, entry + "_v4") == 15 && Find(b, entry + "_v6") == k6
    requires !Labelled(b, next) && !Labelled(b, redirect) && Target(b[7].op).None?
    ensures Forward(b)
  {
    hide Find; hide Violation; hide Target; hide Plain;
    LeavesFrom(b, 8, {next, redirect, entry + "_v4", entry + "_v6"});
    LeavesFrom(b, 15, {next, redirect});
  }

  /** The tests a rule's block runs after its common head, for rules of that shape. */
  lemma AddressShaped(s: Prefix, tests: seq<Insn>, entry: string, next: string, redirect: string)
    requires Names(entry, next, redirect) && Unlabelled(tests) && Only(tests, {next, redirect})
    ensures WellShaped(Simple(AddrEnd(s.Is4()), Require(12, Half, EtherTypeOf(s.Is4()), next) + tests, entry, next, redirect),
                       entry, next, redirect)
  {
    hide Only; hide Simple; hide WellShaped; hide Names; hide NetShort;
    var ts := {next, redirect};
    var c1 := Require(12, Half, EtherTypeOf(s.Is4()), next);
    FragmentsOnly(entry, 14, next, redirect, ts);
    OnlyConcat(c1, tests, ts);
    SimpleShaped(AddrEnd(s.Is4()), c1 + tests, entry, next, redirect);
  }

  lemma JumpShaped(entry: string, next: string, redirect: string)
    requires Names(entry, next, redirect)
    ensures WellShaped([Insn(entry, Ja(redirect))], entry, next, redirect)
    ensures WellShaped([Insn(entry, Ja(next))], entry, next, redirect)
  {
  }

  /** Every built-in block passes the contract, stores nothing, jumps only forward, and
      labels and targets only what it owns or was given. */
  lemma CodeShaped(r: Rule, entry: string, next: string, redirect: string)
    requires RuleOk(r) && Names(entry, next, redirect)
    ensures WellShaped(Code(r, entry, next, redirect), entry, next, redirect)
  {
    match r
    case All => JumpShaped(entry, next, redirect);
    case Nothing => JumpShaped(entry, next, redirect);
    case L4Port(p, src, ports) => L4PortShaped(p, src, ports, entry, next, redirect);
    case _ => PlainShaped(r, entry, next, redirect);
  }

  lemma PlainShaped(r: Rule, entry: string, next: string, redirect: string)
    requires RuleOk(r) && Names(entry, next, redirect) && !r.All? && !r.Nothing? && !r.L4Port?
    ensures WellShaped(Code(r, entry, next, redirect), entry, next, redirect)
  {
    hide Only; hide Simple; hide WellShaped; hide Names; hide NetShort; hide CidrTest;
    hide AddressBlock; hide FlowBlock; hide LocalPortBlock; hide LocalPortTests;
    var ts := {next, redirect};
    FragmentsOnly(entry, 14, next, redirect, ts);
    var h4, h6 := Require(12, Half, NetShort(ETH_IPV4), next), Require(12, Half, NetShort(ETH_IPV6), next);
    match r
    case EtherTypeIs(et) => SimpleShaped(14, Require(12, Half, NetShort(et), next), entry, next, redirect);
    case Ipv4Proto(p) =>
      OnlyConcat(h4, Require(23, Byte, p, next), ts);
      SimpleShaped(24, h4 + Require(23, Byte, p, next), entry, next, redirect);
    case Ipv6NextHeader(nh) =>
      OnlyConcat(h6, Require(20, Byte, nh, next), ts);
      SimpleShaped(21, h6 + Require(20, Byte, nh, next), entry, next, redirect);
    case Icmpv4Echo =>
      OnlyConcat(h4, Ipv4Guard(next), ts);
      OnlyConcat(h4 + Ipv4Guard(next), Require(23, Byte, PROTO_ICMP, next), ts);
      OnlyConcat(h4 + Ipv4Guard(next) + Require(23, Byte, PROTO_ICMP, next), Require(34, Byte, 8, next), ts);
      SimpleShaped(35, h4 + Ipv4Guard(next) + Require(23, Byte, PROTO_ICMP, next) + Require(34, Byte, 8, next), entry, next, redirect);
    case Icmpv6Echo =>
      OnlyConcat(h6, Require(20, Byte, PROTO_ICMPV6, next), ts);
      OnlyConcat(h6 + Require(20, Byte, PROTO_ICMPV6, next), Require(54, Byte, 128, next), ts);
      SimpleShaped(55, h6 + Require(20, Byte, PROTO_ICMPV6, next) + Require(54, Byte, 128, next), entry, next, redirect);
    case Icmpv6Nd =>
      OnlyConcat(h6, Require(20, Byte, PROTO_ICMPV6, next), ts);
      OnlyConcat(h6 + Require(20, Byte, PROTO_ICMPV6, next), NdTests(next), ts);
      SimpleShaped(55, h6 + Require(20, Byte, PROTO_ICMPV6, next) + NdTests(next), entry, next, redirect);
    case SrcIp(p) => OneAddress(p, true, entry, next, redirect);
    case DstIp(p) => OneAddress(p, false, entry, next, redirect);
    case FlowBetween(s, d) =>
      var a, b := CidrTest(SrcOff(s.Is4()), s, 0, next), CidrTest(DstOff(s.Is4()), d, 0, next);
      CidrOnly(SrcOff(s.Is4()), s, 0, next, ts);
      CidrOnly(DstOff(s.Is4()), d, 0, next, ts);
      CidrUnlabelled(SrcOff(s.Is4()), s, 0, next);
      CidrUnlabelled(DstOff(s.Is4()), d, 0, next);
      OnlyConcat(a, b, ts);
      AddressShaped(s, a + b, entry, next, redirect);
      FlowShape(s, d, entry, next, redirect);
      assert Require(12, Half, EtherTypeOf(s.Is4()), next) + a + b == Require(12, Half, EtherTypeOf(s.Is4()), next) + (a + b);
    case LocalPort(p, src, port, local, family4) => LocalPortShaped(p, src, port, local, family4, entry, next, redirect);
  }

  lemma OneAddress(p: Prefix, isSrc: bool, entry: string, next: string, redirect: string)
    requires Names(entry, next, redirect)
    ensures WellShaped(AddressBlock(p, isSrc, entry, next, redirect), entry, next, redirect)
  {
    hide Only; hide Simple; hide WellShaped; hide Names; hide CidrTest; hide AddressBlock;
    var off := if isSrc then SrcOff(p.Is4()) else DstOff(p.Is4());
    CidrOnly(off, p, 0, next, {next, redirect});
    CidrUnlabelled(off, p, 0, next);
    AddressShaped(p, CidrTest(off, p, 0, next), entry, next, redirect);
    AddressShape(p, isSrc, entry, next, redirect);
  }

  lemma LocalPortShaped(proto: u8, src: bool, port: u16, local: Option<Prefix>, family4: bool,
                        entry: string, next: string, redirect: string)
    requires Names(entry, next, redirect)
    ensures WellShaped(LocalPortBlock(proto, src, port, local, family4, entry, next, redirect), entry, next, redirect)
  {
    hide Simple; hide WellShaped; hide Names; hide LocalPortBlock; hide LocalPortTests; hide Only;
    var v4 := if local.Some? then local.value.Is4() else family4;
    LocalPortShape(proto, src, port, local, family4, entry, next, redirect);
    LocalPortUnlabelled(proto, src, port, local, v4, next);
    LocalPortOnly(proto, src, port, local, v4, entry, next, redirect);
    SimpleShaped(LocalPortEnd(src, v4), LocalPortTests(proto, src, port, local, v4, next), entry, next, redirect);
  }

  lemma LocalPortOnly(proto: u8, src: bool, port: u16, local: Option<Prefix>, v4: bool, entry: string, next: string, redirect: string)
    ensures Only(LocalPortTests(proto, src, port, local, v4, next), {next, redirect})
  {
    hide Only; hide CidrTest; hide NetShort; hide Require; hide Ipv4Guard; hide L3Base; hide BoundsFrom;
    var ts := {next, redirect};
    FragmentsOnly(entry, 14, next, redirect, ts);
    var c1 := Require(12, Half, EtherTypeOf(v4), next);
    var g, c2 := if v4 then Ipv4Guard(next) else [], Require(if v4 then 23 else 20, Byte, proto, next);
    var c3 := Require((if v4 then 34 else 54) + (if src then 0 else 2), Half, NetShort(port), next);
    var c4 := if local.Some? then CidrTest(DstOff(v4), local.value, 0, next) else [];
    if local.Some? { CidrOnly(DstOff(v4), local.value, 0, next, ts); }
    OnlyConcat(g, c2, ts);
    OnlyConcat(c1, g + c2, ts);
    OnlyConcat(c1 + (g + c2), c3, ts);
    OnlyConcat(c1 + (g + c2) + c3, c4, ts);
  }
}
