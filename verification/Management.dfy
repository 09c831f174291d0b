/** The exceptions WithKeepManagement installs, and what they keep for the kernel. */
module Management {
  import opened Common
  import opened Ebpf
  import opened Wire
  import opened Filter
  import opened FilterTheorems
  import opened Linking

  datatype PortRule = PortRule(proto: u8, srcPort: bool, port: u16)

  /** SSH and friends in both directions, then DNS replies. */
  function PortRules(tcpPorts: seq<u16>): seq<PortRule> {
    if tcpPorts == [] then [PortRule(PROTO_UDP, true, 53), PortRule(PROTO_TCP, true, 53)]
    else [PortRule(PROTO_TCP, false, tcpPorts[0]), PortRule(PROTO_TCP, true, tcpPorts[0])] + PortRules(tcpPorts[1..])
  }

  function Scoped(r: PortRule, locals: seq<Prefix>): (ms: seq<Rule>)
    ensures |ms| == |locals|
    ensures forall i :: 0 <= i < |ms| ==> ms[i] == LocalPort(r.proto, r.srcPort, r.port, Some(locals[i]), locals[i].Is4())
  {
    seq(|locals|, i requires 0 <= i < |locals| =>
      LocalPort(r.proto, r.srcPort, r.port, Some(locals[i]), locals[i].Is4()))
  }

  function Expanded(r: PortRule, locals: seq<Prefix>, unscoped: bool): seq<Rule> {
    if unscoped then [LocalPort(r.proto, r.srcPort, r.port, None, true), LocalPort(r.proto, r.srcPort, r.port, None, false)]
    else Scoped(r, locals)
  }

  function AllExpanded(rs: seq<PortRule>, locals: seq<Prefix>, unscoped: bool): seq<Rule> {
    if rs == [] then [] else Expanded(rs[0], locals, unscoped) + AllExpanded(rs[1..], locals, unscoped)
  }

  function Exceptions(locals: seq<Prefix>, tcpPorts: seq<u16>, unscoped: bool): seq<Rule> {
    [EtherTypeIs(ETH_ARP), Icmpv6Nd] + AllExpanded(PortRules(tcpPorts), locals, unscoped)
  }

  /** managementExceptions' list of port rules. */
  method ListPortRules(tcpPorts: seq<u16>) returns (rules: seq<PortRule>)
    ensures rules == PortRules(tcpPorts)
  {
    rules := [];
    for i := 0 to |tcpPorts|
      invariant rules + PortRules(tcpPorts[i..]) == PortRules(tcpPorts)
    {
      assert tcpPorts[i..][1..] == tcpPorts[i + 1..];
      rules := rules + [PortRule(PROTO_TCP, false, tcpPorts[i]), PortRule(PROTO_TCP, true, tcpPorts[i])];
    }
    rules := rules + [PortRule(PROTO_UDP, true, 53), PortRule(PROTO_TCP, true, 53)];
  }

  /** managementExceptions. */
  method ManagementExceptions(locals: seq<Prefix>, tcpPorts: seq<u16>, unscoped: bool) returns (ms: seq<Rule>)
    ensures ms == Exceptions(locals, tcpPorts, unscoped)
  {
    hide AllExpanded; hide PortRules; hide Scoped;
    ms := [EtherTypeIs(ETH_ARP), Icmpv6Nd];
    var rules := ListPortRules(tcpPorts);
    assert rules[0..] == rules;
    for i := 0 to |rules|
      invariant ms + AllExpanded(rules[i..], locals, unscoped) == Exceptions(locals, tcpPorts, unscoped)
    {
      ExpandNext(rules, i, locals, unscoped, ms);
      var r := rules[i];
      if unscoped {
        ms := ms + [LocalPort(r.proto, r.srcPort, r.port, None, true), LocalPort(r.proto, r.srcPort, r.port, None, false)];
      } else {
        ghost var before := ms;
        for j := 0 to |locals|
          invariant ms == before + Scoped(r, locals)[..j]
        {
          ms := ms + [LocalPort(r.proto, r.srcPort, r.port, Some(locals[j]), locals[j].Is4())];
        }
        assert Scoped(r, locals)[..|locals|] == Scoped(r, locals);
      }
    }
    ExpandNone(rules, locals, unscoped, ms);
  }

  lemma ExpandNone(rules: seq<PortRule>, locals: seq<Prefix>, unscoped: bool, ms: seq<Rule>)
    ensures ms + AllExpanded(rules[|rules|..], locals, unscoped) == ms
  {
  }

  lemma ExpandNext(rules: seq<PortRule>, i: nat, locals: seq<Prefix>, unscoped: bool, ms: seq<Rule>)
    requires i < |rules|
    ensures ms + AllExpanded(rules[i..], locals, unscoped)
         == (ms + Expanded(rules[i], locals, unscoped)) + AllExpanded(rules[i + 1..], locals, unscoped)
  {
    hide Expanded;
    assert rules[i..][0] == rules[i] && rules[i..][1..] == rules[i + 1..];
  }

  // ------------------------------------------------------------------ meaning

  predicate Any(rs: seq<Rule>, pkt: seq<u8>) { exists i :: 0 <= i < |rs| && Matches(rs[i], pkt) }

  lemma AnyConcat(a: seq<Rule>, b: seq<Rule>, pkt: seq<u8>)
    ensures Any(a + b, pkt) <==> Any(a, pkt) || Any(b, pkt)
  {
    hide Matches;
    if Any(a, pkt) { var i :| 0 <= i < |a| && Matches(a[i], pkt); assert (a + b)[i] == a[i]; }
    if Any(b, pkt) { var i :| 0 <= i < |b| && Matches(b[i], pkt); assert (a + b)[|a| + i] == b[i]; }
  }

  /** The frame satisfies the port rule in its own address family. */
  predicate PortHit(r: PortRule, f: seq<u8>) {
    PortRule4(f, r.proto, r.srcPort, [r.port]) || PortRule6(f, r.proto, r.srcPort, [r.port])
  }

  predicate ToLocal(f: seq<u8>, locals: seq<Prefix>) {
    exists i :: 0 <= i < |locals| && DestinationIn(f, locals[i])
  }

  /** Whether a port rule keeps the packet: the rule holds, and it is addressed to
      this host or the addresses are unknown. */
  predicate PortKeeps(r: PortRule, locals: seq<Prefix>, unscoped: bool, pkt: seq<u8>) {
    Inner(pkt).Some? && PortHit(r, Inner(pkt).value) && (unscoped || ToLocal(Inner(pkt).value, locals))
  }

  /** The port field of an L4 header at `l4`. */
  function PortField(f: seq<u8>, l4: nat, srcPort: bool): u16
    requires |f| >= l4 + PortEnd(srcPort)
  {
    Be16(f, if srcPort then l4 else l4 + 2)
  }

  /** An unfragmented, option-free packet of that protocol with one of the ports in its source
      (or destination) field. */
  predicate Carries(f: seq<u8>, proto: u8, srcPort: bool, ports: seq<u16>) {
    || (PlainIpv4(f, PortEnd(srcPort)) && Ipv4Protocol(f) == proto && PortField(f, 34, srcPort) in ports)
    || (PlainIpv6(f, PortEnd(srcPort)) && Ipv6NextHeaderField(f) == proto && PortField(f, 54, srcPort) in ports)
  }

  /** TCP with a listed port at either end, or a reply from a DNS server. */
  predicate ManagementPort(f: seq<u8>, tcpPorts: seq<u16>) {
    || Carries(f, PROTO_TCP, false, tcpPorts) || Carries(f, PROTO_TCP, true, tcpPorts)
    || Carries(f, PROTO_UDP, true, [53]) || Carries(f, PROTO_TCP, true, [53])
  }

  /** The traffic WithKeepManagement promises to leave with the kernel: ARP, neighbour
      discovery, and management ports toward this host, or toward anyone when its addresses
      are unknown. */
  predicate Management(locals: seq<Prefix>, tcpPorts: seq<u16>, unscoped: bool, pkt: seq<u8>) {
    Inner(pkt).Some? &&
    var f := Inner(pkt).value;
    || EtherType(f) == ETH_ARP
    || (PlainIpv6(f, 1) && Ipv6NextHeaderField(f) == PROTO_ICMPV6 && 133 <= f[54] <= 137)
    || (ManagementPort(f, tcpPorts) && (unscoped || ToLocal(f, locals)))
  }

  lemma HitCarries(r: PortRule, f: seq<u8>)
    ensures PortHit(r, f) <==> Carries(f, r.proto, r.srcPort, [r.port])
  {
  }

  lemma CarriesSplit(f: seq<u8>, proto: u8, srcPort: bool, ports: seq<u16>)
    ensures !Carries(f, proto, srcPort, [])
    ensures ports != [] ==> (Carries(f, proto, srcPort, ports) <==>
              Carries(f, proto, srcPort, [ports[0]]) || Carries(f, proto, srcPort, ports[1..]))
  {
    hide PlainIpv4; hide PlainIpv6; hide Be16; hide Ipv4Protocol; hide Ipv6NextHeaderField;
    if ports != [] { assert ports == [ports[0]] + ports[1..]; }
  }

  predicate AnyHit(rs: seq<PortRule>, f: seq<u8>) { exists i :: 0 <= i < |rs| && PortHit(rs[i], f) }

  /** The list of port rules means what its comment says. */
  lemma {:induction false} PortRulesMeaning(tcpPorts: seq<u16>, f: seq<u8>)
    ensures AnyHit(PortRules(tcpPorts), f) <==> ManagementPort(f, tcpPorts)
  {
    hide PortHit; hide Carries;
    var rs := PortRules(tcpPorts);
    HitCarries(rs[0], f);
    HitCarries(rs[1], f);
    CarriesSplit(f, PROTO_TCP, false, tcpPorts);
    CarriesSplit(f, PROTO_TCP, true, tcpPorts);
    if tcpPorts != [] {
      var rest := PortRules(tcpPorts[1..]);
      PortRulesMeaning(tcpPorts[1..], f);
      assert forall i :: 0 <= i < |rest| ==> rs[i + 2] == rest[i];
      assert forall i :: 2 <= i < |rs| ==> rs[i] == rest[i - 2];
    }
  }

  lemma ScopedMeaning(r: PortRule, l: Prefix, f: seq<u8>)
    requires |f| >= 14
    ensures HoldsOn(LocalPort(r.proto, r.srcPort, r.port, Some(l), l.Is4()), f) <==> PortHit(r, f) && DestinationIn(f, l)
  {
    hide InPrefix; hide PortIs;
  }

  lemma ExpandedMeaning(r: PortRule, locals: seq<Prefix>, unscoped: bool, pkt: seq<u8>)
    ensures Any(Expanded(r, locals, unscoped), pkt) <==> PortKeeps(r, locals, unscoped, pkt)
  {
    var ms := Expanded(r, locals, unscoped);
    if unscoped {
      hide HoldsOn;
      assert Any(ms, pkt) <==> Matches(ms[0], pkt) || Matches(ms[1], pkt);
      UnscopedMeaning(r, pkt);
    } else {
      hide HoldsOn; hide PortHit; hide DestinationIn;
      forall i | 0 <= i < |locals|
        ensures Matches(ms[i], pkt) <==> Inner(pkt).Some? && PortHit(r, Inner(pkt).value) && DestinationIn(Inner(pkt).value, locals[i])
      {
        if Inner(pkt).Some? { ScopedMeaning(r, locals[i], Inner(pkt).value); }
      }
    }
  }

  lemma UnscopedMeaning(r: PortRule, pkt: seq<u8>)
    ensures (Matches(LocalPort(r.proto, r.srcPort, r.port, None, true), pkt) ||
             Matches(LocalPort(r.proto, r.srcPort, r.port, None, false), pkt)) <==>
            Inner(pkt).Some? && PortHit(r, Inner(pkt).value)
  {
    hide PortRule4; hide PortRule6;
  }

  lemma {:induction false} AllExpandedMeaning(rs: seq<PortRule>, locals: seq<Prefix>, unscoped: bool, pkt: seq<u8>)
    ensures Any(AllExpanded(rs, locals, unscoped), pkt) <==>
            exists i :: 0 <= i < |rs| && PortKeeps(rs[i], locals, unscoped, pkt)
  {
    hide Matches; hide PortKeeps; hide Expanded;
    if rs != [] {
      AllExpandedMeaning(rs[1..], locals, unscoped, pkt);
      ExpandedMeaning(rs[0], locals, unscoped, pkt);
      AnyConcat(Expanded(rs[0], locals, unscoped), AllExpanded(rs[1..], locals, unscoped), pkt);
      if exists i :: 0 <= i < |rs[1..]| && PortKeeps(rs[1..][i], locals, unscoped, pkt) {
        var i :| 0 <= i < |rs[1..]| && PortKeeps(rs[1..][i], locals, unscoped, pkt);
        assert PortKeeps(rs[i + 1], locals, unscoped, pkt);
      }
      forall i | 0 < i < |rs| ensures rs[i] == rs[1..][i - 1] {}
    }
  }

  /** Some port rule keeps the packet iff it is management traffic by port. */
  lemma PortsMeaning(locals: seq<Prefix>, tcpPorts: seq<u16>, unscoped: bool, pkt: seq<u8>)
    ensures var rs := PortRules(tcpPorts);
            (exists i :: 0 <= i < |rs| && PortKeeps(rs[i], locals, unscoped, pkt)) <==>
            Inner(pkt).Some? && ManagementPort(Inner(pkt).value, tcpPorts) && (unscoped || ToLocal(Inner(pkt).value, locals))
  {
    hide PortHit; hide ManagementPort; hide ToLocal; hide PortRules;
    if Inner(pkt).Some? {
      var rs, f := PortRules(tcpPorts), Inner(pkt).value;
      PortRulesMeaning(tcpPorts, f);
      if AnyHit(rs, f) && (unscoped || ToLocal(f, locals)) {
        var i :| 0 <= i < |rs| && PortHit(rs[i], f);
        assert PortKeeps(rs[i], locals, unscoped, pkt);
      }
    }
  }

  lemma ExceptionsMeaning(locals: seq<Prefix>, tcpPorts: seq<u16>, unscoped: bool, pkt: seq<u8>)
    ensures Any(Exceptions(locals, tcpPorts, unscoped), pkt) <==> Management(locals, tcpPorts, unscoped, pkt)
  {
    hide PortKeeps; hide AllExpanded; hide ManagementPort; hide ToLocal; hide PortRules; hide Any; hide HoldsOn; hide PlainIpv6;
    var head := [EtherTypeIs(ETH_ARP), Icmpv6Nd];
    assert Exceptions(locals, tcpPorts, unscoped) == head + AllExpanded(PortRules(tcpPorts), locals, unscoped);
    AllExpandedMeaning(PortRules(tcpPorts), locals, unscoped, pkt);
    AnyConcat(head, AllExpanded(PortRules(tcpPorts), locals, unscoped), pkt);
    PortsMeaning(locals, tcpPorts, unscoped, pkt);
    HeadMeaning(pkt);
  }

  lemma HeadMeaning(pkt: seq<u8>)
    ensures Any([EtherTypeIs(ETH_ARP), Icmpv6Nd], pkt) <==>
            Inner(pkt).Some? && var f := Inner(pkt).value;
              EtherType(f) == ETH_ARP || (PlainIpv6(f, 1) && Ipv6NextHeaderField(f) == PROTO_ICMPV6 && 133 <= f[54] <= 137)
  {
    var head := [EtherTypeIs(ETH_ARP), Icmpv6Nd];
    assert Any(head, pkt) <==> Matches(head[0], pkt) || Matches(head[1], pkt);
  }

  /** Rules an exception list may hold. */
  predicate Excludable(ms: seq<Rule>) { forall i :: 0 <= i < |ms| ==> !ms[i].All? && !ms[i].FlowBetween? }

  lemma ExcludableConcat(a: seq<Rule>, b: seq<Rule>)
    requires Excludable(a) && Excludable(b)
    ensures Excludable(a + b)
  {
  }

  lemma {:induction false} ExpandedOk(rs: seq<PortRule>, locals: seq<Prefix>, unscoped: bool)
    ensures Excludable(AllExpanded(rs, locals, unscoped))
  {
    if rs != [] {
      ExpandedOk(rs[1..], locals, unscoped);
      ExcludableConcat(Expanded(rs[0], locals, unscoped), AllExpanded(rs[1..], locals, unscoped));
    }
  }

  lemma ExceptionsAccepted(locals: seq<Prefix>, tcpPorts: seq<u16>, unscoped: bool)
    ensures Accepted(Exceptions(locals, tcpPorts, unscoped), [All])
  {
    hide AllExpanded; hide PortRules;
    ExpandedOk(PortRules(tcpPorts), locals, unscoped);
    ExcludableConcat([EtherTypeIs(ETH_ARP), Icmpv6Nd], AllExpanded(PortRules(tcpPorts), locals, unscoped));
    assert [All][0] == All;
  }

  /** With MatchAll and the management exceptions, the attached program leaves a
      packet to the kernel iff it is management traffic, and redirects all the rest. */
  lemma KeepsManagement(locals: seq<Prefix>, tcpPorts: seq<u16>, unscoped: bool, env: Env, m: Machine)
    requires Booted(env, m)
    ensures var p := Program(Exceptions(locals, tcpPorts, unscoped), [All]);
            && (Reaches(p, env, At(0, m), "redirect") <==> !Management(locals, tcpPorts, unscoped, m.pkt))
            && Returns(p, env, At(0, m), if Management(locals, tcpPorts, unscoped, m.pkt) then XDP_PASS else QueueAction(env))
  {
    hide Run; hide Reaches; hide Returns; hide Program; hide Booted; hide Management; hide HoldsOn; hide AllExpanded; hide Linked;
    var es := Exceptions(locals, tcpPorts, unscoped);
    ExceptionsMeaning(locals, tcpPorts, unscoped, m.pkt);
    ExceptionsAccepted(locals, tcpPorts, unscoped);
    FilterCorrect(es, [All], env, m);
    assert Redirected(es, [All], m.pkt) <==> !Any(es, m.pkt) by {
      assert Matches([All][0], m.pkt);
    }
  }

  lemma CarriesMore(f: seq<u8>, proto: u8, srcPort: bool, a: seq<u16>, b: seq<u16>)
    requires (forall p :: p in a ==> p in b) && Carries(f, proto, srcPort, a)
    ensures Carries(f, proto, srcPort, b)
  {
    hide PlainIpv4; hide PlainIpv6;
  }

  /** Adding addresses or ports only keeps more, and every scoped set is contained in
      the fail-safe unscoped one. */
  lemma ManagementGrows(locals: seq<Prefix>, tcpPorts: seq<u16>, locals': seq<Prefix>, tcpPorts': seq<u16>,
                        unscoped: bool, unscoped': bool, pkt: seq<u8>)
    requires unscoped ==> unscoped'
    requires forall p :: p in tcpPorts ==> p in tcpPorts'
    requires unscoped' || forall l :: l in locals ==> l in locals'
    requires Management(locals, tcpPorts, unscoped, pkt)
    ensures Management(locals', tcpPorts', unscoped', pkt)
  {
    hide DestinationIn; hide Carries;
    var f := Inner(pkt).value;
    if Carries(f, PROTO_TCP, false, tcpPorts) { CarriesMore(f, PROTO_TCP, false, tcpPorts, tcpPorts'); }
    if Carries(f, PROTO_TCP, true, tcpPorts) { CarriesMore(f, PROTO_TCP, true, tcpPorts, tcpPorts'); }
    if ToLocal(f, locals) && !unscoped' {
      var k :| 0 <= k < |locals| && DestinationIn(f, locals[k]);
      assert locals[k] in locals';
      var k' :| 0 <= k' < |locals'| && locals'[k'] == locals[k];
      assert DestinationIn(f, locals'[k']);
    }
  }

  /** An interface known to have no address keeps only ARP and neighbour discovery. */
  lemma NoAddresses(tcpPorts: seq<u16>, pkt: seq<u8>)
    ensures Management([], tcpPorts, false, pkt) <==>
            (Inner(pkt).Some? && EtherType(Inner(pkt).value) == ETH_ARP) || Matches(Icmpv6Nd, pkt)
  {
    hide ManagementPort;
    NotLocal(pkt);
  }

  lemma NotLocal(pkt: seq<u8>)
    ensures !ToLocal(pkt, []) && (Inner(pkt).Some? ==> !ToLocal(Inner(pkt).value, []))
  {
  }
}
