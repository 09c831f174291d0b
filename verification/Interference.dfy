/** Two custom matches that pass checkBlock, never trap, never redirect on their own, and
    still change what the matches after them do: one writes the packet, the other leaves a
    value in a scratch register. Both on whole assembled programs. */
module Interference {
  import opened Common
  import opened Ebpf
  import opened Wire
  import opened Symbols
  import opened Builders
  import opened Fragments
  import opened Classifier
  import opened Linking
  import opened Chain
  import opened Filter
  import opened FilterTheorems
  import opened Contract
  import opened Splicing
  import opened Independence

  // ------------------------------------------------------- one and two matches

  /** From every start, the only block of the list goes on. */
  lemma OneGoesOn(b: seq<Insn>, env: Env, m: Machine, m': Machine)
    requires Settles(b, env, m, Left(NextName(0, 1, 0), m'))
    ensures Ends([b], 0, env, 0, m, false, m')
  {
    hide Settles; hide EntryName;
    NamesDiffer(0, 1, 0);
    EndsAtEnd([b], 0, env, m', false, m');
    EndsByNext([b], 0, env, 0, m, m', false, m');
  }

  /** The first block goes on to the second, which hits or not. */
  lemma TwoEnd(b: seq<Insn>, c: seq<Insn>, env: Env, m: Machine, m1: Machine, hit: bool, m2: Machine)
    requires Settles(b, env, m, Left(NextName(0, 2, 0), m1))
    requires Settles(c, env, m1, Left(if hit then HitName(0, 1) else NextName(0, 2, 1), m2))
    ensures Ends([b, c], 0, env, 0, m, hit, m2)
  {
    hide Settles; hide EntryName; hide NextName; hide HitName; hide Ends;
    NamesDiffer(0, 2, 0);
    NamesDiffer(0, 2, 1);
    if hit {
      EndsByHit([b, c], 0, env, 1, m1, m2);
    } else {
      EndsAtEnd([b, c], 0, env, m2, false, m2);
      EndsByNext([b, c], 0, env, 1, m1, m2, false, m2);
    }
    EndsByNext([b, c], 0, env, 0, m, m1, hit, m2);
  }

  /** A one-match list of a clean custom match assembles to its wrapped code. */
  lemma OneBlock(s: Source)
    requires SourceOk(s, EntryName(0, 0), NextName(0, 1, 0), HitName(0, 0))
    requires s.Custom? && Clean(s, EntryName(0, 0), NextName(0, 1, 0), HitName(0, 0))
    ensures Buildable(ToMatches([s]))
    ensures var r := Blocks(ToMatches([s]), 0, 0);
            r.Ok? && |r.value| == 1 && AllShaped(r.value, 0) &&
            Some(r.value[0]) == BlockOf(s, EntryName(0, 0), NextName(0, 1, 0), HitName(0, 0))
  {
    hide EntryName; hide NextName; hide HitName; hide SourceOk; hide Clean; hide Blocks; hide AllShaped; hide BlockOf; hide Buildable;
    hide Holding;
    var ss := [s];
    assert OkAt(ss, 0, 0) && CleanAt(ss, 0, 0);
    SourcesLink(ss, 0);
    assert BlockAt(ss, 0, 0) == Some(Blocks(ToMatches(ss), 0, 0).value[0]);
  }

  lemma TwoBlocks(s: Source, t: Source)
    requires SourceOk(s, EntryName(0, 0), NextName(0, 2, 0), HitName(0, 0)) && Clean(s, EntryName(0, 0), NextName(0, 2, 0), HitName(0, 0))
    requires SourceOk(t, EntryName(0, 1), NextName(0, 2, 1), HitName(0, 1)) && Clean(t, EntryName(0, 1), NextName(0, 2, 1), HitName(0, 1))
    ensures Buildable(ToMatches([s, t]))
    ensures var r := Blocks(ToMatches([s, t]), 0, 0);
            r.Ok? && |r.value| == 2 && AllShaped(r.value, 0) &&
            Some(r.value[0]) == BlockOf(s, EntryName(0, 0), NextName(0, 2, 0), HitName(0, 0)) &&
            Some(r.value[1]) == BlockOf(t, EntryName(0, 1), NextName(0, 2, 1), HitName(0, 1))
  {
    hide EntryName; hide NextName; hide HitName; hide SourceOk; hide Clean; hide Blocks; hide AllShaped; hide BlockOf; hide Buildable;
    hide Holding;
    var ss := [s, t];
    assert OkAt(ss, 0, 0) && OkAt(ss, 0, 1) && CleanAt(ss, 0, 0) && CleanAt(ss, 0, 1);
    SourcesLink(ss, 0);
    var bs := Blocks(ToMatches(ss), 0, 0).value;
    assert BlockAt(ss, 0, 0) == Some(bs[0]) && BlockAt(ss, 0, 1) == Some(bs[1]);
  }

  // ------------------------------------------------------------ writing the packet

  /** Checks that 24 bytes are there and overwrites the IPv4 protocol field with UDP. */
  function Marker(): MatchEnv -> Option<seq<Insn>> { (e: MatchEnv) => Some(MarkerCode(e)) }

  function MarkerCode(e: MatchEnv): seq<Insn> {
    e.Bounds(R7, 24) + [I(Store(R7, 23, Imm(17), Byte))]
  }

  /** What it leaves of a packet. */
  function Marked(pkt: seq<u8>): seq<u8> { if |pkt| >= 24 then pkt[23 := 17] else pkt }

  lemma MarkerOk(e: MatchEnv)
    requires Names(e.prefix, e.next, e.redirect)
    ensures SourceOk(Custom(Marker()), e.prefix, e.next, e.redirect) && Clean(Custom(Marker()), e.prefix, e.next, e.redirect)
  {
    hide Stem;
  }

  lemma MarkerWrapped(e: MatchEnv)
    requires Names(e.prefix, e.next, e.redirect)
    ensures var w, f := Wrapped(MarkerCode(e), e.prefix, e.next), MarkerCode(e);
            |w| == 5 && !Labelled(w, e.next) && (forall i :: 0 <= i < 4 ==> w[i].op == f[i].op) && w[4].op == Ja(e.next)
  {
    hide Stem; hide Find; hide Wrapped;
    var w := Wrapped(MarkerCode(e), e.prefix, e.next);
    MarkerOk(e);
    ShapedUserIsPolite(MarkerCode(e), e.prefix, e.next, e.redirect);
    WrappedParts(MarkerCode(e), e.prefix, e.next);
    WrappedShaped(MarkerCode(e), e.prefix, e.next, e.redirect);
    NotOwned(w, e.prefix, e.next);
    forall i | 0 <= i < 4 ensures w[i].op == MarkerCode(e)[i].op { assert w[0 + i].op == MarkerCode(e)[i].op; }
  }

  /** On every packet it runs to its end without a trap and goes on to the next block. */
  lemma MarkerGoesOn(e: MatchEnv, env: Env, m: Machine) returns (m': Machine)
    requires Names(e.prefix, e.next, e.redirect) && Entry(env, m)
    ensures Settles(Wrapped(MarkerCode(e), e.prefix, e.next), env, m, Left(e.next, m'))
    ensures Preserved(m, m') && Entry(env, m') && m'.pkt == Marked(m.pkt)
  {
    hide Flow; hide Find; hide Wrapped; hide RunLocal; hide StoreMem;
    var w := Wrapped(MarkerCode(e), e.prefix, e.next);
    MarkerWrapped(e);
    var m1 := AluFlow(w, env, 0, m, Mov, R2, Src(R7));
    m' := AluFlow(w, env, 1, m1, Add, R2, Imm(24));
    BranchFlow(w, env, 2, m', JGT, true, R2, Src(R6), e.next);
    if |m.pkt| >= 24 {
      m' := MarkStep(w, env, m');
      JaFlow(w, env, 4, m', e.next);
    }
    FlowIsRun(w, env, 0, m);
  }

  lemma MarkStep(w: seq<Insn>, env: Env, m: Machine) returns (m': Machine)
    requires |w| == 5 && w[3].op == Store(R7, 23, Imm(17), Byte) && Entry(env, m) && |m.pkt| >= 24
    ensures m' == m.(pkt := m.pkt[23 := 17]) && Flow(w, env, 3, m) == Flow(w, env, 4, m')
  {
    m' := m.(pkt := m.pkt[23 := 17]);
    assert StepLocal(w, env, 3, m) == In(4, m');
  }

  /** An untagged IPv4 frame of another protocol. */
  predicate OtherProtocol(pkt: seq<u8>) { |pkt| >= 24 && Be16(pkt, 12) == ETH_IPV4 && pkt[23] != 17 }

  lemma MarkedMatches(pkt: seq<u8>)
    requires OtherProtocol(pkt)
    ensures !Matches(Ipv4Proto(17), pkt) && Matches(Ipv4Proto(17), Marked(pkt))
  {
  }

  /** The chain "marker, then protocol 17" hits. */
  lemma MarkedEnds(bs: seq<seq<Insn>>, env: Env, m: Machine) returns (m2: Machine)
    requires |bs| == 2 && Some(bs[0]) == BlockOf(Custom(Marker()), EntryName(0, 0), NextName(0, 2, 0), HitName(0, 0))
    requires Some(bs[1]) == BlockOf(Lib(Ipv4Proto(17)), EntryName(0, 1), NextName(0, 2, 1), HitName(0, 1))
    requires Entry(env, m) && OtherProtocol(m.pkt)
    ensures Preserved(m, m2) && Ends(bs, 0, env, 0, m, true, m2)
  {
    hide Ends; hide Settles; hide Code; hide Wrapped; hide Matches; hide NextName; hide HitName; hide EntryName; hide Names;
    hide OtherProtocol; hide Preserved; hide Entry; hide Decides; hide Marked; hide MarkerCode;
    ChainNames(0, 2, 0);
    ChainNames(0, 2, 1);
    MarkedMatches(m.pkt);
    var m1 := MarkerGoesOn(MatchEnv(NextName(0, 2, 0), HitName(0, 0), EntryName(0, 0)), env, m);
    CodeDecides(Ipv4Proto(17), EntryName(0, 1), NextName(0, 2, 1), HitName(0, 1), env, m1.pkt);
    m2 := DecideStep(bs[1], env, m1, NextName(0, 2, 1), HitName(0, 1), true);
    KeptIsPreserved(m1, m2);
    PreservedRules(m, m1, m2);
    TwoEnd(bs[0], bs[1], env, m, m1, true, m2);
    assert bs == [bs[0], bs[1]];
  }

  function MarkerAlone(): seq<Source> { [Custom(Marker())] }
  function MarkerThenUdp(): seq<Source> { [Custom(Marker()), Lib(Ipv4Proto(17))] }

  lemma MarkerLists()
    ensures Buildable(ToMatches(MarkerAlone())) && Buildable(ToMatches(MarkerThenUdp()))
    ensures var r := Blocks(ToMatches(MarkerAlone()), 0, 0);
            r.Ok? && |r.value| == 1 && AllShaped(r.value, 0) &&
            Some(r.value[0]) == BlockOf(Custom(Marker()), EntryName(0, 0), NextName(0, 1, 0), HitName(0, 0))
    ensures var r := Blocks(ToMatches(MarkerThenUdp()), 0, 0);
            r.Ok? && |r.value| == 2 && AllShaped(r.value, 0) &&
            Some(r.value[0]) == BlockOf(Custom(Marker()), EntryName(0, 0), NextName(0, 2, 0), HitName(0, 0)) &&
            Some(r.value[1]) == BlockOf(Lib(Ipv4Proto(17)), EntryName(0, 1), NextName(0, 2, 1), HitName(0, 1))
  {
    hide EntryName; hide NextName; hide HitName; hide Blocks; hide AllShaped; hide BlockOf; hide Buildable; hide Names; hide MarkerCode;
    ChainNames(0, 1, 0);
    ChainNames(0, 2, 0);
    MarkerOk(MatchEnv(NextName(0, 1, 0), HitName(0, 0), EntryName(0, 0)));
    MarkerOk(MatchEnv(NextName(0, 2, 0), HitName(0, 0), EntryName(0, 0)));
    OneBlock(Custom(Marker()));
    TwoBlocks(Custom(Marker()), Lib(Ipv4Proto(17)));
  }

  /** "A custom block cannot disturb the blocks after it" fails. On every untagged IPv4 frame
      of another protocol, the assembled filter "marker, protocol 17" redirects, although the
      filter "protocol 17" does not, and neither does the marker alone. */
  lemma MarkerDisturbs(env: Env, m: Machine)
    requires Booted(env, m) && OtherProtocol(m.pkt)
    ensures Buildable(ToMatches(MarkerThenUdp())) && Buildable(ToMatches(MarkerAlone()))
    ensures var r := Blocks(ToMatches(MarkerThenUdp()), 0, 0);
            r.Ok? && Linked(Assembled(Flat(r.value))) && Reaches(Assembled(Flat(r.value)), env, At(0, m), "redirect")
            && Returns(Assembled(Flat(r.value)), env, At(0, m), QueueAction(env))
    ensures !Reaches(Program([], [Ipv4Proto(17)]), env, At(0, m), "redirect")
            && Returns(Program([], [Ipv4Proto(17)]), env, At(0, m), XDP_PASS)
    ensures var r := Blocks(ToMatches(MarkerAlone()), 0, 0);
            r.Ok? && !Reaches(Assembled(Flat(r.value)), env, At(0, m), "redirect")
            && Returns(Assembled(Flat(r.value)), env, At(0, m), XDP_PASS)
  {
    hide Blocks; hide Booted; hide Reaches; hide Returns; hide Assembled; hide Flat; hide Linked; hide Program; hide OtherProtocol;
    hide Matches; hide QueueAction; hide MarkerAlone; hide MarkerThenUdp;
    PairRedirects(env, m);
    AlonePasses(env, m);
    MarkedMatches(m.pkt);
    One(Ipv4Proto(17), env, m);
  }

  lemma PairRedirects(env: Env, m: Machine)
    requires Booted(env, m) && OtherProtocol(m.pkt)
    ensures Buildable(ToMatches(MarkerThenUdp()))
    ensures var r := Blocks(ToMatches(MarkerThenUdp()), 0, 0);
            r.Ok? && Linked(Assembled(Flat(r.value))) && Reaches(Assembled(Flat(r.value)), env, At(0, m), "redirect")
            && Returns(Assembled(Flat(r.value)), env, At(0, m), QueueAction(env))
  {
    hide Ends; hide Blocks; hide AllShaped; hide BlockOf; hide Booted; hide Entry; hide Preserved; hide Reaches; hide Returns;
    hide Assembled; hide Flat; hide Linked; hide OtherProtocol; hide QueueAction;
    hide Buildable; hide MarkerAlone; hide MarkerThenUdp; hide EntryName; hide NextName;
    MarkerLists();
    var two := Blocks(ToMatches(MarkerThenUdp()), 0, 0).value;
    forall m1: Machine | Entry(env, m1) && m1.pkt == m.pkt
      ensures exists m2: Machine :: Preserved(m1, m2) && Ends(two, 0, env, 0, m1, true, m2)
    {
      var m2 := MarkedEnds(two, env, m1);
    }
    VerdictOfEnd(two, 0, env, m, true);
  }

  lemma AlonePasses(env: Env, m: Machine)
    requires Booted(env, m)
    ensures Buildable(ToMatches(MarkerAlone()))
    ensures var r := Blocks(ToMatches(MarkerAlone()), 0, 0);
            r.Ok? && !Reaches(Assembled(Flat(r.value)), env, At(0, m), "redirect")
            && Returns(Assembled(Flat(r.value)), env, At(0, m), XDP_PASS)
  {
    hide Ends; hide Blocks; hide AllShaped; hide BlockOf; hide Booted; hide Entry; hide Preserved; hide Reaches; hide Returns;
    hide Assembled; hide Flat; hide Linked; hide QueueAction;
    hide Buildable; hide MarkerAlone; hide MarkerThenUdp; hide EntryName; hide NextName;
    MarkerLists();
    var one := Blocks(ToMatches(MarkerAlone()), 0, 0).value;
    forall m1: Machine | Entry(env, m1) && m1.pkt == m.pkt
      ensures exists m2: Machine :: Preserved(m1, m2) && Ends(one, 0, env, 0, m1, false, m2)
    {
      var m2 := MarkerAloneEnds(one, env, m1);
    }
    VerdictOfEnd(one, 0, env, m, false);
  }

  lemma MarkerAloneEnds(bs: seq<seq<Insn>>, env: Env, m: Machine) returns (m2: Machine)
    requires |bs| == 1 && Some(bs[0]) == BlockOf(Custom(Marker()), EntryName(0, 0), NextName(0, 1, 0), HitName(0, 0))
    requires Entry(env, m)
    ensures Preserved(m, m2) && Ends(bs, 0, env, 0, m, false, m2)
  {
    hide Ends; hide Settles; hide Wrapped; hide NextName; hide HitName; hide EntryName; hide Names; hide Preserved; hide Entry;
    hide MarkerCode;
    ChainNames(0, 1, 0);
    m2 := MarkerGoesOn(MatchEnv(NextName(0, 1, 0), HitName(0, 0), EntryName(0, 0)), env, m);
    OneGoesOn(bs[0], env, m, m2);
    assert bs == [bs[0]];
  }

  /** In the terms of the exact condition, what the marker does not do is keep the packet. */
  lemma MarkerKeepsNot(e: MatchEnv, env: Env, m: Machine)
    requires Names(e.prefix, e.next, e.redirect) && Entry(env, m) && OtherProtocol(m.pkt)
    ensures var w := Wrapped(MarkerCode(e), e.prefix, e.next);
            ContractOk(w) && !KeepsPacket(w, env, m.pkt) && !KeepsAtNext(w, env, e.next)
  {
    hide Settles; hide Wrapped; hide Names; hide Entry; hide MarkerCode;
    var w := Wrapped(MarkerCode(e), e.prefix, e.next);
    var m' := MarkerGoesOn(e, env, m);
    assert m'.pkt[23] != m.pkt[23];
    assert Settles(w, env, m, Left(e.next, m'));
    MarkerOk(e);
    WrappedContract(MarkerCode(e), e.prefix, e.next);
  }

  // ------------------------------------------------------ leaving a value in scratch

  function Setter(x: i32): MatchEnv -> Option<seq<Insn>> { (e: MatchEnv) => Some([I(Alu(Mov, R2, Imm(x)))]) }
  function Reader(): MatchEnv -> Option<seq<Insn>> { (e: MatchEnv) => Some([ReadsR2(e.redirect)]) }
  function ReadsR2(redirect: string): Insn { I(Branch(JEq, true, R2, Imm(7), redirect)) }

  lemma ScratchOk(x: i32, entry: string, next: string, redirect: string)
    requires Names(entry, next, redirect)
    ensures SourceOk(Custom(Setter(x)), entry, next, redirect) && Clean(Custom(Setter(x)), entry, next, redirect)
    ensures SourceOk(Custom(Reader()), entry, next, redirect) && Clean(Custom(Reader()), entry, next, redirect)
  {
    hide Stem;
  }

  /** A wrapped single instruction. */
  lemma WrappedOne(op: Op, entry: string, next: string)
    requires !op.Ja?
    ensures Wrapped([I(op)], entry, next) == [Insn(entry, op), I(Ja(next))]
  {
  }

  lemma SetterGoesOn(x: i32, entry: string, next: string, redirect: string, env: Env, m: Machine)
    requires Names(entry, next, redirect)
    ensures Settles(Wrapped([I(Alu(Mov, R2, Imm(x)))], entry, next), env, m, Left(next, Set(m, R2, Extend(x))))
  {
    hide Flow; hide Find; hide RunLocal; hide Wrapped; hide Stem;
    WrappedOne(Alu(Mov, R2, Imm(x)), entry, next);
    var w := Wrapped([I(Alu(Mov, R2, Imm(x)))], entry, next);
    NotOwned(w, entry, next);
    var m' := AluFlow(w, env, 0, m, Mov, R2, Imm(x));
    JaFlow(w, env, 1, m', next);
    FlowIsRun(w, env, 0, m);
  }

  lemma ReaderGoes(entry: string, next: string, redirect: string, env: Env, m: Machine)
    requires Names(entry, next, redirect)
    ensures Settles(Wrapped([ReadsR2(redirect)], entry, next), env, m, Left(if m.regs[R2] == 7 then redirect else next, m))
  {
    hide Flow; hide Find; hide RunLocal; hide Wrapped; hide Stem;
    WrappedOne(ReadsR2(redirect).op, entry, next);
    var w := Wrapped([ReadsR2(redirect)], entry, next);
    NotOwned(w, entry, next);
    NotOwned(w, entry, redirect);
    BranchFlow(w, env, 0, m, JEq, true, R2, Imm(7), redirect);
    if m.regs[R2] != 7 { JaFlow(w, env, 1, m, next); }
    FlowIsRun(w, env, 0, m);
  }

  lemma SeenByReader(x: i32, m: Machine)
    ensures Set(m, R2, Extend(x)).regs[R2] == 7 <==> x == 7
    ensures Kept(m, Set(m, R2, Extend(x)))
  {
  }

  /** The setter decides "never" on every packet; the reader decides nothing on any. */
  lemma ScratchDecides(x: i32, e: MatchEnv, env: Env, m: Machine)
    requires Names(e.prefix, e.next, e.redirect) && e.next != e.redirect && Entry(env, m)
    ensures Decides(Wrapped([I(Alu(Mov, R2, Imm(x)))], e.prefix, e.next), env, m.pkt, e.next, e.redirect, false)
    ensures var r := Wrapped([ReadsR2(e.redirect)], e.prefix, e.next);
            ContractOk(r) && StoreFree(r) && !ScratchFree(r, env, m.pkt)
  {
    hide Settles; hide Kept; hide Entry; hide Wrapped; hide ReadsR2; hide Names;
    var s := Wrapped([I(Alu(Mov, R2, Imm(x)))], e.prefix, e.next);
    forall m0: Machine | Entry(env, m0) && m0.pkt == m.pkt ensures exists m' :: Kept(m0, m') && Settles(s, env, m0, Left(e.next, m')) {
      SetterGoesOn(x, e.prefix, e.next, e.redirect, env, m0);
      SeenByReader(x, m0);
    }
    ReaderDepends(e, env, m);
  }

  lemma ReaderDepends(e: MatchEnv, env: Env, m: Machine)
    requires Names(e.prefix, e.next, e.redirect) && e.next != e.redirect && Entry(env, m)
    ensures var r := Wrapped([ReadsR2(e.redirect)], e.prefix, e.next);
            ContractOk(r) && StoreFree(r) && !ScratchFree(r, env, m.pkt)
  {
    hide Settles; hide Wrapped; hide Names;
    WrappedOne(ReadsR2(e.redirect).op, e.prefix, e.next);
    var r := Wrapped([ReadsR2(e.redirect)], e.prefix, e.next);
    var m7, m8 := Set(m, R2, 7), Set(m, R2, 8);
    ReaderGoes(e.prefix, e.next, e.redirect, env, m7);
    ReaderGoes(e.prefix, e.next, e.redirect, env, m8);
    var c7, c8 := Left(e.redirect, m7), Left(e.next, m8);
    assert Settles(r, env, m7, c7) && Settles(r, env, m8, c8) && Entry(env, m7) && Entry(env, m8);
  }

  lemma ScratchEnds(x: i32, bs: seq<seq<Insn>>, env: Env, m: Machine) returns (m2: Machine)
    requires |bs| == 2 && Some(bs[0]) == BlockOf(Custom(Setter(x)), EntryName(0, 0), NextName(0, 2, 0), HitName(0, 0))
    requires Some(bs[1]) == BlockOf(Custom(Reader()), EntryName(0, 1), NextName(0, 2, 1), HitName(0, 1))
    ensures Preserved(m, m2) && Ends(bs, 0, env, 0, m, x == 7, m2)
  {
    hide Ends; hide Settles; hide Wrapped; hide NextName; hide HitName; hide EntryName; hide Names; hide Preserved; hide ReadsR2;
    ChainNames(0, 2, 0);
    ChainNames(0, 2, 1);
    m2 := Set(m, R2, Extend(x));
    SetterGoesOn(x, EntryName(0, 0), NextName(0, 2, 0), HitName(0, 0), env, m);
    ReaderGoes(EntryName(0, 1), NextName(0, 2, 1), HitName(0, 1), env, m2);
    SeenByReader(x, m);
    KeptIsPreserved(m, m2);
    TwoEnd(bs[0], bs[1], env, m, m2, x == 7, m2);
    assert bs == [bs[0], bs[1]];
  }

  function SetterThenReader(x: i32): seq<Source> { [Custom(Setter(x)), Custom(Reader())] }

  lemma ScratchLists(x: i32)
    ensures Buildable(ToMatches(SetterThenReader(x)))
    ensures var r := Blocks(ToMatches(SetterThenReader(x)), 0, 0);
            r.Ok? && |r.value| == 2 && AllShaped(r.value, 0) &&
            Some(r.value[0]) == BlockOf(Custom(Setter(x)), EntryName(0, 0), NextName(0, 2, 0), HitName(0, 0)) &&
            Some(r.value[1]) == BlockOf(Custom(Reader()), EntryName(0, 1), NextName(0, 2, 1), HitName(0, 1))
  {
    hide EntryName; hide NextName; hide HitName; hide Blocks; hide AllShaped; hide BlockOf; hide Buildable; hide Names;
    hide SourceOk; hide Clean;
    ChainNames(0, 2, 0);
    ChainNames(0, 2, 1);
    ScratchOk(x, EntryName(0, 0), NextName(0, 2, 0), HitName(0, 0));
    ScratchOk(x, EntryName(0, 1), NextName(0, 2, 1), HitName(0, 1));
    TwoBlocks(Custom(Setter(x)), Custom(Reader()));
  }

  /** Keeping the packet is not enough. Neither of these matches stores or loads anything, and
      the first never redirects by itself; but what it leaves in R2 decides, on every packet,
      whether the assembled filter of the two redirects. */
  lemma ScratchDisturbs(x: i32, env: Env, m: Machine)
    requires Booted(env, m)
    ensures Buildable(ToMatches(SetterThenReader(x)))
    ensures var r := Blocks(ToMatches(SetterThenReader(x)), 0, 0);
            r.Ok? && Linked(Assembled(Flat(r.value)))
            && (Reaches(Assembled(Flat(r.value)), env, At(0, m), "redirect") <==> x == 7)
            && Returns(Assembled(Flat(r.value)), env, At(0, m), if x == 7 then QueueAction(env) else XDP_PASS)
  {
    hide Ends; hide Blocks; hide AllShaped; hide BlockOf; hide Booted; hide Entry; hide Preserved; hide Reaches; hide Returns;
    hide Assembled; hide Flat; hide Linked; hide QueueAction; hide Buildable; hide SetterThenReader; hide EntryName; hide NextName;
    ScratchLists(x);
    var bs := Blocks(ToMatches(SetterThenReader(x)), 0, 0).value;
    forall m1: Machine | Entry(env, m1) && m1.pkt == m.pkt
      ensures exists m2: Machine :: Preserved(m1, m2) && Ends(bs, 0, env, 0, m1, x == 7, m2)
    {
      var m2 := ScratchEnds(x, bs, env, m1);
    }
    VerdictOfEnd(bs, 0, env, m, x == 7);
  }

  // ------------------------------------------------------------------- a world

  /** A 24-byte IPv4 frame carrying TCP. */
  const SAMPLE: seq<u8> := [0, 0, 0, 0, 0, 0, 0, 0, 0, 0, 0, 0, 8, 0, 0x45, 0, 0, 0, 0, 0, 0, 0, 0, 6]

  /** Both results are about something: a booted machine with such a packet exists. */
  lemma SampleBoots() returns (env: Env, m: Machine)
    ensures Booted(env, m) && m.pkt == SAMPLE && OtherProtocol(m.pkt)
    ensures env.queue == 0 && env.enabled == [1] && env.sockets == {0}
  {
    env := Env(0x1000, 0x3000, 0x4000, 0x5000, 0, 1, 2, 0, [1], {0});
    m := Machine([0, 0x4000, 0, 0, 0, 0, 0, 0, 0, 0, 0x3000], SAMPLE, seq(STACK_SIZE, i => 0));
  }

  /** A concrete world, packet and two programs that differ on it. */
  lemma DisturbedSample() returns (env: Env, m: Machine)
    ensures Booted(env, m) && m.pkt == SAMPLE && Buildable(ToMatches(MarkerThenUdp()))
    ensures var r := Blocks(ToMatches(MarkerThenUdp()), 0, 0);
            r.Ok? && Returns(Assembled(Flat(r.value)), env, At(0, m), XDP_REDIRECT)
    ensures Returns(Program([], [Ipv4Proto(17)]), env, At(0, m), XDP_PASS)
  {
    hide Blocks; hide Booted; hide Returns; hide Assembled; hide Flat; hide Program; hide OtherProtocol; hide Reaches; hide Linked;
    env, m := SampleBoots();
    MarkerDisturbs(env, m);
    SampleDelivers(env);
  }

  lemma SampleDelivers(env: Env)
    requires env.queue == 0 && env.enabled == [1] && env.sockets == {0}
    ensures QueueAction(env) == XDP_REDIRECT
  {
  }
}
