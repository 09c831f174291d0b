/** Load safety: every load the classification chain executes lies inside the packet,
    whatever else is readable around it, and only the redirect tail jumps back.

    `Ebpf.LoadMem` answers for any readable address, so that a run does not fault says
    little by itself about where its loads went. The argument here is that a block which
    decides in every world also decides in one where the packet is the only readable
    memory, and until its first load elsewhere it runs the same in both. */
module LoadSafety {
  import opened Common
  import opened Ebpf
  import opened Wire
  import opened Symbols
  import opened Builders
  import opened Fragments
  import opened Refinement
  import opened Classifier
  import opened Linking
  import opened BlockShape
  import opened Chain
  import opened Filter
  import opened FilterTheorems

  /** If the instruction loads, it loads from the packet. */
  predicate SafeLoad(env: Env, m: Machine, op: Op) {
    op.Load? ==> InPacket(env, m, m.regs[op.src] + op.off, op.size.Bytes())
  }

  /** Step n of the block's own run does not load outside the packet. */
  ghost predicate SafeFrom(b: seq<Insn>, env: Env, pc: nat, m: Machine, n: nat)
    requires pc < |b|
  {
    var c := RunLocal(b, env, In(pc, m), n);
    c.In? ==> c.pc < |b| && SafeLoad(env, c.m, b[c.pc].op)
  }

  // ---------------------------------------------------- nothing but the packet

  /** The same world without map values, and with the context at `ctx`. */
  function Alone(env: Env, ctx: nat): Env { env.(enabled := [], ctx := ctx) }

  /** The same machine without a stack. */
  function Bare(m: Machine): Machine { m.(stack := []) }

  function BareLocal(c: Local): Local {
    match c
    case In(pc, m) => In(pc, Bare(m))
    case Left(l, m) => Left(l, Bare(m))
    case Fell(m) => Fell(Bare(m))
    case other => other
  }

  lemma OnlyPacketLoads(env: Env, ctx: nat, m: Machine, addr: int, size: Size)
    requires addr < ctx && LoadMem(Alone(env, ctx), Bare(m), addr, size).Some?
    ensures InPacket(env, m, addr, size.Bytes())
  {
    hide Le;
  }

  lemma SameLoad(env: Env, ctx: nat, m: Machine, addr: int, size: Size)
    requires InPacket(env, m, addr, size.Bytes())
    ensures LoadMem(Alone(env, ctx), Bare(m), addr, size) == LoadMem(env, m, addr, size)
  {
    hide Le;
  }

  lemma SameStep(b: seq<Insn>, env: Env, ctx: nat, pc: nat, m: Machine)
    requires pc < |b| && Plain(b[pc].op) && SafeLoad(env, m, b[pc].op)
    ensures StepLocal(b, Alone(env, ctx), pc, Bare(m)) == BareLocal(StepLocal(b, env, pc, m))
  {
    hide LoadMem; hide Find; hide AluValue; hide InPacket;
    var op := b[pc].op;
    if op.Load? { SameLoad(env, ctx, m, m.regs[op.src] + op.off, op.size); }
  }

  lemma {:induction false} SameRun(b: seq<Insn>, env: Env, ctx: nat, pc: nat, m: Machine, n: nat)
    requires pc < |b| && AllPlain(b) && forall j: nat :: j < n ==> SafeFrom(b, env, pc, m, j)
    ensures RunLocal(b, Alone(env, ctx), In(pc, Bare(m)), n) == BareLocal(RunLocal(b, env, In(pc, m), n))
    decreases n
  {
    hide StepLocal; hide Plain; hide SafeLoad;
    if n > 0 {
      assert SafeFrom(b, env, pc, m, 0);
      SameStep(b, env, ctx, pc, m);
      StepLocalIn(b, env, pc, m);
      var c := StepLocal(b, env, pc, m);
      if c.In? {
        forall j: nat | j < n - 1 ensures SafeFrom(b, env, c.pc, c.m, j) { assert SafeFrom(b, env, pc, m, j + 1); }
        SameRun(b, env, ctx, c.pc, c.m, n - 1);
      }
    }
  }

  /** A plain block that decides in every world loads only from the packet, at every
      step of every run that starts with the packet delimited. */
  lemma {:induction false} LoadsInPacket(b: seq<Insn>, env: Env, m: Machine, next: string, hit: string, v: bool, n: nat)
    requires AllPlain(b) && Entry(env, m) && b != []
    requires forall e: Env :: Decides(b, e, m.pkt, next, hit, v)
    ensures SafeFrom(b, env, 0, m, n)
    decreases n
  {
    hide Plain; hide Decides; hide StepLocal; hide InPacket; hide Entry; hide RunLocal;
    forall j: nat | j < n ensures SafeFrom(b, env, 0, m, j) { LoadsInPacket(b, env, m, next, hit, v, j); }
    RunLocalAdd(b, env, In(0, m), n, 0);
    var c := RunLocal(b, env, In(0, m), n);
    if c.In? && b[c.pc].op.Load? {
      var op := b[c.pc].op;
      var addr := c.m.regs[op.src] + op.off;
      var ctx: nat := if addr < 0 then 0 else addr + 1;
      SameRun(b, env, ctx, 0, m, n);
      if LoadMem(Alone(env, ctx), Bare(c.m), addr, op.size).None? {
        StraysCrash(b, Alone(env, ctx), Bare(m), n);
        AloneEntry(env, ctx, m);
        NeverCrashes(b, Alone(env, ctx), Bare(m), next, hit, v);
        assert false;
      }
      OnlyPacketLoads(env, ctx, c.m, addr, op.size);
    }
  }

  lemma AloneEntry(env: Env, ctx: nat, m: Machine)
    requires Entry(env, m)
    ensures Entry(Alone(env, ctx), Bare(m))
  {
  }

  /** A load that nothing answers ends the run. */
  lemma StraysCrash(b: seq<Insn>, env: Env, m: Machine, n: nat)
    requires b != []
    requires var c := RunLocal(b, env, In(0, m), n);
             c.In? && c.pc < |b| && b[c.pc].op.Load? &&
             LoadMem(env, c.m, c.m.regs[b[c.pc].op.src] + b[c.pc].op.off, b[c.pc].op.size).None?
    ensures Settles(b, env, m, Crash)
  {
    hide LoadMem;
    var c := RunLocal(b, env, In(0, m), n);
    RunLocalAdd(b, env, In(0, m), n, 1);
    assert RunLocal(b, env, c, 1) == StepLocal(b, env, c.pc, c.m) == Crash;
  }

  lemma NeverCrashes(b: seq<Insn>, env: Env, m: Machine, next: string, hit: string, v: bool)
    requires Decides(b, env, m.pkt, next, hit, v) && Entry(env, m)
    ensures !Settles(b, env, m, Crash)
  {
    hide Settles;
    var m' := DecideStep(b, env, m, next, hit, v);
    if Settles(b, env, m, Crash) { SettlesOnce(b, env, m, Crash, Left(if v then hit else next, m')); }
  }

  /** Built-in blocks are of that kind. */
  lemma BlockLoads(r: Rule, entry: string, next: string, redirect: string, env: Env, m: Machine, n: nat)
    requires RuleOk(r) && Names(entry, next, redirect) && Entry(env, m)
    ensures var b := Code(r, entry, next, redirect); b != [] && AllPlain(b) && Forward(b) && SafeFrom(b, env, 0, m, n)
  {
    hide Code; hide Matches; hide Names; hide Entry; hide WellShaped; hide Decides; hide SafeFrom; hide AllPlain; hide Forward;
    var b := Code(r, entry, next, redirect);
    CodeShaped(r, entry, next, redirect);
    ShapedIsOk(b, entry, next, redirect);
    ShapedStarts(b, entry, next, redirect);
    forall e: Env ensures Decides(b, e, m.pkt, next, redirect, Matches(r, m.pkt)) {
      CodeDecides(r, entry, next, redirect, e, m.pkt);
    }
    LoadsInPacket(b, env, m, next, redirect, Matches(r, m.pkt), n);
  }

  lemma ShapedStarts(b: seq<Insn>, entry: string, next: string, redirect: string)
    requires Shaped(b, entry, next, redirect)
    ensures b != []
  {
  }

  // --------------------------------------------------- the chain in a program

  /** `c` is step s of block k's own run from m0. */
  ghost predicate InBlock(bs: seq<seq<Insn>>, at: nat, env: Env, pkt: seq<u8>, c: Config, k: nat, s: nat, m0: Machine) {
    && c.At? && k < |bs| && bs[k] != [] && Entry(env, m0) && m0.pkt == pkt && c.pc >= at + Offset(bs, k)
    && RunLocal(bs[k], env, In(0, m0), s) == In(c.pc - at - Offset(bs, k), c.m)
  }

  /** A run that entered the chain is in the tails or inside some block. */
  ghost predicate Tracked(bs: seq<seq<Insn>>, at: nat, env: Env, pkt: seq<u8>, c: Config) {
    c.At? ==> c.pc >= at + Offset(bs, |bs|) || exists k: nat, s: nat, m0: Machine :: InBlock(bs, at, env, pkt, c, k, s, m0)
  }

  /** From `e` on the program jumps only to the two tails. */
  predicate TailsFrom(p: seq<Insn>, e: nat) {
    forall i :: e <= i < |p| && Target(p[i].op).Some? ==> Target(p[i].op).value in {"pass", "redirect"}
  }

  lemma TailStep(p: seq<Insn>, env: Env, at: nat, bs: seq<seq<Insn>>, nE: nat, pkt: seq<u8>, pc: nat, m: Machine)
    requires Holding(p, at, bs, nE) && TailsFrom(p, at + Offset(bs, |bs|)) && pc >= at + Offset(bs, |bs|)
    ensures Tracked(bs, at, env, pkt, Step(p, env, pc, m))
  {
    hide Exec; hide Offset; hide Find; hide InBlock; hide Holding; hide Target;
    HoldingTails(p, at, bs, nE);
    if pc < |p| && Exec(env, m, p[pc].op).Goto? { GotoIsTarget(env, m, p[pc].op); }
  }

  lemma BlockStep(p: seq<Insn>, env: Env, at: nat, bs: seq<seq<Insn>>, nE: nat, pkt: seq<u8>, v: seq<bool>,
                  pc: nat, m: Machine, k: nat, s: nat, m0: Machine)
    requires Holding(p, at, bs, nE) && AllDecide(bs, nE, env, pkt, v) && InBlock(bs, at, env, pkt, At(pc, m), k, s, m0)
    ensures Tracked(bs, at, env, pkt, Step(p, env, pc, m))
  {
    hide StepLocal; hide Step; hide Offset; hide Find; hide Holding; hide Decides; hide Placed; hide Linked; hide RunLocal;
    hide Settles; hide Entry; hide NextName; hide HitName; hide EntryName;
    var b, from := bs[k], at + Offset(bs, k);
    HoldingAt(p, at, bs, nE, k);
    RunLocalAdd(b, env, In(0, m0), s, 1);
    StepSeen(p, env, from, b, pc - from, m);
    var c := StepLocal(b, env, pc - from, m);
    OneLocalStep(b, env, pc - from, m);
    if c.In? {
      assert InBlock(bs, at, env, pkt, At(from + c.pc, c.m), k, s + 1, m0);
    } else {
      var hit := HitName(nE, k);
      var m1 := Leaves(b, env, m0, s + 1, c, NextName(nE, |bs|, k), hit, v[k]);
      HoldingTails(p, at, bs, nE);
      HitIsTail(nE, k);
      if !v[k] { Entered(p, at, bs, nE, env, pkt, k, m1); }
    }
  }

  lemma OneLocalStep(b: seq<Insn>, env: Env, pc: nat, m: Machine)
    requires pc < |b|
    ensures RunLocal(b, env, In(pc, m), 1) == StepLocal(b, env, pc, m)
  {
    StepLocalIn(b, env, pc, m);
  }

  /** A deciding block that is done has left for its hit or its next. */
  lemma Leaves(b: seq<Insn>, env: Env, m0: Machine, n: nat, c: Local, next: string, hit: string, v: bool) returns (m1: Machine)
    requires Decides(b, env, m0.pkt, next, hit, v) && Entry(env, m0) && b != []
    requires RunLocal(b, env, In(0, m0), n) == c && !c.In?
    ensures c == Left(if v then hit else next, m1) && Entry(env, m1) && m1.pkt == m0.pkt
  {
    hide Decides; hide RunLocal; hide Entry;
    m1 := DecideStep(b, env, m0, next, hit, v);
    SettlesOnce(b, env, m0, c, Left(if v then hit else next, m1));
  }

  /** Going on puts the program at the start of the next block, or at the pass tail. */
  lemma Entered(p: seq<Insn>, at: nat, bs: seq<seq<Insn>>, nE: nat, env: Env, pkt: seq<u8>, k: nat, m1: Machine)
    requires Holding(p, at, bs, nE) && k < |bs| && Entry(env, m1) && m1.pkt == pkt
    ensures Tracked(bs, at, env, pkt, At(Find(p, NextName(nE, |bs|, k)), m1))
  {
    hide Offset; hide Find; hide Holding; hide Entry; hide NextName;
    NextIsAt(p, at, bs, nE, k);
    if k + 1 < |bs| {
      HoldingAt(p, at, bs, nE, k + 1);
      assert InBlock(bs, at, env, pkt, At(at + Offset(bs, k + 1), m1), k + 1, 0, m1);
    }
  }

  lemma {:induction false} RunTracked(p: seq<Insn>, env: Env, at: nat, bs: seq<seq<Insn>>, nE: nat, pkt: seq<u8>, v: seq<bool>,
                                      c: Config, n: nat)
    requires Holding(p, at, bs, nE) && AllDecide(bs, nE, env, pkt, v) && TailsFrom(p, at + Offset(bs, |bs|))
    requires Tracked(bs, at, env, pkt, c)
    ensures Tracked(bs, at, env, pkt, Run(p, env, c, n))
    decreases n
  {
    hide Step; hide Offset; hide Holding; hide AllDecide; hide TailsFrom; hide InBlock;
    if n > 0 && c.At? {
      if c.pc >= at + Offset(bs, |bs|) {
        TailStep(p, env, at, bs, nE, pkt, c.pc, c.m);
      } else {
        var k: nat, s: nat, m0: Machine :| InBlock(bs, at, env, pkt, c, k, s, m0);
        BlockStep(p, env, at, bs, nE, pkt, v, c.pc, c.m, k, s, m0);
      }
      RunTracked(p, env, at, bs, nE, pkt, v, Step(p, env, c.pc, c.m), n - 1);
    }
  }

  /** Load safety of any chain of plain blocks that decide in every world: at every step
      until the tails, the program executes a plain instruction and, if it is a load, its
      whole range is packet. */
  lemma ChainLoads(p: seq<Insn>, env: Env, at: nat, bs: seq<seq<Insn>>, nE: nat, v: seq<bool>, m: Machine, n: nat)
    requires Holding(p, at, bs, nE) && TailsFrom(p, at + Offset(bs, |bs|)) && Entry(env, m)
    requires forall e: Env :: AllDecide(bs, nE, e, m.pkt, v)
    requires forall k :: 0 <= k < |bs| ==> AllPlain(bs[k])
    ensures var c := Run(p, env, At(at, m), n);
            c.At? && c.pc < at + Offset(bs, |bs|) ==>
              at <= c.pc < |p| && Plain(p[c.pc].op) && SafeLoad(env, c.m, p[c.pc].op) && c.m.pkt == m.pkt
  {
    hide Run; hide Offset; hide Holding; hide AllDecide; hide TailsFrom; hide Entry; hide RunLocal; hide Plain; hide SafeLoad;
    hide InBlock; hide AllPlain;
    assert AllDecide(bs, nE, env, m.pkt, v);
    Started(p, at, bs, nE, env, m);
    RunTracked(p, env, at, bs, nE, m.pkt, v, At(at, m), n);
    var c := Run(p, env, At(at, m), n);
    if c.At? && c.pc < at + Offset(bs, |bs|) {
      var k: nat, s: nat, m0: Machine :| InBlock(bs, at, env, m.pkt, c, k, s, m0);
      BlockIndex(bs, at, env, m.pkt, c, k, s, m0);
      InBlockLoads(p, env, at, bs, nE, m.pkt, v, c, k, s, m0);
    }
  }

  lemma BlockIndex(bs: seq<seq<Insn>>, at: nat, env: Env, pkt: seq<u8>, c: Config, k: nat, s: nat, m0: Machine)
    requires InBlock(bs, at, env, pkt, c, k, s, m0)
    ensures k < |bs|
  {
  }

  /** The same at a known step of a known block. */
  lemma InBlockLoads(p: seq<Insn>, env: Env, at: nat, bs: seq<seq<Insn>>, nE: nat, pkt: seq<u8>, v: seq<bool>, c: Config,
                     k: nat, s: nat, m0: Machine)
    requires Holding(p, at, bs, nE) && InBlock(bs, at, env, pkt, c, k, s, m0) && AllPlain(bs[k])
    requires forall e: Env :: AllDecide(bs, nE, e, pkt, v)
    ensures at <= c.pc < |p| && Plain(p[c.pc].op) && SafeLoad(env, c.m, p[c.pc].op) && c.m.pkt == pkt
  {
    hide Offset; hide Holding; hide AllDecide; hide Entry; hide RunLocal; hide Plain; hide SafeLoad; hide Placed;
    hide NextName; hide HitName; hide EntryName; hide Decides; hide Linked;
    var b, next, hit := bs[k], NextName(nE, |bs|, k), HitName(nE, k);
    HoldingAt(p, at, bs, nE, k);
    assert AllDecide(bs, nE, env, pkt, v);
    AllDecideLength(bs, nE, env, pkt, v);
    forall e: Env ensures Decides(b, e, m0.pkt, next, hit, v[k]) { DecideAt(bs, nE, e, m0.pkt, v, k); }
    LoadsInPacket(b, env, m0, next, hit, v[k], s);
    PlacedOp(p, at + Offset(bs, k), b, c.pc);
    PlainKeeps(b, env, 0, m0, s);
  }

  lemma AllDecideLength(bs: seq<seq<Insn>>, nE: nat, env: Env, pkt: seq<u8>, v: seq<bool>)
    requires AllDecide(bs, nE, env, pkt, v)
    ensures |v| == |bs|
  {
  }

  lemma Started(p: seq<Insn>, at: nat, bs: seq<seq<Insn>>, nE: nat, env: Env, m: Machine)
    requires Holding(p, at, bs, nE) && Entry(env, m)
    ensures Tracked(bs, at, env, m.pkt, At(at, m))
  {
    hide Holding; hide Entry;
    HoldingTails(p, at, bs, nE);
    HoldingAt(p, at, bs, nE, 0);
    assert InBlock(bs, at, env, m.pkt, At(at, m), 0, 0, m);
  }

  lemma DecideAt(bs: seq<seq<Insn>>, nE: nat, env: Env, pkt: seq<u8>, v: seq<bool>, k: nat)
    requires AllDecide(bs, nE, env, pkt, v) && k < |bs|
    ensures Decides(bs[k], env, pkt, NextName(nE, |bs|, k), HitName(nE, k), v[k])
  {
    hide Decides; hide NextName; hide HitName;
  }

  lemma PlacedOp(p: seq<Insn>, from: nat, b: seq<Insn>, pc: nat)
    requires Placed(p, from, b) && from <= pc < from + |b|
    ensures pc < |p| && p[pc] == b[pc - from]
  {
    assert p[from..from + |b|][pc - from] == p[pc];
  }

  /** Plain code writes no memory. */
  lemma {:induction false} PlainKeeps(b: seq<Insn>, env: Env, pc: nat, m: Machine, n: nat)
    requires pc < |b| && AllPlain(b)
    ensures var c := RunLocal(b, env, In(pc, m), n); c.In? ==> c.m.pkt == m.pkt && c.m.stack == m.stack
    decreases n
  {
    hide LoadMem; hide Find; hide AluValue;
    if n > 0 {
      assert Plain(b[pc].op);
      var c := StepLocal(b, env, pc, m);
      if c.In? { PlainKeeps(b, env, c.pc, c.m, n - 1); }
    }
  }

  // ------------------------------------------------------------- rule programs

  lemma AssembledTails(f: seq<Insn>)
    ensures TailsFrom(Assembled(f), 3 + |f|)
  {
    hide TailOk; hide OnlyTails; hide Unlabelled; hide Assembled; hide Around;
    TailsOk();
    AssembledParts(f);
    AroundParts(PROLOGUE, f, REDIRECT_TAIL);
  }

  /** The attached program, on every packet of every length: until the tails it executes
      only arithmetic, jumps and loads, and every one of those loads lies between `data`
      and `data_end`; before the chain it reads its context in three steps. */
  lemma LoadsInBounds(exceptions: seq<Rule>, matches: seq<Rule>, env: Env, m: Machine, n: nat)
    requires Accepted(exceptions, matches) && Booted(env, m)
    ensures var p := Program(exceptions, matches);
            var e := 3 + |Flat(RuleBlocks(exceptions + matches, |exceptions|))|;
            var c := Run(p, env, At(0, m), n);
            c.At? ==> c.pc == n < 3 || c.pc >= e ||
                      (3 <= c.pc < |p| && Plain(p[c.pc].op) && SafeLoad(env, c.m, p[c.pc].op) && c.m.pkt == m.pkt)
  {
    hide Run; hide Flat; hide Booted; hide RulesOk; hide Holding; hide Entry; hide Arrived; hide Decides; hide Plain; hide SafeLoad;
    hide TailsFrom; hide Assembled; hide AllDecide; hide Matches; hide AllPlain; hide Within; hide RedirectAt; hide RuleBlock;
    var p, bs := Program(exceptions, matches), RuleBlocks(exceptions + matches, |exceptions|);
    AssembledParts(Flat(bs));
    var m1 := Prologue(p, env, m);
    if n < 3 {
      PrologueAt(p, env, m, n);
    } else {
      RunAdd(p, env, At(0, m), 3, n - 3);
      RuleChainLoads(exceptions, matches, env, m1, n - 3);
    }
  }

  /** The same from the start of the chain. */
  lemma RuleChainLoads(exceptions: seq<Rule>, matches: seq<Rule>, env: Env, m: Machine, n: nat)
    requires Accepted(exceptions, matches) && Entry(env, m)
    ensures var p := Program(exceptions, matches);
            var e := 3 + |Flat(RuleBlocks(exceptions + matches, |exceptions|))|;
            var c := Run(p, env, At(3, m), n);
            c.At? ==> c.pc >= e || (3 <= c.pc < |p| && Plain(p[c.pc].op) && SafeLoad(env, c.m, p[c.pc].op) && c.m.pkt == m.pkt)
  {
    hide Run; hide Flat; hide RulesOk; hide Holding; hide Entry; hide Decides; hide Plain; hide SafeLoad;
    hide TailsFrom; hide Assembled; hide AllDecide; hide Matches; hide AllPlain; hide RuleBlock; hide Forward;
    var p, all, nE := Program(exceptions, matches), exceptions + matches, |exceptions|;
    var bs, v := RuleBlocks(all, nE), Verdicts(all, m.pkt);
    RuleProgramsLink(exceptions, matches);
    AssembledTails(Flat(bs));
    FlatLength(bs);
    RulesDecide(all, nE, m.pkt);
    RulesPlain(all, nE);
    ChainLoads(p, env, 3, bs, nE, v, m, n);
  }

  lemma PrologueAt(p: seq<Insn>, env: Env, m: Machine, n: nat)
    requires Booted(env, m) && |p| > 3 && p[0] == PROLOGUE[0] && p[1] == PROLOGUE[1] && p[2] == PROLOGUE[2] && n < 3
    ensures Run(p, env, At(0, m), n).At? && Run(p, env, At(0, m), n).pc == n
  {
    hide Le;
    OneStep(p, env, 0, m, 0);
    OneStep(p, env, 0, m, 1);
    if n == 2 {
      var c := Step(p, env, 0, m);
      OneStep(p, env, 1, c.m, 0);
    }
  }

  lemma RulesDecide(all: seq<Rule>, nE: nat, pkt: seq<u8>)
    requires RulesOk(all) && nE < |all|
    ensures forall e: Env :: AllDecide(RuleBlocks(all, nE), nE, e, pkt, Verdicts(all, pkt))
  {
    hide Decides; hide Matches; hide NextName; hide HitName; hide RuleBlock; hide RulesOk;
    var bs, v := RuleBlocks(all, nE), Verdicts(all, pkt);
    forall e: Env ensures AllDecide(bs, nE, e, pkt, v) {
      forall k | 0 <= k < |bs| ensures Decides(bs[k], e, pkt, NextName(nE, |bs|, k), HitName(nE, k), v[k]) {
        RuleBlockDecides(all, nE, k, e, pkt);
      }
    }
  }

  lemma RulesPlain(all: seq<Rule>, nE: nat)
    requires RulesOk(all)
    ensures forall k :: 0 <= k < |all| ==> AllPlain(RuleBlocks(all, nE)[k]) && Forward(RuleBlocks(all, nE)[k])
  {
    hide RuleBlock; hide AllPlain; hide Forward; hide WellShaped; hide RulesOk;
    forall k | 0 <= k < |all| ensures AllPlain(RuleBlocks(all, nE)[k]) && Forward(RuleBlocks(all, nE)[k]) {
      RuleBlockShaped(all, nE, k);
      ShapedIsOk(RuleBlock(all, nE, k), EntryName(nE, k), NextName(nE, |all|, k), HitName(nE, k));
    }
  }

  // ------------------------------------------------------------ backward jumps

  /** A jump inside a shaped forward-only block goes forward in the program. */
  lemma ChainJumpsForward(p: seq<Insn>, at: nat, bs: seq<seq<Insn>>, nE: nat, k: nat, j: nat)
    requires Holding(p, at, bs, nE) && AllShaped(bs, nE) && k < |bs| && Forward(bs[k])
    requires j < |bs[k]| && Target(bs[k][j].op).Some?
    ensures at + Offset(bs, k) + j < Find(p, Target(bs[k][j].op).value)
  {
    hide Find; hide AllShaped; hide Offset; hide Holding; hide NextName; hide HitName; hide EntryName; hide Stem; hide Placed; hide Unique;
    var b, t := bs[k], Target(bs[k][j].op).value;
    ShapedAt(bs, nE, k);
    HoldingTails(p, at, bs, nE);
    HoldingAt(p, at, bs, nE, k);
    OffsetStep(bs, k);
    if t == NextName(nE, |bs|, k) {
      NextIsAt(p, at, bs, nE, k);
    } else if t == HitName(nE, k) {
      HitIsTail(nE, k);
      OffsetMonotone(bs, k + 1, |bs|);
    } else {
      FindInBlock(p, at + Offset(bs, k), b, t);
    }
  }

  lemma OffsetStep(bs: seq<seq<Insn>>, k: nat)
    requires k < |bs|
    ensures Offset(bs, k + 1) == Offset(bs, k) + |bs[k]|
  {
  }

  /** The assembled program's only backward jumps are the redirect tail's two, to "pass". */
  lemma OnlyTheTailGoesBack(bs: seq<seq<Insn>>, nE: nat, i: nat)
    requires AllShaped(bs, nE) && nE < |bs| && forall k :: 0 <= k < |bs| ==> Forward(bs[k])
    requires i < |Assembled(Flat(bs))| && Target(Assembled(Flat(bs))[i].op).Some?
    ensures var p, e := Assembled(Flat(bs)), 3 + |Flat(bs)|;
            var t := Target(p[i].op).value;
            && Labelled(p, t)
            && (Find(p, t) <= i <==> i == e + 7 || i == e + 9)
            && (Find(p, t) <= i ==> t == "pass")
  {
    hide Find; hide AllShaped; hide Offset; hide Holding; hide Flat; hide Forward; hide Assembled;
    var p, e := Assembled(Flat(bs)), 3 + |Flat(bs)|;
    BothLink(bs, nE);
    AssembledParts(Flat(bs));
    HoldingTails(p, 3, bs, nE);
    FlatLength(bs);
    HoldingResolved(p, 3, bs, nE, i);
    if 3 <= i < e {
      AssembledChain(p, bs, i);
      var k, j := FlatIndex(bs, i - 3);
      ChainJumpsForward(p, 3, bs, nE, k, j);
    } else if i < 3 {
      PrologueTargets(p, i);
    } else {
      TailTargets(p, e, i);
    }
  }

  /** And so of every filter of library matches. */
  lemma RuleProgramJumps(exceptions: seq<Rule>, matches: seq<Rule>, i: nat)
    requires RulesOk(exceptions + matches) && matches != []
    requires i < |Program(exceptions, matches)| && Target(Program(exceptions, matches)[i].op).Some?
    ensures var p, e := Program(exceptions, matches), 3 + |Flat(RuleBlocks(exceptions + matches, |exceptions|))|;
            var t := Target(p[i].op).value;
            Labelled(p, t) && (Find(p, t) <= i <==> i == e + 7 || i == e + 9) && (Find(p, t) <= i ==> t == "pass")
  {
    hide Find; hide AllShaped; hide Flat; hide Forward; hide Assembled; hide AllPlain; hide RulesOk; hide RuleBlock;
    RulesShaped(exceptions + matches, |exceptions|);
    RulesPlain(exceptions + matches, |exceptions|);
    OnlyTheTailGoesBack(RuleBlocks(exceptions + matches, |exceptions|), |exceptions|, i);
  }

  lemma HoldingResolved(p: seq<Insn>, at: nat, bs: seq<seq<Insn>>, nE: nat, i: nat)
    requires Holding(p, at, bs, nE) && i < |p| && Target(p[i].op).Some?
    ensures Labelled(p, Target(p[i].op).value)
  {
    hide Find; hide Placed; hide Offset; hide EntryName;
  }

  lemma AssembledChain(p: seq<Insn>, bs: seq<seq<Insn>>, i: nat)
    requires p == Assembled(Flat(bs)) && 3 <= i < 3 + |Flat(bs)|
    ensures i < |p| && p[i] == Flat(bs)[i - 3]
  {
    hide Flat;
  }

  lemma PrologueTargets(p: seq<Insn>, i: nat)
    requires |p| > 3 && p[0] == PROLOGUE[0] && p[1] == PROLOGUE[1] && p[2] == PROLOGUE[2] && i < 3
    ensures Target(p[i].op).None?
  {
  }

  /** The tails' jumps. */
  lemma TailTargets(p: seq<Insn>, e: nat, i: nat)
    requires e <= i < |p| && |p| == e + 15 && RedirectAt(p, e + 2)
    requires p[e].op == Alu(Mov, R0, Imm(2)) && p[e + 1].op == Exit
    ensures if i == e + 7 || i == e + 9 then Target(p[i].op) == Some("pass") else Target(p[i].op).None?
  {
  }
}
