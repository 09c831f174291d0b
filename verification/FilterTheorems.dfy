/** The main results about assembled filters. */
module FilterTheorems {
  import opened Ebpf
  import opened Wire
  import opened Builders
  import opened Fragments
  import opened Refinement
  import opened Classifier
  import opened Linking
  import opened Chain
  import opened Filter

  ghost predicate Reaches(p: seq<Insn>, env: Env, c: Config, sym: string) {
    exists n: nat, m: Machine :: Run(p, env, c, n) == At(Find(p, sym), m)
  }

  ghost predicate Returns(p: seq<Insn>, env: Env, c: Config, action: u64) {
    exists n: nat :: Run(p, env, c, n) == Done(action)
  }

  /** A run returns at most one action. */
  lemma ReturnsOnce(p: seq<Insn>, env: Env, c: Config, a: u64, b: u64)
    requires Returns(p, env, c, a) && Returns(p, env, c, b)
    ensures a == b
  {
    var i: nat :| Run(p, env, c, i) == Done(a);
    var j: nat :| Run(p, env, c, j) == Done(b);
    if i <= j { RunAdd(p, env, c, i, j - i); } else { RunAdd(p, env, c, j, i - j); }
  }

  lemma ReturnsAfter(p: seq<Insn>, env: Env, c: Config, k: nat, n: nat, a: u64)
    requires Run(p, env, Run(p, env, c, k), n) == Done(a)
    ensures Returns(p, env, c, a)
  {
    RunAdd(p, env, c, k, n);
    assert Run(p, env, c, k + n) == Done(a);
  }

  /** A run that stays in [lo, e) until it stands at the pass tail never sees e + 2. */
  lemma NeverBeyond(p: seq<Insn>, env: Env, c: Config, k: nat, e: nat, m: Machine, n: nat)
    requires Within(p, env, c, k, 0, e) && Run(p, env, c, k) == At(e, m)
    requires e + 1 < |p| && p[e].op == Alu(Mov, R0, Imm(2)) && p[e + 1].op == Exit
    ensures Run(p, env, c, n).At? ==> Run(p, env, c, n).pc != e + 2
  {
    hide Run; hide Within;
    if n < k {
      WithinAt(p, env, c, k, 0, e, n);
    } else {
      RunAdd(p, env, c, k, n - k);
      InPassTail(p, env, e, m, n - k);
    }
  }

  lemma WithinAt(p: seq<Insn>, env: Env, c: Config, n: nat, lo: nat, hi: nat, j: nat)
    requires Within(p, env, c, n, lo, hi) && j < n
    ensures Run(p, env, c, j).At? && lo <= Run(p, env, c, j).pc < hi
  {
    hide Run;
  }

  /** The pass tail is two steps long. */
  lemma InPassTail(p: seq<Insn>, env: Env, e: nat, m: Machine, n: nat)
    requires e + 1 < |p| && p[e].op == Alu(Mov, R0, Imm(2)) && p[e + 1].op == Exit
    ensures Run(p, env, At(e, m), n).At? ==> Run(p, env, At(e, m), n).pc < e + 2
  {
    hide Run;
    PassTail(p, env, e, m);
    if n == 0 {
      RunZero(p, env, At(e, m), 0, 0);
    } else if n > 1 {
      RunAdd(p, env, At(e, m), 2, n - 2);
      DoneStays(p, env, XDP_PASS, n - 2);
    }
  }

  lemma DoneStays(p: seq<Insn>, env: Env, a: u64, n: nat)
    ensures Run(p, env, Done(a), n) == Done(a)
  {
  }

  /** From the first instruction to the tail the chain ends at. */
  lemma ToTail(bs: seq<seq<Insn>>, nE: nat, env: Env, m0: Machine, m: Machine, hit: bool, m': Machine) returns (k: nat)
    requires var p := Assembled(Flat(bs));
             Holding(p, 3, bs, nE) && Run(p, env, At(0, m0), 3) == At(3, m) && Within(p, env, At(0, m0), 3, 0, 3)
    requires Ends(bs, nE, env, 0, m, hit, m')
    ensures var p, e := Assembled(Flat(bs)), 3 + |Flat(bs)|;
            && Find(p, "pass") == e && Find(p, "redirect") == e + 2
            && Within(p, env, At(0, m0), k, 0, e)
            && Run(p, env, At(0, m0), k) == At(if hit then e + 2 else e, m')
  {
    hide Run; hide Find; hide Holding; hide Ends; hide Flat; hide Within; hide Assembled;
    var p := Assembled(Flat(bs));
    var e := 3 + |Flat(bs)|;
    FlatLength(bs);
    HoldingTails(p, 3, bs, nE);
    assert Offset(bs, 0) == 0;
    WithinWiden(p, env, At(0, m0), 3, 0, 3, 0, e);
    var n := ChainInProgram(p, env, 3, bs, nE, 0, m, hit, m');
    WithinWiden(p, env, At(3, m), n, 3, e, 0, e);
    WithinAdd(p, env, At(0, m0), 3, n, 0, e);
    RunAdd(p, env, At(0, m0), 3, n);
    k := 3 + n;
  }

  /** A chain of arbitrary blocks in the real program: it redirects iff the chain
      ends with a hit, and otherwise the kernel stack gets the packet. */
  lemma VerdictOfChain(bs: seq<seq<Insn>>, nE: nat, env: Env, m0: Machine, m: Machine, hit: bool, m': Machine)
    requires var p := Assembled(Flat(bs));
             Holding(p, 3, bs, nE) && Run(p, env, At(0, m0), 3) == At(3, m) && Within(p, env, At(0, m0), 3, 0, 3)
    requires Booted(env, m0) && Ends(bs, nE, env, 0, m, hit, m') && Arrived(env, m0, m')
    ensures var p := Assembled(Flat(bs));
            && (Reaches(p, env, At(0, m0), "redirect") <==> hit)
            && Returns(p, env, At(0, m0), if hit then QueueAction(env) else XDP_PASS)
  {
    hide Run; hide Find; hide Holding; hide Ends; hide Flat; hide Within; hide Booted; hide Arrived; hide Assembled;
    var p := Assembled(Flat(bs));
    var e := 3 + |Flat(bs)|;
    AssembledParts(Flat(bs));
    var k := ToTail(bs, nE, env, m0, m, hit, m');
    if hit {
      var n := RedirectTail(p, env, e + 2, m0, m');
      ReturnsAfter(p, env, At(0, m0), k, n, QueueAction(env));
    } else {
      PassTail(p, env, e, m');
      ReturnsAfter(p, env, At(0, m0), k, 2, XDP_PASS);
      forall n: nat ensures Run(p, env, At(0, m0), n).At? ==> Run(p, env, At(0, m0), n).pc != e + 2 {
        NeverBeyond(p, env, At(0, m0), k, e, m', n);
      }
    }
  }

  lemma AssembledParts(f: seq<Insn>)
    ensures var p := Assembled(f); var e := 3 + |f|;
            && |p| == e + 15 && p == Around(PROLOGUE, f, REDIRECT_TAIL)
            && p[0] == PROLOGUE[0] && p[1] == PROLOGUE[1] && p[2] == PROLOGUE[2]
            && p[e].op == Alu(Mov, R0, Imm(2)) && p[e + 1].op == Exit && RedirectAt(p, e + 2)
  {
    hide TailOk; hide OnlyTails; hide Unlabelled; hide RedirectAt; hide Placed;
    TailsOk();
    AroundParts(PROLOGUE, f, REDIRECT_TAIL);
    TailIsAt(PROLOGUE + f + PASS_TAIL);
  }

  lemma TailIsAt(a: seq<Insn>)
    ensures RedirectAt(a + REDIRECT_TAIL, |a|)
  {
    var p, e, t := a + REDIRECT_TAIL, |a|, REDIRECT_TAIL;
    assert p[e] == t[0] && p[e + 1] == t[1] && p[e + 2] == t[2] && p[e + 3] == t[3] && p[e + 4] == t[4];
    assert p[e + 5] == t[5] && p[e + 6] == t[6] && p[e + 7] == t[7] && p[e + 8] == t[8];
    assert p[e + 9] == t[9] && p[e + 10] == t[10] && p[e + 11] == t[11] && p[e + 12] == t[12];
  }

  // ------------------------------------------------------------- test harness

  lemma HarnessParts(f: seq<Insn>)
    ensures var p := HarnessOf(f); var e := 6 + |f|;
            && |p| == e + 4 && p == Around(PROLOGUE + HARNESS_EDGES, f, TX_TAIL)
            && p[0] == PROLOGUE[0] && p[1] == PROLOGUE[1] && p[2] == PROLOGUE[2]
            && p[3] == HARNESS_EDGES[0] && p[4] == HARNESS_EDGES[1] && p[5] == HARNESS_EDGES[2]
            && p[e].op == Alu(Mov, R0, Imm(2)) && p[e + 1].op == Exit
            && p[e + 2].op == Alu(Mov, R0, Imm(3)) && p[e + 3].op == Exit
  {
  }

  /** The harness's two extra edges are not taken; only R0 differs at the chain. */
  lemma HarnessStart(p: seq<Insn>, env: Env, m: Machine) returns (m': Machine)
    requires Booted(env, m) && |p| > 6 && p[0] == PROLOGUE[0] && p[1] == PROLOGUE[1] && p[2] == PROLOGUE[2]
    requires p[3] == HARNESS_EDGES[0] && p[4] == HARNESS_EDGES[1] && p[5] == HARNESS_EDGES[2]
    ensures Run(p, env, At(0, m), 6) == At(6, m')
    ensures Entry(env, m') && Arrived(env, m, m') && m'.pkt == m.pkt
  {
    hide Run;
    var m3 := Prologue(p, env, m);
    m' := Set(m3, R0, 1);
    assert Step(p, env, 3, m3) == At(4, m');
    assert Step(p, env, 4, m') == At(5, m');
    assert Step(p, env, 5, m') == At(6, m');
    OneStep(p, env, 5, m', 0);
    OneStep(p, env, 4, m', 1);
    OneStep(p, env, 3, m3, 2);
    RunAdd(p, env, At(0, m), 3, 3);
  }

  /** The harness program returns its sentinel iff the chain ends with a hit. */
  lemma HarnessVerdict(bs: seq<seq<Insn>>, nE: nat, env: Env, m0: Machine, m: Machine, hit: bool, m': Machine)
    requires var p := HarnessOf(Flat(bs));
             Holding(p, 6, bs, nE) && Run(p, env, At(0, m0), 6) == At(6, m)
    requires Ends(bs, nE, env, 0, m, hit, m')
    ensures Returns(HarnessOf(Flat(bs)), env, At(0, m0), if hit then XDP_TX else XDP_PASS)
  {
    hide Run; hide Find; hide Holding; hide Ends; hide Flat; hide Within; hide Booted;
    var p := HarnessOf(Flat(bs));
    var e := 6 + |Flat(bs)|;
    HarnessParts(Flat(bs));
    FlatLength(bs);
    HoldingTails(p, 6, bs, nE);
    assert Offset(bs, 0) == 0;
    var k := ChainInProgram(p, env, 6, bs, nE, 0, m, hit, m');
    RunAdd(p, env, At(0, m0), 6, k);
    if hit {
      TxTail(p, env, e + 2, m');
    } else {
      PassTail(p, env, e, m');
    }
    ReturnsAfter(p, env, At(0, m0), 6 + k, 2, if hit then XDP_TX else XDP_PASS);
  }

  lemma TxTail(p: seq<Insn>, env: Env, e: nat, m: Machine)
    requires e + 1 < |p| && p[e].op == Alu(Mov, R0, Imm(3)) && p[e + 1].op == Exit
    ensures Run(p, env, At(e, m), 2) == Done(XDP_TX)
  {
    var m1 := Set(m, R0, 3);
    assert Step(p, env, e, m) == At(e + 1, m1);
    OneStep(p, env, e + 1, m1, 0);
    OneStep(p, env, e, m, 1);
  }

  // ----------------------------------------------------------- rule programs

  /** What a filter promises: no exception holds and some match does. */
  predicate Redirected(exceptions: seq<Rule>, matches: seq<Rule>, pkt: seq<u8>) {
    && (forall i :: 0 <= i < |exceptions| ==> !Matches(exceptions[i], pkt))
    && exists j :: 0 <= j < |matches| && Matches(matches[j], pkt)
  }

  /** Lists of rules Open accepts. */
  predicate Accepted(exceptions: seq<Rule>, matches: seq<Rule>) {
    && RulesOk(exceptions + matches) && matches != []
    && (forall i :: 0 <= i < |exceptions| ==> !exceptions[i].All?)
    && exists j :: 0 <= j < |matches| && !matches[j].Nothing?
  }

  function Program(exceptions: seq<Rule>, matches: seq<Rule>): seq<Insn> {
    Assembled(Flat(RuleBlocks(exceptions + matches, |exceptions|)))
  }

  function Harness(exceptions: seq<Rule>, matches: seq<Rule>): seq<Insn> {
    HarnessOf(Flat(RuleBlocks(exceptions + matches, |exceptions|)))
  }

  function Verdicts(all: seq<Rule>, pkt: seq<u8>): (v: seq<bool>)
    ensures |v| == |all| && forall i :: 0 <= i < |all| ==> v[i] == Matches(all[i], pkt)
  {
    seq(|all|, i requires 0 <= i < |all| => Matches(all[i], pkt))
  }

  lemma VerdictsMeaning(exceptions: seq<Rule>, matches: seq<Rule>, pkt: seq<u8>)
    ensures FirstHit(Verdicts(exceptions + matches, pkt), |exceptions|, 0) <==> Redirected(exceptions, matches, pkt)
  {
    hide Matches; hide FirstHit;
    var v := Verdicts(exceptions + matches, pkt);
    FirstHitMeaning(v, |exceptions|, 0);
    ExceptionVerdicts(exceptions, matches, pkt);
    MatchVerdicts(exceptions, matches, pkt);
  }

  lemma ExceptionVerdicts(exceptions: seq<Rule>, matches: seq<Rule>, pkt: seq<u8>)
    ensures var v := Verdicts(exceptions + matches, pkt);
            (forall i :: 0 <= i < |exceptions| ==> !v[i]) <==> (forall i :: 0 <= i < |exceptions| ==> !Matches(exceptions[i], pkt))
  {
    hide Matches;
    var all := exceptions + matches;
    forall i | 0 <= i < |exceptions| ensures Verdicts(all, pkt)[i] == Matches(exceptions[i], pkt) {
      assert all[i] == exceptions[i];
    }
  }

  lemma MatchVerdicts(exceptions: seq<Rule>, matches: seq<Rule>, pkt: seq<u8>)
    ensures var v := Verdicts(exceptions + matches, pkt);
            (exists j :: 0 <= j < |v| && |exceptions| <= j && v[j]) <==> (exists j :: 0 <= j < |matches| && Matches(matches[j], pkt))
  {
    hide Matches;
    var all, nE := exceptions + matches, |exceptions|;
    var v := Verdicts(all, pkt);
    forall j | 0 <= j < |matches| ensures v[nE + j] == Matches(matches[j], pkt) { assert all[nE + j] == matches[j]; }
    if j :| 0 <= j < |v| && nE <= j && v[j] {
      assert v[nE + (j - nE)] == Matches(matches[j - nE], pkt);
    }
  }

  lemma TailsOk()
    ensures TailOk(REDIRECT_TAIL) && TailOk(TX_TAIL)
    ensures Unlabelled(PROLOGUE) && OnlyTails(PROLOGUE)
    ensures Unlabelled(PROLOGUE + HARNESS_EDGES) && OnlyTails(PROLOGUE + HARNESS_EDGES)
    ensures |PROLOGUE| == 3 && |PROLOGUE + HARNESS_EDGES| == 6
  {
  }

  /** Both programs link and hold the chain. */
  lemma RuleProgramsLink(exceptions: seq<Rule>, matches: seq<Rule>)
    requires RulesOk(exceptions + matches) && matches != []
    ensures var bs, nE := RuleBlocks(exceptions + matches, |exceptions|), |exceptions|;
            Holding(Program(exceptions, matches), 3, bs, nE) && Holding(Harness(exceptions, matches), 6, bs, nE)
  {
    hide Holding; hide RulesOk; hide AllShaped;
    RulesShaped(exceptions + matches, |exceptions|);
    BothLink(RuleBlocks(exceptions + matches, |exceptions|), |exceptions|);
  }

  /** Any shaped chain links in the live program and in the harness. */
  lemma BothLink(bs: seq<seq<Insn>>, nE: nat)
    requires AllShaped(bs, nE) && nE < |bs|
    ensures Holding(Assembled(Flat(bs)), 3, bs, nE) && Holding(HarnessOf(Flat(bs)), 6, bs, nE)
  {
    hide Holding; hide Flat; hide TailOk; hide Unlabelled; hide OnlyTails; hide AllShaped;
    TailsOk();
    ChainLinks(bs, nE, PROLOGUE, REDIRECT_TAIL);
    ChainLinks(bs, nE, PROLOGUE + HARNESS_EDGES, TX_TAIL);
    AssembledParts(Flat(bs));
    HarnessParts(Flat(bs));
  }

  /** From any machine that delimits the packet the rule chain ends as promised. */
  lemma RuleChainEnds(exceptions: seq<Rule>, matches: seq<Rule>, env: Env, m: Machine) returns (m': Machine)
    requires RulesOk(exceptions + matches) && matches != [] && Entry(env, m)
    ensures Kept(m, m')
    ensures Ends(RuleBlocks(exceptions + matches, |exceptions|), |exceptions|, env, 0, m, Redirected(exceptions, matches, m.pkt), m')
  {
    hide Ends; hide RulesOk; hide Redirected; hide Decides; hide Matches; hide Entry; hide Kept;
    var all, nE := exceptions + matches, |exceptions|;
    var bs, v := RuleBlocks(all, nE), Verdicts(all, m.pkt);
    forall k | 0 <= k < |bs| ensures Decides(bs[k], env, m.pkt, NextName(nE, |bs|, k), HitName(nE, k), v[k]) {
      RuleBlockDecides(all, nE, k, env, m.pkt);
    }
    m' := ChainOfDecided(bs, nE, env, m.pkt, v, 0, m);
    VerdictsMeaning(exceptions, matches, m.pkt);
  }

  lemma ArrivedKept(env: Env, m0: Machine, m: Machine, m': Machine)
    requires Arrived(env, m0, m) && Preserved(m, m')
    ensures Arrived(env, m0, m')
  {
  }

  /** Compiler correctness. For every accepted list of exceptions and matches and
      every packet of every length, the program Open attaches links, reaches its
      redirect tail iff no exception holds of the packet and some match does, and
      always halts: with the queue's delivery when redirected, with XDP_PASS when not. */
  lemma FilterCorrect(exceptions: seq<Rule>, matches: seq<Rule>, env: Env, m: Machine)
    requires Accepted(exceptions, matches) && Booted(env, m)
    ensures var p, c := Program(exceptions, matches), At(0, m);
            var hit := Redirected(exceptions, matches, m.pkt);
            && Linked(p)
            && (Reaches(p, env, c, "redirect") <==> hit)
            && Returns(p, env, c, if hit then QueueAction(env) else XDP_PASS)
  {
    hide Redirected; hide Reaches; hide Returns; hide Linked; hide Program; hide QueueAction; hide RuleOk; hide Booted;
    FullProgram(exceptions, matches, env, m);
  }

  /** The full program says the same of lists for which newFilterProgram does not build it. */
  lemma FullProgram(exceptions: seq<Rule>, matches: seq<Rule>, env: Env, m: Machine)
    requires RulesOk(exceptions + matches) && matches != [] && Booted(env, m)
    ensures var p, c := Program(exceptions, matches), At(0, m);
            var hit := Redirected(exceptions, matches, m.pkt);
            && Linked(p)
            && (Reaches(p, env, c, "redirect") <==> hit)
            && Returns(p, env, c, if hit then QueueAction(env) else XDP_PASS)
  {
    hide Ends; hide RulesOk; hide Redirected; hide Run; hide Flat; hide Reaches; hide Returns; hide Kept; hide Linked;
    var p := Program(exceptions, matches);
    var bs := RuleBlocks(exceptions + matches, |exceptions|);
    RuleProgramsLink(exceptions, matches);
    AssembledParts(Flat(bs));
    var m1 := Prologue(p, env, m);
    var m2 := RuleChainEnds(exceptions, matches, env, m1);
    KeptIsPreserved(m1, m2);
    ArrivedKept(env, m, m1, m2);
    VerdictOfChain(bs, |exceptions|, env, m, m1, Redirected(exceptions, matches, m.pkt), m2);
  }

  lemma KeptIsPreserved(m: Machine, m': Machine)
    requires Kept(m, m')
    ensures Preserved(m, m') && m'.pkt == m.pkt
  {
  }

  /** MatchPacket agrees with the live filter: the harness returns its sentinel on
      exactly the packets the attached program redirects, and XDP_PASS on the rest. */
  lemma HarnessAgrees(exceptions: seq<Rule>, matches: seq<Rule>, env: Env, m: Machine)
    requires Accepted(exceptions, matches) && Booted(env, m)
    ensures Linked(Harness(exceptions, matches))
    ensures Returns(Harness(exceptions, matches), env, At(0, m), XDP_TX) <==>
            Reaches(Program(exceptions, matches), env, At(0, m), "redirect")
    ensures Returns(Harness(exceptions, matches), env, At(0, m), XDP_PASS) <==>
            !Reaches(Program(exceptions, matches), env, At(0, m), "redirect")
  {
    hide Ends; hide RulesOk; hide Redirected; hide Run; hide Flat; hide Reaches; hide Returns; hide Kept; hide Linked;
    var p := Harness(exceptions, matches);
    var bs := RuleBlocks(exceptions + matches, |exceptions|);
    FilterCorrect(exceptions, matches, env, m);
    RuleProgramsLink(exceptions, matches);
    HarnessParts(Flat(bs));
    var m1 := HarnessStart(p, env, m);
    var m2 := RuleChainEnds(exceptions, matches, env, m1);
    var hit := Redirected(exceptions, matches, m.pkt);
    HarnessVerdict(bs, |exceptions|, env, m, m1, hit, m2);
    if Returns(p, env, At(0, m), XDP_TX) { ReturnsOnce(p, env, At(0, m), XDP_TX, if hit then XDP_TX else XDP_PASS); }
    if Returns(p, env, At(0, m), XDP_PASS) { ReturnsOnce(p, env, At(0, m), XDP_PASS, if hit then XDP_TX else XDP_PASS); }
  }

  // ------------------------------------------------- what newFilterProgram builds

  /** Every flow stays inside one address family. */
  predicate OneFamily(rs: seq<Rule>) {
    forall i :: 0 <= i < |rs| && rs[i].FlowBetween? ==> |rs[i].src.addr| == |rs[i].dst.addr|
  }

  /** A library builder fails only for a flow between two address families, whatever the
      protocol, ports and addresses of the rule; MatchAll alone is refused as an exception
      and MatchNone alone is not worth a full program. */
  lemma BuiltExactly(rs: seq<Rule>)
    ensures forall i :: 0 <= i < |rs| ==>
              var m := FromRules(rs)[i];
              && m.build.Some? && m.catchAll == rs[i].All? && m.passOnly == rs[i].Nothing?
              && (m.bad <==> rs[i].FlowBetween? && |rs[i].src.addr| != |rs[i].dst.addr|)
    ensures RulesOk(rs) <==> OneFamily(rs)
  {
    hide Code;
  }

  /** On lists of library matches newFilterProgram builds its full program exactly when no
      exception is MatchAll, some match is not MatchNone, and no flow mixes the address
      families; what it builds is then Program, which the theorems are about. */
  lemma FilterBuilds(exceptions: seq<Rule>, matches: seq<Rule>)
    ensures var es, ms, all := FromRules(exceptions), FromRules(matches), exceptions + matches;
            && (AnyRedirect(ms) <==> exists j :: 0 <= j < |matches| && !matches[j].Nothing?)
            && (Valid(es, ms) <==>
                && (forall i :: 0 <= i < |exceptions| ==> !exceptions[i].All?)
                && forall i :: 0 <= i < |all| && all[i].FlowBetween? ==> |all[i].src.addr| == |all[i].dst.addr|)
            && (Valid(es, ms) ==> Blocks(es + ms, |es|, 0) == Ok(RuleBlocks(all, |exceptions|)))
            && (Accepted(exceptions, matches) <==> AnyRedirect(ms) && Valid(es, ms))
  {
    hide Blocks; hide RuleOk; hide Code; hide FromRule;
    var all, nE := exceptions + matches, |exceptions|;
    var es, ms := FromRules(exceptions), FromRules(matches);
    BuiltExactly(exceptions);
    BuiltExactly(matches);
    BuiltExactly(all);
    assert es + ms == FromRules(all);
    if RulesOk(all) {
      BlocksOfRules(all, nE, 0);
      assert RuleBlocks(all, nE)[0..] == RuleBlocks(all, nE);
    }
  }

  /** With nothing to redirect the two entry points do not accept the same lists: whatever
      the exceptions, newFilterProgram returns the pass-only program unvalidated (see its
      contract), while matchPacket validates and builds exactly when no exception is MatchAll
      or a flow between two address families. */
  lemma PassOnlyAccepts(exceptions: seq<Rule>, matches: seq<Rule>)
    requires forall j :: 0 <= j < |matches| ==> matches[j].Nothing?
    ensures var es, ms := FromRules(exceptions), FromRules(matches);
            && !AnyRedirect(ms)
            && (Valid(es, ms) <==>
                forall i :: 0 <= i < |exceptions| ==>
                  && !exceptions[i].All?
                  && (exceptions[i].FlowBetween? ==> |exceptions[i].src.addr| == |exceptions[i].dst.addr|))
            && (Valid(es, ms) ==> Blocks(es + ms, |es|, 0) == Ok(RuleBlocks(exceptions + matches, |exceptions|)))
  {
    hide Blocks; hide Code; hide FromRule; hide Valid;
    var all := exceptions + matches;
    FilterBuilds(exceptions, matches);
    forall i | 0 <= i < |exceptions| ensures all[i] == exceptions[i] {}
    forall j | 0 <= j < |matches| ensures all[|exceptions| + j] == matches[j] {}
    forall i | |exceptions| <= i < |all| ensures all[i].Nothing? { assert all[i] == matches[i - |exceptions|]; }
  }

  /** On lists both accept they agree: the rules promise to redirect nothing, and the
      pass-only program, the full program it stands for, and the harness all pass. */
  lemma PassOnlyAgrees(exceptions: seq<Rule>, matches: seq<Rule>, env: Env, m: Machine)
    requires RulesOk(exceptions + matches) && matches != [] && Booted(env, m)
    requires forall j :: 0 <= j < |matches| ==> matches[j].Nothing?
    ensures !Redirected(exceptions, matches, m.pkt)
    ensures Returns(PASS_ONLY, env, At(0, m), XDP_PASS)
    ensures Returns(Program(exceptions, matches), env, At(0, m), XDP_PASS)
            && !Reaches(Program(exceptions, matches), env, At(0, m), "redirect")
    ensures Returns(Harness(exceptions, matches), env, At(0, m), XDP_PASS)
  {
    NothingRedirected(exceptions, matches, m.pkt);
    PassOnlyRuns(env, m);
    FullProgram(exceptions, matches, env, m);
    PassOnlyHarness(exceptions, matches, env, m);
  }

  lemma NothingRedirected(exceptions: seq<Rule>, matches: seq<Rule>, pkt: seq<u8>)
    requires forall j :: 0 <= j < |matches| ==> matches[j].Nothing?
    ensures !Redirected(exceptions, matches, pkt)
  {
  }

  lemma PassOnlyRuns(env: Env, m: Machine)
    ensures Returns(PASS_ONLY, env, At(0, m), XDP_PASS)
  {
    PassTail(PASS_ONLY, env, 0, m);
  }

  lemma PassOnlyHarness(exceptions: seq<Rule>, matches: seq<Rule>, env: Env, m: Machine)
    requires RulesOk(exceptions + matches) && matches != [] && Booted(env, m) && !Redirected(exceptions, matches, m.pkt)
    ensures Returns(Harness(exceptions, matches), env, At(0, m), XDP_PASS)
  {
    hide Ends; hide RulesOk; hide Run; hide Flat; hide Kept; hide Linked; hide Booted; hide Redirected;
    var p := Harness(exceptions, matches);
    var bs := RuleBlocks(exceptions + matches, |exceptions|);
    RuleProgramsLink(exceptions, matches);
    HarnessParts(Flat(bs));
    var m1 := HarnessStart(p, env, m);
    var m2 := RuleChainEnds(exceptions, matches, env, m1);
    HarnessVerdict(bs, |exceptions|, env, m, m1, false, m2);
  }

  // ---------------------------------------------------------- VLAN transparency

  /** The frame with an 802.1Q tag, any tag control information, after the MACs. */
  function Tagged(pkt: seq<u8>, tci0: u8, tci1: u8): seq<u8>
    requires |pkt| >= 12
  {
    pkt[..12] + [0x81, 0x00, tci0, tci1] + pkt[12..]
  }

  lemma TagIsInvisible(pkt: seq<u8>, tci0: u8, tci1: u8)
    requires |pkt| >= 14 && Be16(pkt, 12) != ETH_VLAN
    ensures Inner(Tagged(pkt, tci0, tci1)) == Inner(pkt)
  {
    var g := Tagged(pkt, tci0, tci1);
    assert g[..12] + g[16..] == pkt;
  }

  /** Inserting a tag into an untagged frame never changes what the attached
      program does with it, wherever the kernel puts the two frames. */
  lemma VlanTransparent(exceptions: seq<Rule>, matches: seq<Rule>, env: Env, m: Machine, env': Env, m': Machine,
                        tci0: u8, tci1: u8)
    requires Accepted(exceptions, matches) && Booted(env, m) && Booted(env', m')
    requires |m.pkt| >= 14 && Be16(m.pkt, 12) != ETH_VLAN && m'.pkt == Tagged(m.pkt, tci0, tci1)
    ensures var p := Program(exceptions, matches);
            Reaches(p, env, At(0, m), "redirect") <==> Reaches(p, env', At(0, m'), "redirect")
  {
    hide Run; hide Reaches; hide Program; hide Booted; hide HoldsOn; hide Returns; hide Linked;
    FilterCorrect(exceptions, matches, env, m);
    FilterCorrect(exceptions, matches, env', m');
    TagIsInvisible(m.pkt, tci0, tci1);
  }

  /** MatchFlow(s, d) takes exactly the packets MatchSrcIP(s) and MatchDstIP(d) both take. */
  lemma FlowIsBoth(s: Prefix, d: Prefix, env: Env, m: Machine)
    requires s.Is4() == d.Is4() && Booted(env, m)
    ensures Reaches(Program([], [FlowBetween(s, d)]), env, At(0, m), "redirect") <==>
            (Reaches(Program([], [SrcIp(s)]), env, At(0, m), "redirect") &&
             Reaches(Program([], [DstIp(d)]), env, At(0, m), "redirect"))
  {
    hide Run; hide Reaches; hide Program; hide Booted; hide InPrefix; hide Returns; hide Linked;
    One(FlowBetween(s, d), env, m);
    One(SrcIp(s), env, m);
    One(DstIp(d), env, m);
  }

  /** The filter of one rule. */
  lemma One(r: Rule, env: Env, m: Machine)
    requires RuleOk(r) && !r.Nothing? && Booted(env, m)
    ensures Reaches(Program([], [r]), env, At(0, m), "redirect") <==> Matches(r, m.pkt)
    ensures Returns(Program([], [r]), env, At(0, m), if Matches(r, m.pkt) then QueueAction(env) else XDP_PASS)
  {
    hide Run; hide Reaches; hide Program; hide Booted; hide Matches; hide Returns; hide Linked; hide QueueAction;
    var exceptions: seq<Rule> := [];
    assert [r][0] == r;
    assert exceptions + [r] == [r];
    FilterCorrect(exceptions, [r], env, m);
  }
}
