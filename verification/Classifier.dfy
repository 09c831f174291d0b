/** Matches, the register-contract check, the classification chain and the XDP
    program built around it (filter.go, match.go). */
module Classifier {
  import opened Common
  import opened Ebpf
  import opened Wire
  import opened Builders
  import opened Refinement

  // ------------------------------------------------------------------ matches

  /** A build function: entry, next, redirect -> instructions, or a failure. */
  type Builder = (string, string, string) -> Option<seq<Insn>>

  /** A Match: its build function (nil in a zero Match), whether construction
      failed, and the two markers the assembler looks at. */
  datatype Match = Match(build: Option<Builder>, bad: bool, catchAll: bool, passOnly: bool)

  /** The Match a library builder returns for a rule. */
  function FromRule(r: Rule): Match {
    Match(Some((entry, next, redirect) => Some(Code(r, entry, next, redirect))), !RuleOk(r), r.All?, r.Nothing?)
  }

  function FromRules(rs: seq<Rule>): (ms: seq<Match>)
    ensures |ms| == |rs| && forall i :: 0 <= i < |rs| ==> ms[i] == FromRule(rs[i])
  {
    seq(|rs|, i requires 0 <= i < |rs| => FromRule(rs[i]))
  }

  // --------------------------------------------------- the register contract

  datatype Why = RefersToR8 | WritesR6 | WritesR7 | ReturnsAction

  function DstOf(op: Op): Option<Reg> {
    match op
    case Alu(_, dst, _) => Some(dst)
    case Load(dst, _, _, _) => Some(dst)
    case LoadMapPtr(dst, _) => Some(dst)
    case Store(dst, _, _, _) => Some(dst)
    case Branch(_, _, dst, _, _) => Some(dst)
    case _ => None
  }

  function SrcOf(op: Op): Option<Reg> {
    match op
    case Alu(_, _, Src(r)) => Some(r)
    case Load(_, r, _, _) => Some(r)
    case Store(_, _, Src(r), _) => Some(r)
    case Branch(_, _, _, Src(r), _) => Some(r)
    case _ => None
  }

  /** ALU and load instructions write their destination; jumps and stores read it. */
  predicate WritesDst(op: Op) { op.Alu? || op.Load? || op.LoadMapPtr? }

  function Violation(op: Op): Option<Why> {
    if DstOf(op) == Some(R8) || SrcOf(op) == Some(R8) then Some(RefersToR8)
    else if DstOf(op) == Some(R6) && WritesDst(op) then Some(WritesR6)
    else if DstOf(op) == Some(R7) && WritesDst(op) then Some(WritesR7)
    else if op.Exit? then Some(ReturnsAction)
    else None
  }

  predicate ContractOk(ins: seq<Insn>) {
    forall i :: 0 <= i < |ins| ==> Violation(ins[i].op).None?
  }

  /** The instruction names the register, as destination or source. */
  predicate Mentions(op: Op, r: Reg) {
    match op
    case Alu(_, dst, arg) => dst == r || arg == Src(r)
    case Load(dst, src, _, _) => dst == r || src == r
    case LoadMapPtr(dst, _) => dst == r
    case Store(base, _, arg, _) => base == r || arg == Src(r)
    case Branch(_, _, lhs, arg, _) => lhs == r || arg == Src(r)
    case _ => false
  }

  /** It may change the register. */
  predicate MaySet(op: Op, r: Reg) {
    match op
    case Alu(_, dst, _) => dst == r
    case Load(dst, _, _, _) => dst == r
    case LoadMapPtr(dst, _) => dst == r
    case _ => false
  }

  /** What a match block may not contain: any mention of R8, a write to R6 or R7, a return;
      and nothing else is held against it. */
  lemma ContractExactly(ins: seq<Insn>)
    ensures ContractOk(ins) <==> forall i :: 0 <= i < |ins| ==>
              var op := ins[i].op; !Mentions(op, R8) && !MaySet(op, R6) && !MaySet(op, R7) && !op.Exit?
  {
    forall i | 0 <= i < |ins|
      ensures var op := ins[i].op; Violation(op).None? <==> !Mentions(op, R8) && !MaySet(op, R6) && !MaySet(op, R7) && !op.Exit?
    {
    }
  }

  /** checkBlock: report the first offending instruction. */
  method CheckBlock(ins: seq<Insn>) returns (bad: Option<(nat, Why)>)
    ensures bad.None? <==> ContractOk(ins)
    ensures bad.Some? ==> bad.value.0 < |ins| && Violation(ins[bad.value.0].op) == Some(bad.value.1)
                          && ContractOk(ins[..bad.value.0])
  {
    for i := 0 to |ins|
      invariant ContractOk(ins[..i])
    {
      var v := Violation(ins[i].op);
      if v.Some? {
        return Some((i, v.value));
      }
    }
    return None;
  }

  // ------------------------------------------------------------ custom blocks

  predicate Terminates(ins: seq<Insn>) { ins != [] && ins[|ins| - 1].op.Ja? }

  /** Fall-through made explicit. */
  function Closed(user: seq<Insn>, next: string): (b: seq<Insn>)
    ensures b != []
  {
    if Terminates(user) then user else user + [I(Ja(next))]
  }

  /** Room for another label on the first instruction. */
  function Opened(ins: seq<Insn>): (b: seq<Insn>)
    requires ins != []
    ensures b != []
  {
    if ins[0].symbol != "" then [I(Alu(Mov, R0, Imm(0)))] + ins else ins
  }

  /** What NewMatch does to the instructions a custom builder returned: make
      fall-through explicit, and label the first instruction without losing a
      label the builder put there. */
  function Wrapped(user: seq<Insn>, entry: string, next: string): (b: seq<Insn>)
    ensures b != []
  {
    WithEntry(entry, Opened(Closed(user, next)))
  }

  datatype MatchEnv = MatchEnv(next: string, redirect: string, prefix: string) {
    function Label(name: string): string { prefix + "_u_" + name }
    function FrameBase(): (seq<Insn>, Reg) { (L3Base(prefix + "_fb", next), R9) }
    function Bounds(base: Reg, n: i32): seq<Insn> { BoundsFrom(base, n, next) }
  }

  function NewMatch(build: MatchEnv -> Option<seq<Insn>>): Match {
    Match(Some((entry, next, redirect) =>
             match build(MatchEnv(next, redirect, entry))
             case None => None
             case Some(ins) => Some(Wrapped(ins, entry, next))),
          false, false, false)
  }

  // ---------------------------------------------------------------- the chain

  function Digit(d: nat): char requires d < 10 { "0123456789"[d] }

  function Itoa(n: nat): (s: string)
    ensures s != ""
  {
    if n < 10 then [Digit(n)] else Itoa(n / 10) + [Digit(n % 10)]
  }

  /** Entry symbol of the k-th block of a chain with `nE` exceptions. */
  function EntryName(nE: nat, k: nat): string {
    if k < nE then "except" + Itoa(k) else "match" + Itoa(k - nE)
  }

  /** Where the k-th of `n` blocks goes on no match, and on a match. The last exception
      always goes on to "match0", whether or not there is one. */
  function NextName(nE: nat, n: nat, k: nat): string {
    if k + 1 < n || k + 1 == nE then EntryName(nE, k + 1) else "pass"
  }

  function HitName(nE: nat, k: nat): string { if k < nE then "pass" else "redirect" }

  datatype Error = CatchAllException | BadMatch | NoBuild | BuildFailed | ContractBroken | NoMatches | ShortPacket
  datatype Result<+T> = Ok(value: T) | Err(error: Error)

  /** Block k of the chain, or why it cannot be emitted. */
  function Emit(all: seq<Match>, nE: nat, k: nat): Result<seq<Insn>>
    requires k < |all| && all[k].build.Some?
  {
    match all[k].build.value(EntryName(nE, k), NextName(nE, |all|, k), HitName(nE, k))
    case None => Err(BuildFailed)
    case Some(ins) => if ContractOk(ins) then Ok(ins) else Err(ContractBroken)
  }

  predicate Buildable(ms: seq<Match>) { forall i :: 0 <= i < |ms| ==> !ms[i].bad && ms[i].build.Some? }

  predicate Valid(exceptions: seq<Match>, matches: seq<Match>) {
    (forall i :: 0 <= i < |exceptions| ==> !exceptions[i].catchAll) && Buildable(exceptions + matches)
  }

  function Blocks(all: seq<Match>, nE: nat, k: nat): Result<seq<seq<Insn>>>
    requires Buildable(all) && k <= |all|
    decreases |all| - k
  {
    if k == |all| then Ok([]) else
    match Emit(all, nE, k)
    case Err(e) => Err(e)
    case Ok(b) =>
      match Blocks(all, nE, k + 1)
      case Err(e) => Err(e)
      case Ok(rest) => Ok([b] + rest)
  }

  function Flat(bs: seq<seq<Insn>>): seq<Insn> {
    if bs == [] then [] else bs[0] + Flat(bs[1..])
  }

  /** validateMatches: the first reason a list of matches cannot be assembled. */
  method ValidateMatches(exceptions: seq<Match>, matches: seq<Match>) returns (r: Option<Error>)
    ensures r.None? <==> Valid(exceptions, matches)
    ensures r == Some(CatchAllException) <==> exists i :: 0 <= i < |exceptions| && exceptions[i].catchAll
    ensures r.Some? ==> r.value in {CatchAllException, BadMatch, NoBuild}
  {
    for i := 0 to |exceptions|
      invariant forall j :: 0 <= j < i ==> !exceptions[j].catchAll
    {
      if exceptions[i].catchAll { return Some(CatchAllException); }
    }
    var all := exceptions + matches;
    for i := 0 to |all|
      invariant Buildable(all[..i])
    {
      if all[i].bad { return Some(BadMatch); }
      if all[i].build.None? { return Some(NoBuild); }
      assert all[..i + 1] == all[..i] + [all[i]];
    }
    assert all[..|all|] == all;
    return None;
  }

  /** classifierBlocks: the exception blocks, then the match blocks, in order. */
  method ClassifierBlocks(exceptions: seq<Match>, matches: seq<Match>) returns (r: Result<seq<Insn>>)
    ensures !Valid(exceptions, matches) ==> r.Err?
    ensures Valid(exceptions, matches) ==>
              r == match Blocks(exceptions + matches, |exceptions|, 0)
                   case Err(e) => Err(e)
                   case Ok(bs) => Ok(Flat(bs))
  {
    hide Blocks; hide Flat; hide Itoa; hide ContractOk;
    var e := ValidateMatches(exceptions, matches);
    if e.Some? { return Err(e.value); }
    ghost var all, nE := exceptions + matches, |exceptions|;
    var insns := [];
    ChainedEnds(all, nE);
    for i := 0 to |exceptions|
      invariant Chained(all, nE, i, insns)
    {
      var next := "match" + Itoa(0);
      if i + 1 < |exceptions| { next := "except" + Itoa(i + 1); }
      assert exceptions[i] == all[i];
      var b := EmitBlock(exceptions[i], "except" + Itoa(i), next, "pass");
      assert b == Emit(all, nE, i);
      ChainedStep(all, nE, i, insns);
      if b.Err? { return Err(b.error); }
      insns := insns + b.value;
    }
    for i := 0 to |matches|
      invariant Chained(all, nE, nE + i, insns)
    {
      var next := "pass";
      if i + 1 < |matches| { next := "match" + Itoa(i + 1); }
      assert matches[i] == all[nE + i];
      var b := EmitBlock(matches[i], "match" + Itoa(i), next, "redirect");
      assert b == Emit(all, nE, nE + i);
      ChainedStep(all, nE, nE + i, insns);
      if b.Err? { return Err(b.error); }
      insns := insns + b.value;
    }
    assert insns + Flat([]) == insns by { FlatNil(); }
    return Ok(insns);
  }

  /** `insns` is what the first k blocks flatten to, whatever the rest gives. */
  ghost predicate Chained(all: seq<Match>, nE: nat, k: nat, insns: seq<Insn>)
    requires Buildable(all)
  {
    k <= |all| &&
    match (Blocks(all, nE, 0), Blocks(all, nE, k))
    case (Ok(bs), Ok(rest)) => Flat(bs) == insns + Flat(rest)
    case (Err(e), Err(e')) => e == e'
    case _ => false
  }

  lemma ChainedEnds(all: seq<Match>, nE: nat)
    requires Buildable(all)
    ensures Chained(all, nE, 0, [])
    ensures Blocks(all, nE, |all|) == Ok([])
  {
    if Blocks(all, nE, 0).Ok? {
      assert [] + Flat(Blocks(all, nE, 0).value) == Flat(Blocks(all, nE, 0).value);
    }
  }

  lemma FlatNil() ensures Flat([]) == [] {}

  lemma ChainedStep(all: seq<Match>, nE: nat, k: nat, insns: seq<Insn>)
    requires Buildable(all) && k < |all| && Chained(all, nE, k, insns)
    ensures Emit(all, nE, k).Ok? ==> Chained(all, nE, k + 1, insns + Emit(all, nE, k).value)
    ensures Emit(all, nE, k).Err? ==> Blocks(all, nE, 0) == Err(Emit(all, nE, k).error)
  {
    hide Emit;
    if Emit(all, nE, k).Ok? && Blocks(all, nE, k + 1).Ok? {
      var b, rest := Emit(all, nE, k).value, Blocks(all, nE, k + 1).value;
      assert ([b] + rest)[1..] == rest;
      assert insns + (b + Flat(rest)) == (insns + b) + Flat(rest);
    }
  }

  /** classifierBlocks' emit closure. */
  method EmitBlock(m: Match, entry: string, next: string, redirect: string) returns (r: Result<seq<Insn>>)
    requires m.build.Some?
    ensures r == match m.build.value(entry, next, redirect)
                 case None => Err(BuildFailed)
                 case Some(ins) => if ContractOk(ins) then Ok(ins) else Err(ContractBroken)
  {
    var built := m.build.value(entry, next, redirect);
    if built.None? { return Err(BuildFailed); }
    var bad := CheckBlock(built.value);
    if bad.Some? { return Err(ContractBroken); }
    return Ok(built.value);
  }

  // ------------------------------------------------------------- the programs

  const PROLOGUE: seq<Insn> := [
    I(Load(R6, R1, 4, Word)), I(Load(R7, R1, 0, Word)), I(Load(R8, R1, 16, Word))]

  const PASS_TAIL: seq<Insn> := [Insn("pass", Alu(Mov, R0, Imm(2))), I(Exit)]

  const REDIRECT_TAIL: seq<Insn> := [
    Insn("redirect", Store(RFP, -4, Src(R8), Word)),
    I(Alu(Mov, R2, Src(RFP))), I(Alu(Add, R2, Imm(-4))),
    I(LoadMapPtr(R1, QidConf)), I(Call(MapLookup)),
    I(Branch(JEq, true, R0, Imm(0), "pass")),
    I(Load(R1, R0, 0, Word)),
    I(Branch(JEq, true, R1, Imm(0), "pass")),
    I(LoadMapPtr(R1, Xsks)), I(Alu(Mov, R2, Src(R8))), I(Alu(Mov, R3, Imm(0))),
    I(Call(RedirectMap)), I(Exit)]

  const PASS_ONLY: seq<Insn> := [I(Alu(Mov, R0, Imm(2))), I(Exit)]

  /** Two edges never taken, so that both tails stay reachable. */
  const HARNESS_EDGES: seq<Insn> := [
    I(Alu(Mov, R0, Imm(1))), I(Branch(JEq, true, R0, Imm(0), "pass")), I(Branch(JEq, true, R0, Imm(0), "redirect"))]

  const TX_TAIL: seq<Insn> := [Insn("redirect", Alu(Mov, R0, Imm(3))), I(Exit)]

  function Assembled(blocks: seq<Insn>): seq<Insn> { PROLOGUE + blocks + PASS_TAIL + REDIRECT_TAIL }

  function HarnessOf(blocks: seq<Insn>): seq<Insn> {
    PROLOGUE + HARNESS_EDGES + blocks + PASS_TAIL + TX_TAIL
  }

  predicate AnyRedirect(matches: seq<Match>) { exists i :: 0 <= i < |matches| && !matches[i].passOnly }

  /** newFilterProgram, up to loading the result into the kernel. */
  method NewFilterProgram(exceptions: seq<Match>, matches: seq<Match>) returns (r: Result<seq<Insn>>)
    ensures matches == [] ==> r == Err(NoMatches)
    ensures matches != [] && !AnyRedirect(matches) ==> r == Ok(PASS_ONLY)
    ensures matches != [] && AnyRedirect(matches) && !Valid(exceptions, matches) ==> r.Err?
    ensures matches != [] && AnyRedirect(matches) && Valid(exceptions, matches) ==>
              r == match Blocks(exceptions + matches, |exceptions|, 0)
                   case Err(e) => Err(e)
                   case Ok(bs) => Ok(Assembled(Flat(bs)))
  {
    if matches == [] { return Err(NoMatches); }
    var anyRedirect := false;
    for i := 0 to |matches|
      invariant !anyRedirect && forall j :: 0 <= j < i ==> matches[j].passOnly
    {
      if !matches[i].passOnly { anyRedirect := true; break; }
    }
    if !anyRedirect { return Ok(PASS_ONLY); }
    var blocks := ClassifierBlocks(exceptions, matches);
    if blocks.Err? { return Err(blocks.error); }
    return Ok(Assembled(blocks.value));
  }

  /** matchPacket, up to running the program on the packet. */
  method MatchPacketProgram(exceptions: seq<Match>, matches: seq<Match>, packetLen: nat) returns (r: Result<seq<Insn>>)
    ensures matches == [] ==> r == Err(NoMatches)
    ensures matches != [] && packetLen < 14 ==> r == Err(ShortPacket)
    ensures matches != [] && packetLen >= 14 && !Valid(exceptions, matches) ==> r.Err?
    ensures matches != [] && packetLen >= 14 && Valid(exceptions, matches) ==>
              r == match Blocks(exceptions + matches, |exceptions|, 0)
                   case Err(e) => Err(e)
                   case Ok(bs) => Ok(HarnessOf(Flat(bs)))
  {
    if matches == [] { return Err(NoMatches); }
    if packetLen < 14 { return Err(ShortPacket); }
    var blocks := ClassifierBlocks(exceptions, matches);
    if blocks.Err? { return Err(blocks.error); }
    var insns := PROLOGUE + HARNESS_EDGES;
    insns := insns + blocks.value;
    insns := insns + PASS_TAIL + TX_TAIL;
    return Ok(insns);
  }
}
