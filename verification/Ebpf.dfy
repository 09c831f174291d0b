/** A small-step machine for the part of eBPF that XDP classifiers use: 64-bit
    Mov, Add and And, packet/stack/context loads, stores, conditional jumps in
    the 64-bit and 32-bit forms, Ja, map pointers, two helper calls and Exit
    (RFC 9669, sections 4.1, 4.3, 5.1 and 5.4). Registers hold unsigned 64-bit
    words; the host is little-endian. */
module Ebpf {
  import opened Common
  import opened Bits

  type u8 = x: int | 0 <= x < 256
  type u16 = x: int | 0 <= x < 0x1_0000
  type i32 = x: int | -0x8000_0000 <= x < 0x8000_0000
  type u64 = x: int | 0 <= x < 0x1_0000_0000_0000_0000
  type Reg = x: int | 0 <= x <= 10

  const R0: Reg := 0
  const R1: Reg := 1
  const R2: Reg := 2
  const R3: Reg := 3
  const R6: Reg := 6
  const R7: Reg := 7
  const R8: Reg := 8
  const R9: Reg := 9
  const RFP: Reg := 10

  const WORD64 := 0x1_0000_0000_0000_0000
  const WORD32 := 0x1_0000_0000


  datatype Size = Byte | Half | Word {
    function Bytes(): nat { match this case Byte => 1 case Half => 2 case Word => 4 }
  }
  datatype Operand = Imm(value: i32) | Src(reg: Reg)
  datatype AluFn = Mov | Add | And
  datatype Cond = JEq | JNE | JGT | JLT
  datatype MapRef = QidConf | Xsks
  datatype Helper = MapLookup | RedirectMap

  datatype Op =
    | Alu(fn: AluFn, dst: Reg, arg: Operand)
    | Load(dst: Reg, src: Reg, off: int, size: Size)
    | LoadMapPtr(dst: Reg, map_: MapRef)
    | Store(dst: Reg, off: int, arg: Operand, size: Size)
    | Branch(cond: Cond, wide: bool, dst: Reg, arg: Operand, target: string)
    | Ja(target: string)
    | Call(helper: Helper)
    | Exit

  /** One instruction with the symbol that labels it ("" for none). */
  datatype Insn = Insn(symbol: string, op: Op)

  type Regs = s: seq<u64> | |s| == 11 witness [0, 0, 0, 0, 0, 0, 0, 0, 0, 0, 0]
  const STACK_SIZE: nat := 512

  datatype Machine = Machine(regs: Regs, pkt: seq<u8>, stack: seq<u8>)

  /** What the kernel supplies: where packet, frame pointer, context and map
      values live, the receive queue, and the contents of the two maps. */
  datatype Env = Env(data: nat, fp: nat, ctx: nat, values: nat, queue: nat,
                     qidPtr: u64, xskPtr: u64, junk: u64,
                     enabled: seq<nat>, sockets: set<nat>)

  function Extend(i: i32): u64 { if i >= 0 then i else i + WORD64 }

  function ArgValue(m: Machine, a: Operand): u64 {
    match a case Imm(v) => Extend(v) case Src(r) => m.regs[r]
  }

  function AndWord(x: u64, y: u64): (r: u64)
  {
    AndAtMost(x, y);
    BitAnd(x, y)
  }

  lemma {:induction false} AndAtMost(x: nat, y: nat)
    ensures BitAnd(x, y) <= x
  {
    if x != 0 { AndAtMost(x / 2, y / 2); }
  }

  function AluValue(fn: AluFn, x: u64, y: u64): u64 {
    match fn
    case Mov => y
    case Add => (x + y) % WORD64
    case And => AndWord(x, y)
  }

  function Le(s: seq<u8>, i: nat, size: Size): u64
    requires i + size.Bytes() <= |s|
  {
    match size
    case Byte => s[i]
    case Half => s[i] + 256 * (s[i + 1] as int)
    case Word => s[i] + 256 * (s[i + 1] as int) + 0x1_0000 * (s[i + 2] as int) + 0x100_0000 * (s[i + 3] as int)
  }

  function PutLe(s: seq<u8>, i: nat, size: Size, v: u64): (r: seq<u8>)
    requires i + size.Bytes() <= |s|
    ensures |r| == |s|
  {
    match size
    case Byte => s[i := v % 256]
    case Half => s[i := v % 256][i + 1 := (v / 256) % 256]
    case Word => s[i := v % 256][i + 1 := (v / 256) % 256]
                 [i + 2 := (v / 0x1_0000) % 256][i + 3 := (v / 0x100_0000) % 256]
  }

  predicate InPacket(env: Env, m: Machine, addr: int, n: nat) {
    env.data <= addr && addr + n <= env.data + |m.pkt|
  }

  predicate InStack(env: Env, m: Machine, addr: int, n: nat) {
    env.fp - |m.stack| <= addr && addr + n <= env.fp
  }

  /** A load succeeds only inside the packet, the stack, the context fields or a
      map value; anywhere else it traps. Array-map values are 8 bytes apart. */
  function LoadMem(env: Env, m: Machine, addr: int, size: Size): Option<u64> {
    if InPacket(env, m, addr, size.Bytes()) then Some(Le(m.pkt, addr - env.data, size))
    else if InStack(env, m, addr, size.Bytes()) then Some(Le(m.stack, addr - (env.fp - |m.stack|), size))
    else if size == Word && addr == env.ctx then Some(env.data % WORD64)
    else if size == Word && addr == env.ctx + 4 then Some((env.data + |m.pkt|) % WORD64)
    else if size == Word && addr == env.ctx + 16 then Some(env.queue % WORD32)
    else if size == Word && env.values <= addr && (addr - env.values) % 8 == 0
            && (addr - env.values) / 8 < |env.enabled|
    then Some(env.enabled[(addr - env.values) / 8] % WORD32)
    else None
  }

  function StoreMem(env: Env, m: Machine, addr: int, size: Size, v: u64): Option<Machine> {
    if InPacket(env, m, addr, size.Bytes()) then
      Some(m.(pkt := PutLe(m.pkt, addr - env.data, size, v)))
    else if InStack(env, m, addr, size.Bytes()) then
      Some(m.(stack := PutLe(m.stack, addr - (env.fp - |m.stack|), size, v)))
    else None
  }

  predicate Holds(c: Cond, x: nat, y: nat) {
    match c
    case JEq => x == y
    case JNE => x != y
    case JGT => x > y
    case JLT => x < y
  }

  predicate Taken(m: Machine, c: Cond, wide: bool, dst: Reg, a: Operand) {
    var x, y := m.regs[dst], ArgValue(m, a);
    if wide then Holds(c, x, y) else Holds(c, x % WORD32, y % WORD32)
  }

  function Set(m: Machine, r: Reg, v: u64): (m': Machine)
    ensures m'.regs[r] == v && forall q: Reg :: q != r ==> m'.regs[q] == m.regs[q]
    ensures m'.pkt == m.pkt && m'.stack == m.stack
  {
    m.(regs := m.regs[r := v])
  }

  /** A helper call leaves its result in R0 and clobbers R1-R5. */
  function Clobbered(env: Env, m: Machine, r0: u64): (m': Machine)
    ensures m'.regs[0] == r0 && forall q: Reg :: q >= 6 ==> m'.regs[q] == m.regs[q]
    ensures m'.pkt == m.pkt && m'.stack == m.stack
  {
    m.(regs := [r0, env.junk, env.junk, env.junk, env.junk, env.junk] + m.regs[6..])
  }

  datatype Effect = Advance(m: Machine) | Goto(sym: string, m: Machine) | Return(value: u64) | Trap

  function CallHelper(env: Env, m: Machine, h: Helper): Effect {
    match h
    case MapLookup =>
      if m.regs[R1] != env.qidPtr then Trap else
      (match LoadMem(env, m, m.regs[R2], Word)
       case None => Trap
       case Some(key) => Advance(Clobbered(env, m,
           if key < |env.enabled| then (env.values + 8 * key) % WORD64 else 0)))
    case RedirectMap =>
      if m.regs[R1] != env.xskPtr then Trap
      else Advance(Clobbered(env, m, if m.regs[R2] in env.sockets then XDP_REDIRECT else m.regs[R3] % 4))
  }

  const XDP_PASS: u64 := 2
  const XDP_TX: u64 := 3
  const XDP_REDIRECT: u64 := 4

  function Exec(env: Env, m: Machine, op: Op): Effect {
    match op
    // The verifier loads no program that writes the frame pointer.
    case Alu(fn, dst, a) => if dst == RFP then Trap else Advance(Set(m, dst, AluValue(fn, m.regs[dst], ArgValue(m, a))))
    case Load(dst, src, off, size) =>
      if dst == RFP then Trap else
      (match LoadMem(env, m, m.regs[src] + off, size)
       case None => Trap
       case Some(v) => Advance(Set(m, dst, v)))
    case LoadMapPtr(dst, r) => if dst == RFP then Trap else Advance(Set(m, dst, if r == QidConf then env.qidPtr else env.xskPtr))
    case Store(dst, off, a, size) =>
      (match StoreMem(env, m, m.regs[dst] + off, size, ArgValue(m, a))
       case None => Trap
       case Some(m') => Advance(m'))
    case Branch(c, wide, dst, a, target) =>
      if Taken(m, c, wide, dst, a) then Goto(target, m) else Advance(m)
    case Ja(target) => Goto(target, m)
    case Call(h) => CallHelper(env, m, h)
    case Exit => Return(m.regs[R0])
  }

  // ---------------------------------------------------------------- labels

  /** Index of the first instruction carrying `sym`, or |p| when none does. */
  function Find(p: seq<Insn>, sym: string): (i: nat)
    ensures i <= |p|
    ensures i < |p| ==> p[i].symbol == sym
    ensures forall j :: 0 <= j < i ==> p[j].symbol != sym
  {
    if p == [] || p[0].symbol == sym then 0
    else
      var k := Find(p[1..], sym);
      assert forall j :: 1 <= j < k + 1 ==> p[j] == p[1..][j - 1];
      k + 1
  }

  predicate Labelled(p: seq<Insn>, sym: string) { Find(p, sym) < |p| }

  // ------------------------------------------------------ whole-program runs

  datatype Config = At(pc: nat, m: Machine) | Done(action: u64) | Fault

  function Step(p: seq<Insn>, env: Env, pc: nat, m: Machine): Config {
    if pc >= |p| then Fault else
    match Exec(env, m, p[pc].op)
    case Advance(m') => At(pc + 1, m')
    case Goto(l, m') => if Labelled(p, l) then At(Find(p, l), m') else Fault
    case Return(v) => Done(v)
    case Trap => Fault
  }

  /** `n` steps from `c`; a finished run stays finished. */
  function Run(p: seq<Insn>, env: Env, c: Config, n: nat): Config
    decreases n
  {
    if n == 0 || !c.At? then c else Run(p, env, Step(p, env, c.pc, c.m), n - 1)
  }

  lemma {:induction false} RunAdd(p: seq<Insn>, env: Env, c: Config, k: nat, n: nat)
    ensures Run(p, env, c, k + n) == Run(p, env, Run(p, env, c, k), n)
    decreases k
  {
    if k != 0 && c.At? { RunAdd(p, env, Step(p, env, c.pc, c.m), k - 1, n); }
  }

  // ---------------------------------------------------- one block on its own

  /** A block run in isolation is inside it, has left for a label it does not
      define, has fallen off its end, has returned an action, or has trapped. */
  datatype Local = In(pc: nat, m: Machine) | Left(sym: string, m: Machine)
                 | Fell(m: Machine) | Stopped(value: u64) | Crash

  function StepLocal(b: seq<Insn>, env: Env, pc: nat, m: Machine): Local
    requires pc < |b|
  {
    match Exec(env, m, b[pc].op)
    case Advance(m') => if pc + 1 < |b| then In(pc + 1, m') else Fell(m')
    case Goto(l, m') => if Labelled(b, l) then In(Find(b, l), m') else Left(l, m')
    case Return(v) => Stopped(v)
    case Trap => Crash
  }

  function RunLocal(b: seq<Insn>, env: Env, c: Local, n: nat): Local
    requires c.In? ==> c.pc < |b|
    decreases n
  {
    if n == 0 || !c.In? then c else RunLocal(b, env, StepLocal(b, env, c.pc, c.m), n - 1)
  }

  lemma StepStaysInside(b: seq<Insn>, env: Env, pc: nat, m: Machine)
    requires pc < |b|
    ensures var d := StepLocal(b, env, pc, m); d.In? ==> d.pc < |b|
  {
    hide Exec;
  }

  lemma {:induction false} RunLocalAdd(b: seq<Insn>, env: Env, c: Local, k: nat, n: nat)
    requires c.In? ==> c.pc < |b|
    ensures var d := RunLocal(b, env, c, k); d.In? ==> d.pc < |b|
    ensures RunLocal(b, env, c, k + n) == RunLocal(b, env, RunLocal(b, env, c, k), n)
    decreases k
  {
    if k != 0 && c.In? {
      StepStaysInside(b, env, c.pc, c.m);
      hide StepLocal;
      RunLocalAdd(b, env, StepLocal(b, env, c.pc, c.m), k - 1, n);
    }
  }

  /** Runs a block that only jumps forward; a backward jump stops with `In`. */
  function Flow(b: seq<Insn>, env: Env, pc: nat, m: Machine): Local
    requires pc < |b|
    decreases |b| - pc
  {
    match StepLocal(b, env, pc, m)
    case In(pc', m') => if pc' > pc then Flow(b, env, pc', m') else In(pc', m')
    case other => other
  }

  /** The forward-only run is the small-step run, and it ends within |b| steps. */
  lemma {:induction false} FlowIsRun(b: seq<Insn>, env: Env, pc: nat, m: Machine)
    requires pc < |b| && !Flow(b, env, pc, m).In?
    ensures RunLocal(b, env, In(pc, m), |b| - pc) == Flow(b, env, pc, m)
    decreases |b| - pc
  {
    var c := StepLocal(b, env, pc, m);
    if c.In? {
      FlowIsRun(b, env, c.pc, c.m);
      assert |b| - pc - 1 == (|b| - c.pc) + (c.pc - pc - 1);
      RunLocalAdd(b, env, c, |b| - c.pc, c.pc - pc - 1);
    }
  }
}
