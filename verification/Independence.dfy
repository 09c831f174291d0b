/** What one block may do to the blocks after it. The register contract is meant to keep
    custom blocks from disturbing later ones; here is exactly when it does, two blocks it
    accepts that disturb them all the same, and a check that rules both out. */
module Independence {
  import opened Common
  import opened Ebpf
  import opened Builders
  import opened Fragments
  import opened Refinement
  import opened Classifier
  import opened Linking
  import opened BlockShape
  import opened Chain
  import opened Contract
  import opened LoadSafety
  import opened Splicing

  // ------------------------------------------------------------ stores

  predicate StoreFree(b: seq<Insn>) { forall i :: 0 <= i < |b| ==> !b[i].op.Store? }

  predicate MemoryKept(m: Machine, c: Local) {
    match c
    case In(_, m') => m'.pkt == m.pkt && m'.stack == m.stack
    case Left(_, m') => m'.pkt == m.pkt && m'.stack == m.stack
    case Fell(m') => m'.pkt == m.pkt && m'.stack == m.stack
    case _ => true
  }

  /** Without a store instruction every run keeps packet and stack. */
  lemma {:induction false} StoreFreeSound(b: seq<Insn>, env: Env, pc: nat, m: Machine, n: nat)
    requires pc < |b| && StoreFree(b)
    ensures MemoryKept(m, RunLocal(b, env, In(pc, m), n))
    decreases n
  {
    hide StepLocal;
    if n > 0 {
      StoreFreeStep(b, env, pc, m);
      StepLocalIn(b, env, pc, m);
      var c := StepLocal(b, env, pc, m);
      if c.In? { StoreFreeSound(b, env, c.pc, c.m, n - 1); }
    }
  }

  lemma StoreFreeStep(b: seq<Insn>, env: Env, pc: nat, m: Machine)
    requires pc < |b| && StoreFree(b)
    ensures MemoryKept(m, StepLocal(b, env, pc, m))
  {
    hide LoadMem; hide Find; hide AluValue;
    assert !b[pc].op.Store?;
  }

  lemma PlainStoresNothing(b: seq<Insn>)
    requires AllPlain(b)
    ensures StoreFree(b)
  {
    forall i | 0 <= i < |b| ensures !b[i].op.Store? { assert Plain(b[i].op); }
  }

  // ------------------------------------------------- registers set before use

  function ArgReads(a: Operand): set<Reg> { match a case Imm(_) => {} case Src(r) => {r} }

  function Reads(op: Op): set<Reg> {
    match op
    case Alu(fn, dst, a) => (if fn == Mov then {} else {dst}) + ArgReads(a)
    case Load(_, src, _, _) => {src}
    case Branch(_, _, dst, a, _) => {dst} + ArgReads(a)
    case _ => {}
  }

  function Writes(op: Op): set<Reg> {
    match op
    case Alu(_, dst, _) => {dst}
    case Load(dst, _, _, _) => {dst}
    case _ => {}
  }

  /** `known[i]` lists registers the block has set itself, or that delimit the packet,
      whichever way it got to instruction i; nothing else is read. */
  predicate SetBeforeUse(b: seq<Insn>, known: seq<set<Reg>>) {
    && |known| == |b| > 0 && known[0] <= {R6, R7}
    && forall i :: 0 <= i < |b| ==> KnownAt(b, known, i)
  }

  predicate KnownAt(b: seq<Insn>, known: seq<set<Reg>>, i: nat)
    requires i < |b| == |known|
  {
    var op := b[i].op;
    && Reads(op) <= known[i]
    && (i + 1 < |b| && !op.Ja? ==> known[i + 1] <= known[i] + Writes(op))
    && (Target(op).Some? && Labelled(b, Target(op).value) ==> known[Find(b, Target(op).value)] <= known[i])
  }

  /** The two machines have the same packet and agree on the registers in `s`. */
  predicate Agree(s: set<Reg>, m1: Machine, m2: Machine) {
    m1.pkt == m2.pkt && forall r :: r in s ==> m1.regs[r] == m2.regs[r]
  }

  /** The two effects differ only in registers outside `s`. */
  predicate Alike(s: set<Reg>, e1: Effect, e2: Effect) {
    match e1
    case Advance(m1) => e2.Advance? && Agree(s, m1, e2.m)
    case Goto(l, m1) => e2.Goto? && e2.sym == l && Agree(s, m1, e2.m)
    case _ => false
  }

  lemma OpAlike(env: Env, m1: Machine, m2: Machine, op: Op, s: set<Reg>)
    requires Plain(op) && SafeLoad(env, m1, op) && Reads(op) <= s && Agree(s, m1, m2)
    ensures Alike(s + Writes(op), Exec(env, m1, op), Exec(env, m2, op))
    ensures SafeLoad(env, m2, op)
    ensures Exec(env, m1, op).Goto? ==> Alike(s, Exec(env, m1, op), Exec(env, m2, op)) && Target(op) == Some(Exec(env, m1, op).sym)
    ensures op.Ja? ==> Exec(env, m1, op).Goto?
  {
    hide AluValue; hide Le; hide Holds;
    if op.Alu? || op.Branch? { ArgAlike(m1, m2, op.arg, s); }
    if op.Alu? && op.fn == Mov { MovIgnores(m1.regs[op.dst], m2.regs[op.dst], ArgValue(m1, op.arg)); }
  }

  lemma ArgAlike(m1: Machine, m2: Machine, a: Operand, s: set<Reg>)
    requires ArgReads(a) <= s && Agree(s, m1, m2)
    ensures ArgValue(m1, a) == ArgValue(m2, a)
  {
    if a.Src? { assert a.reg in ArgReads(a); }
  }

  lemma MovIgnores(x1: u64, x2: u64, y: u64)
    ensures AluValue(Mov, x1, y) == AluValue(Mov, x2, y)
  {
  }

  /** One step of two agreeing machines. */
  lemma StepAlike(b: seq<Insn>, known: seq<set<Reg>>, env: Env, pc: nat, m1: Machine, m2: Machine)
    requires SetBeforeUse(b, known) && pc < |b| && AllPlain(b) && Agree(known[pc], m1, m2) && SafeLoad(env, m1, b[pc].op)
    ensures var c1, c2 := StepLocal(b, env, pc, m1), StepLocal(b, env, pc, m2);
            && (c1.In? ==> c2.In? && c1.pc == c2.pc < |b| && Agree(known[c1.pc], c1.m, c2.m))
            && (c1.Left? ==> c2.Left? && c1.sym == c2.sym)
            && (c1.Fell? ==> c2.Fell?) && !c1.Crash? && !c1.Stopped?
    ensures Forward(b) && StepLocal(b, env, pc, m1).In? ==> StepLocal(b, env, pc, m1).pc > pc
  {
    hide Exec; hide Reads; hide Writes; hide Plain; hide Find; hide SafeLoad; hide Target;
    var op, s := b[pc].op, known[pc];
    assert Plain(op);
    assert KnownAt(b, known, pc);
    OpAlike(env, m1, m2, op, s);
  }

  /** Whatever the scratch registers hold, such a block leaves through the same label. */
  lemma {:induction false} RunAlike(b: seq<Insn>, known: seq<set<Reg>>, env: Env, pc: nat, m1: Machine, m2: Machine)
    returns (n: nat)
    requires SetBeforeUse(b, known) && pc < |b| && AllPlain(b) && Forward(b) && Agree(known[pc], m1, m2)
    requires forall j: nat :: SafeFrom(b, env, pc, m1, j)
    ensures var c1, c2 := RunLocal(b, env, In(pc, m1), n), RunLocal(b, env, In(pc, m2), n);
            (c1.Left? && c2.Left? && c1.sym == c2.sym) || (c1.Fell? && c2.Fell?)
    decreases |b| - pc
  {
    hide StepLocal; hide AllPlain; hide Forward; hide SetBeforeUse; hide Agree; hide SafeLoad;
    assert SafeFrom(b, env, pc, m1, 0);
    SetLength(b, known);
    StepAlike(b, known, env, pc, m1, m2);
    OneLocalStep(b, env, pc, m1);
    OneLocalStep(b, env, pc, m2);
    n := 1;
    var c1, c2 := StepLocal(b, env, pc, m1), StepLocal(b, env, pc, m2);
    if c1.In? {
      forall j: nat ensures SafeFrom(b, env, c1.pc, c1.m, j) { assert SafeFrom(b, env, pc, m1, j + 1); }
      var k := RunAlike(b, known, env, c1.pc, c1.m, c2.m);
      n := k + 1;
    }
  }

  lemma SetLength(b: seq<Insn>, known: seq<set<Reg>>)
    requires SetBeforeUse(b, known)
    ensures |known| == |b| > 0
  {
  }

  /** A sufficient condition a caller can check: a block that passes checkBlock, ends in a
      jump, jumps forward to its own labels, Next and Redirect, neither stores nor calls, and
      sets every register before it reads it, decides every packet on which its loads are in
      bounds (the kernel refuses the others). */
  lemma CustomDecides(b: seq<Insn>, known: seq<set<Reg>>, env: Env, m0: Machine, next: string, hit: string)
    requires ContractOk(b) && Terminates(b) && Confined(b, next, hit) && AllPlain(b) && Forward(b) && SetBeforeUse(b, known)
    requires Entry(env, m0) && forall j: nat :: SafeFrom(b, env, 0, m0, j)
    ensures exists v :: Decides(b, env, m0.pkt, next, hit, v)
  {
    hide Settles; hide ContractOk; hide Confined; hide Preserved; hide Terminates; hide RunLocal; hide SafeFrom; hide AllPlain;
    hide SetBeforeUse; hide Forward; hide Agree;
    SetLength(b, known);
    SameStart(known[0], b, known, env, m0, m0);
    var n := RunAlike(b, known, env, 0, m0, m0);
    NeverFalls(b, env, 0, m0, n);
    var c := RunLocal(b, env, In(0, m0), n);
    var v := c.sym == hit;
    forall m: Machine | Entry(env, m) && m.pkt == m0.pkt
      ensures exists m': Machine :: Kept(m, m') && Settles(b, env, m, Left(if v then hit else next, m'))
    {
      SameStart(known[0], b, known, env, m0, m);
      var k := RunAlike(b, known, env, 0, m0, m);
      SameLeft(b, env, m0, n, k);
      LeftKept(b, env, m, next, hit, k);
      var d := RunLocal(b, env, In(0, m), k);
      assert Kept(m, d.m) && Settles(b, env, m, Left(if v then hit else next, d.m));
    }
    assert Decides(b, env, m0.pkt, next, hit, v);
  }

  lemma SameStart(s: set<Reg>, b: seq<Insn>, known: seq<set<Reg>>, env: Env, m0: Machine, m: Machine)
    requires SetBeforeUse(b, known) && s == known[0] && Entry(env, m0) && Entry(env, m) && m.pkt == m0.pkt
    ensures Agree(s, m0, m)
  {
    hide KnownAt;
  }

  lemma SameLeft(b: seq<Insn>, env: Env, m: Machine, i: nat, j: nat)
    requires b != [] && !RunLocal(b, env, In(0, m), i).In? && !RunLocal(b, env, In(0, m), j).In?
    ensures RunLocal(b, env, In(0, m), i) == RunLocal(b, env, In(0, m), j)
  {
    hide RunLocal;
    SettlesOnce(b, env, m, RunLocal(b, env, In(0, m), i), RunLocal(b, env, In(0, m), j));
  }

  /** A run of an accepted block of this kind that is not inside has left, as the contract says. */
  lemma LeftKept(b: seq<Insn>, env: Env, m: Machine, next: string, hit: string, n: nat)
    requires ContractOk(b) && Terminates(b) && Confined(b, next, hit) && AllPlain(b)
    requires RunLocal(b, env, In(0, m), n).Left?
    ensures var c := RunLocal(b, env, In(0, m), n); c.sym in {next, hit} && Kept(m, c.m) && Settles(b, env, m, c)
  {
    hide ContractOk; hide Confined; hide RunLocal; hide AllPlain; hide Preserved;
    var c := RunLocal(b, env, In(0, m), n);
    LeavesByContract(b, env, m, next, hit, c);
    PlainStoresNothing(b);
    StoreFreeSound(b, env, 0, m, n);
  }

  // ------------------------------------------------------ the exact conditions

  /** Every run of the block leaves it: none traps or goes on for ever. */
  ghost predicate AlwaysLeaves(b: seq<Insn>, env: Env, pkt: seq<u8>) {
    forall m: Machine :: Entry(env, m) && m.pkt == pkt ==> exists c: Local :: c.Left? && Settles(b, env, m, c)
  }

  /** No run leaves with another packet. */
  ghost predicate KeepsPacket(b: seq<Insn>, env: Env, pkt: seq<u8>) {
    forall m: Machine, c: Local :: Entry(env, m) && m.pkt == pkt && Settles(b, env, m, c) && c.Left? ==> c.m.pkt == pkt
  }

  /** Which way it leaves does not depend on what the scratch registers and the stack hold. */
  ghost predicate ScratchFree(b: seq<Insn>, env: Env, pkt: seq<u8>) {
    forall m1: Machine, m2: Machine, c1: Local, c2: Local ::
      (Entry(env, m1) && m1.pkt == pkt && Entry(env, m2) && m2.pkt == pkt &&
       Settles(b, env, m1, c1) && Settles(b, env, m2, c2) && c1.Left? && c2.Left?) ==> c1.sym == c2.sym
  }

  /** An accepted block decides a packet exactly when its runs leave, keep the packet, and do
      not depend on what earlier blocks left in scratch. */
  lemma DecidesExactly(b: seq<Insn>, env: Env, m0: Machine, next: string, hit: string)
    requires ContractOk(b) && Terminates(b) && Confined(b, next, hit) && next != hit && Entry(env, m0)
    ensures var pkt := m0.pkt;
            (exists v :: Decides(b, env, pkt, next, hit, v)) <==>
            AlwaysLeaves(b, env, pkt) && KeepsPacket(b, env, pkt) && ScratchFree(b, env, pkt)
  {
    hide Settles; hide ContractOk; hide Confined; hide Terminates; hide Decides; hide AlwaysLeaves; hide KeepsPacket; hide ScratchFree;
    var pkt := m0.pkt;
    if v :| Decides(b, env, pkt, next, hit, v) {
      DecidedLeaves(b, env, pkt, next, hit, v);
    }
    if AlwaysLeaves(b, env, pkt) && KeepsPacket(b, env, pkt) && ScratchFree(b, env, pkt) {
      var v := LeavesDecide(b, env, m0, next, hit);
    }
  }

  lemma DecidedLeaves(b: seq<Insn>, env: Env, pkt: seq<u8>, next: string, hit: string, v: bool)
    requires Decides(b, env, pkt, next, hit, v)
    ensures AlwaysLeaves(b, env, pkt) && KeepsPacket(b, env, pkt) && ScratchFree(b, env, pkt)
  {
    hide Settles; hide Preserved; hide Entry; hide Decides;
    forall m: Machine, c: Local | Entry(env, m) && m.pkt == pkt && Settles(b, env, m, c) && c.Left?
      ensures c.m.pkt == pkt && c.sym == if v then hit else next
    {
      var m1 := DecideStep(b, env, m, next, hit, v);
      SettlesOnce(b, env, m, c, Left(if v then hit else next, m1));
    }
    forall m: Machine | Entry(env, m) && m.pkt == pkt ensures exists c: Local :: c.Left? && Settles(b, env, m, c) {
      var m1 := DecideStep(b, env, m, next, hit, v);
    }
  }

  lemma LeavesDecide(b: seq<Insn>, env: Env, m0: Machine, next: string, hit: string) returns (v: bool)
    requires ContractOk(b) && Terminates(b) && Confined(b, next, hit) && Entry(env, m0)
    requires AlwaysLeaves(b, env, m0.pkt) && KeepsPacket(b, env, m0.pkt) && ScratchFree(b, env, m0.pkt)
    ensures Decides(b, env, m0.pkt, next, hit, v)
  {
    hide Settles; hide Preserved; hide Entry; hide ContractOk; hide Confined; hide Terminates;
    hide AlwaysLeaves; hide KeepsPacket; hide ScratchFree;
    var c0 := LeavesOnce(b, env, m0, next, hit);
    v := c0.sym == hit;
    forall m: Machine | Entry(env, m) && m.pkt == m0.pkt
      ensures exists m': Machine :: Kept(m, m') && Settles(b, env, m, Left(if v then hit else next, m'))
    {
      var c := LeavesOnce(b, env, m, next, hit);
      SameExit(b, env, m, m0, c, c0);
      assert c == Left(if v then hit else next, c.m);
    }
  }

  /** One run of such a block. */
  lemma LeavesOnce(b: seq<Insn>, env: Env, m: Machine, next: string, hit: string) returns (c: Local)
    requires ContractOk(b) && Terminates(b) && Confined(b, next, hit) && Entry(env, m)
    requires AlwaysLeaves(b, env, m.pkt) && KeepsPacket(b, env, m.pkt)
    ensures c.Left? && Settles(b, env, m, c) && c.sym in {next, hit} && Kept(m, c.m)
  {
    hide Settles; hide Preserved; hide Entry; hide ContractOk; hide Confined; hide Terminates;
    c :| c.Left? && Settles(b, env, m, c);
    LeavesByContract(b, env, m, next, hit, c);
  }

  lemma SameExit(b: seq<Insn>, env: Env, m1: Machine, m2: Machine, c1: Local, c2: Local)
    requires ScratchFree(b, env, m1.pkt) && Entry(env, m1) && Entry(env, m2) && m1.pkt == m2.pkt
    requires Settles(b, env, m1, c1) && Settles(b, env, m2, c2) && c1.Left? && c2.Left?
    ensures c1.sym == c2.sym
  {
    hide Settles; hide Entry;
  }

  /** Every run that goes on to the next block hands it the packet it got. */
  ghost predicate KeepsAtNext(b: seq<Insn>, env: Env, next: string) {
    forall m: Machine, m1: Machine ::
      Entry(env, m) && Settles(b, env, m, Left(next, m1)) ==> m1.pkt == m.pkt
  }

  /** An accepted block with a verdict of its own on every packet. */
  ghost predicate Deciding(d: seq<Insn>, env: Env, next: string, hit: string) {
    ContractOk(d) && next != hit && forall pkt: seq<u8> :: HasVerdict(d, env, pkt, next, hit)
  }

  ghost predicate HasVerdict(d: seq<Insn>, env: Env, pkt: seq<u8>, next: string, hit: string) {
    exists v :: Decides(d, env, pkt, next, hit, v)
  }

  ghost predicate LeavesFor(d: seq<Insn>, env: Env, m: Machine, l: string) {
    exists m': Machine :: Settles(d, env, m, Left(l, m'))
  }

  /** Whatever deciding block comes next, it says of the packet what it would have said first. */
  ghost predicate LeavesAlone(b: seq<Insn>, env: Env, next: string) {
    forall m: Machine, m1: Machine, d: seq<Insn>, dn: string, dh: string, v: bool ::
      (Entry(env, m) && Settles(b, env, m, Left(next, m1)) && Deciding(d, env, dn, dh) && Decides(d, env, m.pkt, dn, dh, v)) ==>
        LeavesFor(d, env, m1, if v then dh else dn)
  }

  /** An accepted block leaves the verdict of every block after it alone, on every packet, iff
      each of its runs through Next keeps the packet. */
  lemma HarmlessExactly(b: seq<Insn>, env: Env, next: string)
    requires ContractOk(b)
    ensures KeepsAtNext(b, env, next) <==> LeavesAlone(b, env, next)
  {
    hide Settles; hide Decides; hide Deciding; hide ContractOk; hide Entry;
    if KeepsAtNext(b, env, next) {
      forall m: Machine, m1: Machine, d: seq<Insn>, dn: string, dh: string, v: bool |
        Entry(env, m) && Settles(b, env, m, Left(next, m1)) && Deciding(d, env, dn, dh) && Decides(d, env, m.pkt, dn, dh, v)
        ensures LeavesFor(d, env, m1, if v then dh else dn)
      {
        StillEntry(b, env, m, next, m1);
        var m2 := DecideStep(d, env, m1, dn, dh, v);
      }
    }
    if LeavesAlone(b, env, next) {
      forall m: Machine, m1: Machine | Entry(env, m) && Settles(b, env, m, Left(next, m1))
        ensures m1.pkt == m.pkt
      {
        AloneKeeps(b, env, next, m, m1);
      }
    }
  }

  lemma StillEntry(b: seq<Insn>, env: Env, m: Machine, next: string, m1: Machine)
    requires ContractOk(b) && Entry(env, m) && Settles(b, env, m, Left(next, m1))
    ensures Entry(env, m1) && |m1.pkt| == |m.pkt|
  {
    hide ContractOk; hide RunLocal;
    var n: nat :| RunLocal(b, env, In(0, m), n) == Left(next, m1);
    ContractSound(b, env, 0, m, n);
  }

  /** If the packet came out different, a block that looks at the byte would notice. */
  lemma AloneKeeps(b: seq<Insn>, env: Env, next: string, m: Machine, m1: Machine)
    requires ContractOk(b) && LeavesAlone(b, env, next)
    requires Entry(env, m) && Settles(b, env, m, Left(next, m1))
    ensures m1.pkt == m.pkt
  {
    hide Settles; hide Decides; hide Deciding; hide ContractOk; hide Entry; hide LeavesAlone; hide ByteIs;
    StillEntry(b, env, m, next, m1);
    if m1.pkt != m.pkt {
      var i: nat :| i < |m.pkt| && m1.pkt[i] != m.pkt[i];
      var d := ByteIs(i, m.pkt[i], "n", "h");
      ByteIsDeciding(i, m.pkt[i], env);
      ByteDecides(i, m.pkt[i], "n", "h", env, m.pkt);
      ByteDecides(i, m.pkt[i], "n", "h", env, m1.pkt);
      var m2 := AloneAt(b, env, next, m, m1, d, "n", "h", true);
      var m3 := DecideStep(d, env, m1, "n", "h", false);
      SettlesOnce(d, env, m1, Left("h", m2), Left("n", m3));
      assert false;
    }
  }

  lemma AloneAt(b: seq<Insn>, env: Env, next: string, m: Machine, m1: Machine, d: seq<Insn>, dn: string, dh: string, v: bool)
    returns (m2: Machine)
    requires LeavesAlone(b, env, next)
    requires Entry(env, m) && Settles(b, env, m, Left(next, m1))
    requires Deciding(d, env, dn, dh) && Decides(d, env, m.pkt, dn, dh, v)
    ensures Settles(d, env, m1, Left(if v then dh else dn, m2))
  {
    hide Settles; hide Decides; hide Deciding; hide Entry;
    var l := if v then dh else dn;
    assert LeavesFor(d, env, m1, l);
    m2 :| Settles(d, env, m1, Left(l, m2));
  }

  // ---------------------------------------------------------- a one-byte match

  /** Moves R2 up the packet in strides, leaving when it is past the end. */
  function Climb(q: nat, next: string): seq<Insn> {
    if q == 0 then [] else [I(Alu(Add, R2, Imm(STRIDE))), I(Branch(JGT, true, R2, Src(R6), next))] + Climb(q - 1, next)
  }

  const STRIDE: i32 := 0xffff

  function LastByte(i: nat, x: u8, next: string, redirect: string): seq<Insn> {
    [I(Alu(Add, R2, Imm(i % STRIDE + 1))), I(Branch(JGT, true, R2, Src(R6), next)),
     I(Load(R3, R2, -1, Byte)), I(Branch(JNE, true, R3, Imm(x), next))]
  }

  /** Hits the packets whose byte i is x. */
  function ByteIs(i: nat, x: u8, next: string, redirect: string): seq<Insn> {
    [I(Alu(Mov, R2, Src(R7)))] + (Climb(i / STRIDE, next) + (LastByte(i, x, next, redirect) + [I(Ja(redirect))]))
  }

  /** None of its instructions is labelled or reserved. */
  predicate Bland(b: seq<Insn>) { forall j :: 0 <= j < |b| ==> b[j].symbol == "" && Violation(b[j].op).None? }

  lemma {:induction false} ClimbBland(q: nat, next: string)
    ensures Bland(Climb(q, next)) && |Climb(q, next)| == 2 * q
  {
    if q > 0 { ClimbBland(q - 1, next); }
  }

  lemma ByteBland(i: nat, x: u8, next: string, redirect: string)
    ensures Bland(ByteIs(i, x, next, redirect)) && ContractOk(ByteIs(i, x, next, redirect))
  {
    hide Climb;
    ClimbBland(i / STRIDE, next);
    BlandConcat(LastByte(i, x, next, redirect), [I(Ja(redirect))]);
    BlandConcat(Climb(i / STRIDE, next), LastByte(i, x, next, redirect) + [I(Ja(redirect))]);
    BlandConcat([I(Alu(Mov, R2, Src(R7)))], Climb(i / STRIDE, next) + (LastByte(i, x, next, redirect) + [I(Ja(redirect))]));
  }

  lemma BlandConcat(x: seq<Insn>, y: seq<Insn>)
    requires Bland(x) && Bland(y)
    ensures Bland(x + y)
  {
    hide Violation;
  }

  /** R2 is `o` bytes into the packet, or just past it. */
  predicate Climbing(env: Env, m: Machine, o: nat) {
    Entry(env, m) && m.regs[R2] == env.data + o && o <= |m.pkt|
  }

  lemma StrideFlow(b: seq<Insn>, env: Env, k: nat, m: Machine, o: nat, n: i32, next: string) returns (m': Machine)
    requires k + 2 < |b| && b[k].op == Alu(Add, R2, Imm(n)) && b[k + 1].op == Branch(JGT, true, R2, Src(R6), next)
    requires !Labelled(b, next) && Climbing(env, m, o) && 0 <= n <= STRIDE
    ensures Kept(m, m') && m'.regs[R2] == env.data + o + n
    ensures Flow(b, env, k, m) == if o + n > |m.pkt| then Left(next, m') else Flow(b, env, k + 2, m')
  {
    hide Flow; hide Find;
    m' := AluFlow(b, env, k, m, Add, R2, Imm(n));
    BranchFlow(b, env, k + 1, m', JGT, true, R2, Src(R6), next);
  }

  lemma {:induction false} ClimbFlow(b: seq<Insn>, env: Env, k: nat, m: Machine, o: nat, q: nat, next: string) returns (m': Machine)
    requires Has(b, k, Climb(q, next)) && k + 2 * q < |b| && !Labelled(b, next) && Climbing(env, m, o)
    ensures Kept(m, m')
    ensures if o + q * STRIDE > |m.pkt| then Flow(b, env, k, m) == Left(next, m')
            else Climbing(env, m', o + q * STRIDE) && Flow(b, env, k, m) == Flow(b, env, k + 2 * q, m')
    decreases q
  {
    hide Flow; hide Find; hide Has;
    m' := m;
    if q > 0 {
      var head := [I(Alu(Add, R2, Imm(STRIDE))), I(Branch(JGT, true, R2, Src(R6), next))];
      HasConcat(b, k, head, Climb(q - 1, next));
      HasBoth(b, k, head);
      m' := StrideFlow(b, env, k, m, o, STRIDE, next);
      assert q * STRIDE == STRIDE + (q - 1) * STRIDE;
      if o + STRIDE <= |m.pkt| {
        m' := ClimbFlow(b, env, k + 2, m', o + STRIDE, q - 1, next);
      }
    }
  }

  lemma HasBoth(b: seq<Insn>, k: nat, frag: seq<Insn>)
    requires Has(b, k, frag) && |frag| == 2
    ensures k + 2 < |b| && b[k].op == frag[0].op && b[k + 1].op == frag[1].op
  {
    assert b[k + 0].op == frag[0].op && b[k + 1].op == frag[1].op;
  }

  lemma ByteLayout(i: nat, x: u8, next: string, redirect: string)
    ensures var b, n := ByteIs(i, x, next, redirect), 1 + 2 * (i / STRIDE);
            && |b| == n + 5 && b[0].op == Alu(Mov, R2, Src(R7)) && Has(b, 1, Climb(i / STRIDE, next))
            && b[n].op == Alu(Add, R2, Imm(i % STRIDE + 1)) && b[n + 1].op == Branch(JGT, true, R2, Src(R6), next)
            && b[n + 2].op == Load(R3, R2, -1, Byte) && b[n + 3].op == Branch(JNE, true, R3, Imm(x), next)
            && b[n + 4].op == Ja(redirect)
  {
    hide Climb; hide Bland;
    ClimbBland(i / STRIDE, next);
    var last := LastByte(i, x, next, redirect) + [I(Ja(redirect))];
    Sandwich(I(Alu(Mov, R2, Src(R7))), Climb(i / STRIDE, next), last);
    var b, n := ByteIs(i, x, next, redirect), 1 + 2 * (i / STRIDE);
    assert b[n + 0] == last[0] && b[n + 1] == last[1] && b[n + 2] == last[2] && b[n + 3] == last[3] && b[n + 4] == last[4];
  }

  lemma Sandwich(h: Insn, c: seq<Insn>, last: seq<Insn>)
    requires last != []
    ensures var b := [h] + (c + last);
            && |b| == 1 + |c| + |last| && b[0] == h && Has(b, 1, c)
            && forall j :: 0 <= j < |last| ==> b[1 + |c| + j] == last[j]
  {
    var b := [h] + (c + last);
    assert forall j :: 0 <= j < |c| ==> b[1 + j] == c[j];
  }

  lemma ByteFlow(i: nat, x: u8, next: string, redirect: string, env: Env, m: Machine)
    requires next != "" && redirect != "" && Entry(env, m)
    ensures Decided(ByteIs(i, x, next, redirect), env, m, next, redirect, i < |m.pkt| && m.pkt[i] == x)
  {
    hide Flow; hide Find; hide LoadMem; hide ByteIs; hide Has; hide Climb;
    var b, q := ByteIs(i, x, next, redirect), i / STRIDE;
    var n := 1 + 2 * q;
    ByteLayout(i, x, next, redirect);
    ByteBland(i, x, next, redirect);
    NotFound(b, next);
    NotFound(b, redirect);
    assert i == q * STRIDE + i % STRIDE;
    var m1 := AluFlow(b, env, 0, m, Mov, R2, Src(R7));
    var m2 := ClimbFlow(b, env, 1, m1, 0, q, next);
    if q * STRIDE <= |m.pkt| {
      var m3 := StrideFlow(b, env, n, m2, q * STRIDE, i % STRIDE + 1, next);
      if i < |m.pkt| {
        CompareFlow(b, env, n + 2, m3, i, x, next, redirect);
      }
    }
  }

  /** Load the byte below R2 and compare. */
  lemma CompareFlow(b: seq<Insn>, env: Env, k: nat, m: Machine, i: nat, x: u8, next: string, redirect: string)
    requires |b| == k + 3 && !Labelled(b, next) && !Labelled(b, redirect) && i < |m.pkt| && m.regs[R2] == env.data + i + 1
    requires b[k].op == Load(R3, R2, -1, Byte) && b[k + 1].op == Branch(JNE, true, R3, Imm(x), next) && b[k + 2].op == Ja(redirect)
    ensures var o := Flow(b, env, k, m); o.Left? && Kept(m, o.m) && o.sym == if m.pkt[i] == x then redirect else next
  {
    hide Flow; hide Find; hide LoadMem;
    ByteLoads(env, m, i);
    var m4 := LoadStep(b, env, k, m, R3, R2, -1, Byte, m.pkt[i]);
    BranchFlow(b, env, k + 1, m4, JNE, true, R3, Imm(x), next);
    JaFlow(b, env, k + 2, m4, redirect);
  }

  lemma ByteLoads(env: Env, m: Machine, i: nat)
    requires i < |m.pkt| && m.regs[R2] == env.data + i + 1
    ensures LoadMem(env, m, m.regs[R2] - 1, Byte) == Some(m.pkt[i])
  {
  }

  lemma LoadStep(b: seq<Insn>, env: Env, k: nat, m: Machine, dst: Reg, src: Reg, off: int, size: Size, v: u64) returns (m': Machine)
    requires k + 1 < |b| && b[k].op == Load(dst, src, off, size) && dst != RFP
    requires LoadMem(env, m, m.regs[src] + off, size) == Some(v)
    ensures m' == Set(m, dst, v) && Flow(b, env, k, m) == Flow(b, env, k + 1, m')
  {
    hide LoadMem;
    m' := Set(m, dst, v);
    assert StepLocal(b, env, k, m) == In(k + 1, m');
  }

  lemma ByteDecides(i: nat, x: u8, next: string, redirect: string, env: Env, pkt: seq<u8>)
    requires next != "" && redirect != ""
    ensures Decides(ByteIs(i, x, next, redirect), env, pkt, next, redirect, i < |pkt| && pkt[i] == x)
  {
    hide Flow; hide Kept; hide Entry; hide RunLocal; hide ByteIs;
    var b, v := ByteIs(i, x, next, redirect), i < |pkt| && pkt[i] == x;
    forall m: Machine | Entry(env, m) && m.pkt == pkt
      ensures exists m': Machine :: Kept(m, m') && Settles(b, env, m, Left(if v then redirect else next, m'))
    {
      ByteFlow(i, x, next, redirect, env, m);
      var o := Flow(b, env, 0, m);
      FlowIsRun(b, env, 0, m);
      assert Kept(m, o.m) && Settles(b, env, m, o);
    }
  }

  lemma ByteIsDeciding(i: nat, x: u8, env: Env)
    ensures Deciding(ByteIs(i, x, "n", "h"), env, "n", "h")
  {
    hide Decides; hide ByteIs;
    var d := ByteIs(i, x, "n", "h");
    ByteBland(i, x, "n", "h");
    assert "n"[0] != "h"[0];
    forall pkt: seq<u8> ensures HasVerdict(d, env, pkt, "n", "h") {
      ByteDecides(i, x, "n", "h", env, pkt);
    }
  }
}
