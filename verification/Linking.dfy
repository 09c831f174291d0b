/** Running a block inside a linked program is running it on its own: the
    program follows the isolated run step by step until the block leaves, and then
    stands at the instruction its target labels. */
module Linking {
  import opened Common
  import opened Ebpf

  function Target(op: Op): Option<string> {
    match op
    case Branch(_, _, _, _, t) => Some(t)
    case Ja(t) => Some(t)
    case _ => None
  }

  /** No symbol is defined twice. */
  predicate Unique(p: seq<Insn>) {
    forall i, j :: 0 <= i < j < |p| && p[i].symbol != "" ==> p[i].symbol != p[j].symbol
  }

  predicate Resolved(p: seq<Insn>) {
    forall i :: 0 <= i < |p| && Target(p[i].op).Some? ==>
      Target(p[i].op).value != "" && Labelled(p, Target(p[i].op).value)
  }

  /** The assembler accepts the program. */
  predicate Linked(p: seq<Insn>) { Unique(p) && Resolved(p) }

  /** Jumps to the block's own labels go forward. */
  predicate Forward(b: seq<Insn>) {
    forall i :: 0 <= i < |b| && Target(b[i].op).Some? && Labelled(b, Target(b[i].op).value) ==>
      i < Find(b, Target(b[i].op).value)
  }

  /** `b` sits in `p` at `at`. */
  predicate Placed(p: seq<Insn>, at: nat, b: seq<Insn>) {
    at + |b| <= |p| && p[at..at + |b|] == b
  }

  lemma FindUnique(p: seq<Insn>, i: nat)
    requires Unique(p) && i < |p| && p[i].symbol != ""
    ensures Find(p, p[i].symbol) == i
  {
    assert Find(p, p[i].symbol) <= i;
  }

  lemma FindInBlock(p: seq<Insn>, at: nat, b: seq<Insn>, sym: string)
    requires Unique(p) && Placed(p, at, b) && sym != "" && Labelled(b, sym)
    ensures Find(p, sym) == at + Find(b, sym)
  {
    var i := Find(b, sym);
    assert p[at..at + |b|][i] == p[at + i];
    FindUnique(p, at + i);
  }

  /** Where the program is when the block, run alone, is in `c`. */
  function Seen(p: seq<Insn>, at: nat, b: seq<Insn>, c: Local): Config {
    match c
    case In(pc, m) => At(at + pc, m)
    case Left(l, m) => At(Find(p, l), m)
    case Fell(m) => At(at + |b|, m)
    case Stopped(v) => Done(v)
    case Crash => Fault
  }

  lemma StepSeen(p: seq<Insn>, env: Env, at: nat, b: seq<Insn>, pc: nat, m: Machine)
    requires Linked(p) && Placed(p, at, b) && pc < |b|
    ensures Step(p, env, at + pc, m) == Seen(p, at, b, StepLocal(b, env, pc, m))
  {
    hide Exec; hide Find;
    assert p[at..at + |b|][pc] == p[at + pc];
    var e := Exec(env, m, b[pc].op);
    if e.Goto? {
      GotoIsTarget(env, m, b[pc].op);
      assert Labelled(p, e.sym);
      if Labelled(b, e.sym) { FindInBlock(p, at, b, e.sym); }
    }
  }

  lemma GotoIsTarget(env: Env, m: Machine, op: Op)
    requires Exec(env, m, op).Goto?
    ensures Target(op) == Some(Exec(env, m, op).sym)
  {
  }

  /** Every pc before step n is below `hi` and at least `lo`. */
  ghost predicate Within(p: seq<Insn>, env: Env, c: Config, n: nat, lo: nat, hi: nat) {
    forall j :: 0 <= j < n ==> Run(p, env, c, j).At? && lo <= Run(p, env, c, j).pc < hi
  }

  lemma WithinAdd(p: seq<Insn>, env: Env, c: Config, k: nat, n: nat, lo: nat, hi: nat)
    requires Within(p, env, c, k, lo, hi) && Within(p, env, Run(p, env, c, k), n, lo, hi)
    ensures Within(p, env, c, k + n, lo, hi)
  {
    hide Run;
    forall j | 0 <= j < k + n ensures Run(p, env, c, j).At? && lo <= Run(p, env, c, j).pc < hi {
      if j >= k {
        RunAdd(p, env, c, k, j - k);
        assert k + (j - k) == j;
        assert Run(p, env, Run(p, env, c, k), j - k).At?;
      }
    }
  }

  /** The program tracks the isolated run: after some k <= n steps, all inside the
      block, it is where the block's n-step run says. */
  lemma {:induction false} BlockInProgram(p: seq<Insn>, env: Env, at: nat, b: seq<Insn>, pc: nat, m: Machine, n: nat)
    returns (k: nat)
    requires Linked(p) && Placed(p, at, b) && pc < |b|
    ensures k <= n && Within(p, env, At(at + pc, m), k, at, at + |b|)
    ensures Run(p, env, At(at + pc, m), k) == Seen(p, at, b, RunLocal(b, env, In(pc, m), n))
    decreases n
  {
    hide StepLocal; hide Step; hide Find; hide Placed;
    k := 0;
    if n > 0 {
      var c := StepLocal(b, env, pc, m);
      StepSeen(p, env, at, b, pc, m);
      var start := At(at + pc, m);
      assert Run(p, env, start, 1) == Seen(p, at, b, c) by {
        assert Run(p, env, start, 1) == Run(p, env, Step(p, env, at + pc, m), 0);
      }
      assert Within(p, env, start, 1, at, at + |b|) by {
        assert Run(p, env, start, 0) == start;
      }
      k := 1;
      if c.In? {
        StepLocalIn(b, env, pc, m);
        var k' := BlockInProgram(p, env, at, b, c.pc, c.m, n - 1);
        WithinAdd(p, env, start, 1, k', at, at + |b|);
        RunAdd(p, env, start, 1, k');
        k := 1 + k';
      }
    }
  }

  lemma StepLocalIn(b: seq<Insn>, env: Env, pc: nat, m: Machine)
    requires pc < |b|
    ensures StepLocal(b, env, pc, m).In? ==> StepLocal(b, env, pc, m).pc < |b|
  {
  }
}
