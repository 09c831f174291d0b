/** Custom blocks (NewMatch): what checkBlock's register contract guarantees about
    every run of any block it accepts, and that wrapping a block preserves its
    labels and its behaviour. */
module Contract {
  import opened Common
  import opened Ebpf
  import opened Builders
  import opened Fragments
  import opened Classifier
  import opened Linking
  import opened Chain

  // -------------------------------------------------------- contract soundness

  /** One instruction the contract allows keeps R6, R7, R8 and R10, and returns nothing. */
  lemma OpKeeps(env: Env, m: Machine, op: Op)
    requires Violation(op).None?
    ensures var e := Exec(env, m, op);
            !e.Return? && (e.Advance? || e.Goto? ==> Preserved(m, e.m))
  {
    hide Le; hide PutLe; hide AluValue;
  }

  predicate StateKept(m: Machine, c: Local) {
    match c
    case In(_, m') => Preserved(m, m')
    case Left(_, m') => Preserved(m, m')
    case Fell(m') => Preserved(m, m')
    case Stopped(_) => false
    case Crash => true
  }

  /** A label the block jumps to without defining it. */
  ghost predicate Foreign(b: seq<Insn>, l: string) {
    !Labelled(b, l) && exists i :: 0 <= i < |b| && Target(b[i].op) == Some(l)
  }

  /** Contract soundness: at every step of every run of an accepted block, from any
      registers and any packet, data_end, data, the queue index and the frame pointer
      are what they were at entry; the block never returns an action, and leaves only
      through a label it names and does not define. */
  lemma {:induction false} ContractSound(b: seq<Insn>, env: Env, pc: nat, m: Machine, n: nat)
    requires pc < |b| && ContractOk(b)
    ensures var c := RunLocal(b, env, In(pc, m), n);
            StateKept(m, c) && (c.Left? ==> Foreign(b, c.sym))
    decreases n
  {
    if n > 0 {
      hide Exec; hide Find; hide Violation; hide Preserved;
      PreservedRules(m, m, m);
      var e := Exec(env, m, b[pc].op);
      assert Violation(b[pc].op).None?;
      OpKeeps(env, m, b[pc].op);
      if e.Goto? { GotoIsTarget(env, m, b[pc].op); }
      var c := StepLocal(b, env, pc, m);
      if c.In? {
        ContractSound(b, env, c.pc, c.m, n - 1);
        var d := RunLocal(b, env, c, n - 1);
        if d.In? || d.Left? || d.Fell? { PreservedRules(m, c.m, d.m); }
      }
    }
  }

  lemma PreservedRules(m: Machine, m1: Machine, m2: Machine)
    ensures Preserved(m, m)
    ensures Preserved(m, m1) && Preserved(m1, m2) ==> Preserved(m, m2)
  {
  }

  /** Labels the block's jumps may name: its own, Next and Redirect. */
  predicate Confined(b: seq<Insn>, next: string, redirect: string) {
    forall i :: 0 <= i < |b| && Target(b[i].op).Some? ==>
      Target(b[i].op).value in {next, redirect} || Labelled(b, Target(b[i].op).value)
  }

  /** A block that ends in an unconditional jump never falls off its end. */
  lemma {:induction false} NeverFalls(b: seq<Insn>, env: Env, pc: nat, m: Machine, n: nat)
    requires pc < |b| && Terminates(b)
    ensures !RunLocal(b, env, In(pc, m), n).Fell?
    decreases n
  {
    if n > 0 {
      hide Exec; hide Find;
      JaGoes(env, m, b[pc].op);
      var c := StepLocal(b, env, pc, m);
      if c.In? { NeverFalls(b, env, c.pc, c.m, n - 1); }
    }
  }

  lemma JaGoes(env: Env, m: Machine, op: Op)
    ensures op.Ja? ==> Exec(env, m, op).Goto?
  {
  }

  /** A confined, terminated, accepted block can be left only through Next or
      Redirect, with the reserved registers intact. */
  lemma LeavesByContract(b: seq<Insn>, env: Env, m: Machine, next: string, redirect: string, c: Local)
    requires ContractOk(b) && Terminates(b) && Confined(b, next, redirect) && Settles(b, env, m, c)
    ensures c.Crash? || (c.Left? && c.sym in {next, redirect} && Preserved(m, c.m))
  {
    hide Find; hide Violation; hide Preserved; hide RunLocal;
    var n: nat :| RunLocal(b, env, In(0, m), n) == c;
    ContractSound(b, env, 0, m, n);
    NeverFalls(b, env, 0, m, n);
  }

  // ------------------------------------------------------------------ wrapping

  /** 1 when NewMatch prepends a filler to carry the entry symbol. */
  function Filler(user: seq<Insn>): nat { if user != [] && user[0].symbol != "" then 1 else 0 }

  /** The builder does not itself use the block's entry symbol or define Next. */
  predicate Polite(user: seq<Insn>, entry: string, next: string) {
    && entry != "" && next != "" && next != entry && !Labelled(user, next)
    && (forall i :: 0 <= i < |user| ==> user[i].symbol != entry)
    && (forall i :: 0 <= i < |user| && Target(user[i].op).Some? ==>
          Target(user[i].op).value != entry && Target(user[i].op).value != "")
  }

  lemma WrappedParts(user: seq<Insn>, entry: string, next: string)
    ensures var w, s := Wrapped(user, entry, next), Filler(user);
            && w[0].symbol == entry && Terminates(w)
            && Carried(user, w, s, entry, next) && (s == 1 ==> w[0].op == Alu(Mov, R0, Imm(0)))
  {
    hide Wrapped; hide Closed; hide Filler; hide WithEntry;
    var c, w := Closed(user, next), Wrapped(user, entry, next);
    ClosedParts(user, next);
    WrappedIs(user, entry, next);
    if Filler(user) == 1 {
      FilledParts(user, c, w, entry, next);
    } else {
      RelabelledParts(c, entry);
      SameParts(user, c, w, entry, next);
    }
  }

  /** `c` is the builder's code with its fall-through made explicit. */
  predicate ClosedBy(user: seq<Insn>, c: seq<Insn>, next: string) {
    && c != [] && |c| == |user| + (if Terminates(user) then 0 else 1)
    && (forall i :: 0 <= i < |user| ==> c[i] == user[i])
    && (user == [] ==> c[0].symbol == "")
    && c[|c| - 1].op.Ja? && (!Terminates(user) ==> c[|c| - 1] == I(Ja(next)))
  }

  /** The code is in `w` from `s` on, under the entry symbol. */
  predicate Carried(user: seq<Insn>, w: seq<Insn>, s: nat, entry: string, next: string) {
    && |w| == s + |user| + (if Terminates(user) then 0 else 1) && w != []
    && w[0].symbol == entry && w[|w| - 1].op.Ja?
    && (forall i :: 0 <= i < |user| ==> w[s + i].op == user[i].op)
    && (forall i :: 0 <= i < |user| && s + i > 0 ==> w[s + i].symbol == user[i].symbol)
    && (!Terminates(user) ==> w[|w| - 1].op == Ja(next) && (user != [] ==> w[|w| - 1].symbol == ""))
  }

  lemma FilledParts(user: seq<Insn>, c: seq<Insn>, w: seq<Insn>, entry: string, next: string)
    requires ClosedBy(user, c, next) && w == [Insn(entry, Alu(Mov, R0, Imm(0)))] + c
    ensures Carried(user, w, 1, entry, next) && w[0].op == Alu(Mov, R0, Imm(0))
  {
    hide Terminates;
    forall i | 0 <= i < |c| ensures w[1 + i] == c[i] {}
    assert w[|w| - 1] == c[|c| - 1];
  }

  lemma SameParts(user: seq<Insn>, c: seq<Insn>, w: seq<Insn>, entry: string, next: string)
    requires ClosedBy(user, c, next) && |w| == |c| && w[0].symbol == entry && w[0].op == c[0].op
    requires forall i :: 0 < i < |c| ==> w[i] == c[i]
    ensures Carried(user, w, 0, entry, next)
  {
    hide Terminates;
    forall i | 0 <= i < |user| ensures w[0 + i].op == user[i].op {
      assert c[i] == user[i];
    }
  }

  /** The two forms a wrapped block takes. */
  lemma WrappedIs(user: seq<Insn>, entry: string, next: string)
    ensures var c, w := Closed(user, next), Wrapped(user, entry, next);
            if Filler(user) == 1 then w == [Insn(entry, Alu(Mov, R0, Imm(0)))] + c else w == WithEntry(entry, c)
    ensures Filler(user) == 0 || Filler(user) == 1
    ensures Filler(user) == 0 && user != [] ==> user[0].symbol == ""
  {
    hide Closed; hide ClosedBy;
    ClosedParts(user, next);
  }

  lemma RelabelledParts(c: seq<Insn>, entry: string)
    requires c != []
    ensures var w := WithEntry(entry, c);
            && |w| == |c| && w[0].symbol == entry && w[0].op == c[0].op
            && forall i :: 0 < i < |c| ==> w[i] == c[i]
  {
  }

  lemma ClosedParts(user: seq<Insn>, next: string)
    ensures ClosedBy(user, Closed(user, next), next) && (user != [] ==> Closed(user, next)[0] == user[0])
  {
  }

  /** Every label the builder placed still labels the same instruction. */
  lemma LabelsSurvive(user: seq<Insn>, entry: string, next: string, sym: string)
    requires Polite(user, entry, next) && sym != "" && sym != entry
    ensures var w := Wrapped(user, entry, next);
            && (Labelled(w, sym) <==> Labelled(user, sym))
            && (Labelled(user, sym) ==> Find(w, sym) == Find(user, sym) + Filler(user))
  {
    hide Wrapped; hide Terminates;
    var w, s, i := Wrapped(user, entry, next), Filler(user), Find(user, sym);
    WrappedParts(user, entry, next);
    if i < |user| {
      assert w[s + i].symbol == sym;
      forall j | 0 <= j < s + i ensures w[j].symbol != sym {
        if j > 0 { assert w[s + (j - s)].symbol == user[j - s].symbol; }
      }
    } else {
      forall j | 0 <= j < |w| ensures w[j].symbol != sym {
        if 0 < j < s + |user| { assert w[s + (j - s)].symbol == user[j - s].symbol; }
      }
    }
  }

  /** Where the wrapped block is when the builder's own code is in `c`: the same
      place, except that falling off the end has become a jump to Next. */
  function Outcome(c: Local, s: nat, next: string): Local {
    match c
    case In(pc, m) => In(s + pc, m)
    case Fell(m) => Left(next, m)
    case other => other
  }

  /** One step of the builder's code is one step of the wrapped block (and one more,
      the appended jump, if it falls off the end). */
  lemma WrappedStep(user: seq<Insn>, entry: string, next: string, env: Env, pc: nat, m: Machine)
    requires Polite(user, entry, next) && pc < |user|
    ensures var w, s := Wrapped(user, entry, next), Filler(user);
            var c := StepLocal(user, env, pc, m);
            s + pc < |w| &&
            if c.Fell? then StepLocal(w, env, s + pc, m) == In(|w| - 1, c.m) && StepLocal(w, env, |w| - 1, c.m) == Left(next, c.m)
            else StepLocal(w, env, s + pc, m) == Outcome(c, s, next)
  {
    hide Exec; hide Find; hide Wrapped;
    WrappedParts(user, entry, next);
    LabelsSurvive(user, entry, next, next);
    var w, s := Wrapped(user, entry, next), Filler(user);
    assert w[s + pc].op == user[pc].op;
    var e := Exec(env, m, user[pc].op);
    if e.Goto? {
      GotoIsTarget(env, m, user[pc].op);
      LabelsSurvive(user, entry, next, e.sym);
    } else if e.Advance? && pc + 1 == |user| {
      JaGoes(env, m, user[pc].op);
      AppendedJump(env, e.m, next);
    }
  }

  lemma AppendedJump(env: Env, m: Machine, next: string)
    ensures Exec(env, m, Ja(next)) == Goto(next, m)
  {
  }

  lemma {:induction false} WrappedRun(user: seq<Insn>, entry: string, next: string, env: Env, pc: nat, m: Machine, n: nat)
    returns (k: nat)
    requires Polite(user, entry, next) && pc < |user|
    ensures var w, s := Wrapped(user, entry, next), Filler(user);
            s + pc < |w| &&
            RunLocal(w, env, In(s + pc, m), k) == Outcome(RunLocal(user, env, In(pc, m), n), s, next)
    decreases n
  {
    hide StepLocal; hide Wrapped; hide Polite;
    var w, s := Wrapped(user, entry, next), Filler(user);
    WrappedStep(user, entry, next, env, pc, m);
    k := 0;
    if n > 0 {
      var c := StepLocal(user, env, pc, m);
      StepLocalIn(user, env, pc, m);
      if c.In? {
        var k' := WrappedRun(user, entry, next, env, c.pc, c.m, n - 1);
        k := k' + 1;
      } else if c.Fell? {
        k := 2;
        TwoLocalSteps(w, env, s + pc, m);
      } else {
        k := 1;
        TwoLocalSteps(w, env, s + pc, m);
      }
    }
  }

  lemma TwoLocalSteps(w: seq<Insn>, env: Env, pc: nat, m: Machine)
    requires pc < |w|
    ensures RunLocal(w, env, In(pc, m), 1) == StepLocal(w, env, pc, m)
    ensures var c := StepLocal(w, env, pc, m);
            c.In? ==> c.pc < |w| && RunLocal(w, env, In(pc, m), 2) == StepLocal(w, env, c.pc, c.m)
  {
    StepLocalIn(w, env, pc, m);
    var c := StepLocal(w, env, pc, m);
    assert RunLocal(w, env, In(pc, m), 2) == RunLocal(w, env, c, 1);
  }

  /** The machine the builder's first instruction sees. */
  function AfterFiller(user: seq<Insn>, m: Machine): Machine {
    if Filler(user) == 1 then Set(m, R0, 0) else m
  }

  /** Wrapping preserves meaning: however the builder's own code ends, the block
      NewMatch emits ends the same way, with fall-through meaning Next. */
  lemma WrappedMeaning(user: seq<Insn>, entry: string, next: string, env: Env, m: Machine, c: Local)
    requires Polite(user, entry, next) && Settles(user, env, AfterFiller(user, m), c)
    ensures Settles(Wrapped(user, entry, next), env, m, Outcome(c, Filler(user), next))
  {
    hide Wrapped; hide Polite; hide RunLocal;
    var w, s := Wrapped(user, entry, next), Filler(user);
    var m1 := AfterFiller(user, m);
    var n: nat :| RunLocal(user, env, In(0, m1), n) == c;
    var k := WrappedRun(user, entry, next, env, 0, m1, n);
    WrappedParts(user, entry, next);
    if s == 1 {
      assert StepLocal(w, env, 0, m) == In(1, m1);
      TwoLocalSteps(w, env, 0, m);
      RunLocalAdd(w, env, In(0, m), 1, k);
      assert RunLocal(w, env, In(0, m), 1 + k) == Outcome(c, s, next);
    } else {
      assert RunLocal(w, env, In(0, m), k) == Outcome(c, s, next);
    }
  }

  /** The wrapped block passes checkBlock iff the builder's code does. */
  lemma WrappedContract(user: seq<Insn>, entry: string, next: string)
    ensures ContractOk(Wrapped(user, entry, next)) <==> ContractOk(user)
  {
    hide Wrapped;
    var w, s := Wrapped(user, entry, next), Filler(user);
    WrappedParts(user, entry, next);
    if ContractOk(w) {
      forall i | 0 <= i < |user| ensures Violation(user[i].op).None? { assert w[s + i].op == user[i].op; }
    }
    if ContractOk(user) {
      forall i | 0 <= i < |w| ensures Violation(w[i].op).None? {
        if s <= i < s + |user| { assert w[s + (i - s)].op == user[i - s].op; }
      }
    }
  }
}
