/** The classification chain. For any linked program built around any blocks,
    built-in or custom, the program's verdict is the fold of the blocks' own runs:
    exceptions first, each hit leaving the packet to the kernel, then matches, each
    hit redirecting it, and "pass" when nothing hits. */
module Chain {
  import opened Ebpf
  import opened Fragments
  import opened Classifier
  import opened Linking

  /** The isolated run of the block ends as `c`. */
  ghost predicate Settles(b: seq<Insn>, env: Env, m: Machine, c: Local) {
    b != [] && !c.In? && exists n: nat :: RunLocal(b, env, In(0, m), n) == c
  }

  lemma SettlesOnce(b: seq<Insn>, env: Env, m: Machine, c: Local, d: Local)
    requires Settles(b, env, m, c) && Settles(b, env, m, d)
    ensures c == d
  {
    var i: nat :| RunLocal(b, env, In(0, m), i) == c;
    var j: nat :| RunLocal(b, env, In(0, m), j) == d;
    if i <= j {
      RunLocalAdd(b, env, In(0, m), i, j - i);
    } else {
      RunLocalAdd(b, env, In(0, m), j, i - j);
    }
  }

  /** From block k on, with machine `m`, the chain ends with `hit` (redirect) or
      not (pass), leaving `m'`. Memory and scratch registers flow from block to
      block exactly as the blocks leave them. */
  ghost predicate Ends(blocks: seq<seq<Insn>>, nE: nat, env: Env, k: nat, m: Machine, hit: bool, m': Machine)
    requires k <= |blocks|
    decreases |blocks| - k
  {
    if k == |blocks| then !hit && m' == m
    else exists l: string, m1: Machine ::
      Settles(blocks[k], env, m, Left(l, m1)) &&
      if l == HitName(nE, k) then hit == (k >= nE) && m' == m1
      else l == NextName(nE, |blocks|, k) && Ends(blocks, nE, env, k + 1, m1, hit, m')
  }

  lemma EndsAtEnd(blocks: seq<seq<Insn>>, nE: nat, env: Env, m: Machine, hit: bool, m': Machine)
    ensures Ends(blocks, nE, env, |blocks|, m, hit, m') <==> !hit && m' == m
  {
  }

  lemma EndsByHit(blocks: seq<seq<Insn>>, nE: nat, env: Env, k: nat, m: Machine, m1: Machine)
    requires k < |blocks| && Settles(blocks[k], env, m, Left(HitName(nE, k), m1))
    ensures Ends(blocks, nE, env, k, m, k >= nE, m1)
  {
    hide Settles;
  }

  lemma EndsByNext(blocks: seq<seq<Insn>>, nE: nat, env: Env, k: nat, m: Machine, m1: Machine, hit: bool, m': Machine)
    requires k < |blocks| && Settles(blocks[k], env, m, Left(NextName(nE, |blocks|, k), m1))
    requires NextName(nE, |blocks|, k) != HitName(nE, k) && Ends(blocks, nE, env, k + 1, m1, hit, m')
    ensures Ends(blocks, nE, env, k, m, hit, m')
  {
    hide Settles; hide NextName; hide HitName;
  }

  lemma EndsCases(blocks: seq<seq<Insn>>, nE: nat, env: Env, k: nat, m: Machine, hit: bool, m': Machine)
    returns (l: string, m1: Machine, steps: nat)
    requires k < |blocks| && Ends(blocks, nE, env, k, m, hit, m')
    ensures blocks[k] != [] && RunLocal(blocks[k], env, In(0, m), steps) == Left(l, m1)
    ensures if l == HitName(nE, k) then hit == (k >= nE) && m' == m1
            else l == NextName(nE, |blocks|, k) && Ends(blocks, nE, env, k + 1, m1, hit, m')
  {
    hide NextName; hide HitName; hide RunLocal;
    l, m1 :|
      Settles(blocks[k], env, m, Left(l, m1)) &&
      if l == HitName(nE, k) then hit == (k >= nE) && m' == m1
      else l == NextName(nE, |blocks|, k) && Ends(blocks, nE, env, k + 1, m1, hit, m');
    steps :| RunLocal(blocks[k], env, In(0, m), steps) == Left(l, m1);
  }

  function Offset(blocks: seq<seq<Insn>>, k: nat): nat
    requires k <= |blocks|
  {
    if k == 0 then 0 else Offset(blocks, k - 1) + |blocks[k - 1]|
  }

  /** A program with the chain at `at` and the pass and redirect tails behind it. */
  ghost predicate Holding(p: seq<Insn>, at: nat, blocks: seq<seq<Insn>>, nE: nat) {
    && Linked(p) && nE < |blocks|
    && (forall k :: 0 <= k < |blocks| ==>
          blocks[k] != [] && blocks[k][0].symbol == EntryName(nE, k) && Placed(p, at + Offset(blocks, k), blocks[k]))
    && Find(p, "pass") == at + Offset(blocks, |blocks|)
    && Find(p, "redirect") == at + Offset(blocks, |blocks|) + 2
  }

  lemma {:induction false} OffsetMonotone(blocks: seq<seq<Insn>>, j: nat, k: nat)
    requires j <= k <= |blocks|
    ensures Offset(blocks, j) <= Offset(blocks, k)
  {
    if j < k { OffsetMonotone(blocks, j, k - 1); }
  }

  lemma EntryNameNonEmpty(nE: nat, k: nat)
    ensures EntryName(nE, k) != ""
  {
  }

  lemma HoldingAt(p: seq<Insn>, at: nat, blocks: seq<seq<Insn>>, nE: nat, k: nat)
    requires Holding(p, at, blocks, nE) && k < |blocks|
    ensures Linked(p) && blocks[k] != [] && Placed(p, at + Offset(blocks, k), blocks[k])
    ensures at + Offset(blocks, k) < |p| && p[at + Offset(blocks, k)].symbol == EntryName(nE, k)
  {
    hide Find; hide EntryName; hide Linked; hide Offset;
    var j := at + Offset(blocks, k);
    assert p[j..j + |blocks[k]|][0] == p[j];
  }

  lemma HoldingTails(p: seq<Insn>, at: nat, blocks: seq<seq<Insn>>, nE: nat)
    requires Holding(p, at, blocks, nE)
    ensures Find(p, "pass") == at + Offset(blocks, |blocks|) && Find(p, "redirect") == Find(p, "pass") + 2
    ensures nE < |blocks|
  {
    hide Find; hide Linked;
  }

  /** The k-th block's "no match" target is where the next block, or the pass tail, starts. */
  lemma NextIsAt(p: seq<Insn>, at: nat, blocks: seq<seq<Insn>>, nE: nat, k: nat)
    requires Holding(p, at, blocks, nE) && k < |blocks|
    ensures Find(p, NextName(nE, |blocks|, k)) == at + Offset(blocks, k + 1)
  {
    hide Find; hide EntryName; hide Holding; hide Offset;
    HoldingTails(p, at, blocks, nE);
    if k + 1 < |blocks| {
      HoldingAt(p, at, blocks, nE, k + 1);
      EntryNameNonEmpty(nE, k + 1);
      FindUnique(p, at + Offset(blocks, k + 1));
    }
  }

  /** From `c`, n steps below `hi` lead to `d`. */
  ghost predicate Arrives(p: seq<Insn>, env: Env, lo: nat, hi: nat, c: Config, n: nat, d: Config) {
    Within(p, env, c, n, lo, hi) && Run(p, env, c, n) == d
  }

  lemma ArrivesThen(p: seq<Insn>, env: Env, lo: nat, hi: nat, c: Config, n: nat, d: Config, n': nat, e: Config)
    requires Arrives(p, env, lo, hi, c, n, d) && Arrives(p, env, lo, hi, d, n', e)
    ensures Arrives(p, env, lo, hi, c, n + n', e)
  {
    hide Run; hide Within;
    WithinAdd(p, env, c, n, n', lo, hi);
    RunAdd(p, env, c, n, n');
  }

  /** Splicing theorem: the program reaches the tail the chain ends at, and until
      then it stays below the tails. */
  lemma {:induction false} ChainInProgram(p: seq<Insn>, env: Env, at: nat, blocks: seq<seq<Insn>>, nE: nat,
                                          k: nat, m: Machine, hit: bool, m': Machine) returns (n: nat)
    requires Holding(p, at, blocks, nE) && k <= |blocks| && Ends(blocks, nE, env, k, m, hit, m')
    ensures Arrives(p, env, at, at + Offset(blocks, |blocks|), At(at + Offset(blocks, k), m), n,
                    At(Find(p, if hit then "redirect" else "pass"), m'))
    decreases |blocks| - k
  {
    hide Find; hide NextName; hide Holding; hide Arrives; hide Ends; hide Offset; hide RunLocal;
    n := 0;
    var end := at + Offset(blocks, |blocks|);
    if k == |blocks| {
      EndsAtEnd(blocks, nE, env, m, hit, m');
      HoldingTails(p, at, blocks, nE);
      NoStepsYet(p, env, At(end, m), at, end);
    } else {
      var l, m1, steps := EndsCases(blocks, nE, env, k, m, hit, m');
      n := BlockToExit(p, env, at, blocks, nE, k, m, l, m1, steps);
      if l != HitName(nE, k) {
        NextIsAt(p, at, blocks, nE, k);
        var n' := ChainInProgram(p, env, at, blocks, nE, k + 1, m1, hit, m');
        ArrivesThen(p, env, at, end, At(at + Offset(blocks, k), m), n, At(Find(p, l), m1), n',
                    At(Find(p, if hit then "redirect" else "pass"), m'));
        n := n + n';
      }
    }
  }

  lemma NoStepsYet(p: seq<Insn>, env: Env, c: Config, lo: nat, hi: nat)
    ensures Arrives(p, env, lo, hi, c, 0, c)
  {
    RunZero(p, env, c, lo, hi);
  }

  /** The program runs block k from its start to the label it leaves for. */
  lemma BlockToExit(p: seq<Insn>, env: Env, at: nat, blocks: seq<seq<Insn>>, nE: nat, k: nat, m: Machine, l: string, m1: Machine,
                    steps: nat) returns (n: nat)
    requires Holding(p, at, blocks, nE) && k < |blocks| && blocks[k] != []
    requires RunLocal(blocks[k], env, In(0, m), steps) == Left(l, m1)
    ensures Arrives(p, env, at, at + Offset(blocks, |blocks|), At(at + Offset(blocks, k), m), n, At(Find(p, l), m1))
  {
    hide Find; hide Placed; hide Linked; hide RunLocal; hide EntryName; hide Run; hide Holding; hide Within;
    HoldingAt(p, at, blocks, nE, k);
    var b, from := blocks[k], at + Offset(blocks, k);
    n := BlockInProgram(p, env, from, b, 0, m, steps);
    OffsetMonotone(blocks, k + 1, |blocks|);
    WithinWiden(p, env, At(from, m), n, from, from + |b|, at, at + Offset(blocks, |blocks|));
  }

  lemma RunZero(p: seq<Insn>, env: Env, c: Config, lo: nat, hi: nat)
    ensures Run(p, env, c, 0) == c && Within(p, env, c, 0, lo, hi)
  {
  }

  lemma WithinWiden(p: seq<Insn>, env: Env, c: Config, n: nat, lo: nat, hi: nat, lo': nat, hi': nat)
    requires Within(p, env, c, n, lo, hi) && lo' <= lo && hi <= hi'
    ensures Within(p, env, c, n, lo', hi')
  {
    hide Run;
  }

  // -------------------------------------------- blocks that decide a predicate

  /** On packet `pkt`, from every register state that delimits it, the block leaves
      for its hit or its next target as `v` says and keeps what others rely on. */
  ghost predicate Decides(b: seq<Insn>, env: Env, pkt: seq<u8>, next: string, hit: string, v: bool) {
    forall m: Machine :: Entry(env, m) && m.pkt == pkt ==>
      exists m': Machine :: Kept(m, m') && Settles(b, env, m, Left(if v then hit else next, m'))
  }

  /** Every block of the chain decides; `v` lists what they say of `pkt`. */
  ghost predicate AllDecide(blocks: seq<seq<Insn>>, nE: nat, env: Env, pkt: seq<u8>, v: seq<bool>) {
    |v| == |blocks| && nE < |blocks| &&
    forall k :: 0 <= k < |blocks| ==> Decides(blocks[k], env, pkt, NextName(nE, |blocks|, k), HitName(nE, k), v[k])
  }

  /** The first block that hits decides: an exception keeps the packet, a match takes it. */
  function FirstHit(v: seq<bool>, nE: nat, k: nat): bool
    requires k <= |v|
    decreases |v| - k
  {
    if k == |v| then false else if v[k] then k >= nE else FirstHit(v, nE, k + 1)
  }

  /** Redirected: no exception holds and some match does. */
  lemma {:induction false} FirstHitMeaning(v: seq<bool>, nE: nat, k: nat)
    requires nE <= |v| && k <= |v|
    ensures FirstHit(v, nE, k) <==>
              (forall i :: k <= i < nE ==> !v[i]) && (exists j :: k <= j < |v| && nE <= j && v[j])
    decreases |v| - k
  {
    if k < |v| { FirstHitMeaning(v, nE, k + 1); }
  }

  lemma {:induction false} ChainOfDecided(blocks: seq<seq<Insn>>, nE: nat, env: Env, pkt: seq<u8>, v: seq<bool>, k: nat, m: Machine)
    returns (m': Machine)
    requires AllDecide(blocks, nE, env, pkt, v) && k <= |v| && Entry(env, m) && m.pkt == pkt
    ensures Kept(m, m') && Ends(blocks, nE, env, k, m, FirstHit(v, nE, k), m')
    decreases |v| - k
  {
    hide Settles; hide NextName; hide HitName; hide Ends; hide EntryName; hide Decides; hide Kept; hide Entry;
    KeptRules(env, m, m, m);
    m' := m;
    if k == |v| {
      EndsAtEnd(blocks, nE, env, m, false, m);
    } else {
      var next, hit := NextName(nE, |blocks|, k), HitName(nE, k);
      var m1 := DecideStep(blocks[k], env, m, next, hit, v[k]);
      m' := m1;
      if v[k] {
        EndsByHit(blocks, nE, env, k, m, m1);
      } else {
        NamesDiffer(nE, |blocks|, k);
        m' := ChainOfDecided(blocks, nE, env, pkt, v, k + 1, m1);
        KeptRules(env, m, m1, m');
        EndsByNext(blocks, nE, env, k, m, m1, FirstHit(v, nE, k + 1), m');
      }
    }
  }

  lemma DecideStep(b: seq<Insn>, env: Env, m: Machine, next: string, hit: string, v: bool) returns (m1: Machine)
    requires Decides(b, env, m.pkt, next, hit, v) && Entry(env, m)
    ensures Kept(m, m1) && Settles(b, env, m, Left(if v then hit else next, m1))
    ensures Entry(env, m1) && m1.pkt == m.pkt
  {
    hide Settles;
    m1 :| Kept(m, m1) && Settles(b, env, m, Left(if v then hit else next, m1));
  }

  lemma KeptRules(env: Env, m: Machine, m1: Machine, m2: Machine)
    ensures Kept(m, m)
    ensures Kept(m, m1) && Kept(m1, m2) ==> Kept(m, m2)
  {
  }

  lemma NamesDiffer(nE: nat, n: nat, k: nat)
    requires k < n && nE < n
    ensures NextName(nE, n, k) != HitName(nE, k)
  {
    hide Itoa;
    if k + 1 < n {
      var s := EntryName(nE, k + 1);
      assert s[0] == 'e' || s[0] == 'm';
    }
  }
}
