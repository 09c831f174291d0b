/** The assembled XDP program (newFilterProgram): its labels link, it halts on
    every packet, it reaches its redirect tail exactly for the packets the rules
    select, and the tail delivers to the socket of the packet's own queue. */
module Filter {
  import opened Bits
  import opened Common
  import opened Ebpf
  import opened Wire
  import opened Symbols
  import opened Builders
  import opened Fragments
  import opened Refinement
  import opened Classifier
  import opened Linking
  import opened BlockShape
  import opened Chain

  // ------------------------------------------------------------ entry symbols

  function Value(s: string): nat {
    if s == "" then 0 else 10 * Value(s[..|s| - 1]) + DigitValue(s[|s| - 1])
  }

  function DigitValue(c: char): nat {
    if c == '1' then 1 else if c == '2' then 2 else if c == '3' then 3 else if c == '4' then 4
    else if c == '5' then 5 else if c == '6' then 6 else if c == '7' then 7 else if c == '8' then 8
    else if c == '9' then 9 else 0
  }

  lemma DigitRoundTrip(d: nat)
    requires d < 10
    ensures DigitValue(Digit(d)) == d && Digit(d) != '_'
  {
  }

  lemma {:induction false} ItoaRoundTrip(n: nat)
    ensures Value(Itoa(n)) == n
    ensures forall i :: 0 <= i < |Itoa(n)| ==> Itoa(n)[i] != '_'
  {
    hide Digit; hide DigitValue;
    var s := Itoa(n);
    DigitRoundTrip(n % 10);
    if n >= 10 {
      ItoaRoundTrip(n / 10);
      assert s[..|s| - 1] == Itoa(n / 10);
    } else {
      DigitRoundTrip(n);
      assert s[..|s| - 1] == "";
    }
  }

  lemma {:induction false} StemOfPlain(s: string)
    requires forall i :: 0 <= i < |s| ==> s[i] != '_'
    ensures Stem(s) == s
  {
    if s != "" { StemOfPlain(s[1..]); }
  }

  lemma EntryStem(nE: nat, k: nat)
    ensures Stem(EntryName(nE, k)) == EntryName(nE, k)
  {
    hide Itoa; hide Stem;
    var i := if k < nE then k else k - nE;
    ItoaRoundTrip(i);
    StemOfPlain(EntryName(nE, k));
  }

  /** Entry symbols are distinct, from each other and from the tails. */
  lemma EntryDistinct(nE: nat, j: nat, k: nat)
    ensures EntryName(nE, j) == EntryName(nE, k) <==> j == k
    ensures EntryName(nE, k) != "pass" && EntryName(nE, k) != "redirect"
  {
    hide Itoa;
    var a, b := EntryName(nE, j), EntryName(nE, k);
    var i, l := if j < nE then j else j - nE, if k < nE then k else k - nE;
    ItoaRoundTrip(i);
    ItoaRoundTrip(l);
    assert (j < nE <==> a[0] == 'e') && (k < nE <==> b[0] == 'e');
    if a == b {
      if j < nE {
        assert Itoa(i) == a[6..] == b[6..] == Itoa(l);
      } else {
        assert Itoa(i) == a[5..] == b[5..] == Itoa(l);
      }
    }
    assert b[0] == 'e' || b[0] == 'm';
  }

  /** And so are all labels derived from them. */
  lemma LabelsDistinct(nE: nat, j: nat, k: nat, s: string, t: string)
    requires j != k && Suffix(s) && Suffix(t)
    ensures EntryName(nE, j) + s != EntryName(nE, k) + t
  {
    hide EntryName; hide Stem;
    EntryStem(nE, j);
    EntryStem(nE, k);
    StemOfLabel(EntryName(nE, j), s);
    StemOfLabel(EntryName(nE, k), t);
    EntryDistinct(nE, j, k);
  }

  /** The names a block of the chain is built with belong to other blocks. */
  lemma ChainNames(nE: nat, n: nat, k: nat)
    requires k < n
    ensures Names(EntryName(nE, k), NextName(nE, n, k), HitName(nE, k))
  {
    hide EntryName; hide Stem;
    EntryStem(nE, k);
    EntryStem(nE, k + 1);
    EntryDistinct(nE, k, k + 1);
    EntryDistinct(nE, k + 1, k);
    EntryNameNonEmpty(nE, k);
    EntryNameNonEmpty(nE, k + 1);
    StemOfPlain("pass");
    StemOfPlain("redirect");
  }

  // -------------------------------------------------------- flattened blocks

  lemma {:induction false} FlatPlaced(bs: seq<seq<Insn>>, k: nat)
    requires k < |bs|
    ensures Offset(bs, k) + |bs[k]| <= |Flat(bs)|
    ensures Flat(bs)[Offset(bs, k)..Offset(bs, k) + |bs[k]|] == bs[k]
  {
    if k > 0 {
      FlatPlaced(bs[1..], k - 1);
      OffsetTail(bs, k);
    }
  }

  lemma {:induction false} OffsetTail(bs: seq<seq<Insn>>, k: nat)
    requires 0 < k <= |bs|
    ensures Offset(bs, k) == |bs[0]| + Offset(bs[1..], k - 1)
  {
    if k > 1 { OffsetTail(bs, k - 1); }
  }

  lemma {:induction false} FlatLength(bs: seq<seq<Insn>>)
    ensures |Flat(bs)| == Offset(bs, |bs|)
  {
    if bs != [] {
      FlatLength(bs[1..]);
      OffsetTail(bs, |bs|);
    }
  }

  /** Every instruction of the flattened chain is in some block. */
  lemma {:induction false} FlatIndex(bs: seq<seq<Insn>>, i: nat) returns (k: nat, j: nat)
    requires i < |Flat(bs)|
    ensures k < |bs| && j < |bs[k]| && i == Offset(bs, k) + j && Flat(bs)[i] == bs[k][j]
  {
    if i < |bs[0]| {
      k, j := 0, i;
    } else {
      k, j := FlatIndex(bs[1..], i - |bs[0]|);
      OffsetTail(bs, k + 1);
      k := k + 1;
    }
  }

  // ------------------------------------------------------------ the rule chain

  /** The k-th block of a chain of rules. */
  function RuleBlock(all: seq<Rule>, nE: nat, k: nat): seq<Insn>
    requires k < |all|
  {
    Code(all[k], EntryName(nE, k), NextName(nE, |all|, k), HitName(nE, k))
  }

  function RuleBlocks(all: seq<Rule>, nE: nat): (bs: seq<seq<Insn>>)
    ensures |bs| == |all| && forall k :: 0 <= k < |all| ==> bs[k] == RuleBlock(all, nE, k)
  {
    seq(|all|, k requires 0 <= k < |all| => RuleBlock(all, nE, k))
  }

  predicate RulesOk(rs: seq<Rule>) { forall i :: 0 <= i < |rs| ==> RuleOk(rs[i]) }

  /** classifierBlocks accepts every list of rules, with no check failing. */
  lemma {:induction false} BlocksOfRules(all: seq<Rule>, nE: nat, k: nat)
    requires RulesOk(all) && k <= |all|
    ensures Buildable(FromRules(all)) && Blocks(FromRules(all), nE, k) == Ok(RuleBlocks(all, nE)[k..])
    decreases |all| - k
  {
    hide Code; hide EntryName; hide NextName; hide HitName; hide WellShaped;
    if k < |all| {
      BlocksOfRules(all, nE, k + 1);
      ChainNames(nE, |all|, k);
      CodeShaped(all[k], EntryName(nE, k), NextName(nE, |all|, k), HitName(nE, k));
      ShapedIsOk(RuleBlock(all, nE, k), EntryName(nE, k), NextName(nE, |all|, k), HitName(nE, k));
      assert Emit(FromRules(all), nE, k) == Ok(RuleBlock(all, nE, k));
      assert RuleBlocks(all, nE)[k..] == [RuleBlock(all, nE, k)] + RuleBlocks(all, nE)[k + 1..];
    }
  }

  lemma ShapedIsOk(b: seq<Insn>, entry: string, next: string, redirect: string)
    requires WellShaped(b, entry, next, redirect)
    ensures ContractOk(b) && AllPlain(b) && Forward(b) && Shaped(b, entry, next, redirect)
  {
  }

  /** Every block of a rule chain is well shaped. */
  lemma RuleBlockShaped(all: seq<Rule>, nE: nat, k: nat)
    requires RulesOk(all) && k < |all|
    ensures WellShaped(RuleBlock(all, nE, k), EntryName(nE, k), NextName(nE, |all|, k), HitName(nE, k))
  {
    hide WellShaped; hide Code; hide Names;
    ChainNames(nE, |all|, k);
    CodeShaped(all[k], EntryName(nE, k), NextName(nE, |all|, k), HitName(nE, k));
  }

  /** A built-in block decides its rule. */
  lemma CodeDecides(r: Rule, entry: string, next: string, redirect: string, env: Env, pkt: seq<u8>)
    requires RuleOk(r) && Names(entry, next, redirect)
    ensures Decides(Code(r, entry, next, redirect), env, pkt, next, redirect, Matches(r, pkt))
  {
    hide Flow; hide Code; hide Matches; hide Names; hide Kept; hide Entry; hide RunLocal;
    var b := Code(r, entry, next, redirect);
    forall m: Machine | Entry(env, m) && m.pkt == pkt
      ensures exists m': Machine :: Kept(m, m') && Settles(b, env, m, Left(if Matches(r, pkt) then redirect else next, m'))
    {
      BlockDecides(r, env, m, entry, next, redirect);
      var o := Flow(b, env, 0, m);
      FlowIsRun(b, env, 0, m);
      assert Kept(m, o.m) && Settles(b, env, m, o);
    }
  }

  /** And so it does in its place in the chain. */
  lemma RuleBlockDecides(all: seq<Rule>, nE: nat, k: nat, env: Env, pkt: seq<u8>)
    requires RulesOk(all) && k < |all|
    ensures Decides(RuleBlock(all, nE, k), env, pkt, NextName(nE, |all|, k), HitName(nE, k), Matches(all[k], pkt))
  {
    hide Code; hide EntryName; hide NextName; hide HitName; hide Matches; hide Names; hide Decides;
    ChainNames(nE, |all|, k);
    CodeDecides(all[k], EntryName(nE, k), NextName(nE, |all|, k), HitName(nE, k), env, pkt);
  }

  // ------------------------------------------------------- linking the program

  /** Every block of the chain is shaped for its place in it. */
  predicate AllShaped(bs: seq<seq<Insn>>, nE: nat) {
    forall k :: 0 <= k < |bs| ==> Shaped(bs[k], EntryName(nE, k), NextName(nE, |bs|, k), HitName(nE, k))
  }

  /** Block `k` on its own. */
  lemma ShapedAt(bs: seq<seq<Insn>>, nE: nat, k: nat)
    requires AllShaped(bs, nE) && k < |bs|
    ensures Shaped(bs[k], EntryName(nE, k), NextName(nE, |bs|, k), HitName(nE, k))
    ensures bs[k] != [] && bs[k][0].symbol == EntryName(nE, k)
  {
    hide EntryName; hide NextName; hide HitName; hide Find; hide Stem;
  }

  /** A symbol of the chain names its block: its stem is that block's entry symbol. */
  lemma FlatStem(bs: seq<seq<Insn>>, nE: nat, i: nat) returns (k: nat, j: nat)
    requires AllShaped(bs, nE) && i < |Flat(bs)| && Flat(bs)[i].symbol != ""
    ensures k < |bs| && j < |bs[k]| && i == Offset(bs, k) + j && Flat(bs)[i] == bs[k][j]
    ensures Stem(Flat(bs)[i].symbol) == EntryName(nE, k)
  {
    hide EntryName; hide NextName; hide HitName; hide Stem; hide Flat; hide Find; hide AllShaped;
    k, j := FlatIndex(bs, i);
    ShapedAt(bs, nE, k);
  }

  lemma FlatUnique(bs: seq<seq<Insn>>, nE: nat)
    requires AllShaped(bs, nE)
    ensures Unique(Flat(bs))
  {
    hide EntryName; hide NextName; hide HitName; hide Stem; hide Flat; hide Find; hide Offset; hide AllShaped;
    var f := Flat(bs);
    forall i, i' | 0 <= i < i' < |f| && f[i].symbol != "" ensures f[i].symbol != f[i'].symbol {
      var k, j := FlatStem(bs, nE, i);
      if f[i'].symbol != "" {
        var k', j' := FlatStem(bs, nE, i');
        EntryDistinct(nE, k, k');
        ShapedAt(bs, nE, k);
        if k == k' {
          assert Unique(bs[k]) && j < j';
        }
      }
    }
  }

  /** Symbols of the chain are none of the tails'. */
  lemma FlatAvoidsTails(bs: seq<seq<Insn>>, nE: nat)
    requires AllShaped(bs, nE)
    ensures var f := Flat(bs); forall i :: 0 <= i < |f| ==> f[i].symbol != "pass" && f[i].symbol != "redirect"
  {
    hide EntryName; hide NextName; hide HitName; hide Stem; hide Flat; hide Find; hide Offset; hide AllShaped;
    var f := Flat(bs);
    StemOfPlain("pass");
    StemOfPlain("redirect");
    forall i | 0 <= i < |f| ensures f[i].symbol != "pass" && f[i].symbol != "redirect" {
      if f[i].symbol != "" {
        var k, j := FlatStem(bs, nE, i);
        EntryDistinct(nE, k, k);
      }
    }
  }

  /** A program: some unlabelled prologue, the chain, and two labelled tails. */
  function Around(pre: seq<Insn>, blocks: seq<Insn>, post: seq<Insn>): seq<Insn> { pre + blocks + PASS_TAIL + post }

  predicate TailOk(post: seq<Insn>) {
    && post != [] && post[0].symbol == "redirect" && (forall i :: 0 < i < |post| ==> post[i].symbol == "")
    && OnlyTails(post)
  }

  predicate OnlyTails(ins: seq<Insn>) {
    forall i :: 0 <= i < |ins| && Target(ins[i].op).Some? ==> Target(ins[i].op).value in {"pass", "redirect"}
  }

  lemma AroundUnique(pre: seq<Insn>, f: seq<Insn>, post: seq<Insn>)
    requires Unlabelled(pre) && TailOk(post) && Unique(f)
    requires forall i :: 0 <= i < |f| ==> f[i].symbol != "pass" && f[i].symbol != "redirect"
    ensures Unique(Around(pre, f, post))
  {
    hide OnlyTails;
    var p := Around(pre, f, post);
    var a, b := |pre|, |pre| + |f|;
    assert forall i :: 0 <= i < a ==> p[i].symbol == "";
    assert forall i :: a <= i < b ==> p[i] == f[i - a];
    assert p[b].symbol == "pass" && p[b + 1].symbol == "" && p[b + 2].symbol == "redirect";
    assert forall i :: b + 2 < i < |p| ==> p[i] == post[i - b - 2];
    forall i, j | 0 <= i < j < |p| && p[i].symbol != "" ensures p[i].symbol != p[j].symbol {
      if j < b { assert f[i - a].symbol != f[j - a].symbol; }
    }
  }

  lemma LabelledAt(p: seq<Insn>, i: nat)
    requires i < |p|
    ensures Labelled(p, p[i].symbol)
  {
  }

  /** Every jump in a chain lands on a label of the program. */
  lemma ChainTarget(p: seq<Insn>, at: nat, bs: seq<seq<Insn>>, nE: nat, k: nat, j: nat)
    requires AllShaped(bs, nE) && nE < |bs| && k < |bs| && j < |bs[k]| && Target(bs[k][j].op).Some?
    requires Unique(p) && Labelled(p, "pass") && Labelled(p, "redirect") && Placed(p, at, Flat(bs))
    ensures var t := Target(bs[k][j].op).value; t != "" && Labelled(p, t)
  {
    hide EntryName; hide HitName; hide Stem; hide Flat; hide Find; hide Offset; hide AllShaped; hide Placed;
    var b := bs[k];
    var t := Target(b[j].op).value;
    ShapedAt(bs, nE, k);
    ChainNames(nE, |bs|, k);
    if t == NextName(nE, |bs|, k) {
      if k + 1 < |bs| {
        ShapedAt(bs, nE, k + 1);
        PlacedLabel(p, at, bs, k + 1, 0);
      }
    } else if t == HitName(nE, k) {
      HitIsTail(nE, k);
    } else {
      PlacedLabel(p, at, bs, k, Find(b, t));
      FoundHere(b, t);
    }
  }

  lemma FoundHere(b: seq<Insn>, t: string)
    requires Labelled(b, t)
    ensures b[Find(b, t)].symbol == t
  {
  }

  lemma HitIsTail(nE: nat, k: nat)
    ensures HitName(nE, k) in {"pass", "redirect"}
  {
  }

  /** Where instruction `j` of block `k` is in the program. */
  lemma ChainAt(p: seq<Insn>, at: nat, bs: seq<seq<Insn>>, k: nat, j: nat)
    requires k < |bs| && j < |bs[k]| && Placed(p, at, Flat(bs))
    ensures at + Offset(bs, k) + j < at + |Flat(bs)| <= |p| && p[at + Offset(bs, k) + j] == bs[k][j]
  {
    hide Flat; hide Offset;
    var f := Flat(bs);
    FlatPlaced(bs, k);
    var o := Offset(bs, k);
    assert f[o..o + |bs[k]|][j] == f[o + j];
    assert p[at..at + |f|][o + j] == p[at + o + j];
  }

  /** A symbol of block k labels the program too. */
  lemma PlacedLabel(p: seq<Insn>, at: nat, bs: seq<seq<Insn>>, k: nat, j: nat)
    requires k < |bs| && j < |bs[k]| && Placed(p, at, Flat(bs))
    ensures Labelled(p, bs[k][j].symbol)
  {
    hide Flat; hide Offset; hide Find; hide Placed;
    ChainAt(p, at, bs, k, j);
    LabelledAt(p, at + Offset(bs, k) + j);
  }

  lemma TailsFound(p: seq<Insn>, e: nat)
    requires Linked(p) && e + 2 < |p| && p[e].symbol == "pass" && p[e + 2].symbol == "redirect"
    ensures Find(p, "pass") == e && Find(p, "redirect") == e + 2
  {
    hide Find;
    FindUnique(p, e);
    FindUnique(p, e + 2);
  }

  /** Every jump of a program built from a shaped chain finds its one target. */
  lemma ChainLinked(bs: seq<seq<Insn>>, nE: nat, pre: seq<Insn>, post: seq<Insn>)
    requires AllShaped(bs, nE) && nE < |bs|
    requires Unlabelled(pre) && OnlyTails(pre) && TailOk(post)
    ensures Linked(Around(pre, Flat(bs), post))
  {
    hide EntryName; hide HitName; hide NextName; hide Flat; hide Find; hide Offset; hide Stem; hide AllShaped;
    hide Unlabelled; hide Around; hide Placed; hide Unique; hide OnlyTails;
    var f := Flat(bs);
    var p := Around(pre, f, post);
    FlatUnique(bs, nE);
    FlatAvoidsTails(bs, nE);
    AroundUnique(pre, f, post);
    AroundParts(pre, f, post);
    FindUnique(p, |pre| + |f|);
    FindUnique(p, |pre| + |f| + 2);
    forall i | 0 <= i < |p| && Target(p[i].op).Some?
      ensures Target(p[i].op).value != "" && Labelled(p, Target(p[i].op).value)
    {
      if |pre| <= i < |pre| + |f| {
        InChain(p, |pre|, bs, i);
        var k, j := FlatIndex(bs, i - |pre|);
        ChainTarget(p, |pre|, bs, nE, k, j);
      }
    }
  }

  lemma InChain(p: seq<Insn>, at: nat, bs: seq<seq<Insn>>, i: nat)
    requires Placed(p, at, Flat(bs)) && at <= i < at + |Flat(bs)|
    ensures i < |p| && p[i] == Flat(bs)[i - at]
  {
    assert p[at..at + |Flat(bs)|][i - at] == p[i];
  }

  /** Splicing: any shaped chain, between any prologue and tails, links, and sits where it
      was put. Nothing else is asked of the blocks. */
  lemma ChainLinks(bs: seq<seq<Insn>>, nE: nat, pre: seq<Insn>, post: seq<Insn>)
    requires AllShaped(bs, nE) && nE < |bs|
    requires Unlabelled(pre) && OnlyTails(pre) && TailOk(post)
    ensures Holding(Around(pre, Flat(bs), post), |pre|, bs, nE)
  {
    hide EntryName; hide HitName; hide NextName; hide Flat; hide Find; hide Offset; hide Stem; hide AllShaped;
    hide Unlabelled; hide Linked; hide OnlyTails; hide Around; hide Placed;
    var f := Flat(bs);
    var p := Around(pre, f, post);
    ChainLinked(bs, nE, pre, post);
    AroundParts(pre, f, post);
    FlatLength(bs);
    TailsFound(p, |pre| + |f|);
    forall k | 0 <= k < |bs|
      ensures bs[k] != [] && bs[k][0].symbol == EntryName(nE, k) && Placed(p, |pre| + Offset(bs, k), bs[k])
    {
      ShapedAt(bs, nE, k);
      ChainPlaced(p, |pre|, bs, k);
    }
  }

  /** Block k of a placed chain is placed. */
  lemma ChainPlaced(p: seq<Insn>, at: nat, bs: seq<seq<Insn>>, k: nat)
    requires k < |bs| && Placed(p, at, Flat(bs))
    ensures Placed(p, at + Offset(bs, k), bs[k])
  {
    hide Flat; hide Offset;
    FlatPlaced(bs, k);
    PlacedInside(p, at, Flat(bs), Offset(bs, k), bs[k]);
  }

  /** Library rules are such a chain. */
  lemma RulesShaped(all: seq<Rule>, nE: nat)
    requires RulesOk(all)
    ensures AllShaped(RuleBlocks(all, nE), nE)
  {
    hide Code; hide EntryName; hide NextName; hide HitName; hide Find; hide Stem; hide RulesOk; hide Shaped;
    var bs := RuleBlocks(all, nE);
    forall k | 0 <= k < |bs| ensures Shaped(bs[k], EntryName(nE, k), NextName(nE, |bs|, k), HitName(nE, k)) {
      RuleBlockShaped(all, nE, k);
    }
  }

  lemma PlacedInside(p: seq<Insn>, at: nat, f: seq<Insn>, o: nat, b: seq<Insn>)
    requires Placed(p, at, f) && Placed(f, o, b)
    ensures Placed(p, at + o, b)
  {
    forall i | 0 <= i < |b| ensures p[at + o + i] == b[i] {
      assert p[at..at + |f|][o + i] == p[at + o + i];
      assert f[o..o + |b|][i] == f[o + i];
    }
  }

  lemma AroundParts(pre: seq<Insn>, f: seq<Insn>, post: seq<Insn>)
    requires TailOk(post) && OnlyTails(pre)
    ensures var p := Around(pre, f, post); var e := |pre| + |f|;
            && |p| == e + 2 + |post| && Placed(p, |pre|, f)
            && p[e].symbol == "pass" && p[e + 2].symbol == "redirect"
            && p[e].op == Alu(Mov, R0, Imm(2)) && p[e + 1].op == Exit
            && (forall i :: 0 <= i < |pre| ==> p[i] == pre[i])
            && (forall i :: 0 <= i < |post| ==> p[e + 2 + i] == post[i])
            && (forall i :: 0 <= i < |p| && Target(p[i].op).Some? && !(|pre| <= i < e) ==> Target(p[i].op).value in {"pass", "redirect"})
  {
    var p := Around(pre, f, post);
    var e := |pre| + |f|;
    assert forall i :: e + 2 <= i < |p| ==> p[i] == post[i - e - 2];
  }

  // ------------------------------------------------------------ start and end

  predicate Apart(a: nat, an: nat, b: nat, bn: nat) { a + an <= b || b + bn <= a }

  /** The kernel has entered the program: R1 is the context, R10 the frame pointer,
      and the packet, the stack, the context and the map values are apart. */
  predicate Booted(env: Env, m: Machine) {
    && m.regs[R1] == env.ctx && m.regs[RFP] == env.fp && |m.stack| == STACK_SIZE <= env.fp
    && env.data + |m.pkt| + 0x1_0000 <= WORD64 && env.values + 8 * |env.enabled| < WORD64
    && 0 < env.values && env.queue < WORD32
    && Apart(env.data, |m.pkt|, env.fp - 512, 512) && Apart(env.data, |m.pkt|, env.ctx, 24)
    && Apart(env.data, |m.pkt|, env.values, 8 * |env.enabled|)
    && Apart(env.fp - 512, 512, env.ctx, 24) && Apart(env.fp - 512, 512, env.values, 8 * |env.enabled|)
    && Apart(env.ctx, 24, env.values, 8 * |env.enabled|)
  }

  /** What the tails rely on when they are reached. */
  predicate Arrived(env: Env, m0: Machine, m: Machine) {
    && m.regs[R8] == env.queue && m.regs[RFP] == env.fp
    && |m.pkt| == |m0.pkt| && |m.stack| == |m0.stack|
  }

  lemma Prologue(p: seq<Insn>, env: Env, m: Machine) returns (m': Machine)
    requires Booted(env, m) && |p| > 3 && p[0] == PROLOGUE[0] && p[1] == PROLOGUE[1] && p[2] == PROLOGUE[2]
    ensures Run(p, env, At(0, m), 3) == At(3, m')
    ensures Entry(env, m') && Arrived(env, m, m') && m'.pkt == m.pkt && Within(p, env, At(0, m), 3, 0, 3)
  {
    hide Le; hide Step; hide LoadMem; hide Run;
    var m1 := Set(m, R6, env.data + |m.pkt|);
    var m2 := Set(m1, R7, env.data);
    m' := Set(m2, R8, env.queue);
    ContextLoads(env, m, m);
    ContextLoads(env, m, m1);
    ContextLoads(env, m, m2);
    LoadStepAt(p, env, 0, m, R6, R1, 4, Word, env.data + |m.pkt|);
    LoadStepAt(p, env, 1, m1, R7, R1, 0, Word, env.data);
    LoadStepAt(p, env, 2, m2, R8, R1, 16, Word, env.queue);
    OneStep(p, env, 2, m2, 0);
    OneStep(p, env, 1, m1, 1);
    OneStep(p, env, 0, m, 2);
    OneStep(p, env, 0, m, 1);
    OneStep(p, env, 0, m, 0);
    OneStep(p, env, 1, m1, 0);
    RunZero(p, env, At(0, m), 0, 3);
  }

  /** The three context fields the prologue reads. */
  lemma ContextLoads(env: Env, m0: Machine, m: Machine)
    requires Booted(env, m0) && |m.pkt| == |m0.pkt| && |m.stack| == |m0.stack|
    ensures LoadMem(env, m, env.ctx + 4, Word) == Some(env.data + |m.pkt|)
    ensures LoadMem(env, m, env.ctx, Word) == Some(env.data) && LoadMem(env, m, env.ctx + 16, Word) == Some(env.queue)
  {
    hide Le;
  }

  lemma OneStep(p: seq<Insn>, env: Env, pc: nat, m: Machine, n: nat)
    ensures Run(p, env, At(pc, m), n + 1) == Run(p, env, Step(p, env, pc, m), n)
    ensures Run(p, env, Step(p, env, pc, m), 0) == Step(p, env, pc, m)
  {
  }

  lemma AluStep(p: seq<Insn>, env: Env, pc: nat, m: Machine, fn: AluFn, dst: Reg, arg: Operand)
    requires pc < |p| && p[pc].op == Alu(fn, dst, arg) && dst != RFP
    ensures Step(p, env, pc, m) == At(pc + 1, Set(m, dst, AluValue(fn, m.regs[dst], ArgValue(m, arg))))
  {
    hide AluValue; hide ArgValue;
  }

  lemma MapStep(p: seq<Insn>, env: Env, pc: nat, m: Machine, dst: Reg, r: MapRef)
    requires pc < |p| && p[pc].op == LoadMapPtr(dst, r) && dst != RFP
    ensures Step(p, env, pc, m) == At(pc + 1, Set(m, dst, if r == QidConf then env.qidPtr else env.xskPtr))
  {
  }

  lemma LoadStepAt(p: seq<Insn>, env: Env, pc: nat, m: Machine, dst: Reg, src: Reg, off: int, size: Size, v: u64)
    requires pc < |p| && p[pc].op == Load(dst, src, off, size) && dst != RFP
    requires LoadMem(env, m, m.regs[src] + off, size) == Some(v)
    ensures Step(p, env, pc, m) == At(pc + 1, Set(m, dst, v))
  {
    hide LoadMem;
  }

  lemma PassTail(p: seq<Insn>, env: Env, e: nat, m: Machine)
    requires e + 1 < |p| && p[e].op == Alu(Mov, R0, Imm(2)) && p[e + 1].op == Exit
    ensures Run(p, env, At(e, m), 2) == Done(XDP_PASS)
    ensures Run(p, env, At(e, m), 1).At? && Run(p, env, At(e, m), 1).pc == e + 1
  {
    var m1 := Set(m, R0, 2);
    assert Step(p, env, e, m) == At(e + 1, m1);
    OneStep(p, env, e + 1, m1, 0);
    OneStep(p, env, e, m, 1);
    OneStep(p, env, e, m, 0);
  }

  /** A bound, enabled queue delivers; one enabled but without a socket aborts; one
      that is not enabled, or out of range, passes. */
  function QueueAction(env: Env): u64 {
    if env.queue < |env.enabled| && env.enabled[env.queue] % WORD32 != 0 then
      (if env.queue in env.sockets then XDP_REDIRECT else 0)
    else XDP_PASS
  }

  lemma KeyBytes(v: u64)
    requires v < WORD32
    ensures v == v % 256 + 256 * ((v / 256) % 256) + 0x1_0000 * ((v / 0x1_0000) % 256) + 0x100_0000 * ((v / 0x100_0000) % 256)
  {
    var q1 := v / 256;
    var q2 := q1 / 256;
    var q3 := q2 / 256;
    DivModUnique(v, 0x1_0000, q2, 256 * (q1 % 256) + v % 256);
    DivModUnique(v, 0x100_0000, q3, 0x1_0000 * (q2 % 256) + 256 * (q1 % 256) + v % 256);
  }

  lemma KeyRoundTrip(s: seq<u8>, i: nat, v: u64)
    requires i + 4 <= |s| && v < WORD32
    ensures Le(PutLe(s, i, Word, v), i, Word) == v
  {
    var r := PutLe(s, i, Word, v);
    KeyBytes(v);
    assert r[i] == v % 256 && r[i + 1] == (v / 256) % 256 && r[i + 2] == (v / 0x1_0000) % 256 && r[i + 3] == (v / 0x100_0000) % 256;
  }

  /** The operations of the redirect tail sit at `e`. */
  predicate RedirectAt(p: seq<Insn>, e: nat) {
    && e + 13 <= |p|
    && p[e].op == Store(RFP, -4, Src(R8), Word) && p[e + 1].op == Alu(Mov, R2, Src(RFP))
    && p[e + 2].op == Alu(Add, R2, Imm(-4)) && p[e + 3].op == LoadMapPtr(R1, QidConf)
    && p[e + 4].op == Call(MapLookup) && p[e + 5].op == Branch(JEq, true, R0, Imm(0), "pass")
    && p[e + 6].op == Load(R1, R0, 0, Word) && p[e + 7].op == Branch(JEq, true, R1, Imm(0), "pass")
    && p[e + 8].op == LoadMapPtr(R1, Xsks) && p[e + 9].op == Alu(Mov, R2, Src(R8))
    && p[e + 10].op == Alu(Mov, R3, Imm(0)) && p[e + 11].op == Call(RedirectMap) && p[e + 12].op == Exit
  }

  function KeyStored(env: Env, m: Machine): Machine
    requires |m.stack| == STACK_SIZE && env.queue < WORD32
  {
    m.(stack := PutLe(m.stack, 508, Word, env.queue))
  }

  /** The key written below the frame pointer reads back as the queue index. */
  lemma KeyOnStack(env: Env, m0: Machine, m: Machine)
    requires Booted(env, m0) && Arrived(env, m0, m)
    ensures StoreMem(env, m, env.fp - 4, Word, env.queue) == Some(KeyStored(env, m))
    ensures forall q: Machine :: q.stack == KeyStored(env, m).stack && |q.pkt| == |m.pkt| ==>
              LoadMem(env, q, env.fp - 4, Word) == Some(env.queue)
  {
    hide Le; hide PutLe;
    StackApart(env, m0);
    KeyRoundTrip(m.stack, 508, env.queue);
  }

  /** The registers set up for the queue lookup. */
  function KeyReady(env: Env, m: Machine): Machine
    requires |m.stack| == STACK_SIZE && env.queue < WORD32 && 4 <= env.fp < WORD64
  {
    Set(Set(Set(KeyStored(env, m), R2, env.fp), R2, env.fp - 4), R1, env.qidPtr)
  }

  lemma RedirectKey(p: seq<Insn>, env: Env, e: nat, m0: Machine, m: Machine)
    requires Booted(env, m0) && Arrived(env, m0, m) && RedirectAt(p, e) && 4 <= env.fp < WORD64
    ensures Run(p, env, At(e, m), 4) == At(e + 4, KeyReady(env, m))
  {
    hide Apart; hide StoreMem; hide LoadMem; hide PutLe; hide Run; hide Step; hide AluValue;
    KeyOnStack(env, m0, m);
    var m1 := KeyStored(env, m);
    var m2 := Set(m1, R2, env.fp);
    var m3 := Set(m2, R2, env.fp - 4);
    MovIs(m1.regs[R2], env.fp);
    DownFour(env.fp);
    KeyStep(p, env, e, m);
    AluStep(p, env, e + 1, m1, Mov, R2, Src(RFP));
    AluStep(p, env, e + 2, m2, Add, R2, Imm(-4));
    MapStep(p, env, e + 3, m3, R1, QidConf);
    OneStep(p, env, e + 3, m3, 0);
    OneStep(p, env, e + 2, m2, 1);
    OneStep(p, env, e + 1, m1, 2);
    OneStep(p, env, e, m, 3);
  }

  lemma DownFour(fp: u64)
    requires 4 <= fp
    ensures AluValue(Add, fp, Extend(-4)) == fp - 4
  {
  }

  lemma KeyStep(p: seq<Insn>, env: Env, pc: nat, m: Machine)
    requires pc < |p| && p[pc].op == Store(RFP, -4, Src(R8), Word) && m.regs[RFP] == env.fp && m.regs[R8] == env.queue
    requires |m.stack| == STACK_SIZE && env.queue < WORD32
    requires StoreMem(env, m, env.fp - 4, Word, env.queue) == Some(KeyStored(env, m))
    ensures Step(p, env, pc, m) == At(pc + 1, KeyStored(env, m))
  {
    hide StoreMem; hide PutLe;
  }

  /** The tail writes the queue index to the stack and looks it up. */
  lemma RedirectHead(p: seq<Insn>, env: Env, e: nat, m0: Machine, m: Machine) returns (m': Machine)
    requires Booted(env, m0) && Arrived(env, m0, m)
    requires RedirectAt(p, e)
    ensures Run(p, env, At(e, m), 5) == At(e + 5, m')
    ensures Arrived(env, m0, m') && m'.regs[R0] == if env.queue < |env.enabled| then env.values + 8 * env.queue else 0
  {
    hide Apart; hide StoreMem; hide LoadMem; hide PutLe; hide Run; hide Step;
    StackBelow(env, m0, m);
    KeyOnStack(env, m0, m);
    RedirectKey(p, env, e, m0, m);
    var m4 := KeyReady(env, m);
    m' := Clobbered(env, m4, if env.queue < |env.enabled| then env.values + 8 * env.queue else 0);
    LookupStep(p, env, e + 4, m4);
    OneStep(p, env, e + 4, m4, 0);
    RunAdd(p, env, At(e, m), 4, 1);
  }

  lemma StackBelow(env: Env, m0: Machine, m: Machine)
    requires Booted(env, m0) && Arrived(env, m0, m)
    ensures 4 <= env.fp < WORD64 && env.values + 8 * |env.enabled| < WORD64 && |m.stack| == STACK_SIZE && env.queue < WORD32
  {
  }

  lemma LookupStep(p: seq<Insn>, env: Env, pc: nat, m: Machine)
    requires pc < |p| && p[pc].op == Call(MapLookup) && m.regs[R1] == env.qidPtr && env.values + 8 * |env.enabled| < WORD64
    requires LoadMem(env, m, m.regs[R2], Word) == Some(env.queue)
    ensures Step(p, env, pc, m) == At(pc + 1, Clobbered(env, m, if env.queue < |env.enabled| then env.values + 8 * env.queue else 0))
  {
    hide LoadMem;
  }

  /** No packet address overlaps the stack. */
  lemma StackApart(env: Env, m: Machine)
    requires Booted(env, m)
    ensures env.fp - 4 + 4 <= env.data || env.data + |m.pkt| <= env.fp - 512
  {
  }

  function ValueRead(env: Env, m: Machine): Machine
    requires env.queue < |env.enabled|
  {
    Set(m, R1, env.enabled[env.queue] % WORD32)
  }

  /** For an enabled queue the map value is read and tested. */
  lemma ValueSteps(p: seq<Insn>, env: Env, e: nat, m0: Machine, m: Machine)
    requires Booted(env, m0) && Arrived(env, m0, m) && RedirectAt(p, e) && e >= 2 && Find(p, "pass") == e - 2
    requires env.queue < |env.enabled| && m.regs[R0] == env.values + 8 * env.queue
    ensures Step(p, env, e + 5, m) == At(e + 6, m) && Step(p, env, e + 6, m) == At(e + 7, ValueRead(env, m))
    ensures Step(p, env, e + 7, ValueRead(env, m)) ==
            At(if env.enabled[env.queue] % WORD32 == 0 then e - 2 else e + 8, ValueRead(env, m))
    ensures ValueRead(env, m).regs[R8] == env.queue
  {
    hide Find; hide LoadMem; hide Apart;
    ValueLoad(env, m0, m);
  }

  /** From the lookup on, when it found the queue. */
  lemma EnabledTail(p: seq<Insn>, env: Env, e: nat, m0: Machine, m: Machine) returns (n: nat)
    requires Booted(env, m0) && Arrived(env, m0, m) && RedirectAt(p, e) && e >= 2
    requires Find(p, "pass") == e - 2 && p[e - 2].op == Alu(Mov, R0, Imm(2)) && p[e - 1].op == Exit
    requires env.queue < |env.enabled| && m.regs[R0] == env.values + 8 * env.queue
    ensures Run(p, env, At(e + 5, m), n) == Done(QueueAction(env))
  {
    hide Find; hide Run; hide Step; hide Apart; hide Booted; hide Arrived; hide ValueRead; hide Set;
    var m7 := ValueRead(env, m);
    ValueSteps(p, env, e, m0, m);
    OneStep(p, env, e + 5, m, 0);
    OneStep(p, env, e + 6, m, 0);
    OneStep(p, env, e + 7, m7, 0);
    RunAdd(p, env, At(e + 5, m), 1, 1);
    RunAdd(p, env, At(e + 5, m), 2, 1);
    if env.enabled[env.queue] % WORD32 == 0 {
      PassTail(p, env, e - 2, m7);
      RunAdd(p, env, At(e + 5, m), 3, 2);
      n := 5;
    } else {
      DeliverTail(p, env, e, m7);
      RunAdd(p, env, At(e + 5, m), 3, 5);
      n := 8;
    }
  }

  lemma AbsentStep(p: seq<Insn>, env: Env, e: nat, m: Machine)
    requires RedirectAt(p, e) && e >= 2 && Find(p, "pass") == e - 2 && m.regs[R0] == 0
    ensures Step(p, env, e + 5, m) == At(e - 2, m)
  {
    hide Find;
  }

  lemma RedirectTail(p: seq<Insn>, env: Env, e: nat, m0: Machine, m: Machine) returns (n: nat)
    requires Booted(env, m0) && Arrived(env, m0, m)
    requires RedirectAt(p, e) && e >= 2
    requires Find(p, "pass") == e - 2 && p[e - 2].op == Alu(Mov, R0, Imm(2)) && p[e - 1].op == Exit
    ensures Run(p, env, At(e, m), n) == Done(QueueAction(env))
  {
    hide Find; hide Run; hide Apart; hide Step; hide Booted;
    var m5 := RedirectHead(p, env, e, m0, m);
    if env.queue >= |env.enabled| {
      AbsentStep(p, env, e, m5);
      OneStep(p, env, e + 5, m5, 0);
      PassTail(p, env, e - 2, m5);
      RunAdd(p, env, At(e + 5, m5), 1, 2);
      RunAdd(p, env, At(e, m), 5, 3);
      n := 8;
    } else {
      var k := EnabledTail(p, env, e, m0, m5);
      RunAdd(p, env, At(e, m), 5, k);
      n := 5 + k;
    }
  }

  lemma ValueLoad(env: Env, m0: Machine, m: Machine)
    requires Booted(env, m0) && Arrived(env, m0, m) && env.queue < |env.enabled|
    ensures LoadMem(env, m, env.values + 8 * env.queue, Word) == Some(env.enabled[env.queue] % WORD32)
  {
    hide Le;
    var a := env.values + 8 * env.queue;
    assert (a - env.values) % 8 == 0 && (a - env.values) / 8 == env.queue;
    assert !InPacket(env, m, a, 4) && !InStack(env, m, a, 4);
  }

  lemma DeliverTail(p: seq<Insn>, env: Env, e: nat, m: Machine)
    requires m.regs[R8] == env.queue
    requires RedirectAt(p, e)
    ensures Run(p, env, At(e + 8, m), 5) == Done(if env.queue in env.sockets then XDP_REDIRECT else 0)
  {
    hide Run; hide Step; hide AluValue;
    var m1 := Set(m, R1, env.xskPtr);
    var m2 := Set(m1, R2, env.queue);
    var m3 := Set(m2, R3, 0);
    var m4 := Clobbered(env, m3, if env.queue in env.sockets then XDP_REDIRECT else 0);
    MovIs(m1.regs[R2], env.queue);
    MovIs(m2.regs[R3], 0);
    MapStep(p, env, e + 8, m, R1, Xsks);
    AluStep(p, env, e + 9, m1, Mov, R2, Src(R8));
    AluStep(p, env, e + 10, m2, Mov, R3, Imm(0));
    DeliverStep(p, env, e + 11, m3);
    ExitStep(p, env, e + 12, m4);
    hide Set;
    OneStep(p, env, e + 12, m4, 0);
    OneStep(p, env, e + 11, m3, 1);
    OneStep(p, env, e + 10, m2, 2);
    OneStep(p, env, e + 9, m1, 3);
    OneStep(p, env, e + 8, m, 4);
  }

  lemma MovIs(x: u64, y: u64)
    ensures AluValue(Mov, x, y) == y
  {
  }

  lemma DeliverStep(p: seq<Insn>, env: Env, pc: nat, m: Machine)
    requires pc < |p| && p[pc].op == Call(RedirectMap) && m.regs[R1] == env.xskPtr && m.regs[R2] == env.queue && m.regs[R3] == 0
    ensures Step(p, env, pc, m) == At(pc + 1, Clobbered(env, m, if env.queue in env.sockets then XDP_REDIRECT else 0))
  {
  }

  lemma ExitStep(p: seq<Insn>, env: Env, pc: nat, m: Machine)
    requires pc < |p| && p[pc].op == Exit
    ensures Step(p, env, pc, m) == Done(m.regs[R0])
  {
  }
}
