/** Splicing (newFilterProgram over library and custom matches alike): which lists
    assemble, that what assembles links and holds the chain, and what the program then
    returns; with the custom match the NewMatch documentation gives as its example. */
module Splicing {
  import opened Common
  import opened Ebpf
  import opened Wire
  import opened Symbols
  import opened Builders
  import opened Fragments
  import opened Refinement
  import opened Classifier
  import opened Linking
  import opened BlockShape
  import opened Chain
  import opened Filter
  import opened FilterTheorems
  import opened Contract

  /** Where a match of a filter comes from: a library builder, or NewMatch. */
  datatype Source = Lib(rule: Rule) | Custom(build: MatchEnv -> Option<seq<Insn>>)

  function ToMatch(s: Source): Match {
    match s case Lib(r) => FromRule(r) case Custom(build) => NewMatch(build)
  }

  function ToMatches(ss: seq<Source>): (ms: seq<Match>)
    ensures |ms| == |ss| && forall i :: 0 <= i < |ss| ==> ms[i] == ToMatch(ss[i])
  {
    seq(|ss|, i requires 0 <= i < |ss| => ToMatch(ss[i]))
  }

  /** The code a custom builder returns for a place in the chain. */
  function UserCode(s: Source, entry: string, next: string, redirect: string): Option<seq<Insn>>
    requires s.Custom?
  {
    s.build(MatchEnv(next, redirect, entry))
  }

  /** The block a match puts there. */
  function BlockOf(s: Source, entry: string, next: string, redirect: string): Option<seq<Insn>> {
    if s.Lib? then Some(Code(s.rule, entry, next, redirect))
    else
      match UserCode(s, entry, next, redirect)
      case None => None
      case Some(user) => Some(Wrapped(user, entry, next))
  }

  lemma BuiltBlock(s: Source, entry: string, next: string, redirect: string)
    ensures ToMatch(s).build.Some? && ToMatch(s).build.value(entry, next, redirect) == BlockOf(s, entry, next, redirect)
  {
    hide Code; hide Wrapped;
  }

  /** The labels of a custom block are distinct, its own and not its entry symbol, and it
      jumps only to them, to Next and to Redirect. */
  predicate UserShaped(user: seq<Insn>, entry: string, next: string, redirect: string) {
    && Owned(user, entry) && Unique(user) && (forall i :: 0 <= i < |user| ==> user[i].symbol != entry)
    && forall i :: 0 <= i < |user| && Target(user[i].op).Some? ==>
         var t := Target(user[i].op).value; t == next || t == redirect || (t != "" && Labelled(user, t))
  }

  /** What the library asks of a match in its place. */
  predicate SourceOk(s: Source, entry: string, next: string, redirect: string) {
    if s.Lib? then RuleOk(s.rule)
    else
      var user := UserCode(s, entry, next, redirect);
      user.Some? ==> UserShaped(user.value, entry, next, redirect)
  }

  /** The builder succeeds and its code passes checkBlock. */
  predicate Clean(s: Source, entry: string, next: string, redirect: string) {
    s.Custom? ==> UserCode(s, entry, next, redirect).Some? && ContractOk(UserCode(s, entry, next, redirect).value)
  }

  // ------------------------------------------------------------ shape of a block

  lemma ShapedUserIsPolite(user: seq<Insn>, entry: string, next: string, redirect: string)
    requires Names(entry, next, redirect) && UserShaped(user, entry, next, redirect)
    ensures Polite(user, entry, next)
  {
    hide Stem;
    hide Find;
    NotOwned(user, entry, next);
    NotFound(user, entry);
  }

  /** A block does not define a symbol with another stem. */
  lemma NotOwned(b: seq<Insn>, entry: string, sym: string)
    requires Owned(b, entry) && sym != "" && Stem(sym) != entry
    ensures !Labelled(b, sym)
  {
    hide Stem;
    NotFound(b, sym);
  }

  lemma NotFound(b: seq<Insn>, sym: string)
    requires forall j :: 0 <= j < |b| ==> b[j].symbol != sym
    ensures !Labelled(b, sym)
  {
  }

  /** Wrapping such code gives a block of the kind the assembler is proved for. */
  lemma WrappedShaped(user: seq<Insn>, entry: string, next: string, redirect: string)
    requires Names(entry, next, redirect) && UserShaped(user, entry, next, redirect)
    ensures Shaped(Wrapped(user, entry, next), entry, next, redirect)
  {
    hide Wrapped; hide Terminates; hide Stem; hide Find;
    var w, s := Wrapped(user, entry, next), Filler(user);
    WrappedParts(user, entry, next);
    WrappedSymbols(user, entry, next);
    forall i | 0 <= i < |w| && Target(w[i].op).Some?
      ensures var t := Target(w[i].op).value; t == next || t == redirect || (t != "" && Labelled(w, t))
    {
      if s <= i < s + |user| { WrappedTarget(user, entry, next, redirect, i - s); }
    }
  }

  /** The wrapped block's symbols are the entry and the builder's own. */
  lemma WrappedSymbols(user: seq<Insn>, entry: string, next: string)
    requires Stem(entry) == entry && entry != "" && Owned(user, entry) && Unique(user)
    requires forall i :: 0 <= i < |user| ==> user[i].symbol != entry
    ensures Owned(Wrapped(user, entry, next), entry) && Unique(Wrapped(user, entry, next))
  {
    hide Wrapped; hide Carried; hide Owned; hide Unique; hide Stem;
    WrappedParts(user, entry, next);
    CarriedSymbols(user, Wrapped(user, entry, next), Filler(user), entry, next);
  }

  lemma CarriedSymbols(user: seq<Insn>, w: seq<Insn>, s: nat, entry: string, next: string)
    requires Carried(user, w, s, entry, next) && s <= 1 && (s == 1 ==> user != [])
    requires Stem(entry) == entry && entry != "" && Owned(user, entry) && Unique(user)
    requires forall i :: 0 <= i < |user| ==> user[i].symbol != entry
    ensures Owned(w, entry) && Unique(w)
  {
    hide Terminates; hide Stem;
    forall i | 0 < i < |w| ensures w[i].symbol == (if s <= i < s + |user| then user[i - s].symbol else "") {
      if s <= i < s + |user| { assert w[s + (i - s)].symbol == user[i - s].symbol; }
    }
  }

  lemma WrappedTarget(user: seq<Insn>, entry: string, next: string, redirect: string, i: nat)
    requires Names(entry, next, redirect) && UserShaped(user, entry, next, redirect) && i < |user|
    ensures var w := Wrapped(user, entry, next);
            Filler(user) + i < |w| && (Target(w[Filler(user) + i].op).Some? ==>
              var t := Target(w[Filler(user) + i].op).value; t == next || t == redirect || (t != "" && Labelled(w, t)))
  {
    hide Wrapped; hide Terminates; hide Stem; hide Find;
    WrappedParts(user, entry, next);
    assert Wrapped(user, entry, next)[Filler(user) + i].op == user[i].op;
    if Target(user[i].op).Some? {
      var t := Target(user[i].op).value;
      if t != next && t != redirect {
        ShapedUserIsPolite(user, entry, next, redirect);
        LabelsSurvive(user, entry, next, t);
      }
    }
  }

  lemma SourceShaped(s: Source, entry: string, next: string, redirect: string)
    requires Names(entry, next, redirect) && SourceOk(s, entry, next, redirect)
    ensures var b := BlockOf(s, entry, next, redirect);
            && (b.Some? ==> Shaped(b.value, entry, next, redirect))
            && (b.Some? && ContractOk(b.value) <==> Clean(s, entry, next, redirect))
  {
    hide Code; hide Wrapped; hide Names; hide Shaped; hide ContractOk; hide UserShaped; hide WellShaped;
    if s.Lib? {
      CodeShaped(s.rule, entry, next, redirect);
      ShapedIsOk(Code(s.rule, entry, next, redirect), entry, next, redirect);
    } else if UserCode(s, entry, next, redirect).Some? {
      var user := UserCode(s, entry, next, redirect).value;
      WrappedShaped(user, entry, next, redirect);
      WrappedContract(user, entry, next);
    }
  }

  // -------------------------------------------------------------- lists of them

  /** The three names the k-th block is built with. */
  predicate OkAt(ss: seq<Source>, nE: nat, k: nat)
    requires k < |ss|
  {
    SourceOk(ss[k], EntryName(nE, k), NextName(nE, |ss|, k), HitName(nE, k))
  }

  predicate CleanAt(ss: seq<Source>, nE: nat, k: nat)
    requires k < |ss|
  {
    Clean(ss[k], EntryName(nE, k), NextName(nE, |ss|, k), HitName(nE, k))
  }

  function BlockAt(ss: seq<Source>, nE: nat, k: nat): Option<seq<Insn>>
    requires k < |ss|
  {
    BlockOf(ss[k], EntryName(nE, k), NextName(nE, |ss|, k), HitName(nE, k))
  }

  predicate SourcesOk(ss: seq<Source>, nE: nat) { forall k :: 0 <= k < |ss| ==> OkAt(ss, nE, k) }

  lemma SourcesBuildable(ss: seq<Source>, nE: nat)
    requires SourcesOk(ss, nE)
    ensures Buildable(ToMatches(ss))
  {
    hide EntryName; hide NextName; hide HitName; hide Code; hide Wrapped; hide UserShaped; hide RuleOk;
    forall k | 0 <= k < |ss| ensures !ToMatch(ss[k]).bad && ToMatch(ss[k]).build.Some? { assert OkAt(ss, nE, k); }
  }

  /** Block k of the list. */
  lemma EmitAt(ss: seq<Source>, nE: nat, k: nat)
    requires SourcesOk(ss, nE) && Buildable(ToMatches(ss)) && k < |ss|
    ensures var e := Emit(ToMatches(ss), nE, k);
            && (e.Ok? <==> CleanAt(ss, nE, k))
            && (e.Ok? ==> Some(e.value) == BlockAt(ss, nE, k)
                          && Shaped(e.value, EntryName(nE, k), NextName(nE, |ss|, k), HitName(nE, k)))
  {
    hide EntryName; hide NextName; hide HitName; hide BlockOf; hide SourceOk; hide Clean; hide Shaped; hide Names; hide ContractOk;
    assert OkAt(ss, nE, k);
    ChainNames(nE, |ss|, k);
    SourceShaped(ss[k], EntryName(nE, k), NextName(nE, |ss|, k), HitName(nE, k));
    BuiltBlock(ss[k], EntryName(nE, k), NextName(nE, |ss|, k), HitName(nE, k));
  }

  /** The list assembles exactly when every builder succeeds and passes checkBlock, and
      then to its blocks, each of them shaped for its place. */
  lemma {:induction false} BlocksOfSources(ss: seq<Source>, nE: nat, k: nat)
    requires SourcesOk(ss, nE) && Buildable(ToMatches(ss)) && k <= |ss|
    ensures var r := Blocks(ToMatches(ss), nE, k);
            && (r.Ok? <==> forall i :: k <= i < |ss| ==> CleanAt(ss, nE, i))
            && (r.Ok? ==> |r.value| == |ss| - k && forall i :: k <= i < |ss| ==>
                  && BlockAt(ss, nE, i) == Some(r.value[i - k])
                  && Shaped(r.value[i - k], EntryName(nE, i), NextName(nE, |ss|, i), HitName(nE, i)))
    decreases |ss| - k
  {
    hide EntryName; hide NextName; hide HitName; hide BlockAt; hide SourcesOk; hide CleanAt; hide Shaped; hide Emit; hide Buildable;
    if k < |ss| {
      BlocksOfSources(ss, nE, k + 1);
      EmitAt(ss, nE, k);
    }
  }

  /** Splicing anywhere, for any mix of library and custom matches whose custom code keeps
      to its own labels: the list assembles iff every custom builder succeeds and passes the
      contract, and what it assembles links, in the live program and in the harness, with
      every block in place. */
  lemma SourcesLink(ss: seq<Source>, nE: nat)
    requires SourcesOk(ss, nE) && nE < |ss|
    ensures Buildable(ToMatches(ss))
    ensures var r := Blocks(ToMatches(ss), nE, 0);
            && (r.Ok? <==> forall k :: 0 <= k < |ss| ==> CleanAt(ss, nE, k))
            && (r.Ok? ==> var bs := r.value;
                  && |bs| == |ss| && (forall k :: 0 <= k < |ss| ==> BlockAt(ss, nE, k) == Some(bs[k]))
                  && AllShaped(bs, nE)
                  && Holding(Assembled(Flat(bs)), 3, bs, nE) && Holding(HarnessOf(Flat(bs)), 6, bs, nE))
  {
    hide EntryName; hide NextName; hide HitName; hide BlockAt; hide SourcesOk; hide CleanAt; hide Shaped; hide Emit; hide Buildable;
    hide Blocks; hide Holding; hide Assembled; hide HarnessOf; hide Flat;
    SourcesBuildable(ss, nE);
    BlocksOfSources(ss, nE, 0);
    var r := Blocks(ToMatches(ss), nE, 0);
    if r.Ok? {
      assert forall k :: 0 <= k < |ss| ==> r.value[k] == r.value[k - 0];
      BothLink(r.value, nE);
    }
  }

  // -------------------------------------------------------------- what they do

  /** What the live program does with a packet on which its chain ends with or without a hit. */
  lemma VerdictOfEnd(bs: seq<seq<Insn>>, nE: nat, env: Env, m: Machine, hit: bool)
    requires AllShaped(bs, nE) && nE < |bs| && Booted(env, m)
    requires forall m1: Machine :: Entry(env, m1) && m1.pkt == m.pkt ==>
               exists m2: Machine :: Preserved(m1, m2) && Ends(bs, nE, env, 0, m1, hit, m2)
    ensures var p := Assembled(Flat(bs));
            && Linked(p) && (Reaches(p, env, At(0, m), "redirect") <==> hit)
            && Returns(p, env, At(0, m), if hit then QueueAction(env) else XDP_PASS)
  {
    hide Ends; hide Run; hide Flat; hide Reaches; hide Returns; hide Preserved; hide Holding; hide Arrived; hide Entry;
    hide AllShaped; hide Linked; hide RedirectAt; hide Booted; hide Within; hide Around;
    var p := Assembled(Flat(bs));
    BothLink(bs, nE);
    HoldingLinked(p, 3, bs, nE);
    AssembledParts(Flat(bs));
    var m1 := Prologue(p, env, m);
    var m2: Machine :| Preserved(m1, m2) && Ends(bs, nE, env, 0, m1, hit, m2);
    ArrivedKept(env, m, m1, m2);
    VerdictOfChain(bs, nE, env, m, m1, hit, m2);
  }

  /** A filter of any blocks, library or custom, as newFilterProgram assembles it. When each
      block decides, it redirects iff no exception block hits and some match block does. */
  lemma FilterOfBlocks(bs: seq<seq<Insn>>, nE: nat, env: Env, m: Machine, v: seq<bool>)
    requires AllShaped(bs, nE) && Booted(env, m) && AllDecide(bs, nE, env, m.pkt, v)
    ensures var p := Assembled(Flat(bs));
            var hit := (forall i :: 0 <= i < nE ==> !v[i]) && exists j :: nE <= j < |v| && v[j];
            && Linked(p) && (Reaches(p, env, At(0, m), "redirect") <==> hit)
            && Returns(p, env, At(0, m), if hit then QueueAction(env) else XDP_PASS)
  {
    hide Ends; hide Flat; hide Reaches; hide Returns; hide Kept; hide Decides; hide Entry; hide Preserved;
    hide AllShaped; hide Linked; hide Booted; hide Assembled; hide FirstHit;
    FirstHitMeaning(v, nE, 0);
    forall m1: Machine | Entry(env, m1) && m1.pkt == m.pkt
      ensures exists m2: Machine :: Preserved(m1, m2) && Ends(bs, nE, env, 0, m1, FirstHit(v, nE, 0), m2)
    {
      var m2 := ChainOfDecided(bs, nE, env, m.pkt, v, 0, m1);
      KeptIsPreserved(m1, m2);
    }
    VerdictOfEnd(bs, nE, env, m, FirstHit(v, nE, 0));
  }

  lemma HoldingLinked(p: seq<Insn>, at: nat, bs: seq<seq<Insn>>, nE: nat)
    requires Holding(p, at, bs, nE)
    ensures Linked(p)
  {
  }

  /** And the harness around the same blocks returns its sentinel exactly then. */
  lemma HarnessOfBlocks(bs: seq<seq<Insn>>, nE: nat, env: Env, m: Machine, v: seq<bool>)
    requires AllShaped(bs, nE) && Booted(env, m) && AllDecide(bs, nE, env, m.pkt, v)
    ensures var p := HarnessOf(Flat(bs));
            var hit := (forall i :: 0 <= i < nE ==> !v[i]) && exists j :: nE <= j < |v| && v[j];
            Linked(p) && (forall a :: Returns(p, env, At(0, m), a) <==> a == if hit then XDP_TX else XDP_PASS)
  {
    hide Ends; hide Run; hide Flat; hide Returns; hide Kept; hide Holding; hide Decides; hide Arrived; hide Entry;
    hide AllShaped; hide Linked; hide Booted; hide Around; hide Preserved;
    var p := HarnessOf(Flat(bs));
    BothLink(bs, nE);
    HoldingLinked(p, 6, bs, nE);
    HarnessParts(Flat(bs));
    FirstHitMeaning(v, nE, 0);
    var m1 := HarnessStart(p, env, m);
    var hit := FirstHit(v, nE, 0);
    var m2 := ChainOfDecided(bs, nE, env, m.pkt, v, 0, m1);
    HarnessVerdict(bs, nE, env, m, m1, hit, m2);
    forall a | Returns(p, env, At(0, m), a) ensures a == if hit then XDP_TX else XDP_PASS {
      ReturnsOnce(p, env, At(0, m), a, if hit then XDP_TX else XDP_PASS);
    }
  }

  /** What source k says of the packet: a library match says what its rule means, a custom
      match whatever its wrapped code decides on its own. */
  ghost predicate Says(ss: seq<Source>, nE: nat, k: nat, env: Env, pkt: seq<u8>, v: bool)
    requires k < |ss|
  {
    if ss[k].Lib? then v == Matches(ss[k].rule, pkt)
    else BlockAt(ss, nE, k).Some? ==> Decides(BlockAt(ss, nE, k).value, env, pkt, NextName(nE, |ss|, k), HitName(nE, k), v)
  }

  lemma SaidIsDecided(ss: seq<Source>, nE: nat, bs: seq<seq<Insn>>, env: Env, pkt: seq<u8>, v: seq<bool>)
    requires SourcesOk(ss, nE) && nE < |ss| == |bs| == |v|
    requires forall k :: 0 <= k < |ss| ==> BlockAt(ss, nE, k) == Some(bs[k])
    requires forall k :: 0 <= k < |ss| ==> Says(ss, nE, k, env, pkt, v[k])
    ensures AllDecide(bs, nE, env, pkt, v)
  {
    hide EntryName; hide NextName; hide HitName; hide Decides; hide Matches; hide Code; hide Wrapped; hide UserShaped; hide RuleOk;
    forall k | 0 <= k < |bs| ensures Decides(bs[k], env, pkt, NextName(nE, |bs|, k), HitName(nE, k), v[k]) {
      assert Says(ss, nE, k, env, pkt, v[k]) && BlockAt(ss, nE, k) == Some(bs[k]) && OkAt(ss, nE, k);
      ChainNames(nE, |ss|, k);
      if ss[k].Lib? { CodeDecides(ss[k].rule, EntryName(nE, k), NextName(nE, |ss|, k), HitName(nE, k), env, pkt); }
    }
  }

  /** Lists newFilterProgram assembles in full (it would refuse a catch-all exception, and
      it takes a shortcut when no match can redirect). */
  predicate Assembles(exceptions: seq<Source>, matches: seq<Source>, bs: seq<seq<Insn>>) {
    var es, ms := ToMatches(exceptions), ToMatches(matches);
    matches != [] && AnyRedirect(ms) && Valid(es, ms) && Blocks(es + ms, |es|, 0) == Ok(bs)
  }

  /** Compiler correctness for mixed filters. Any library and custom matches, custom code
      keeping to its own labels: if newFilterProgram returns a full program (its contract says
      when), it links, it redirects iff no exception says yes and some match does, it always
      halts with the delivery or XDP_PASS, and MatchPacket's harness answers alike. What one
      match says does not depend on the others or on its place. */
  lemma FilterOfSources(exceptions: seq<Source>, matches: seq<Source>, bs: seq<seq<Insn>>, env: Env, m: Machine, v: seq<bool>)
    requires SourcesOk(exceptions + matches, |exceptions|) && Assembles(exceptions, matches, bs) && Booted(env, m)
    requires |v| == |exceptions| + |matches|
    requires forall k :: 0 <= k < |v| ==> Says(exceptions + matches, |exceptions|, k, env, m.pkt, v[k])
    ensures var p, h, nE := Assembled(Flat(bs)), HarnessOf(Flat(bs)), |exceptions|;
            var hit := (forall i :: 0 <= i < nE ==> !v[i]) && exists j :: nE <= j < |v| && v[j];
            && Linked(p) && (Reaches(p, env, At(0, m), "redirect") <==> hit)
            && Returns(p, env, At(0, m), if hit then QueueAction(env) else XDP_PASS)
            && (forall a :: Returns(h, env, At(0, m), a) <==> a == if hit then XDP_TX else XDP_PASS)
  {
    hide Run; hide Flat; hide Reaches; hide Returns; hide Holding; hide Says; hide SourcesOk; hide AllShaped; hide Linked; hide Booted;
    hide Blocks; hide CleanAt; hide BlockAt; hide Assembled; hide HarnessOf; hide AllDecide; hide AnyRedirect; hide QueueAction;
    var ss, nE := exceptions + matches, |exceptions|;
    MatchesConcat(exceptions, matches);
    SourcesLink(ss, nE);
    SaidIsDecided(ss, nE, bs, env, m.pkt, v);
    FilterOfBlocks(bs, nE, env, m, v);
    HarnessOfBlocks(bs, nE, env, m, v);
  }

  lemma MatchesConcat(exceptions: seq<Source>, matches: seq<Source>)
    ensures ToMatches(exceptions) + ToMatches(matches) == ToMatches(exceptions + matches)
  {
    hide ToMatch;
  }

  // ------------------------------------------------------- what MatchEnv hands out

  /** Label gives every name its own symbol, owned by the block and different from its
      entry symbol and from FrameBase's landing pad. */
  lemma EnvLabels(e: MatchEnv, name: string, other: string)
    requires Stem(e.prefix) == e.prefix
    ensures Stem(e.Label(name)) == e.prefix && e.Label(name) != e.prefix && e.Label(name) != ""
    ensures e.Label(name) != e.prefix + "_fb" + "_notag"
    ensures e.Label(name) == e.Label(other) <==> name == other
  {
    hide Stem;
    var l, n := e.Label(name), |e.prefix|;
    assert l == e.prefix + ("_u_" + name);
    StemOfLabel(e.prefix, "_u_" + name);
    assert |l| == n + 3 + |name| && l[n + 1] == 'u' && l[n + 3..] == name;
    assert (e.prefix + "_fb" + "_notag")[n + 1] == 'f';
    assert e.Label(other)[n + 3..] == other;
  }

  /** FrameBase defines one label, the block's own, and Bounds none; both jump only to it
      and to Next. */
  lemma EnvFragments(e: MatchEnv, base: Reg, n: i32)
    requires Names(e.prefix, e.next, e.redirect)
    ensures var (f, r) := e.FrameBase();
            && UserShaped(f, e.prefix, e.next, e.redirect) && r == R9 && |f| == 8
            && f[7].symbol == e.prefix + "_fb" + "_notag" && forall i :: 0 <= i < 7 ==> f[i].symbol == ""
    ensures UserShaped(e.Bounds(base, n), e.prefix, e.next, e.redirect) && Unlabelled(e.Bounds(base, n))
  {
    hide Stem; hide Only; hide L3Base; hide BoundsFrom; hide UserShaped; hide Unlabelled;
    var f, ts := e.FrameBase().0, {e.next, e.redirect};
    var pad := e.prefix + "_fb" + "_notag";
    PadName(e.prefix);
    BaseSymbols(e.prefix + "_fb", e.next);
    BaseOnly(e.prefix + "_fb", e.next, ts);
    PadShaped(f, e.prefix, e.next, e.redirect, pad);
    BoundsPlain(base, n, e.next);
    BoundsShaped(base, n, e.prefix, e.next, e.redirect);
  }

  /** FrameBase's landing pad belongs to the block. */
  lemma PadName(prefix: string)
    requires Stem(prefix) == prefix
    ensures var pad := prefix + "_fb" + "_notag"; Stem(pad) == prefix && pad != prefix && pad != ""
  {
    hide Stem;
    var pad := prefix + "_fb" + "_notag";
    assert pad == prefix + "_fb_notag";
    StemOfLabel(prefix, "_fb_notag");
    assert |pad| > |prefix|;
  }

  lemma BaseSymbols(prefix: string, next: string)
    ensures var f := L3Base(prefix, next);
            |f| == 8 && f[7].symbol == prefix + "_notag" && forall i :: 0 <= i < 7 ==> f[i].symbol == ""
  {
    hide NetShort;
  }

  lemma BoundsPlain(base: Reg, n: i32, next: string)
    ensures Unlabelled(BoundsFrom(base, n, next)) && |BoundsFrom(base, n, next)| == 3
  {
  }

  /** Code whose one label, at 7, is the pad, and which jumps only there and out. */
  lemma PadShaped(f: seq<Insn>, entry: string, next: string, redirect: string, pad: string)
    requires |f| > 7 && f[7].symbol == pad && (forall i :: 0 <= i < |f| && i != 7 ==> f[i].symbol == "")
    requires Stem(pad) == entry && pad != entry && pad != "" && entry != "" && Only(f, {next, redirect} + {pad})
    ensures UserShaped(f, entry, next, redirect)
  {
    hide Stem; hide Find; hide Violation; hide Plain; hide Target;
    FoundAt(f, 7, pad);
  }

  lemma BoundsShaped(base: Reg, n: i32, entry: string, next: string, redirect: string)
    requires entry != ""
    ensures UserShaped(BoundsFrom(base, n, next), entry, next, redirect)
  {
    hide Stem; hide Find;
  }

  lemma FoundAt(b: seq<Insn>, i: nat, sym: string)
    requires i < |b| && b[i].symbol == sym
    ensures Labelled(b, sym)
  {
  }

  // ------------------------------------------------------ the documented example

  /** UDP to a port over IPv4, as NewMatch's documentation writes it. */
  function UdpPort(port: u16): MatchEnv -> Option<seq<Insn>> {
    (e: MatchEnv) => Some(UdpCode(e, port))
  }

  function UdpTests(port: u16, next: string, redirect: string): seq<Insn> {
    Require(12, Half, NetShort(ETH_IPV4), next) + Require(23, Byte, PROTO_UDP, next) +
    [LoadField(36, Half), JumpIf(NetShort(port), redirect)]
  }

  function UdpCode(e: MatchEnv, port: u16): seq<Insn> {
    e.FrameBase().0 + e.Bounds(e.FrameBase().1, 38) + UdpTests(port, e.next, e.redirect)
  }

  /** What it looks at: an untagged or once-tagged IPv4 frame, protocol UDP, the port field
      where it is after a 20-byte header. */
  predicate UdpTo(pkt: seq<u8>, port: u16) {
    Inner(pkt).Some? &&
    var f := Inner(pkt).value;
    |f| >= 38 && EtherType(f) == ETH_IPV4 && Ipv4Protocol(f) == PROTO_UDP && Be16(f, 36) == port
  }

  /** The example's code is 17 instructions, its only label FrameBase's. */
  lemma UdpLayout(e: MatchEnv, port: u16)
    ensures var u, pad := UdpCode(e, port), e.prefix + "_fb" + "_notag";
            && |u| == 17 && u[7].symbol == pad && (forall i :: 0 <= i < 17 && i != 7 ==> u[i].symbol == "")
            && !u[16].op.Ja? && Only(u, {e.next, e.redirect} + {pad})
            && u == L3Base(e.prefix + "_fb", e.next) + (BoundsFrom(R9, 38, e.next) + UdpTests(port, e.next, e.redirect))
  {
    hide Only; hide L3Base; hide BoundsFrom; hide UdpTests;
    var ts, all := {e.next, e.redirect}, {e.next, e.redirect} + {e.prefix + "_fb" + "_notag"};
    var c1, c2, c3 := L3Base(e.prefix + "_fb", e.next), BoundsFrom(R9, 38, e.next), UdpTests(port, e.next, e.redirect);
    BaseSymbols(e.prefix + "_fb", e.next);
    BoundsPlain(R9, 38, e.next);
    UdpTestsPlain(port, e.next, e.redirect);
    BaseOnly(e.prefix + "_fb", e.next, ts);
    BoundsOnly(R9, 38, e.next, ts);
    OnlyConcat(c2, c3, ts);
    OnlyWiden(c2 + c3, ts, all);
    OnlyConcat(c1, c2 + c3, all);
    assert UdpCode(e, port) == c1 + (c2 + c3);
  }

  lemma UdpTestsPlain(port: u16, next: string, redirect: string)
    ensures var c := UdpTests(port, next, redirect);
            |c| == 6 && Unlabelled(c) && !c[5].op.Ja? && Only(c, {next, redirect})
  {
    hide NetShort;
  }

  /** It is a custom block the library accepts anywhere in a filter. */
  lemma UdpShaped(e: MatchEnv, port: u16)
    requires Names(e.prefix, e.next, e.redirect)
    ensures UserShaped(UdpCode(e, port), e.prefix, e.next, e.redirect) && ContractOk(UdpCode(e, port))
  {
    hide Stem; hide UdpCode; hide Only; hide ContractOk; hide UserShaped;
    UdpLayout(e, port);
    PadName(e.prefix);
    PadShaped(UdpCode(e, port), e.prefix, e.next, e.redirect, e.prefix + "_fb" + "_notag");
    OnlyIsOk(UdpCode(e, port), {e.next, e.redirect} + {e.prefix + "_fb" + "_notag"});
  }

  lemma OnlyIsOk(b: seq<Insn>, ts: set<string>)
    requires Only(b, ts)
    ensures ContractOk(b) && AllPlain(b)
  {
    hide Violation; hide Plain;
  }

  lemma UdpSourceOk(port: u16, entry: string, next: string, redirect: string)
    requires Names(entry, next, redirect)
    ensures SourceOk(Custom(UdpPort(port)), entry, next, redirect) && Clean(Custom(UdpPort(port)), entry, next, redirect)
  {
    hide UdpCode; hide UserShaped; hide ContractOk; hide Names;
    UdpShaped(MatchEnv(next, redirect, entry), port);
  }

  /** The wrapped example: the same code with the entry symbol in front and a jump to Next
      behind. */
  lemma UdpWrapped(e: MatchEnv, port: u16)
    requires Names(e.prefix, e.next, e.redirect)
    ensures var w := Wrapped(UdpCode(e, port), e.prefix, e.next);
            && |w| == 18 && w[17].op == Ja(e.next)
            && Find(w, e.prefix + "_fb" + "_notag") == 7 && !Labelled(w, e.next) && !Labelled(w, e.redirect)
            && Has(w, 0, L3Base(e.prefix + "_fb", e.next)) && Has(w, 8, BoundsFrom(R9, 38, e.next))
            && Has(w, 11, UdpTests(port, e.next, e.redirect))
  {
    hide Stem; hide UdpCode; hide Find; hide Only; hide Wrapped; hide UdpTests; hide L3Base; hide BoundsFrom;
    var u, pad := UdpCode(e, port), e.prefix + "_fb" + "_notag";
    var w := Wrapped(u, e.prefix, e.next);
    UdpLayout(e, port);
    PadName(e.prefix);
    WrappedParts(u, e.prefix, e.next);
    assert Filler(u) == 0;
    forall i | 0 <= i < 17 ensures w[i].op == u[i].op && (i > 0 ==> w[i].symbol == u[i].symbol) {
      assert w[0 + i].op == u[i].op && (i > 0 ==> w[0 + i].symbol == u[i].symbol);
    }
    FoundFirst(w, 7, pad);
    NotFound(w, e.next);
    NotFound(w, e.redirect);
    UdpFragments(e, port);
    HasOps(w, u, e.prefix, e.next, e.redirect, port);
  }

  lemma UdpFragments(e: MatchEnv, port: u16)
    ensures |L3Base(e.prefix + "_fb", e.next)| == 8 && |BoundsFrom(R9, 38, e.next)| == 3 && |UdpTests(port, e.next, e.redirect)| == 6
  {
  }

  lemma HasOps(w: seq<Insn>, u: seq<Insn>, entry: string, next: string, redirect: string, port: u16)
    requires |w| > |u| && forall i :: 0 <= i < |u| ==> w[i].op == u[i].op
    requires u == L3Base(entry + "_fb", next) + (BoundsFrom(R9, 38, next) + UdpTests(port, next, redirect))
    requires |L3Base(entry + "_fb", next)| == 8 && |BoundsFrom(R9, 38, next)| == 3
    ensures Has(w, 0, L3Base(entry + "_fb", next)) && Has(w, 8, BoundsFrom(R9, 38, next)) && Has(w, 11, UdpTests(port, next, redirect))
  {
    hide L3Base; hide BoundsFrom; hide UdpTests;
    assert Has(w, 0, u);
    HasConcat(w, 0, L3Base(entry + "_fb", next), BoundsFrom(R9, 38, next) + UdpTests(port, next, redirect));
    HasConcat(w, 8, BoundsFrom(R9, 38, next), UdpTests(port, next, redirect));
  }

  lemma FoundFirst(b: seq<Insn>, i: nat, sym: string)
    requires i < |b| && b[i].symbol == sym && forall j :: 0 <= j < i ==> b[j].symbol != sym
    ensures Find(b, sym) == i
  {
  }

  /** The example does what its comment says, wherever it is spliced: it hits exactly the
      frames whose fields say UDP to that port. Unlike MatchUDPPort it takes fragments and
      headers with options, whose port field it then misreads. */
  lemma UdpDecided(env: Env, m: Machine, port: u16, e: MatchEnv)
    requires Names(e.prefix, e.next, e.redirect) && Entry(env, m)
    ensures Decided(Wrapped(UdpCode(e, port), e.prefix, e.next), env, m, e.next, e.redirect, UdpTo(m.pkt, port))
  {
    hide Flow; hide Find; hide Has; hide UdpCode; hide Names; hide View; hide Wrapped; hide UdpTests; hide L3Base; hide BoundsFrom;
    var w := Wrapped(UdpCode(e, port), e.prefix, e.next);
    UdpWrapped(e, port);
    var m1, t := HeadFlow(w, env, m, e.prefix + "_fb", 38, e.next);
    if Inner(m.pkt).Some? && |Inner(m.pkt).value| >= 38 {
      UdpTail(w, env, m1, t, Inner(m.pkt).value, port, e.next, e.redirect);
    }
  }

  lemma UdpTail(w: seq<Insn>, env: Env, m: Machine, t: nat, f: seq<u8>, port: u16, next: string, redirect: string)
    requires |w| == 18 && w[17].op == Ja(next) && Has(w, 11, UdpTests(port, next, redirect))
    requires !Labelled(w, next) && !Labelled(w, redirect) && View(env, m, t, f) && |f| >= 38
    ensures var o := Flow(w, env, 11, m);
            && o.Left? && Kept(m, o.m)
            && o.sym == if EtherType(f) == ETH_IPV4 && f[23] == PROTO_UDP && Be16(f, 36) == port then redirect else next
  {
    hide Flow; hide Find; hide Has; hide View; hide NetShort; hide LoadField;
    var r12, r23 := Require(12, Half, NetShort(ETH_IPV4), next), Require(23, Byte, PROTO_UDP, next);
    var last := [LoadField(36, Half), JumpIf(NetShort(port), redirect)];
    assert UdpTests(port, next, redirect) == r12 + (r23 + last);
    HasConcat(w, 11, r12, r23 + last);
    HasConcat(w, 13, r23, last);
    var m2 := HalfTest(w, env, 11, m, t, f, 12, ETH_IPV4, next);
    if EtherType(f) == ETH_IPV4 {
      var m3 := ByteTestAt(w, env, 13, m2, t, f, 23, PROTO_UDP, next);
      if f[23] == PROTO_UDP {
        assert PortTests([port], redirect) == [JumpIf(NetShort(port), redirect)];
        assert last == [LoadField(36, Half)] + PortTests([port], redirect);
        PortListFlow(w, env, 15, m3, t, f, 36, [port], next, redirect);
      }
    }
  }

  lemma UdpDecides(env: Env, pkt: seq<u8>, port: u16, e: MatchEnv)
    requires Names(e.prefix, e.next, e.redirect)
    ensures Decides(Wrapped(UdpCode(e, port), e.prefix, e.next), env, pkt, e.next, e.redirect, UdpTo(pkt, port))
  {
    hide Flow; hide UdpCode; hide Names; hide Kept; hide Entry; hide RunLocal; hide Wrapped; hide UdpTo;
    var b := Wrapped(UdpCode(e, port), e.prefix, e.next);
    forall m: Machine | Entry(env, m) && m.pkt == pkt
      ensures exists m': Machine :: Kept(m, m') && Settles(b, env, m, Left(if UdpTo(pkt, port) then e.redirect else e.next, m'))
    {
      UdpDecided(env, m, port, e);
      var o := Flow(b, env, 0, m);
      FlowIsRun(b, env, 0, m);
      assert Kept(m, o.m) && Settles(b, env, m, o);
    }
  }

  /** Library rules as sources. */
  function Libs(rs: seq<Rule>): (ss: seq<Source>)
    ensures |ss| == |rs| && forall i :: 0 <= i < |rs| ==> ss[i] == Lib(rs[i])
  {
    seq(|rs|, i requires 0 <= i < |rs| => Lib(rs[i]))
  }

  /** So the example behind any library exceptions assembles, and the program redirects exactly
      the UDP frames to that port which no exception holds of. */
  lemma UdpFilter(exceptions: seq<Rule>, port: u16, env: Env, m: Machine) returns (bs: seq<seq<Insn>>)
    requires RulesOk(exceptions) && (forall i :: 0 <= i < |exceptions| ==> !exceptions[i].All?) && Booted(env, m)
    ensures Assembles(Libs(exceptions), [Custom(UdpPort(port))], bs)
    ensures var p := Assembled(Flat(bs));
            var hit := UdpTo(m.pkt, port) && forall i :: 0 <= i < |exceptions| ==> !Matches(exceptions[i], m.pkt);
            && Linked(p) && (Reaches(p, env, At(0, m), "redirect") <==> hit)
            && Returns(p, env, At(0, m), if hit then QueueAction(env) else XDP_PASS)
  {
    hide Reaches; hide Returns; hide Linked; hide Booted; hide QueueAction; hide Matches; hide UdpTo; hide Assembled; hide Flat;
    hide Says; hide SourcesOk; hide Blocks; hide UdpPort; hide CleanAt; hide Holding; hide AllShaped; hide BlockAt; hide HarnessOf;
    var es, ms, nE := Libs(exceptions), [Custom(UdpPort(port))], |exceptions|;
    bs := UdpAssembles(exceptions, port);
    var v := UdpVerdicts(exceptions, port, env, m.pkt);
    FilterOfSources(es, ms, bs, env, m, v);
    assert v[nE] <==> UdpTo(m.pkt, port);
    forall i | 0 <= i < nE ensures v[i] == Matches(exceptions[i], m.pkt) { assert v[i] == Verdicts(exceptions, m.pkt)[i]; }
    assert (exists j :: nE <= j < |v| && v[j]) <==> v[nE];
  }

  lemma UdpSourcesOk(exceptions: seq<Rule>, port: u16)
    requires RulesOk(exceptions)
    ensures var ss, nE := Libs(exceptions) + [Custom(UdpPort(port))], |exceptions|;
            SourcesOk(ss, nE) && forall k :: 0 <= k < |ss| ==> CleanAt(ss, nE, k)
  {
    hide EntryName; hide NextName; hide HitName; hide Names; hide UdpPort; hide RuleOk; hide UserShaped; hide ContractOk;
    var ss, nE := Libs(exceptions) + [Custom(UdpPort(port))], |exceptions|;
    forall k | 0 <= k < |ss| ensures OkAt(ss, nE, k) && CleanAt(ss, nE, k) {
      ChainNames(nE, |ss|, k);
      if k < nE {
        assert ss[k] == Lib(exceptions[k]);
      } else {
        UdpSourceOk(port, EntryName(nE, k), NextName(nE, |ss|, k), HitName(nE, k));
      }
    }
  }

  lemma UdpAssembles(exceptions: seq<Rule>, port: u16) returns (bs: seq<seq<Insn>>)
    requires RulesOk(exceptions) && forall i :: 0 <= i < |exceptions| ==> !exceptions[i].All?
    ensures SourcesOk(Libs(exceptions) + [Custom(UdpPort(port))], |exceptions|)
    ensures Assembles(Libs(exceptions), [Custom(UdpPort(port))], bs)
  {
    hide SourcesOk; hide Blocks; hide UdpPort; hide CleanAt; hide Holding; hide AllShaped; hide BlockAt; hide HarnessOf; hide Assembled;
    hide Flat; hide Buildable; hide RuleOk;
    var es, ms := Libs(exceptions), [Custom(UdpPort(port))];
    UdpSourcesOk(exceptions, port);
    SourcesLink(es + ms, |es|);
    MatchesConcat(es, ms);
    assert !ToMatches(ms)[0].passOnly;
    assert forall i :: 0 <= i < |es| ==> !ToMatches(es)[i].catchAll;
    bs := Blocks(ToMatches(es + ms), |es|, 0).value;
  }

  lemma UdpVerdicts(exceptions: seq<Rule>, port: u16, env: Env, pkt: seq<u8>) returns (v: seq<bool>)
    ensures v == Verdicts(exceptions, pkt) + [UdpTo(pkt, port)]
    ensures var ss := Libs(exceptions) + [Custom(UdpPort(port))];
            |v| == |ss| && forall k :: 0 <= k < |ss| ==> Says(ss, |exceptions|, k, env, pkt, v[k])
  {
    hide EntryName; hide NextName; hide HitName; hide Names; hide Matches; hide UdpTo; hide Decides; hide UdpCode; hide Wrapped;
    var ss, nE := Libs(exceptions) + [Custom(UdpPort(port))], |exceptions|;
    v := Verdicts(exceptions, pkt) + [UdpTo(pkt, port)];
    forall k | 0 <= k < |ss| ensures Says(ss, nE, k, env, pkt, v[k]) {
      if k < nE {
        assert ss[k] == Lib(exceptions[k]);
      } else {
        ChainNames(nE, |ss|, k);
        UdpDecides(env, pkt, port, MatchEnv(NextName(nE, |ss|, k), HitName(nE, k), EntryName(nE, k)));
      }
    }
  }
}
