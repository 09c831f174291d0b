/** Opening and closing fleets (fleet.go, program.go, tune.go): every program, link, socket and
    NAPI tuning that exists belongs to an open fleet, whatever fails along the way. */
module Fleets {
  import opened Common

  datatype Mode = Auto | Native | NativeZeroCopy | Generic
  datatype Attachment = DrvMode | SkbMode
  datatype Binding = ZeroCopy | Copy
  datatype Group = Group(attach: Attachment, binds: seq<Binding>)

  /** Attach modes and their bind variants, in the order Open tries them. */
  function ModeGroups(m: Mode): (r: seq<Group>)
    ensures |r| > 0 && forall g :: g in r ==> g.binds != []
  {
    match m
    case Generic => [Group(SkbMode, [Copy])]
    case NativeZeroCopy => [Group(DrvMode, [ZeroCopy])]
    case Native => [Group(DrvMode, [ZeroCopy, Copy])]
    case Auto => [Group(DrvMode, [ZeroCopy, Copy]), Group(SkbMode, [Copy])]
  }

  /** A bind variant under an attach mode, and its place in the order of preference. */
  datatype Attempt = Attempt(attach: Attachment, bind: Binding)

  function Rank(a: Attempt): nat {
    (if a.attach == DrvMode then 0 else 2) + (if a.bind == ZeroCopy then 0 else 1)
  }

  predicate Ordered(q: seq<Attempt>) { forall i, j :: 0 <= i < j < |q| ==> Rank(q[i]) < Rank(q[j]) }

  /** The first `n` bind variants of a group, in order. */
  function Variants(g: Group, n: nat): (r: seq<Attempt>)
    requires n <= |g.binds|
    ensures |r| == n && forall i :: 0 <= i < n ==> r[i] == Attempt(g.attach, g.binds[i])
  {
    seq(n, i requires 0 <= i < n => Attempt(g.attach, g.binds[i]))
  }

  // -------- The host's answers --------

  /** What is asked of the host and may be refused. */
  datatype Request =
    | Loading
    | Attaching(attach: Attachment)
    | Create(queue: nat, bind: Binding)
    | Register(queue: nat, socket: nat)
    | Unregister(queue: nat)
    | Destroy(socket: nat)
    | Detaching
    | Unloading
    | Reading
    | Writing

  datatype Answer = Answer(what: Request, ok: bool)

  /** The answers given since. */
  function Since(was: seq<Answer>, now: seq<Answer>): seq<Answer>
    requires was <= now
  {
    now[|was|..]
  }

  lemma SinceAdd(a: seq<Answer>, b: seq<Answer>, c: seq<Answer>)
    requires a <= b <= c
    ensures Since(a, c) == Since(a, b) + Since(b, c)
  {
  }

  lemma NothingSince(a: seq<Answer>)
    ensures Since(a, a) == []
  {
  }

  lemma NothingDenied(what: Request)
    ensures !Denied([], what)
  {
  }

  lemma OnlySince(a: seq<Answer>, x: Answer)
    ensures Since(a, a + [x]) == [x]
  {
  }

  predicate Denied(q: seq<Answer>, what: Request) { Answer(what, false) in q }

  predicate Asked(q: seq<Answer>, what: Request) { Answer(what, true) in q || Answer(what, false) in q }

  /** Each queue has its own socket, bound that way, and packets are routed to it. */
  predicate Routed(q: seq<Answer>, socks: seq<nat>, bind: Binding) {
    forall i :: 0 <= i < |socks| ==> Answer(Create(i, bind), true) in q && Answer(Register(i, socks[i]), true) in q
  }

  lemma RegisteredMore(q: seq<Answer>, more: seq<Answer>, socks: seq<nat>, s: nat, bind: Binding)
    requires Routed(q, socks, bind)
    requires Answer(Create(|socks|, bind), true) in more && Answer(Register(|socks|, s), true) in more
    ensures Routed(q + more, socks + [s], bind)
  {
    forall i | 0 <= i <= |socks|
      ensures Answer(Create(i, bind), true) in q + more && Answer(Register(i, (socks + [s])[i]), true) in q + more
    {
      if i < |socks| { assert Answer(Register(i, socks[i]), true) in q; }
    }
  }

  /** Each queue's packets go to its own socket, bound as the fleet says; and the fleet is tuned if that was wanted, in
      native mode, unless the host did not let the settings be read and written. */
  predicate Equipped(f: Fleet, autoTune: bool, refs: map<nat, TuningRef>, sysfs: map<nat, Napi>, q: seq<Answer>) {
    && Routed(q, f.sockets, f.bind)
    && (autoTune && f.attach == DrvMode && f.tuning.None? ==> f.iface !in refs && (f.iface !in sysfs || Untunable(q)))
  }

  lemma NotLoaded(l: seq<Answer>)
    ensures Denied(Since(l, l + [Answer(Loading, false)]), Loading)
  {
    assert (l + [Answer(Loading, false)])[|l|..] == [Answer(Loading, false)];
  }

  /** The program was loaded, then attached or, the attach refused, unloaded. */
  lemma StartSaid(l0: seq<Answer>, l1: seq<Answer>, l2: seq<Answer>, l3: seq<Answer>, mode: Attachment, ok: bool)
    requires l1 == l0 + [Answer(Loading, true)] && l1 <= l2 <= l3
    requires forall a :: a in Since(l1, l2) ==> a.what == Attaching(mode)
    requires ok <==> !Denied(Since(l1, l2), Attaching(mode))
    requires if ok then l3 == l2 else forall a :: a in Since(l2, l3) ==> a.what == Unloading
    ensures !Denied(Since(l0, l3), Loading)
    ensures if ok then Granted(Since(l0, l3)) else Denied(Since(l0, l3), Attaching(mode))
  {
    SinceAdd(l0, l1, l2);
    SinceAdd(l0, l2, l3);
    assert Since(l0, l1) == [Answer(Loading, true)];
  }

  /** The answers of one bind variant that worked: those for the sockets, then those for tuning. */
  lemma BoundSaid(f: Fleet, autoTune: bool, refs: map<nat, TuningRef>, sysfs: map<nat, Napi>,
                  l0: seq<Answer>, l1: seq<Answer>, l2: seq<Answer>)
    requires l0 <= l1 <= l2 && Granted(Since(l0, l1)) && Routed(Since(l0, l1), f.sockets, f.bind)
    requires forall a :: a in Since(l0, l1) ==> a.what.Create? || a.what.Register?
    requires forall a :: a in Since(l1, l2) ==> a.what.Reading? || a.what.Writing?
    requires autoTune && f.attach == DrvMode && f.tuning.None? ==>
      f.iface !in refs && (f.iface !in sysfs || !Granted(Since(l1, l2)))
    ensures Equipped(f, autoTune, refs, sysfs, Since(l0, l2)) && !Unbound(Since(l0, l2))
    ensures forall a :: a in Since(l0, l2) ==> !a.what.Loading? && !a.what.Attaching?
  {
    SinceAdd(l0, l1, l2);
  }

  lemma EquippedLater(f: Fleet, autoTune: bool, refs: map<nat, TuningRef>, sysfs: map<nat, Napi>, q: seq<Answer>, more: seq<Answer>)
    requires Equipped(f, autoTune, refs, sysfs, more)
    ensures Equipped(f, autoTune, refs, sysfs, q + more)
  {
    forall a | a in more ensures a in q + more {}
  }

  predicate Granted(q: seq<Answer>) { forall a :: a in q ==> a.ok }

  /** Some queue got no socket, or none that packets are routed to. */
  predicate Unbound(q: seq<Answer>) { exists a :: a in q && !a.ok && (a.what.Create? || a.what.Register?) }

  /** Some setting could not be read or written. */
  predicate Untunable(q: seq<Answer>) { exists a :: a in q && !a.ok && (a.what.Reading? || a.what.Writing?) }

  /** The host refused something an attach mode needs. */
  predicate Refusal(q: seq<Answer>) {
    Unbound(q) || exists a :: a in q && !a.ok && (a.what.Loading? || a.what.Attaching?)
  }

  /** The variant was tried, or its attach mode refused. */
  predicate Past(q: seq<Attempt>, said: seq<Answer>, attach: Attachment, bind: Binding) {
    Attempt(attach, bind) in q || Denied(said, Attaching(attach))
  }

  predicate GivenUp(g: Group, q: seq<Attempt>, said: seq<Answer>) {
    forall b :: b in g.binds ==> Past(q, said, g.attach, b)
  }

  /** Every variant the mode allows that is preferred to the fleet's, or every one when there is
      no fleet, was tried or its attach mode refused: native zero-copy unless the mode is
      generic, then native copy in the automatic and native modes, then generic copy in the
      automatic and generic modes. */
  predicate FellBack(mode: Mode, q: seq<Attempt>, said: seq<Answer>, f: Option<Fleet>) {
    && (mode != Generic && (f.None? || f.value.attach == SkbMode || f.value.bind == Copy) ==> Past(q, said, DrvMode, ZeroCopy))
    && (mode in {Auto, Native} && (f.None? || f.value.attach == SkbMode) ==> Past(q, said, DrvMode, Copy))
    && (mode in {Auto, Generic} && f.None? ==> Past(q, said, SkbMode, Copy))
  }

  /** The bind variants a mode allows. */
  predicate Allowed(mode: Mode, attach: Attachment, bind: Binding) {
    match (attach, bind)
    case (DrvMode, ZeroCopy) => mode != Generic
    case (DrvMode, Copy) => mode in {Auto, Native}
    case (SkbMode, Copy) => mode in {Auto, Generic}
    case (SkbMode, ZeroCopy) => false
  }

  lemma GivenUpLater(g: Group, q: seq<Attempt>, said: seq<Answer>, q': seq<Attempt>, said': seq<Answer>)
    requires GivenUp(g, q, said) && (forall a :: a in q ==> a in q') && forall a :: a in said ==> a in said'
    ensures GivenUp(g, q', said')
  {
  }

  /** Two calls later. */
  lemma StillGivenUp(groups: seq<Group>, i: nat, t0: seq<Attempt>, t1: seq<Attempt>, t2: seq<Attempt>,
                     a0: seq<Answer>, a1: seq<Answer>, a2: seq<Answer>)
    requires t0 <= t1 <= t2 && a0 <= a1 <= a2 && i <= |groups|
    requires forall j :: 0 <= j < i ==> GivenUp(groups[j], t1[|t0|..], Since(a0, a1))
    ensures forall j :: 0 <= j < i ==> GivenUp(groups[j], t2[|t0|..], Since(a0, a2))
  {
    hide GivenUp;
    SinceAdd(a0, a1, a2);
    assert t2[|t0|..] == t1[|t0|..] + t2[|t1|..];
    forall j | 0 <= j < i ensures GivenUp(groups[j], t2[|t0|..], Since(a0, a2)) {
      GivenUpLater(groups[j], t1[|t0|..], Since(a0, a1), t2[|t0|..], Since(a0, a2));
    }
  }

  /** A group all of whose variants were tried, or whose attach mode was refused. */
  lemma GroupGivenUp(g: Group, t0: seq<Attempt>, t1: seq<Attempt>, t2: seq<Attempt>, a0: seq<Answer>, a1: seq<Answer>, a2: seq<Answer>)
    requires t0 <= t1 <= t2 && a0 <= a1 <= a2
    requires Denied(Since(a1, a2), Attaching(g.attach)) || t2 == t1 + Variants(g, |g.binds|)
    ensures GivenUp(g, t2[|t0|..], Since(a0, a2))
  {
    SinceAdd(a0, a1, a2);
    if !Denied(Since(a1, a2), Attaching(g.attach)) {
      var v := Variants(g, |g.binds|);
      assert t2[|t0|..] == t1[|t0|..] + v;
      forall b | b in g.binds ensures Attempt(g.attach, b) in t2[|t0|..] {
        var i :| 0 <= i < |g.binds| && g.binds[i] == b;
        assert v[i] == Attempt(g.attach, b);
      }
    }
  }

  lemma Exhausted(mode: Mode, q: seq<Attempt>, said: seq<Answer>)
    requires var gs := ModeGroups(mode); forall j :: 0 <= j < |gs| ==> GivenUp(gs[j], q, said)
    ensures FellBack(mode, q, said, None)
  {
    hide Past;
    var gs := ModeGroups(mode);
    assert GivenUp(gs[0], q, said) && (mode == Auto ==> GivenUp(gs[1], q, said));
    assert mode != Generic ==> ZeroCopy in gs[0].binds;
    assert mode in {Auto, Native} ==> Copy in gs[0].binds;
  }

  lemma SettledOn(mode: Mode, i: nat, q: seq<Attempt>, said: seq<Answer>, f: Fleet)
    requires var gs := ModeGroups(mode);
      && i < |gs| && (forall j :: 0 <= j < i ==> GivenUp(gs[j], q, said))
      && f.attach == gs[i].attach && f.bind in gs[i].binds && Preferred(q, mode, f)
    ensures FellBack(mode, q, said, Some(f)) && Allowed(mode, f.attach, f.bind)
  {
    var gs := ModeGroups(mode);
    if i == 1 {
      assert GivenUp(gs[0], q, said);
      assert Past(q, said, DrvMode, gs[0].binds[0]) && Past(q, said, DrvMode, gs[0].binds[1]);
    } else if f.attach == DrvMode && f.bind == Copy {
      assert gs[0] in gs && gs[0].binds[0] in gs[0].binds && AtLeastAs(DrvMode, ZeroCopy, f);
    }
  }

  /** napi_defer_hard_irqs and gro_flush_timeout of one interface. */
  datatype Napi = Napi(hardIrqs: string, flush: string)

  /** napiTuning: what to put back, and where. */
  datatype Tuning = Tuning(iface: nat, saved: Napi)
  datatype TuningRef = TuningRef(tuning: Tuning, n: int)

  datatype Fleet = Fleet(iface: nat, attach: Attachment, bind: Binding, program: nat, sockets: seq<nat>,
                         tuning: Option<Tuning>)

  function Members(q: seq<nat>): set<nat> { set x | x in q }

  function ProgramsOf(fleets: map<nat, Fleet>): set<nat> {
    set id | id in fleets :: fleets[id].program
  }

  function SocketsOf(fleets: map<nat, Fleet>): set<nat> {
    set id, s | id in fleets && s in fleets[id].sockets :: s
  }

  /** Every fleet has a link, nothing else has one, and no two are on one interface. */
  predicate LinkedAll(fleets: map<nat, Fleet>, links: map<nat, nat>) {
    && links.Keys == ProgramsOf(fleets)
    && (forall id :: id in fleets ==> fleets[id].program in links && links[fleets[id].program] == fleets[id].iface)
    && (forall i, j :: i in fleets && j in fleets && i != j ==> fleets[i].iface != fleets[j].iface)
  }

  /** What is attached over netlink is an open fleet's program, on its interface. */
  predicate NetlinkOwned(fleets: map<nat, Fleet>, legacy: map<nat, nat>) {
    forall i :: i in legacy ==> exists id :: id in fleets && fleets[id].iface == i && fleets[id].program == legacy[i]
  }

  /** The fleet's program is the one on its interface. */
  predicate Attached(f: Fleet, links: map<nat, nat>, legacy: map<nat, nat>) {
    f.program in links || (f.iface in legacy && legacy[f.iface] == f.program)
  }

  /** No program and no socket has two owners. */
  predicate Separate(fleets: map<nat, Fleet>) {
    && (forall i, j :: i in fleets && j in fleets && i != j ==> fleets[i].program != fleets[j].program)
    && (forall i, j :: i in fleets && j in fleets && i != j ==> Members(fleets[i].sockets) !! Members(fleets[j].sockets))
  }

  /** The fleets that hold a reference on an interface's tuning. */
  function TunedOn(fleets: map<nat, Fleet>, iface: nat): set<nat> {
    set id | id in fleets && fleets[id].tuning.Some? && fleets[id].tuning.value.iface == iface
  }

  /** Every reference is a fleet's, every tuned fleet has one, and they name the same saved values. */
  predicate Counted(fleets: map<nat, Fleet>, refs: map<nat, TuningRef>) {
    && (forall iface :: iface in refs ==>
          refs[iface].tuning.iface == iface && refs[iface].n == |TunedOn(fleets, iface)| > 0)
    && (forall id :: id in fleets && fleets[id].tuning.Some? ==>
          && fleets[id].tuning.value.iface in refs
          && fleets[id].tuning.value == refs[fleets[id].tuning.value.iface].tuning)
  }

  /** While tuned, the saved values are the originals; otherwise the originals are in force. */
  predicate Restorable(sysfs: map<nat, Napi>, refs: map<nat, TuningRef>, original: map<nat, Napi>) {
    && sysfs.Keys == original.Keys && refs.Keys <= sysfs.Keys
    && forall iface :: iface in original ==>
         if iface in refs then refs[iface].tuning.saved == original[iface] else sysfs[iface] == original[iface]
  }

  lemma NotOwned(fleets: map<nat, Fleet>, p: nat)
    requires p !in ProgramsOf(fleets)
    ensures forall id :: id in fleets ==> fleets[id].program != p
  {
    forall id | id in fleets ensures fleets[id].program != p {
      assert fleets[id].program in ProgramsOf(fleets);
    }
  }

  // -------- Adding and removing a fleet --------

  lemma AddFleet(fleets: map<nat, Fleet>, id: nat, f: Fleet)
    requires id !in fleets && Separate(fleets) && f.program !in ProgramsOf(fleets)
    requires Members(f.sockets) !! SocketsOf(fleets)
    ensures Separate(fleets[id := f])
    ensures ProgramsOf(fleets[id := f]) == ProgramsOf(fleets) + {f.program}
    ensures SocketsOf(fleets[id := f]) == SocketsOf(fleets) + Members(f.sockets)
  {
    var g := fleets[id := f];
    forall p | p in ProgramsOf(fleets) + {f.program} ensures p in ProgramsOf(g) {
      if p == f.program {
        assert g[id].program == p;
      } else {
        var k :| k in fleets && fleets[k].program == p;
        assert g[k].program == p;
      }
    }
    forall s | s in SocketsOf(fleets) + Members(f.sockets) ensures s in SocketsOf(g) {
      if s in f.sockets {
        assert s in g[id].sockets;
      } else {
        var k :| k in fleets && s in fleets[k].sockets;
        assert s in g[k].sockets;
      }
    }
    forall i | i in fleets
      ensures fleets[i].program != f.program && Members(fleets[i].sockets) !! Members(f.sockets)
    {
      assert fleets[i].program in ProgramsOf(fleets);
      assert forall s :: s in fleets[i].sockets ==> s in SocketsOf(fleets);
    }
  }

  lemma RemoveFleet(fleets: map<nat, Fleet>, id: nat)
    requires id in fleets && Separate(fleets)
    ensures Separate(fleets - {id})
    ensures ProgramsOf(fleets - {id}) == ProgramsOf(fleets) - {fleets[id].program}
    ensures SocketsOf(fleets - {id}) == SocketsOf(fleets) - Members(fleets[id].sockets)
  {
    var g, f := fleets - {id}, fleets[id];
    forall p | p in ProgramsOf(fleets) - {f.program} ensures p in ProgramsOf(g) {
      var k :| k in fleets && fleets[k].program == p;
      assert k in g && g[k].program == p;
    }
    forall s | s in SocketsOf(fleets) - Members(f.sockets) ensures s in SocketsOf(g) {
      var k :| k in fleets && s in fleets[k].sockets;
      assert k in g && s in g[k].sockets;
    }
    forall s | s in SocketsOf(g) ensures s !in f.sockets {
      var k :| k in g && s in g[k].sockets;
      assert s in Members(fleets[k].sockets);
    }
  }

  /** One more reference to `t`. */
  function Referenced(refs: map<nat, TuningRef>, t: Tuning): map<nat, TuningRef> {
    refs[t.iface := TuningRef(t, 1 + if t.iface in refs then refs[t.iface].n else 0)]
  }

  lemma CountAdded(fleets: map<nat, Fleet>, id: nat, f: Fleet, refs: map<nat, TuningRef>, refs': map<nat, TuningRef>)
    requires id !in fleets && Counted(fleets, refs)
    requires f.tuning.None? ==> refs' == refs
    requires f.tuning.Some? ==> refs' == Referenced(refs, f.tuning.value)
    requires f.tuning.Some? && f.tuning.value.iface in refs ==> f.tuning.value == refs[f.tuning.value.iface].tuning
    ensures Counted(fleets[id := f], refs')
  {
    hide TunedOn;
    var g := fleets[id := f];
    forall iface | iface in refs'
      ensures refs'[iface].tuning.iface == iface && refs'[iface].n == |TunedOn(g, iface)| > 0
    {
      TunedAdded(fleets, id, f, iface);
      if f.tuning.Some? && f.tuning.value.iface == iface && iface !in refs {
        NoneTuned(fleets, refs, iface);
      }
    }
  }

  lemma TunedAdded(fleets: map<nat, Fleet>, id: nat, f: Fleet, iface: nat)
    requires id !in fleets
    ensures id !in TunedOn(fleets, iface)
    ensures TunedOn(fleets[id := f], iface) ==
            TunedOn(fleets, iface) + (if f.tuning.Some? && f.tuning.value.iface == iface then {id} else {})
  {
    var g := fleets[id := f];
    forall k: nat ensures k in TunedOn(g, iface) <==>
      k in TunedOn(fleets, iface) + (if f.tuning.Some? && f.tuning.value.iface == iface then {id} else {}) {
      if k != id && k in fleets { assert g[k] == fleets[k]; }
    }
  }

  lemma NoneTuned(fleets: map<nat, Fleet>, refs: map<nat, TuningRef>, iface: nat)
    requires Counted(fleets, refs) && iface !in refs
    ensures TunedOn(fleets, iface) == {}
  {
  }

  /** What restore leaves in the reference table. */
  function Released(refs: map<nat, TuningRef>, t: Option<Tuning>): map<nat, TuningRef> {
    if t.None? || t.value.iface !in refs then refs
    else if refs[t.value.iface].n - 1 > 0
      then refs[t.value.iface := refs[t.value.iface].(n := refs[t.value.iface].n - 1)]
    else refs - {t.value.iface}
  }

  lemma CountRemoved(fleets: map<nat, Fleet>, id: nat, refs: map<nat, TuningRef>)
    requires id in fleets && Counted(fleets, refs)
    ensures Counted(fleets - {id}, Released(refs, fleets[id].tuning))
  {
    hide TunedOn;
    var g, f, after := fleets - {id}, fleets[id], Released(refs, fleets[id].tuning);
    forall iface | iface in refs
      ensures f.tuning.Some? && f.tuning.value.iface == iface ==> |TunedOn(g, iface)| == refs[iface].n - 1
      ensures !(f.tuning.Some? && f.tuning.value.iface == iface) ==> TunedOn(g, iface) == TunedOn(fleets, iface)
    {
      TunedRemoved(fleets, id, iface);
    }
    forall k | k in g && g[k].tuning.Some?
      ensures g[k].tuning.value.iface in after && g[k].tuning.value == after[g[k].tuning.value.iface].tuning
    {
      StillTuned(g, k);
    }
  }

  lemma TunedRemoved(fleets: map<nat, Fleet>, id: nat, iface: nat)
    requires id in fleets
    ensures var t := fleets[id].tuning;
            if t.Some? && t.value.iface == iface
            then id in TunedOn(fleets, iface) && TunedOn(fleets - {id}, iface) == TunedOn(fleets, iface) - {id}
            else TunedOn(fleets - {id}, iface) == TunedOn(fleets, iface)
  {
  }

  lemma StillTuned(fleets: map<nat, Fleet>, k: nat)
    requires k in fleets && fleets[k].tuning.Some?
    ensures k in TunedOn(fleets, fleets[k].tuning.value.iface)
  {
  }

  /** Attempts in order, all from the first `i` groups. */
  predicate OrderedUpTo(q: seq<Attempt>, groups: seq<Group>, i: nat) {
    && Ordered(q)
    && forall a :: a in q ==> exists j :: 0 <= j < i && j < |groups| && a.attach == groups[j].attach
  }

  lemma NothingTried(mode: Mode)
    ensures Ordered([]) && OrderedUpTo([], ModeGroups(mode), 0)
  {
  }

  lemma GroupTried(start: seq<Attempt>, before: seq<Attempt>, after: seq<Attempt>, mode: Mode, i: nat)
    requires i < |ModeGroups(mode)| && start <= before && OrderedUpTo(before[|start|..], ModeGroups(mode), i)
    ensures after == before || after == before + Variants(ModeGroups(mode)[i], |ModeGroups(mode)[i].binds|) ==>
      start <= after && OrderedUpTo(after[|start|..], ModeGroups(mode), i + 1) && Ordered(after[|start|..])
  {
    var gs, g := ModeGroups(mode), ModeGroups(mode)[i];
    if after == before + Variants(g, |g.binds|) {
      VariantsFollow(before[|start|..], mode, i, |g.binds|);
      assert after[|start|..] == before[|start|..] + Variants(g, |g.binds|);
    }
  }

  lemma VariantsFollow(q: seq<Attempt>, mode: Mode, i: nat, n: nat)
    requires i < |ModeGroups(mode)| && OrderedUpTo(q, ModeGroups(mode), i) && n <= |ModeGroups(mode)[i].binds|
    ensures OrderedUpTo(q + Variants(ModeGroups(mode)[i], n), ModeGroups(mode), i + 1)
  {
    var gs, g := ModeGroups(mode), ModeGroups(mode)[i];
    var v := Variants(g, n);
    assert forall a :: a in q && i == 1 ==> a.attach == DrvMode && g.attach == SkbMode;
    forall a, b | 0 <= a < b < |q + v| ensures Rank((q + v)[a]) < Rank((q + v)[b]) {
      if b < |q| {
        assert (q + v)[a] == q[a] && (q + v)[b] == q[b];
      } else if a < |q| {
        assert q[a] in q && (q + v)[b] == v[b - |q|];
      } else {
        assert (q + v)[a] == v[a - |q|] && (q + v)[b] == v[b - |q|];
      }
    }
  }

  lemma DeniedAdd(q: seq<Answer>, q': seq<Answer>, what: Request)
    ensures Denied(q + q', what) <==> Denied(q, what) || Denied(q', what)
  {
  }

  lemma RefusalLater(q: seq<Answer>, q': seq<Answer>)
    requires Refusal(q')
    ensures Refusal(q + q')
  {
    assert forall a :: a in q' ==> a in q + q';
  }

  lemma InGroup(before: seq<Attempt>, after: seq<Attempt>, g: Group, n: nat, f: Fleet)
    requires n < |g.binds| && TriedUpTo(before, after, g, n, f)
    ensures f.attach == g.attach && f.bind in g.binds && before <= after
  {
  }

  lemma GroupChosen(start: seq<Attempt>, before: seq<Attempt>, after: seq<Attempt>, mode: Mode, i: nat, n: nat, f: Fleet)
    requires i < |ModeGroups(mode)| && start <= before && OrderedUpTo(before[|start|..], ModeGroups(mode), i)
    requires n < |ModeGroups(mode)[i].binds| && TriedUpTo(before, after, ModeGroups(mode)[i], n, f)
    ensures start <= after && Ordered(after[|start|..]) && Preferred(after[|start|..], mode, f)
  {
    hide ModeGroups; hide Rank; hide OrderedUpTo;
    var gs, g := ModeGroups(mode), ModeGroups(mode)[i];
    var v := Variants(g, n + 1);
    VariantsFollow(before[|start|..], mode, i, n + 1);
    UpToIsOrdered(before[|start|..] + v, gs, i + 1);
    var q := after[|start|..];
    assert q == before[|start|..] + v;
    assert q[|q| - 1] == v[n];
    forall h, b | h in gs && b in h.binds && AtLeastAs(h.attach, b, f)
      ensures Attempt(h.attach, b) in q
    {
      var j := EarlierVariant(mode, i, n, h, b);
      assert v[j] == Attempt(h.attach, b) && v[j] in q;
    }
  }

  lemma UpToIsOrdered(q: seq<Attempt>, groups: seq<Group>, i: nat)
    requires OrderedUpTo(q, groups, i)
    ensures Ordered(q)
  {
  }

  /** A variant of the same attach mode that is no less preferred comes no later. */
  lemma EarlierVariant(mode: Mode, i: nat, n: nat, h: Group, b: Binding) returns (j: nat)
    requires i < |ModeGroups(mode)| && n < |ModeGroups(mode)[i].binds| && h in ModeGroups(mode) && b in h.binds
    requires var g := ModeGroups(mode)[i];
             h.attach == g.attach && Rank(Attempt(h.attach, b)) <= Rank(Attempt(g.attach, g.binds[n]))
    ensures j <= n && ModeGroups(mode)[i].binds[j] == b
  {
    j := if b == ModeGroups(mode)[i].binds[n] then n else 0;
  }

  // -------- Attachments --------

  /** `p` is linked to `iface`, and the other links are the fleets', none of them there. */
  predicate Newest(fleets: map<nat, Fleet>, p: nat, iface: nat, links: map<nat, nat>) {
    && p in links && links[p] == iface && LinkedAll(fleets, links - {p})
    && forall id :: id in fleets ==> fleets[id].iface != iface
  }

  lemma LinkAdded(fleets: map<nat, Fleet>, id: nat, f: Fleet, links: map<nat, nat>)
    requires id !in fleets && Newest(fleets, f.program, f.iface, links)
    requires ProgramsOf(fleets[id := f]) == ProgramsOf(fleets) + {f.program}
    ensures LinkedAll(fleets[id := f], links)
  {
    var g := fleets[id := f];
    assert links.Keys == (links - {f.program}).Keys + {f.program};
    forall k | k in g ensures g[k].program in links && links[g[k].program] == g[k].iface {
      if k != id { assert fleets[k].program in links - {f.program}; }
    }
  }

  lemma LinkRemoved(fleets: map<nat, Fleet>, id: nat, links: map<nat, nat>)
    requires id in fleets && LinkedAll(fleets, links) && Separate(fleets)
    requires ProgramsOf(fleets - {id}) == ProgramsOf(fleets) - {fleets[id].program}
    ensures LinkedAll(fleets - {id}, links - {fleets[id].program})
    ensures fleets[id].program in links
  {
  }

  lemma NothingOwned(fleets: map<nat, Fleet>)
    ensures NetlinkOwned(fleets, map[])
  {
  }

  lemma NetlinkAdded(fleets: map<nat, Fleet>, id: nat, f: Fleet, legacy: map<nat, nat>)
    requires id !in fleets && NetlinkOwned(fleets, legacy - {f.iface}) && f.iface in legacy && legacy[f.iface] == f.program
    ensures NetlinkOwned(fleets[id := f], legacy)
  {
    var g := fleets[id := f];
    forall i | i in legacy ensures exists k :: k in g && g[k].iface == i && g[k].program == legacy[i] {
      if i == f.iface {
        assert g[id] == f;
      } else {
        assert i in legacy - {f.iface};
        var k :| k in fleets && fleets[k].iface == i && fleets[k].program == (legacy - {f.iface})[i];
        assert g[k] == fleets[k];
      }
    }
  }

  lemma StillOwned(fleets: map<nat, Fleet>, legacy: map<nat, nat>, legacy': map<nat, nat>, iface: nat)
    requires NetlinkOwned(fleets, legacy) && (legacy' == legacy || legacy' == legacy - {iface})
    ensures NetlinkOwned(fleets, legacy')
  {
    forall i | i in legacy' ensures exists k :: k in fleets && fleets[k].iface == i && fleets[k].program == legacy'[i] {
      assert i in legacy;
    }
  }

  lemma NetlinkRemoved(fleets: map<nat, Fleet>, id: nat, legacy: map<nat, nat>)
    requires id in fleets && NetlinkOwned(fleets, legacy)
    ensures NetlinkOwned(fleets - {id}, legacy - {fleets[id].iface})
  {
    var g, rest := fleets - {id}, legacy - {fleets[id].iface};
    forall i | i in rest ensures exists k :: k in g && g[k].iface == i && g[k].program == rest[i] {
      assert i in legacy;
      var k :| k in fleets && fleets[k].iface == i && fleets[k].program == legacy[i];
      assert k in g;
    }
  }

  /** A fleet opened on an interface takes it from every fleet that had it over netlink. */
  lemma AttachedAfterOpen(before: map<nat, Fleet>, after: map<nat, Fleet>, id: nat, links: map<nat, nat>, links': map<nat, nat>,
                          legacy: map<nat, nat>, legacy': map<nat, nat>)
    requires id in after && after - {id} == before && Separate(after) && Attached(after[id], links', legacy')
    requires links' - {after[id].program} == links && legacy' - {after[id].iface} == legacy - {after[id].iface}
    requires LinkedAll(after, links') || links' == map[]
    ensures forall k :: k in before && before[k].iface != after[id].iface ==>
              (Attached(before[k], links', legacy') <==> Attached(before[k], links, legacy))
    ensures forall k :: k in before && before[k].iface == after[id].iface ==> !Attached(before[k], links', legacy')
  {
    var f := after[id];
    forall k | k in before
      ensures before[k].iface != f.iface ==> (Attached(before[k], links', legacy') <==> Attached(before[k], links, legacy))
      ensures before[k].iface == f.iface ==> !Attached(before[k], links', legacy')
    {
      assert k in after && k != id && after[k] == before[k] && before[k].program != f.program;
      assert before[k].program in links' <==> before[k].program in links' - {f.program};
      var i := before[k].iface;
      if i != f.iface {
        assert i in legacy' <==> i in legacy' - {f.iface};
        assert i in legacy <==> i in legacy - {f.iface};
        assert i in legacy ==> (legacy - {f.iface})[i] == legacy[i] && (legacy' - {f.iface})[i] == legacy'[i];
      }
    }
  }

  lemma AttachedElsewhere(fleets: map<nat, Fleet>, iface: nat, links: map<nat, nat>, legacy: map<nat, nat>, legacy': map<nat, nat>)
    requires legacy' - {iface} == legacy - {iface}
    ensures forall k :: k in fleets && fleets[k].iface != iface ==>
              (Attached(fleets[k], links, legacy') <==> Attached(fleets[k], links, legacy))
  {
    forall i: nat | i != iface ensures (i in legacy' <==> i in legacy) && (i in legacy ==> legacy'[i] == legacy[i]) {
      assert i in legacy' <==> i in legacy' - {iface};
      assert i in legacy <==> i in legacy - {iface};
      assert i in legacy ==> (legacy - {iface})[i] == legacy[i] && (legacy' - {iface})[i] == legacy'[i];
    }
  }

  /** Closing a fleet takes the attachment from the other fleets on its interface exactly when
      they share it over netlink. */
  lemma AttachedAfterClose(before: map<nat, Fleet>, id: nat, linked: bool, links: map<nat, nat>, links': map<nat, nat>,
                           legacy: map<nat, nat>, legacy': map<nat, nat>)
    requires id in before && Separate(before) && links' == links - {before[id].program}
    requires if linked then legacy' == legacy == map[] else links == map[] && legacy' == legacy - {before[id].iface}
    ensures forall k :: k in before && k != id ==>
              (Attached(before[k], links', legacy') <==>
               Attached(before[k], links, legacy) && (linked || before[k].iface != before[id].iface))
  {
  }

  class World {
    /** Kernel objects that exist: loaded programs, XDP links (the interface each program is
        linked to), open AF_XDP sockets, and the programs attached the old way, over netlink
        (by interface). */
    var programs: set<nat>
    var links: map<nat, nat>
    var sockets: set<nat>
    var legacy: map<nat, nat>

    /** Per-interface NAPI settings, and the references fleets hold on having changed them. */
    var sysfs: map<nat, Napi>
    var tuningRefs: map<nat, TuningRef>

    var openFleets: map<nat, Fleet>
    var next: nat

    /** Bind variants tried so far, oldest first. */
    ghost var tried: seq<Attempt>

    /** What the host answered, oldest first. */
    ghost var log: seq<Answer>

    /** Requests that put something back, rollback, restore and detach, never fail. */
    const reliable: bool

    /** The kernel knows XDP links; without them programs are attached over netlink. */
    const xdpLinks: bool

    /** The settings before this process changed anything. */
    ghost const original: map<nat, Napi>

    constructor (sysfs: map<nat, Napi>, reliable: bool, xdpLinks: bool)
      ensures Valid() && openFleets == map[] && this.sysfs == original == sysfs
      ensures this.reliable == reliable && this.xdpLinks == xdpLinks
    {
      programs, links, sockets, legacy := {}, map[], {}, map[];
      this.sysfs, tuningRefs, openFleets, next := sysfs, map[], map[], 0;
      this.reliable, this.xdpLinks, original, tried, log := reliable, xdpLinks, sysfs, [], [];
    }

    ghost predicate Fresh()
      reads this`openFleets, this`programs, this`sockets, this`next
    {
      && (forall id :: id in openFleets ==> id < next)
      && (forall x :: x in programs || x in sockets ==> x < next)
    }

    /** The ledger: what exists is exactly what the open fleets own. */
    ghost predicate Valid()
      reads this`programs, this`links, this`sockets, this`legacy, this`sysfs, this`tuningRefs, this`openFleets, this`next
    {
      && programs == ProgramsOf(openFleets) && sockets == SocketsOf(openFleets)
      && Separate(openFleets) && Counted(openFleets, tuningRefs) && Fresh()
      && (if xdpLinks then LinkedAll(openFleets, links) && legacy == map[] else links == map[])
      && (reliable ==> Restorable(sysfs, tuningRefs, original) && NetlinkOwned(openFleets, legacy))
    }

    method Ask(what: Request) returns (ok: bool)
      modifies this`log
      ensures log == old(log) + [Answer(what, ok)]
    {
      ok := *;
      log := log + [Answer(what, ok)];
    }

    /** A request that puts something back. */
    method AskBack(what: Request) returns (ok: bool)
      modifies this`log
      ensures log == old(log) + [Answer(what, ok)] && (reliable ==> ok)
    {
      ok := *;
      ok := ok || reliable;
      log := log + [Answer(what, ok)];
    }

    // -------- Programs --------

    method BuildProgram() returns (p: Option<nat>)
      modifies this`programs, this`next, this`log
      ensures log == old(log) + [Answer(Loading, p.Some?)]
      ensures next >= old(next)
      ensures p.None? ==> programs == old(programs)
      ensures p.Some? ==> p.value == old(next) < next && programs == old(programs) + {p.value}
    {
      var loaded := Ask(Loading);
      if !loaded {
        return None;
      }
      p, programs, next := Some(next), programs + {next}, next + 1;
    }

    /** removeProgram: takes whatever is attached over netlink off the interface. The kernel
        refuses while a link holds it. */
    method RemoveProgram(iface: nat, what: Request) returns (ok: bool)
      modifies this`legacy, this`log
      ensures log == old(log) + [Answer(what, ok)]
      ensures legacy == if ok then old(legacy) - {iface} else old(legacy)
      ensures iface in links.Values ==> !ok
      ensures reliable && iface !in links.Values ==> ok
    {
      ok := *;
      ok := (ok || reliable) && iface !in links.Values;
      log := log + [Answer(what, ok)];
      if ok {
        legacy := legacy - {iface};
      }
    }

    /** Removes what is left over, then tries a link; only where the kernel has no links does
        it fall back to netlink. */
    method Attach(p: nat, iface: nat, mode: Attachment) returns (ok: bool)
      requires p !in links
      modifies this`links, this`legacy, this`log
      ensures old(log) <= log && forall a :: a in Since(old(log), log) ==> a.what == Attaching(mode)
      ensures ok <==> !Denied(Since(old(log), log), Attaching(mode))
      ensures !ok ==> links == old(links) && (legacy == old(legacy) || legacy == old(legacy) - {iface})
      ensures ok ==> iface !in old(links).Values
      ensures ok && xdpLinks ==> links == old(links)[p := iface] && legacy == old(legacy) - {iface}
      ensures ok && !xdpLinks ==> links == old(links) && legacy == old(legacy)[iface := p]
    {
      var removed := RemoveProgram(iface, Attaching(mode));
      if !removed {
        return false;
      }
      ok := Ask(Attaching(mode));
      assert Since(old(log), log) == [Answer(Attaching(mode), true), Answer(Attaching(mode), ok)];
      if ok {
        if xdpLinks {
          links := links[p := iface];
        } else {
          legacy := legacy[iface := p];
        }
      }
    }

    method Detach(p: nat, iface: nat) returns (ok: bool)
      modifies this`links, this`legacy, this`log
      ensures log == old(log) + [Answer(Detaching, ok)]
      ensures links == old(links) - {p}
      ensures legacy == if ok && p !in old(links) then old(legacy) - {iface} else old(legacy)
      ensures reliable && p !in old(links) && iface !in old(links).Values ==> ok
    {
      if p in links {
        links := links - {p};
        ok := Ask(Detaching);
      } else {
        ok := RemoveProgram(iface, Detaching);
      }
    }

    method CloseProgram(p: nat) returns (ok: bool)
      modifies this`programs, this`links, this`log
      ensures programs == old(programs) - {p} && links == old(links) - {p}
      ensures log == old(log) + [Answer(Unloading, ok)]
    {
      links, programs := links - {p}, programs - {p};
      ok := Ask(Unloading);
    }

    // -------- Sockets --------

    method OpenSocket(queue: nat, bind: Binding) returns (s: Option<nat>)
      modifies this`sockets, this`next, this`log
      ensures log == old(log) + [Answer(Create(queue, bind), s.Some?)]
      ensures next >= old(next)
      ensures s.None? ==> sockets == old(sockets)
      ensures s.Some? ==> s.value == old(next) < next && sockets == old(sockets) + {s.value}
    {
      var created := Ask(Create(queue, bind));
      if !created {
        return None;
      }
      s, sockets, next := Some(next), sockets + {next}, next + 1;
    }

    method CloseAll(socks: seq<nat>)
      modifies this`sockets
      ensures sockets == old(sockets) - Members(socks)
    {
      for i := 0 to |socks|
        invariant sockets == old(sockets) - Members(socks[..i])
      {
        assert Members(socks[..i + 1]) == Members(socks[..i]) + {socks[i]};
        sockets := sockets - {socks[i]};
      }
      assert socks[..|socks|] == socks;
    }

    /** A socket registered for one queue, or none. */
    method RegisterOne(queue: nat, bind: Binding) returns (s: Option<nat>)
      requires forall x :: x in sockets ==> x < next
      modifies this`sockets, this`next, this`log
      ensures next >= old(next) && old(log) <= log
      ensures forall a :: a in Since(old(log), log) ==> a.what.Create? || a.what.Register?
      ensures s.None? ==> sockets == old(sockets) && !Granted(Since(old(log), log))
      ensures s.Some? ==> s.value == old(next) < next && sockets == old(sockets) + {s.value}
      ensures s.Some? ==> Since(old(log), log) == [Answer(Create(queue, bind), true), Answer(Register(queue, s.value), true)]
    {
      s := OpenSocket(queue, bind);
      if s.None? {
        assert Since(old(log), log)[0] == Answer(Create(queue, bind), false);
        return;
      }
      var registered := Ask(Register(queue, s.value));
      if !registered {
        assert Since(old(log), log)[1] == Answer(Register(queue, s.value), false);
        sockets := sockets - {s.value};
        assert sockets == old(sockets);
        return None;
      }
    }

    /** One socket per queue, registered for that queue, or none at all if the host refuses one. */
    method RegisterSockets(nQueues: nat, bind: Binding) returns (r: Option<seq<nat>>)
      requires forall s :: s in sockets ==> s < next
      modifies this`sockets, this`next, this`log
      ensures old(log) <= log && forall a :: a in Since(old(log), log) ==> a.what.Create? || a.what.Register?
      ensures r.Some? <==> Granted(Since(old(log), log))
      ensures next >= old(next)
      ensures r.None? ==> sockets == old(sockets)
      ensures r.Some? ==> |r.value| == nQueues && sockets == old(sockets) + Members(r.value)
      ensures r.Some? ==> Routed(Since(old(log), log), r.value, bind)
      ensures r.Some? ==> forall s :: s in r.value ==> old(next) <= s < next
      ensures r.Some? ==> forall i, j :: 0 <= i < j < nQueues ==> r.value[i] != r.value[j]
    {
      var socks: seq<nat> := [];
      for q := 0 to nQueues
        invariant |socks| == q && next >= old(next) && sockets == old(sockets) + Members(socks)
        invariant forall s :: s in socks ==> old(next) <= s < next
        invariant forall i, j :: 0 <= i < j < q ==> socks[i] != socks[j]
        invariant old(log) <= log && Granted(Since(old(log), log))
        invariant forall a :: a in Since(old(log), log) ==> a.what.Create? || a.what.Register?
        invariant Routed(Since(old(log), log), socks, bind)
      {
        ghost var l := log;
        var s := RegisterOne(q, bind);
        SinceAdd(old(log), l, log);
        if s.None? {
          CloseAll(socks);
          return None;
        }
        assert Members(socks + [s.value]) == Members(socks) + {s.value};
        RegisteredMore(Since(old(log), l), Since(l, log), socks, s.value, bind);
        socks := socks + [s.value];
      }
      r := Some(socks);
    }

    // -------- NAPI tuning --------

    /** Both settings, or neither. */
    method WriteBoth(iface: nat, wanted: Napi) returns (ok: bool)
      requires iface in sysfs
      modifies this`sysfs, this`log
      ensures old(log) <= log && forall a :: a in Since(old(log), log) ==> a.what == Writing
      ensures ok <==> Granted(Since(old(log), log))
      ensures if ok then sysfs == old(sysfs)[iface := wanted] else reliable ==> sysfs == old(sysfs)
    {
      var saved := sysfs[iface];
      var first := Ask(Writing);
      if !first {
        assert Since(old(log), log)[0] == Answer(Writing, false);
        return false;
      }
      sysfs := sysfs[iface := saved.(hardIrqs := wanted.hardIrqs)];
      var second := Ask(Writing);
      assert Since(old(log), log)[1] == Answer(Writing, second);
      if !second {
        var rolledBack := AskBack(Writing);
        assert Since(old(log), log)[1] == Answer(Writing, false);
        if rolledBack {
          sysfs := sysfs[iface := sysfs[iface].(hardIrqs := saved.hardIrqs)];
          assert sysfs == old(sysfs);
        }
        return false;
      }
      sysfs := sysfs[iface := wanted];
      ok := true;
    }

    /** applyNAPITuning: the first fleet on an interface saves and applies; later ones share. */
    method ApplyTuning(iface: nat, wanted: Napi) returns (t: Option<Tuning>)
      requires reliable ==> Restorable(sysfs, tuningRefs, original)
      requires forall i :: i in tuningRefs ==> tuningRefs[i].tuning.iface == i
      modifies this`sysfs, this`tuningRefs, this`log
      ensures old(log) <= log && forall a :: a in Since(old(log), log) ==> a.what.Reading? || a.what.Writing?
      ensures t.None? ==> iface !in old(tuningRefs) && (iface !in old(sysfs) || !Granted(Since(old(log), log)))
      ensures t.Some? ==> Granted(Since(old(log), log))
      ensures reliable ==> Restorable(sysfs, tuningRefs, original)
      ensures t.None? ==> tuningRefs == old(tuningRefs) && (reliable ==> sysfs == old(sysfs))
      ensures t.Some? && iface in old(tuningRefs) ==> sysfs == old(sysfs)
      ensures t.Some? && iface !in old(tuningRefs) ==>
        iface in old(sysfs) && t.value.saved == old(sysfs)[iface] && sysfs == old(sysfs)[iface := wanted]
      ensures t.Some? ==> t.value.iface == iface && tuningRefs == Referenced(old(tuningRefs), t.value)
      ensures t.Some? && iface in old(tuningRefs) ==> t.value == old(tuningRefs)[iface].tuning
    {
      if iface in tuningRefs {
        var ref := tuningRefs[iface];
        tuningRefs := tuningRefs[iface := ref.(n := ref.n + 1)];
        return Some(ref.tuning);
      }
      var readable := Ask(Reading);
      if iface !in sysfs || !readable {
        return None;
      }
      ghost var l := log;
      var saved := sysfs[iface];
      var wrote := WriteBoth(iface, wanted);
      SinceAdd(old(log), l, log);
      if !wrote {
        return None;
      }
      var tuning := Tuning(iface, saved);
      tuningRefs := tuningRefs[iface := TuningRef(tuning, 1)];
      t := Some(tuning);
    }

    /** Tuning is for native mode, and can be switched off. */
    method TuneNative(attach: Attachment, autoTune: bool, iface: nat, wanted: Napi) returns (t: Option<Tuning>)
      requires (reliable ==> Restorable(sysfs, tuningRefs, original)) && Counted(openFleets, tuningRefs)
      modifies this`sysfs, this`tuningRefs, this`log
      ensures old(log) <= log && forall a :: a in Since(old(log), log) ==> a.what.Reading? || a.what.Writing?
      ensures reliable ==> Restorable(sysfs, tuningRefs, original)
      ensures t.None? ==> tuningRefs == old(tuningRefs)
      ensures t.None? && autoTune && attach == DrvMode ==>
        iface !in old(tuningRefs) && (iface !in old(sysfs) || !Granted(Since(old(log), log)))
      ensures t.Some? ==> autoTune && attach == DrvMode
      ensures t.Some? ==> t.value.iface == iface && tuningRefs == Referenced(old(tuningRefs), t.value)
      ensures t.Some? && iface in old(tuningRefs) ==> t.value == old(tuningRefs)[iface].tuning
    {
      hide Restorable;
      NothingSince(log);
      t := None;
      if autoTune && attach == DrvMode {
        t := ApplyTuning(iface, wanted);
      }
    }

    /** restore: the last fleet to close puts both settings back. */
    method Restore(t: Option<Tuning>)
      requires reliable ==> Restorable(sysfs, tuningRefs, original)
      requires t.Some? && t.value.iface in tuningRefs ==> t.value == tuningRefs[t.value.iface].tuning
      modifies this`sysfs, this`tuningRefs, this`log
      ensures old(log) <= log && forall a :: a in Since(old(log), log) ==> a.what == Writing
      ensures tuningRefs == Released(old(tuningRefs), t)
      ensures tuningRefs.Keys == old(tuningRefs).Keys ==> sysfs == old(sysfs)
      ensures reliable && tuningRefs.Keys != old(tuningRefs).Keys ==> sysfs == old(sysfs)[t.value.iface := t.value.saved]
      ensures reliable ==> Restorable(sysfs, tuningRefs, original)
    {
      if t.None? || t.value.iface !in tuningRefs {
        return;
      }
      var iface := t.value.iface;
      var ref := tuningRefs[iface];
      if ref.n - 1 > 0 {
        tuningRefs := tuningRefs[iface := ref.(n := ref.n - 1)];
        return;
      }
      tuningRefs := tuningRefs - {iface};
      var first := AskBack(Writing);
      var second := AskBack(Writing);
      if iface in sysfs && first {
        sysfs := sysfs[iface := sysfs[iface].(hardIrqs := t.value.saved.hardIrqs)];
      }
      if iface in sysfs && second {
        sysfs := sysfs[iface := sysfs[iface].(flush := t.value.saved.flush)];
      }
    }

    // -------- Open and Close --------

    /** A fleet that owns what has just been created joins the open fleets. */
    method Record(f: Fleet, ghost refs: map<nat, TuningRef>) returns (id: nat)
      requires Separate(openFleets) && Counted(openFleets, refs) && Fresh()
      requires f.program !in ProgramsOf(openFleets) && programs == ProgramsOf(openFleets) + {f.program}
      requires Members(f.sockets) !! SocketsOf(openFleets) && sockets == SocketsOf(openFleets) + Members(f.sockets)
      requires Holds(f.program, f.iface)
      requires f.tuning.None? ==> tuningRefs == refs
      requires f.tuning.Some? ==> tuningRefs == Referenced(refs, f.tuning.value)
      requires f.tuning.Some? && f.tuning.value.iface in refs ==> f.tuning.value == refs[f.tuning.value.iface].tuning
      requires reliable ==> Restorable(sysfs, tuningRefs, original)
      modifies this`openFleets, this`next
      ensures Valid() && id !in old(openFleets) && openFleets == old(openFleets)[id := f]
      ensures Attached(f, links, legacy)
    {
      hide Separate; hide Counted; hide Restorable; hide ProgramsOf; hide SocketsOf; hide LinkedAll; hide NetlinkOwned;
      id := next;
      next := next + 1;
      AddFleet(openFleets, id, f);
      CountAdded(openFleets, id, f, refs, tuningRefs);
      if xdpLinks {
        LinkAdded(openFleets, id, f, links);
        NothingOwned(openFleets[id := f]);
      } else if reliable {
        NetlinkAdded(openFleets, id, f, legacy);
      }
      openFleets := openFleets[id := f];
    }

    /** The program no fleet owns yet is the one on its interface, and the other attachments
        are the open fleets'. */
    ghost predicate Holds(p: nat, iface: nat)
      reads this`openFleets, this`links, this`legacy
    {
      && (if xdpLinks then Newest(openFleets, p, iface, links) && legacy == map[]
          else links == map[] && iface in legacy && legacy[iface] == p)
      && (reliable ==> NetlinkOwned(openFleets, legacy - {iface}))
    }

    /** Half way through Open: one program exists that no fleet owns yet. */
    ghost predicate Pending(p: nat, iface: nat)
      reads this`programs, this`links, this`sockets, this`legacy, this`sysfs, this`tuningRefs, this`openFleets, this`next
    {
      && p !in ProgramsOf(openFleets) && programs == ProgramsOf(openFleets) + {p}
      && sockets == SocketsOf(openFleets)
      && Separate(openFleets) && Counted(openFleets, tuningRefs) && Fresh()
      && (reliable ==> Restorable(sysfs, tuningRefs, original)) && Holds(p, iface)
    }

    /** One bind variant: all sockets, then best-effort tuning, then the fleet is recorded. */
    method TryBinding(p: nat, iface: nat, attach: Attachment, bind: Binding, nQueues: nat, autoTune: bool, wanted: Napi)
      returns (r: Option<nat>)
      requires Pending(p, iface)
      modifies this`sockets, this`next, this`sysfs, this`tuningRefs, this`openFleets, this`tried, this`log
      ensures tried == old(tried) + [Attempt(attach, bind)]
      ensures old(log) <= log && (r.None? <==> Unbound(Since(old(log), log)))
      ensures forall a :: a in Since(old(log), log) ==> !a.what.Loading? && !a.what.Attaching?
      ensures r.None? ==> Pending(p, iface) && sockets == old(sockets) && openFleets == old(openFleets)
      ensures r.None? ==> tuningRefs == old(tuningRefs) && sysfs == old(sysfs)
      ensures r.Some? ==> Valid() && r.value !in old(openFleets) && r.value in openFleets
      ensures r.Some? ==> openFleets - {r.value} == old(openFleets) && Attached(openFleets[r.value], links, legacy)
      ensures r.Some? ==> var f := openFleets[r.value];
        && f.iface == iface && |f.sockets| == nQueues && f.attach == attach && f.bind == bind && f.program == p
        && (f.tuning.Some? ==> autoTune && attach == DrvMode && f.tuning.value.iface == iface)
      ensures r.Some? ==> Equipped(openFleets[r.value], autoTune, old(tuningRefs), old(sysfs), Since(old(log), log))
    {
      hide Separate; hide Restorable; hide ProgramsOf; hide SocketsOf; hide World.Holds; hide Attached; hide LinkedAll; hide NetlinkOwned;
      hide Since; hide Equipped; hide Routed; hide Counted;
      tried := tried + [Attempt(attach, bind)];
      var socks := RegisterSockets(nQueues, bind);
      if socks.None? {
        return None;
      }
      ghost var refs, l := tuningRefs, log;
      var tuning := TuneNative(attach, autoTune, iface, wanted);
      BoundSaid(Fleet(iface, attach, bind, p, socks.value, tuning), autoTune, refs, old(sysfs), old(log), l, log);
      var id := Record(Fleet(iface, attach, bind, p, socks.value, tuning), refs);
      assert openFleets - {id} == old(openFleets);
      r := Some(id);
    }

    /** The program of one attach mode, built and attached; `stop` when it could not be built,
        and only then. */
    method StartGroup(iface: nat, mode: Attachment) returns (stop: bool, r: Option<nat>)
      requires Valid()
      modifies this`programs, this`next, this`links, this`legacy, this`log
      ensures old(log) <= log && (stop <==> Denied(Since(old(log), log), Loading))
      ensures r.None? && !stop ==> Denied(Since(old(log), log), Attaching(mode))
      ensures r.Some? ==> Granted(Since(old(log), log))
      ensures legacy - {iface} == old(legacy) - {iface}
      ensures r.None? ==> Valid() && programs == old(programs) && links == old(links)
      ensures r.Some? ==> !stop && Pending(r.value, iface) && programs == old(programs) + {r.value}
                          && links - {r.value} == old(links) && r.value !in old(programs)
    {
      hide Separate; hide Counted; hide Restorable; hide ProgramsOf; hide SocketsOf; hide LinkedAll; hide NetlinkOwned; hide Newest;
      hide Since; hide Denied; hide Granted;
      var prog := BuildProgram();
      if prog.None? {
        NotLoaded(old(log));
        return true, None;
      }
      ghost var l1 := log;
      var p := prog.value;
      UnusedProgram(p, old(programs));
      FreshUnlinked(p);
      var attached := Attach(p, iface, mode);
      ghost var l2 := log;
      if !attached {
        var unloaded := CloseProgram(p);
        OnlySince(l2, Answer(Unloading, unloaded));
        StartSaid(old(log), l1, l2, log, mode, false);
        if reliable { StillOwned(openFleets, old(legacy), legacy, iface); }
        assert programs == old(programs) && links == old(links);
        return false, None;
      }
      StartSaid(old(log), l1, l2, log, mode, true);
      JustAttached(p, iface, old(links), old(legacy));
      stop, r := false, Some(p);
    }

    lemma UnusedProgram(p: nat, programs0: set<nat>)
      requires programs0 == ProgramsOf(openFleets) && p !in programs0
      ensures p !in ProgramsOf(openFleets) && forall id :: id in openFleets ==> openFleets[id].program != p
    {
      NotOwned(openFleets, p);
    }

    /** Undoes an attach mode under which no bind variant worked. */
    method UndoGroup(p: nat, iface: nat)
      requires Pending(p, iface)
      modifies this`programs, this`links, this`legacy, this`log
      ensures old(log) <= log && forall a :: a in Since(old(log), log) ==> a.what.Detaching? || a.what.Unloading?
      ensures Valid() && programs == old(programs) - {p} && links == old(links) - {p}
      ensures legacy - {iface} == old(legacy) - {iface}
    {
      hide Separate; hide Counted; hide Restorable; hide ProgramsOf; hide SocketsOf; hide LinkedAll; hide NetlinkOwned;
      var _ := Detach(p, iface);
      var _ := CloseProgram(p);
      assert links == old(links) - {p};
      assert programs == ProgramsOf(openFleets);
      if xdpLinks { NothingOwned(openFleets); }
    }

    /** One attach mode: build, attach, try its bind variants, and undo if none works. Without a
        fleet, `stop` means that the program could not be built; otherwise the attach was refused
        or every variant tried. */
    method TryGroup(iface: nat, g: Group, mode: Mode, nQueues: nat, autoTune: bool, wanted: Napi)
      returns (stop: bool, r: Option<nat>)
      requires Valid() && g in ModeGroups(mode)
      modifies this
      ensures Valid() && (r.Some? ==> stop)
      ensures old(log) <= log && (Denied(Since(old(log), log), Loading) <==> r.None? && stop)
      ensures r.None? && !stop ==>
        Denied(Since(old(log), log), Attaching(g.attach)) || tried == old(tried) + Variants(g, |g.binds|)
      ensures r.None? ==> Refusal(Since(old(log), log))
      ensures r.None? ==> programs == old(programs) && links == old(links) && sockets == old(sockets)
      ensures r.None? ==> openFleets == old(openFleets) && tuningRefs == old(tuningRefs) && sysfs == old(sysfs)
      ensures r.Some? ==> r.value !in old(openFleets) && r.value in openFleets
      ensures r.Some? ==> openFleets - {r.value} == old(openFleets) && Attached(openFleets[r.value], links, legacy)
      ensures r.Some? ==> links - {openFleets[r.value].program} == old(links)
      ensures legacy - {iface} == old(legacy) - {iface}
      ensures r.Some? ==> Chosen(openFleets[r.value], iface, mode, nQueues, autoTune)
      ensures r.Some? ==> Equipped(openFleets[r.value], autoTune, old(tuningRefs), old(sysfs), Since(old(log), log))
      ensures r.None? ==> tried == old(tried) || tried == old(tried) + Variants(g, |g.binds|)
      ensures r.Some? ==> exists n: nat :: n < |g.binds| && TriedUpTo(old(tried), tried, g, n, openFleets[r.value])
    {
      hide Separate; hide Counted; hide Restorable; hide ProgramsOf; hide SocketsOf; hide ModeGroups; hide LinkedAll; hide NetlinkOwned;
      hide Attached; hide World.Pending; hide World.Valid; hide Equipped;
      var prog;
      stop, prog := StartGroup(iface, g.attach);
      ghost var l1 := log;
      if prog.None? {
        return stop, None;
      }
      var p := prog.value;
      stop, r := TryBindings(p, iface, g, mode, nQueues, autoTune, wanted);
      ghost var l2 := log;
      SinceAdd(old(log), l1, l2);
      if r.Some? { EquippedLater(openFleets[r.value], autoTune, old(tuningRefs), old(sysfs), Since(old(log), l1), Since(l1, l2)); }
      if r.None? {
        UndoGroup(p, iface);
        SinceAdd(old(log), l2, log);
        assert programs == old(programs) && links == old(links);
      }
    }

    method TryBindings(p: nat, iface: nat, g: Group, mode: Mode, nQueues: nat, autoTune: bool, wanted: Napi)
      returns (stop: bool, r: Option<nat>)
      requires Pending(p, iface) && g in ModeGroups(mode)
      modifies this`sockets, this`next, this`sysfs, this`tuningRefs, this`openFleets, this`tried, this`log
      ensures r.Some? == stop
      ensures old(log) <= log && forall a :: a in Since(old(log), log) ==> !a.what.Loading? && !a.what.Attaching?
      ensures r.None? ==> Unbound(Since(old(log), log))
      ensures r.None? ==> Pending(p, iface) && sockets == old(sockets) && openFleets == old(openFleets)
      ensures r.None? ==> tuningRefs == old(tuningRefs) && sysfs == old(sysfs) && tried == old(tried) + Variants(g, |g.binds|)
      ensures r.Some? ==> Valid() && r.value !in old(openFleets) && r.value in openFleets
      ensures r.Some? ==> openFleets - {r.value} == old(openFleets) && Attached(openFleets[r.value], links, legacy)
      ensures r.Some? ==> openFleets[r.value].program == p && Chosen(openFleets[r.value], iface, mode, nQueues, autoTune)
      ensures r.Some? ==> Equipped(openFleets[r.value], autoTune, old(tuningRefs), old(sysfs), Since(old(log), log))
      ensures r.Some? ==> exists n: nat :: n < |g.binds| && TriedUpTo(old(tried), tried, g, n, openFleets[r.value])
    {
      hide Separate; hide Counted; hide Restorable; hide ProgramsOf; hide SocketsOf; hide ModeGroups; hide LinkedAll; hide NetlinkOwned;
      hide Attached; hide World.Pending; hide World.Valid; hide Equipped;
      r := None;
      for i := 0 to |g.binds|
        invariant Pending(p, iface) && sockets == old(sockets) && openFleets == old(openFleets)
        invariant r.None? && tuningRefs == old(tuningRefs) && sysfs == old(sysfs)
        invariant tried == old(tried) + Variants(g, i)
        invariant old(log) <= log && (i > 0 ==> Unbound(Since(old(log), log)))
        invariant forall a :: a in Since(old(log), log) ==> !a.what.Loading? && !a.what.Attaching?
      {
        ghost var l := log;
        r := TryBinding(p, iface, g.attach, g.binds[i], nQueues, autoTune, wanted);
        SinceAdd(old(log), l, log);
        if r.Some? { EquippedLater(openFleets[r.value], autoTune, old(tuningRefs), old(sysfs), Since(old(log), l), Since(l, log)); }
        assert Variants(g, i + 1) == Variants(g, i) + [Attempt(g.attach, g.binds[i])];
        assert tried == old(tried) + Variants(g, i + 1);
        if r.Some? {
          assert g.binds[i] in g.binds;
          assert TriedUpTo(old(tried), tried, g, i, openFleets[r.value]);
          return true, r;
        }
      }
      stop := false;
    }

    /** Tries each attach mode, and under each its bind variants, until one works. Failing leaves
        everything as it was; succeeding adds exactly one fleet and what it owns. It fails only
        when a program could not be built, or no variant the mode allows is left; and only
        because the host refused something. */
    method Open(iface: nat, mode: Mode, nQueues: nat, autoTune: bool, wanted: Napi) returns (r: Option<nat>)
      requires Valid()
      modifies this
      ensures Valid()
      ensures r.None? ==> programs == old(programs) && links == old(links) && sockets == old(sockets)
      ensures r.None? ==> openFleets == old(openFleets) && tuningRefs == old(tuningRefs) && sysfs == old(sysfs)
      ensures r.Some? ==> r.value !in old(openFleets) && r.value in openFleets
      ensures r.Some? ==> openFleets - {r.value} == old(openFleets) && Attached(openFleets[r.value], links, legacy)
      ensures forall id :: id in old(openFleets) && old(openFleets)[id].iface != iface ==>
        (Attached(old(openFleets)[id], links, legacy) <==> Attached(old(openFleets)[id], old(links), old(legacy)))
      ensures forall id :: id in old(openFleets) && old(openFleets)[id].iface == iface && r.Some? ==>
        !Attached(old(openFleets)[id], links, legacy)
      ensures r.Some? ==> Chosen(openFleets[r.value], iface, mode, nQueues, autoTune)
      ensures old(tried) <= tried && Ordered(tried[|old(tried)|..])
      ensures r.Some? ==> Preferred(tried[|old(tried)|..], mode, openFleets[r.value])
      ensures old(log) <= log && (Denied(Since(old(log), log), Loading) ==> r.None?)
      ensures r.Some? ==> Equipped(openFleets[r.value], autoTune, old(tuningRefs), old(sysfs), Since(old(log), log))
      ensures r.None? ==> Refusal(Since(old(log), log))
      ensures r.None? ==> Denied(Since(old(log), log), Loading)
                          || FellBack(mode, tried[|old(tried)|..], Since(old(log), log), None)
      ensures r.Some? ==> var f := openFleets[r.value];
        FellBack(mode, tried[|old(tried)|..], Since(old(log), log), Some(f)) && Allowed(mode, f.attach, f.bind)
    {
      hide Separate; hide Counted; hide Restorable; hide ProgramsOf; hide SocketsOf; hide LinkedAll; hide NetlinkOwned; hide Attached;
      hide Ordered; hide Preferred; hide Variants; hide Chosen; hide TriedUpTo; hide FellBack; hide GivenUp; hide Allowed; hide Refusal; hide Equipped;
      hide Since; hide Denied;
      NothingTried(mode);
      NothingSince(log);
      assert !Denied(Since(log, log), Loading) by { NothingDenied(Loading); }
      assert tried[|tried|..] == [];
      var groups := ModeGroups(mode);
      for i := 0 to |groups|
        invariant Valid() && programs == old(programs) && links == old(links) && sockets == old(sockets)
        invariant openFleets == old(openFleets) && tuningRefs == old(tuningRefs) && sysfs == old(sysfs)
        invariant legacy - {iface} == old(legacy) - {iface}
        invariant old(tried) <= tried && OrderedUpTo(tried[|old(tried)|..], groups, i)
        invariant old(log) <= log && !Denied(Since(old(log), log), Loading)
        invariant i > 0 ==> Refusal(Since(old(log), log))
        invariant forall j :: 0 <= j < i ==> GivenUp(groups[j], tried[|old(tried)|..], Since(old(log), log))
      {
        var stop;
        ghost var before, l := tried, log;
        stop, r := TryGroup(iface, groups[i], mode, nQueues, autoTune, wanted);
        GroupTried(old(tried), before, tried, mode, i);
        SinceAdd(old(log), l, log);
        DeniedAdd(Since(old(log), l), Since(l, log), Loading);
        if r.None? { RefusalLater(Since(old(log), l), Since(l, log)); }
        if r.Some? {
          ghost var n: nat :| n < |groups[i].binds| && TriedUpTo(before, tried, groups[i], n, openFleets[r.value]);
          GroupChosen(old(tried), before, tried, mode, i, n, openFleets[r.value]);
          InGroup(before, tried, groups[i], n, openFleets[r.value]);
          StillGivenUp(groups, i, old(tried), before, tried, old(log), l, log);
          EquippedLater(openFleets[r.value], autoTune, old(tuningRefs), old(sysfs), Since(old(log), l), Since(l, log));
          SettledOn(mode, i, tried[|old(tried)|..], Since(old(log), log), openFleets[r.value]);
          ChosenThere(openFleets[r.value], iface, mode, nQueues, autoTune);
          AttachedAfterOpen(old(openFleets), openFleets, r.value, old(links), links, old(legacy), legacy);
        }
        if stop {
          AttachedElsewhere(old(openFleets), iface, links, old(legacy), legacy);
          return;
        }
        StillGivenUp(groups, i, old(tried), before, tried, old(log), l, log);
        GroupGivenUp(groups[i], old(tried), before, tried, old(log), l, log);
      }
      r := None;
      Exhausted(mode, tried[|old(tried)|..], Since(old(log), log));
      AttachedElsewhere(old(openFleets), iface, links, old(legacy), legacy);
    }

    /** Unregisters and closes every socket, detaches and releases the program, gives back the
        tuning reference. Every step is attempted whatever fails, and any refusal but that of a
        setting is reported; closing twice changes and asks nothing. */
    method Close(id: nat) returns (failed: bool)
      requires Valid()
      modifies this
      ensures Valid() && openFleets == old(openFleets) - {id}
      ensures id !in old(openFleets) ==> !failed && programs == old(programs) && links == old(links)
      ensures id !in old(openFleets) ==> sockets == old(sockets) && tuningRefs == old(tuningRefs) && sysfs == old(sysfs)
      ensures id !in old(openFleets) ==> legacy == old(legacy) && log == old(log)
      ensures old(log) <= log && (failed <==> exists a :: a in Since(old(log), log) && !a.ok && a.what != Writing)
      ensures id in old(openFleets) ==> var f := old(openFleets)[id];
        && (forall q :: 0 <= q < |f.sockets| ==>
              Asked(Since(old(log), log), Unregister(q)) && Asked(Since(old(log), log), Destroy(f.sockets[q])))
        && Asked(Since(old(log), log), Detaching) && Asked(Since(old(log), log), Unloading)
      ensures id in old(openFleets) && reliable ==> forall k :: k in openFleets ==>
        (Attached(openFleets[k], links, legacy) <==>
         Attached(openFleets[k], old(links), old(legacy)) && (xdpLinks || openFleets[k].iface != old(openFleets)[id].iface))
    {
      hide Separate; hide Counted; hide Restorable; hide ProgramsOf; hide SocketsOf; hide LinkedAll; hide NetlinkOwned; hide Attached;
      hide Asked; hide Since; hide Released;
      failed := false;
      if id !in openFleets {
        assert openFleets - {id} == openFleets;
        NothingSince(log);
        return;
      }
      var f := openFleets[id];
      Without(id);
      openFleets := openFleets - {id};
      failed := ReleaseFleet(f);
      if reliable { AttachedAfterClose(old(openFleets), id, xdpLinks, old(links), links, old(legacy), legacy); }
    }

    /** Everything a fleet owns, given back in turn. */
    method ReleaseFleet(f: Fleet) returns (failed: bool)
      requires if xdpLinks then f.program in links && legacy == map[] else links == map[]
      requires reliable ==> Restorable(sysfs, tuningRefs, original)
      requires f.tuning.Some? && f.tuning.value.iface in tuningRefs ==> f.tuning.value == tuningRefs[f.tuning.value.iface].tuning
      modifies this`programs, this`links, this`legacy, this`sockets, this`sysfs, this`tuningRefs, this`log
      ensures sockets == old(sockets) - Members(f.sockets)
      ensures programs == old(programs) - {f.program} && links == old(links) - {f.program}
      ensures legacy == old(legacy) || (!xdpLinks && legacy == old(legacy) - {f.iface})
      ensures reliable && !xdpLinks ==> legacy == old(legacy) - {f.iface}
      ensures tuningRefs == Released(old(tuningRefs), f.tuning)
      ensures reliable ==> Restorable(sysfs, tuningRefs, original)
      ensures old(log) <= log && (failed <==> exists a :: a in Since(old(log), log) && !a.ok && a.what != Writing)
      ensures forall q :: 0 <= q < |f.sockets| ==>
        Asked(Since(old(log), log), Unregister(q)) && Asked(Since(old(log), log), Destroy(f.sockets[q]))
      ensures Asked(Since(old(log), log), Detaching) && Asked(Since(old(log), log), Unloading)
    {
      hide Restorable; hide Released; hide Asked; hide SocketsAsked; hide Since;
      failed := CloseSockets(f.sockets);
      ghost var l1 := log;
      var released := ReleaseProgram(f.program, f.iface);
      failed := failed || !released;
      ghost var l2 := log;
      Restore(f.tuning);
      AnswersToClose(old(log), l1, l2, log, f.sockets, failed);
    }

    /** The ledger without one fleet and what it owns. */
    lemma Without(id: nat)
      requires Valid() && id in openFleets
      ensures var rest, f := openFleets - {id}, openFleets[id];
        && ProgramsOf(rest) == programs - {f.program} && SocketsOf(rest) == sockets - Members(f.sockets) && Separate(rest)
        && Counted(rest, Released(tuningRefs, f.tuning))
        && (f.tuning.Some? ==> f.tuning.value.iface in tuningRefs && f.tuning.value == tuningRefs[f.tuning.value.iface].tuning)
        && (xdpLinks ==> f.program in links && LinkedAll(rest, links - {f.program}))
        && (reliable ==> NetlinkOwned(rest, if xdpLinks then legacy else legacy - {f.iface}))
    {
      hide Separate; hide Counted; hide Restorable; hide ProgramsOf; hide SocketsOf; hide LinkedAll; hide NetlinkOwned;
      hide Released;
      RemoveFleet(openFleets, id);
      CountRemoved(openFleets, id, tuningRefs);
      SharedTuning(openFleets, id, tuningRefs);
      if xdpLinks {
        LinkRemoved(openFleets, id, links);
        NothingOwned(openFleets - {id});
      } else if reliable {
        NetlinkRemoved(openFleets, id, legacy);
      }
    }

    /** Detaches and closes a program, whatever fails. */
    method ReleaseProgram(p: nat, iface: nat) returns (ok: bool)
      requires if xdpLinks then p in links && legacy == map[] else links == map[]
      modifies this`programs, this`links, this`legacy, this`log
      ensures exists d, u :: log == old(log) + [Answer(Detaching, d), Answer(Unloading, u)] && (ok <==> d && u)
      ensures programs == old(programs) - {p} && links == old(links) - {p}
      ensures legacy == old(legacy) || (!xdpLinks && legacy == old(legacy) - {iface})
      ensures reliable && !xdpLinks ==> legacy == old(legacy) - {iface}
    {
      var detached := Detach(p, iface);
      var closed := CloseProgram(p);
      assert links == old(links) - {p};
      assert log == old(log) + [Answer(Detaching, detached), Answer(Unloading, closed)];
      ok := detached && closed;
    }

    lemma FreshUnlinked(p: nat)
      requires xdpLinks ==> LinkedAll(openFleets, links)
      requires !xdpLinks ==> links == map[]
      requires p !in ProgramsOf(openFleets)
      ensures p !in links
    {
    }

    /** A successful attach puts the new program on its interface and changes no other. */
    lemma JustAttached(p: nat, iface: nat, links0: map<nat, nat>, legacy0: map<nat, nat>)
      requires p !in ProgramsOf(openFleets) && iface !in links0.Values
      requires if xdpLinks then LinkedAll(openFleets, links0) && legacy0 == map[] else links0 == map[]
      requires xdpLinks ==> links == links0[p := iface] && legacy == legacy0 - {iface}
      requires !xdpLinks ==> links == links0 && legacy == legacy0[iface := p]
      requires reliable ==> NetlinkOwned(openFleets, legacy0)
      ensures Holds(p, iface) && links - {p} == links0
      ensures legacy - {iface} == legacy0 - {iface}
    {
      if xdpLinks {
        assert links - {p} == links0;
        forall id | id in openFleets ensures openFleets[id].iface != iface {
          assert openFleets[id].program in links0;
          assert links0[openFleets[id].program] in links0.Values;
        }
      }
      if reliable { StillOwned(openFleets, legacy0, legacy - {iface}, iface); }
    }

    /** Each socket is unregistered and closed; an error is remembered, not acted on. */
    method CloseSockets(socks: seq<nat>) returns (failed: bool)
      modifies this`sockets, this`log
      ensures sockets == old(sockets) - Members(socks)
      ensures old(log) <= log && SocketsAsked(Since(old(log), log), socks, |socks|, failed)
    {
      failed := false;
      for q := 0 to |socks|
        invariant sockets == old(sockets) - Members(socks[..q])
        invariant old(log) <= log && SocketsAsked(Since(old(log), log), socks, q, failed)
      {
        assert Members(socks[..q + 1]) == Members(socks[..q]) + {socks[q]};
        ghost var l := log;
        var unregistered := Ask(Unregister(q));
        var closed := Ask(Destroy(socks[q]));
        SinceAdd(old(log), l, log);
        assert Since(l, log) == [Answer(Unregister(q), unregistered), Answer(Destroy(socks[q]), closed)];
        sockets := sockets - {socks[q]};
        failed := failed || !unregistered || !closed;
      }
      assert socks[..|socks|] == socks;
    }

    /** With no fleet open nothing is left, and the host is as it was found. */
    lemma AllClosed()
      requires Valid() && openFleets == map[]
      ensures programs == {} && links == map[] && sockets == {} && tuningRefs == map[]
      ensures reliable ==> sysfs == original && legacy == map[]
    {
      assert forall iface :: iface in tuningRefs ==> TunedOn(openFleets, iface) == {};
    }

    /** Where the kernel has links every open fleet keeps its attachment for as long as it is
        open, and no interface has two. */
    lemma AlwaysAttached()
      requires Valid() && xdpLinks
      ensures forall id :: id in openFleets ==> Attached(openFleets[id], links, legacy)
      ensures forall i, j :: i in openFleets && j in openFleets && i != j ==> openFleets[i].iface != openFleets[j].iface
    {
    }

    /** An interface's original settings are in force whenever no tuned fleet is open on it. */
    lemma OriginalsBack(iface: nat)
      requires Valid() && reliable && iface in original && TunedOn(openFleets, iface) == {}
      ensures iface in sysfs && sysfs[iface] == original[iface]
    {
    }
  }

  /** The first `n` sockets were unregistered and closed, and `failed` says whether either was
      refused for one of them. */
  predicate SocketsAsked(q: seq<Answer>, socks: seq<nat>, n: nat, failed: bool)
    requires n <= |socks|
  {
    && (failed <==> !Granted(q)) && (forall a :: a in q ==> a.what.Unregister? || a.what.Destroy?)
    && forall k :: 0 <= k < n ==> Asked(q, Unregister(k)) && Asked(q, Destroy(socks[k]))
  }

  lemma AnswersToClose(l0: seq<Answer>, l1: seq<Answer>, l2: seq<Answer>, l3: seq<Answer>, socks: seq<nat>, failed: bool)
    requires l0 <= l1 <= l2 <= l3
    requires exists d, u, f ::
      && l2 == l1 + [Answer(Detaching, d), Answer(Unloading, u)] && (failed <==> f || !(d && u))
      && SocketsAsked(Since(l0, l1), socks, |socks|, f)
    requires forall a :: a in Since(l2, l3) ==> a.what == Writing
    ensures failed <==> exists a :: a in Since(l0, l3) && !a.ok && a.what != Writing
    ensures forall q :: 0 <= q < |socks| ==> Asked(Since(l0, l3), Unregister(q)) && Asked(Since(l0, l3), Destroy(socks[q]))
    ensures Asked(Since(l0, l3), Detaching) && Asked(Since(l0, l3), Unloading)
  {
    SinceAdd(l0, l1, l2);
    SinceAdd(l0, l2, l3);
    var d, u, f :| l2 == l1 + [Answer(Detaching, d), Answer(Unloading, u)] && (failed <==> f || !(d && u))
      && SocketsAsked(Since(l0, l1), socks, |socks|, f);
    assert Since(l1, l2) == [Answer(Detaching, d), Answer(Unloading, u)];
    assert Answer(Detaching, d) in Since(l0, l3) && Answer(Unloading, u) in Since(l0, l3);
  }

  lemma SharedTuning(fleets: map<nat, Fleet>, id: nat, refs: map<nat, TuningRef>)
    requires id in fleets && Counted(fleets, refs)
    ensures fleets[id].tuning.Some? ==>
      fleets[id].tuning.value.iface in refs && fleets[id].tuning.value == refs[fleets[id].tuning.value.iface].tuning
  {
  }

  /** The group's variants were tried in order up to the one the fleet uses. */
  predicate TriedUpTo(before: seq<Attempt>, after: seq<Attempt>, g: Group, n: nat, f: Fleet)
    requires n < |g.binds|
  {
    after == before + Variants(g, n + 1) && f.attach == g.attach && f.bind == g.binds[n]
  }

  /** A variant of the fleet's own attach mode, and no less preferred than the fleet's. */
  predicate AtLeastAs(attach: Attachment, b: Binding, f: Fleet) {
    attach == f.attach && Rank(Attempt(attach, b)) <= Rank(Attempt(f.attach, f.bind))
  }

  /** The variants tried by one Open, from most preferred down, end with the one in use, and
      every variant of its attach mode that is preferred to it was tried. */
  predicate Preferred(latest: seq<Attempt>, mode: Mode, f: Fleet) {
    && latest != [] && latest[|latest| - 1] == Attempt(f.attach, f.bind)
    && forall g, b :: g in ModeGroups(mode) && b in g.binds && AtLeastAs(g.attach, b, f) ==> Attempt(g.attach, b) in latest
  }

  /** What the caller gets: the interface, an allowed mode, one socket per queue, and tuning
      only in native mode and only when not switched off. */
  predicate Chosen(f: Fleet, iface: nat, mode: Mode, nQueues: nat, autoTune: bool) {
    && f.iface == iface && |f.sockets| == nQueues
    && (exists g :: g in ModeGroups(mode) && g.attach == f.attach && f.bind in g.binds)
    && (f.tuning.Some? ==> autoTune && f.attach == DrvMode && f.tuning.value.iface == iface)
  }

  lemma ChosenThere(f: Fleet, iface: nat, mode: Mode, nQueues: nat, autoTune: bool)
    requires Chosen(f, iface, mode, nQueues, autoTune)
    ensures f.iface == iface
  {
  }

  /** Any history of calls, on any interfaces, with any failures. */
  datatype Call =
    | CallOpen(iface: nat, mode: Mode, nQueues: nat, autoTune: bool, wanted: Napi)
    | CallClose(id: nat)

  method History(w: World, calls: seq<Call>)
    requires w.Valid()
    modifies w
    ensures w.Valid()
  {
    for i := 0 to |calls|
      invariant w.Valid()
    {
      match calls[i]
      case CallOpen(iface, mode, nQueues, autoTune, wanted) =>
        var _ := w.Open(iface, mode, nQueues, autoTune, wanted);
      case CallClose(id) =>
        var _ := w.Close(id);
    }
  }
}
