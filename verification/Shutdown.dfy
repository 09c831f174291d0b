/** Close against calls in flight (socket.go:170-187, 529-562, 1074-1119): any number of
    goroutines inside guarded methods, nested or not, and any number of Close callers. */
module Shutdown {

  /** Where a goroutine stands: outside incref/decref code, past the first check, past the
      increment, about to take a refused increment back, or asleep in poll(2). */
  datatype Phase = Idle | ToAdd | ToRecheck | ToUndo | Blocked

  /** `held` counts the guarded bodies it is inside of; `work` bounds what they still do. */
  datatype User = User(phase: Phase, held: nat, work: nat)

  datatype Closer = NotCalled | Won | Waiting | Tearing | Done | Lost

  datatype State = State(closing: bool, woken: bool, ops: int, users: seq<User>, closers: seq<Closer>)

  datatype Action =
    | Check(i: nat)
    | Add(i: nat)
    | Recheck(i: nat, work: nat)
    | Undo(i: nat)
    | Work(i: nat)
    | Leave(i: nat)
    | Sleep(i: nat)
    | WakeUp(i: nat, traffic: bool)
    | Swap(j: nat)
    | WriteWake(j: nat)
    | SeeZero(j: nat)
    | Finish(j: nat)

  predicate UserEnabled(s: State, a: Action) {
    match a
    case Check(i) => i < |s.users| && s.users[i].phase.Idle? && (s.users[i].held > 0 ==> s.users[i].work > 0)
    case Add(i) => i < |s.users| && s.users[i].phase.ToAdd?
    case Recheck(i, _) => i < |s.users| && s.users[i].phase.ToRecheck?
    case Undo(i) => i < |s.users| && s.users[i].phase.ToUndo?
    case Work(i) => i < |s.users| && s.users[i].phase.Idle? && s.users[i].held > 0 && s.users[i].work > 0
    case Leave(i) => i < |s.users| && s.users[i].phase.Idle? && s.users[i].held > 0
    case Sleep(i) => i < |s.users| && s.users[i].phase.Idle? && s.users[i].held > 0 && s.users[i].work > 0
    case WakeUp(i, traffic) => i < |s.users| && s.users[i].phase.Blocked? && (traffic || s.woken)
    case _ => false
  }

  predicate CloserEnabled(s: State, a: Action) {
    match a
    case Swap(j) => j < |s.closers| && s.closers[j].NotCalled?
    case WriteWake(j) => j < |s.closers| && s.closers[j].Won?
    case SeeZero(j) => j < |s.closers| && s.closers[j].Waiting? && s.ops <= 0
    case Finish(j) => j < |s.closers| && s.closers[j].Tearing?
    case _ => false
  }

  predicate Enabled(s: State, a: Action) { UserEnabled(s, a) || CloserEnabled(s, a) }

  function Spend(u: User): User { if u.held > 0 && u.work > 0 then u.(work := u.work - 1) else u }

  /** One step of one goroutine inside the guard code. */
  function UserStep(s: State, a: Action): User
    requires UserEnabled(s, a)
  {
    match a
    case Check(i) => var u := Spend(s.users[i]); if s.closing then u else u.(phase := ToAdd)
    case Add(i) => s.users[i].(phase := ToRecheck)
    case Recheck(i, w) =>
      var u := s.users[i];
      if s.closing then u.(phase := ToUndo) else User(Idle, u.held + 1, u.work + w)
    case Undo(i) => s.users[i].(phase := Idle)
    case Work(i) => Spend(s.users[i])
    case Leave(i) => var u := s.users[i]; User(Idle, u.held - 1, if u.held == 1 then 0 else u.work)
    case Sleep(i) => Spend(s.users[i]).(phase := Blocked)
    case WakeUp(i, _) => s.users[i].(phase := Idle)
  }

  function OpsChange(a: Action): int {
    if a.Add? then 1 else if a.Undo? || a.Leave? then -1 else 0
  }

  function Step(s: State, a: Action): State
    requires Enabled(s, a)
  {
    if UserEnabled(s, a) then
      s.(users := s.users[a.i := UserStep(s, a)], ops := s.ops + OpsChange(a))
    else
      match a
      case Swap(j) =>
        s.(closing := true, closers := s.closers[j := if s.closing then Lost else Won])
      case WriteWake(j) => s.(woken := true, closers := s.closers[j := Waiting])
      case SeeZero(j) => s.(closers := s.closers[j := Tearing])
      case Finish(j) => s.(closers := s.closers[j := Done])
  }

  predicate Runs(s: State, acts: seq<Action>, t: State)
    decreases |acts|
  {
    if acts == [] then s == t else Enabled(s, acts[0]) && Runs(Step(s, acts[0]), acts[1..], t)
  }

  predicate Start(s: State) {
    && !s.closing && !s.woken && s.ops == 0
    && (forall u :: u in s.users ==> u == User(Idle, 0, 0))
    && forall c :: c in s.closers ==> c.NotCalled?
  }

  // -------- The reference count counts registrations --------

  function Registered(u: User): nat {
    u.held + (if u.phase.ToRecheck? || u.phase.ToUndo? then 1 else 0)
  }

  function Total(us: seq<User>): nat {
    if us == [] then 0 else Registered(us[0]) + Total(us[1..])
  }

  function Winner(c: Closer): nat { if c.NotCalled? || c.Lost? then 0 else 1 }

  function Winners(cs: seq<Closer>): nat {
    if cs == [] then 0 else Winner(cs[0]) + Winners(cs[1..])
  }

  predicate Down(c: Closer) { c.Tearing? || c.Done? }

  predicate Inv(s: State) {
    && s.ops == Total(s.users)
    && Winners(s.closers) == (if s.closing then 1 else 0)
    && (s.woken ==> s.closing)
    && (forall u :: u in s.users && u.held == 0 ==> !u.phase.Blocked? && u.work == 0)
    && (forall u :: u in s.users && u.phase.ToUndo? ==> s.closing)
    && (forall c :: c in s.closers && Down(c) ==> forall u :: u in s.users ==> u.held == 0)
    && forall c :: c in s.closers && (c.Waiting? || Down(c)) ==> s.woken
  }

  lemma {:induction false} TotalUpdate(us: seq<User>, i: nat, u: User)
    requires i < |us|
    ensures Total(us[i := u]) == Total(us) - Registered(us[i]) + Registered(u)
  {
    if i == 0 {
      assert us[0 := u][1..] == us[1..];
    } else {
      TotalUpdate(us[1..], i - 1, u);
      assert us[i := u][1..] == us[1..][i - 1 := u];
    }
  }

  lemma {:induction false} WinnersUpdate(cs: seq<Closer>, j: nat, c: Closer)
    requires j < |cs|
    ensures Winners(cs[j := c]) == Winners(cs) - Winner(cs[j]) + Winner(c)
  {
    if j == 0 {
      assert cs[0 := c][1..] == cs[1..];
    } else {
      WinnersUpdate(cs[1..], j - 1, c);
      assert cs[j := c][1..] == cs[1..][j - 1 := c];
    }
  }

  lemma {:induction false} TotalAtLeast(us: seq<User>, i: nat)
    requires i < |us|
    ensures Registered(us[i]) <= Total(us)
  {
    if i > 0 { TotalAtLeast(us[1..], i - 1); }
  }

  lemma {:induction false} TotalPositive(us: seq<User>) returns (i: nat)
    requires Total(us) > 0
    ensures i < |us| && Registered(us[i]) > 0
  {
    if Registered(us[0]) > 0 {
      i := 0;
    } else {
      var k := TotalPositive(us[1..]);
      i := k + 1;
    }
  }

  lemma {:induction false} NoneRunning(s: State)
    requires Start(s)
    ensures Inv(s)
  {
    NoUsers(s.users);
    NoClosers(s.closers);
  }

  lemma {:induction false} NoUsers(us: seq<User>)
    requires forall u :: u in us ==> u == User(Idle, 0, 0)
    ensures Total(us) == 0
  {
    if us != [] {
      assert us[0] in us && forall u :: u in us[1..] ==> u in us;
      NoUsers(us[1..]);
    }
  }

  lemma {:induction false} NoClosers(cs: seq<Closer>)
    requires forall c :: c in cs ==> c.NotCalled?
    ensures Winners(cs) == 0
  {
    if cs != [] { NoClosers(cs[1..]); }
  }

  lemma UserStepKeeps(s: State, a: Action)
    requires Inv(s) && UserEnabled(s, a)
    ensures Inv(Step(s, a))
  {
    UserStepLocal(s, a);
    hide UserStep; hide Total; hide Winners; hide OpsChange;
    TotalUpdate(s.users, a.i, UserStep(s, a));
    var t := Step(s, a);
    forall u | u in t.users
      ensures u in s.users || u == UserStep(s, a)
    {
    }
    assert s.users[a.i] in s.users;
  }

  /** What one goroutine's step does to that goroutine and to the count. */
  lemma UserStepLocal(s: State, a: Action)
    requires Inv(s) && UserEnabled(s, a)
    ensures a.i < |s.users|
    ensures var u := UserStep(s, a);
            && (u.held == 0 ==> !u.phase.Blocked? && u.work == 0) && (u.phase.ToUndo? ==> s.closing)
            && (s.closing ==> u.held <= s.users[a.i].held)
            && OpsChange(a) == Registered(u) - Registered(s.users[a.i])
  {
    hide Total; hide Winners;
    assert s.users[a.i] in s.users;
  }

  lemma CloserStepKeeps(s: State, a: Action)
    requires Inv(s) && CloserEnabled(s, a)
    ensures Inv(Step(s, a))
  {
    var t := Step(s, a);
    WinnersUpdate(s.closers, a.j, t.closers[a.j]);
    OneWinner(s.closers, a.j);
    hide Winners;
    forall c | c in t.closers
      ensures c in s.closers || c == t.closers[a.j]
    {
    }
    assert s.closers[a.j] in s.closers;
    if a.SeeZero? {
      forall u | u in s.users ensures u.held == 0 {
        var i :| 0 <= i < |s.users| && s.users[i] == u;
        TotalAtLeast(s.users, i);
      }
    }
  }

  lemma {:induction false} RunKeeps(s: State, acts: seq<Action>, t: State)
    requires Inv(s) && Runs(s, acts, t)
    ensures Inv(t)
    decreases |acts|
  {
    hide Inv; hide UserEnabled; hide CloserEnabled; hide Step;
    if acts != [] {
      if UserEnabled(s, acts[0]) {
        UserStepKeeps(s, acts[0]);
      } else {
        CloserStepKeeps(s, acts[0]);
      }
      RunKeeps(Step(s, acts[0]), acts[1..], t);
    }
  }

  /** Once any Close starts tearing down, no goroutine is inside a guarded body, or ever
      will be; and only one Close ever does it. */
  lemma Exclusion(s0: State, acts: seq<Action>, s: State)
    requires Start(s0) && Runs(s0, acts, s)
    ensures s.ops == Total(s.users) && s.ops >= 0
    ensures (exists c :: c in s.closers && Down(c)) ==> forall u :: u in s.users ==> u.held == 0
    ensures forall j, k :: 0 <= j < k < |s.closers| ==> Winner(s.closers[j]) == 0 || Winner(s.closers[k]) == 0
  {
    NoneRunning(s0);
    RunKeeps(s0, acts, s);
    forall j, k | 0 <= j < k < |s.closers|
      ensures Winner(s.closers[j]) == 0 || Winner(s.closers[k]) == 0
    {
      TwoWinners(s.closers, j, k);
    }
  }

  lemma {:induction false} TwoWinners(cs: seq<Closer>, j: nat, k: nat)
    requires j < k < |cs|
    ensures Winner(cs[j]) + Winner(cs[k]) <= Winners(cs)
  {
    if j == 0 {
      OneWinner(cs[1..], k - 1);
    } else {
      TwoWinners(cs[1..], j - 1, k - 1);
    }
  }

  lemma {:induction false} OneWinner(cs: seq<Closer>, k: nat)
    requires k < |cs|
    ensures Winner(cs[k]) <= Winners(cs)
  {
    if k > 0 { OneWinner(cs[1..], k - 1); }
  }

  // -------- Who is let in --------

  lemma RunsOn(s: State, acts: seq<Action>, m: State, a: Action)
    requires Runs(s, acts, m) && Enabled(m, a)
    ensures Runs(s, acts + [a], Step(m, a))
    decreases |acts|
  {
    hide Enabled; hide Step;
    if acts == [] {
      assert acts + [a] == [a];
    } else {
      assert (acts + [a])[1..] == acts[1..] + [a];
      RunsOn(Step(s, acts[0]), acts[1..], m, a);
    }
  }

  /** No goroutine but `i` is touched. */
  predicate Apart(s: State, t: State, i: nat) {
    && |t.users| == |s.users| && i < |s.users|
    && forall k :: 0 <= k < |s.users| && k != i ==> t.users[k] == s.users[k]
  }

  /** On an open socket a call is let in: incref's three steps can all be taken, and leave the
      goroutine inside one more body and counted once more. */
  lemma LetIn(s: State, i: nat, w: nat) returns (t: State)
    requires !s.closing && i < |s.users| && s.users[i].phase.Idle? && (s.users[i].held > 0 ==> s.users[i].work > 0)
    ensures Runs(s, [Check(i), Add(i), Recheck(i, w)], t)
    ensures Apart(s, t, i) && t.users[i].phase.Idle? && t.users[i].held == s.users[i].held + 1 && t.ops == s.ops + 1
    ensures t.users[i].work == w + Spend(s.users[i]).work && !t.closing && t.closers == s.closers && t.woken == s.woken
  {
    var a := Step(s, Check(i));
    var b := Step(a, Add(i));
    t := Step(b, Recheck(i, w));
    assert Runs(s, [], s);
    RunsOn(s, [], s, Check(i));
    assert [] + [Check(i)] == [Check(i)];
    RunsOn(s, [Check(i)], a, Add(i));
    assert [Check(i)] + [Add(i)] == [Check(i), Add(i)];
    RunsOn(s, [Check(i), Add(i)], b, Recheck(i, w));
    assert [Check(i), Add(i)] + [Recheck(i, w)] == [Check(i), Add(i), Recheck(i, w)];
  }

  /** A Close that begins at any point of incref before its second check shuts the call out:
      the goroutine is inside no more bodies than before, and the count is back. */
  lemma ShutOut(s: State, i: nat, j: nat, w: nat) returns (t: seq<State>)
    requires i < |s.users| && s.users[i].phase.Idle? && (s.users[i].held > 0 ==> s.users[i].work > 0)
    requires !s.closing && j < |s.closers| && s.closers[j].NotCalled?
    ensures |t| == 3
    ensures Runs(s, [Swap(j), Check(i)], t[0])
    ensures Runs(s, [Check(i), Swap(j), Add(i), Recheck(i, w), Undo(i)], t[1])
    ensures Runs(s, [Check(i), Add(i), Swap(j), Recheck(i, w), Undo(i)], t[2])
    ensures forall k :: 0 <= k < 3 ==>
      && Apart(s, t[k], i) && t[k].users[i].phase.Idle? && t[k].users[i].held == s.users[i].held
      && t[k].ops == s.ops && t[k].closing && t[k].closers == s.closers[j := Won]
  {
    hide Runs;
    var first := Step(Step(s, Swap(j)), Check(i));
    var second := Step(Step(Step(Step(Step(s, Check(i)), Swap(j)), Add(i)), Recheck(i, w)), Undo(i));
    var third := Step(Step(Step(Step(Step(s, Check(i)), Add(i)), Swap(j)), Recheck(i, w)), Undo(i));
    t := [first, second, third];
    TwoSteps(s, Swap(j), Check(i));
    FiveSteps(s, Check(i), Swap(j), Add(i), Recheck(i, w), Undo(i));
    FiveSteps(s, Check(i), Add(i), Swap(j), Recheck(i, w), Undo(i));
  }

  lemma TwoSteps(s: State, a: Action, b: Action)
    requires Enabled(s, a) && Enabled(Step(s, a), b)
    ensures Runs(s, [a, b], Step(Step(s, a), b))
  {
    hide Enabled; hide Step;
    var m := Step(s, a);
    assert Runs(s, [a], m) by { assert [a][1..] == []; }
    RunsOn(s, [a], m, b);
    assert [a] + [b] == [a, b];
  }

  lemma FiveSteps(s: State, a: Action, b: Action, c: Action, d: Action, e: Action)
    requires Enabled(s, a) && Enabled(Step(s, a), b) && Enabled(Step(Step(s, a), b), c)
    requires Enabled(Step(Step(Step(s, a), b), c), d) && Enabled(Step(Step(Step(Step(s, a), b), c), d), e)
    ensures Runs(s, [a, b, c, d, e], Step(Step(Step(Step(Step(s, a), b), c), d), e))
  {
    hide Enabled; hide Step; hide Runs;
    TwoSteps(s, a, b);
    var m2 := Step(Step(s, a), b);
    RunsOn(s, [a, b], m2, c);
    assert [a, b] + [c] == [a, b, c];
    RunsOn(s, [a, b, c], Step(m2, c), d);
    assert [a, b, c] + [d] == [a, b, c, d];
    RunsOn(s, [a, b, c, d], Step(Step(m2, c), d), e);
    assert [a, b, c, d] + [e] == [a, b, c, d, e];
  }

  /** What goroutine `i` itself does in a run. */
  function Mine(acts: seq<Action>, i: nat): seq<Action> {
    if acts == [] then []
    else (if Acts(acts[0], i) then [acts[0]] else []) + Mine(acts[1..], i)
  }

  predicate Acts(a: Action, i: nat) {
    !(a.Swap? || a.WriteWake? || a.SeeZero? || a.Finish?) && a.i == i
  }

  /** Goroutine `i` after its own steps alone, on a socket nobody closes. */
  function Alone(u: User, acts: seq<Action>): User
    decreases |acts|
  {
    if acts == [] then u else Alone(OpenStep(u, acts[0]), acts[1..])
  }

  function OpenStep(u: User, a: Action): User {
    match a
    case Check(_) => Spend(u).(phase := ToAdd)
    case Add(_) => u.(phase := ToRecheck)
    case Recheck(_, w) => User(Idle, u.held + 1, u.work + w)
    case _ => u
  }

  /** However the steps of other goroutines and of the kernel come in between, a call on a
      socket that is not closed by its end is let in. */
  lemma LetInAmong(s: State, acts: seq<Action>, i: nat, w: nat, t: State)
    requires i < |s.users| && Runs(s, acts, t) && !t.closing && Mine(acts, i) == [Check(i), Add(i), Recheck(i, w)]
    ensures i < |t.users| && t.users[i].phase.Idle? && t.users[i].held == s.users[i].held + 1
  {
    OthersApart(s, acts, i, t);
    var u := s.users[i];
    assert [Check(i), Add(i), Recheck(i, w)][1..] == [Add(i), Recheck(i, w)];
    assert [Add(i), Recheck(i, w)][1..] == [Recheck(i, w)];
    var v := OpenStep(OpenStep(u, Check(i)), Add(i));
    assert Alone(v, [Recheck(i, w)]) == OpenStep(v, Recheck(i, w)) by { assert [Recheck(i, w)][1..] == []; }
  }

  predicate Entering(a: Action) { a.Check? || a.Add? || a.Recheck? }

  lemma {:induction false} OthersApart(s: State, acts: seq<Action>, i: nat, t: State)
    requires i < |s.users| && Runs(s, acts, t) && !t.closing && forall a :: a in Mine(acts, i) ==> Entering(a)
    ensures |t.users| == |s.users| && t.users[i] == Alone(s.users[i], Mine(acts, i))
    decreases |acts|
  {
    if acts != [] {
      var m := Step(s, acts[0]);
      StillOpen(m, acts[1..], t);
      OpenStepIs(s, acts[0], i);
      if Acts(acts[0], i) {
        assert Mine(acts, i) == [acts[0]] + Mine(acts[1..], i);
        assert Mine(acts, i)[1..] == Mine(acts[1..], i) && acts[0] == Mine(acts, i)[0];
      } else {
        assert Mine(acts, i) == Mine(acts[1..], i);
      }
      hide Step; hide Enabled; hide OpenStep;
      OthersApart(m, acts[1..], i, t);
    }
  }

  lemma OpenStepIs(s: State, a: Action, i: nat)
    requires i < |s.users| && Enabled(s, a) && !Step(s, a).closing && (Acts(a, i) ==> Entering(a))
    ensures |Step(s, a).users| == |s.users| && !s.closing
    ensures Step(s, a).users[i] == if Acts(a, i) then OpenStep(s.users[i], a) else s.users[i]
  {
  }

  lemma {:induction false} StillOpen(s: State, acts: seq<Action>, t: State)
    requires Runs(s, acts, t) && !t.closing
    ensures !s.closing
    decreases |acts|
  {
    if acts != [] {
      StillOpen(Step(s, acts[0]), acts[1..], t);
    }
  }

  // -------- Close's wait ends without traffic --------

  function Weight(u: User): nat {
    3 * u.work + u.held
    + (match u.phase case Idle => 0 case ToAdd => 3 case ToRecheck => 2 case ToUndo => 1 case Blocked => 1)
  }

  function Measure(us: seq<User>): nat {
    if us == [] then 0 else Weight(us[0]) + Measure(us[1..])
  }

  lemma {:induction false} MeasureUpdate(us: seq<User>, i: nat, u: User)
    requires i < |us|
    ensures Measure(us[i := u]) == Measure(us) - Weight(us[i]) + Weight(u)
  {
    if i == 0 {
      assert us[0 := u][1..] == us[1..];
    } else {
      MeasureUpdate(us[1..], i - 1, u);
      assert us[i := u][1..] == us[1..][i - 1 := u];
    }
  }

  /** A call that starts after Close is refused at once and leaves no trace. */
  predicate Refused(s: State, a: Action) {
    a.Check? && a.i < |s.users| && s.closing && s.users[a.i].held == 0
  }

  /** Once Close has begun, every step of a goroutine uses up what is left to do. */
  lemma StepsShrink(s: State, a: Action)
    requires s.closing && UserEnabled(s, a)
    ensures if Refused(s, a) then Step(s, a) == s else Measure(Step(s, a).users) < Measure(s.users)
  {
    MeasureUpdate(s.users, a.i, UserStep(s, a));
    hide Measure;
    if Refused(s, a) {
      assert s.users[a.i := s.users[a.i]] == s.users;
    }
  }

  /** While Close waits with its wake written, some goroutine can move, without a packet
      arriving or a timeout expiring. */
  lemma SomeoneMoves(s: State) returns (a: Action)
    requires Inv(s) && s.closing && s.woken && s.ops > 0
    ensures UserEnabled(s, a) && !(a.WakeUp? && a.traffic) && !a.Check?
    ensures Measure(Step(s, a).users) < Measure(s.users)
  {
    var i := TotalPositive(s.users);
    var u := s.users[i];
    a := match u.phase
      case Idle => Leave(i)
      case ToAdd => Add(i)
      case ToRecheck => Recheck(i, 0)
      case ToUndo => Undo(i)
      case Blocked => WakeUp(i, false);
    hide Total; hide Winners; hide Measure;
    StepsShrink(s, a);
  }

  predicate NoTraffic(acts: seq<Action>) { forall a :: a in acts ==> !(a.WakeUp? && a.traffic) && !a.Check? }

  /** So from any state in which Close waits, the goroutines can run until it sees zero,
      without traffic and without a new call. */
  lemma {:induction false} Drains(s: State) returns (acts: seq<Action>, t: State)
    requires Inv(s) && s.closing && s.woken
    ensures Runs(s, acts, t) && NoTraffic(acts) && t.ops <= 0 && t.closers == s.closers
    decreases Measure(s.users)
  {
    if s.ops <= 0 { return [], s; }
    var a := SomeoneMoves(s);
    UserStepKeeps(s, a);
    var rest;
    rest, t := Drains(Step(s, a));
    acts := [a] + rest;
    assert acts[1..] == rest;
  }

  /** Goroutine steps in a run, not counting refused calls. */
  function Moves(s: State, acts: seq<Action>): nat
    decreases |acts|
  {
    if acts == [] || !Enabled(s, acts[0]) then 0
    else (if UserEnabled(s, acts[0]) && !Refused(s, acts[0]) then 1 else 0) + Moves(Step(s, acts[0]), acts[1..])
  }

  /** After Close begins only so many steps can be taken: the wait is bounded by the work
      already in progress, in every interleaving. */
  lemma {:induction false} WaitIsBounded(s: State, acts: seq<Action>, t: State)
    requires s.closing && Runs(s, acts, t)
    ensures t.closing && Moves(s, acts) + Measure(t.users) <= Measure(s.users)
    decreases |acts|
  {
    hide UserEnabled; hide CloserEnabled; hide Measure; hide Refused;
    if acts != [] {
      var m := Step(s, acts[0]);
      StaysClosing(s, acts[0]);
      if UserEnabled(s, acts[0]) {
        StepsShrink(s, acts[0]);
      }
      hide Step;
      WaitIsBounded(m, acts[1..], t);
    }
  }

  lemma StaysClosing(s: State, a: Action)
    requires s.closing && Enabled(s, a)
    ensures Step(s, a).closing && (!UserEnabled(s, a) ==> Step(s, a).users == s.users)
  {
  }

  /** From a fresh socket with a goroutine and a Close to come: the goroutine gets into a body
      that sleeps in poll(2), is still asleep and counted when Close has begun, is woken by Close
      alone, and Close then tears down and returns. */
  lemma CloseInterruptsPoll(s: State, i: nat, j: nat) returns (asleep: State, t: State)
    requires Start(s) && i < |s.users| && j < |s.closers|
    ensures Runs(s, [Check(i), Add(i), Recheck(i, 1), Sleep(i), Swap(j), WriteWake(j)], asleep)
    ensures asleep.users == s.users[i := User(Blocked, 1, 0)] && asleep.ops == 1 && asleep.closers == s.closers[j := Waiting]
    ensures Runs(asleep, [WakeUp(i, false), Leave(i), SeeZero(j), Finish(j)], t)
    ensures t.users == s.users && t.ops == 0 && t.closers == s.closers[j := Done]
  {
    hide Runs; hide Enabled; hide Step;
    assert s.users[i] in s.users && s.closers[j] in s.closers;
    var m := LetIn(s, i, 1);
    assert m.users == s.users[i := User(Idle, 1, 1)];
    asleep := FallsAsleep(m, i, j);
    Joined(s, [Check(i), Add(i), Recheck(i, 1)], m, [Sleep(i), Swap(j), WriteWake(j)], asleep);
    assert [Check(i), Add(i), Recheck(i, 1)] + [Sleep(i), Swap(j), WriteWake(j)]
        == [Check(i), Add(i), Recheck(i, 1), Sleep(i), Swap(j), WriteWake(j)];
    var left := Awakes(asleep, i);
    t := TearsDown(left, j);
    assert t.users == s.users && t.closers == s.closers[j := Done];
    Joined(asleep, [WakeUp(i, false), Leave(i)], left, [SeeZero(j), Finish(j)], t);
    assert [WakeUp(i, false), Leave(i)] + [SeeZero(j), Finish(j)] == [WakeUp(i, false), Leave(i), SeeZero(j), Finish(j)];
  }

  lemma FallsAsleep(m: State, i: nat, j: nat) returns (t: State)
    requires i < |m.users| && m.users[i] == User(Idle, 1, 1) && j < |m.closers| && m.closers[j].NotCalled? && !m.closing
    ensures t == m.(users := m.users[i := User(Blocked, 1, 0)], closing := true, woken := true, closers := m.closers[j := Waiting])
    ensures Runs(m, [Sleep(i), Swap(j), WriteWake(j)], t)
  {
    hide Runs;
    var a := m.(users := m.users[i := User(Blocked, 1, 0)]);
    assert Step(m, Sleep(i)) == a;
    var b := a.(closing := true, closers := m.closers[j := Won]);
    assert Step(a, Swap(j)) == b;
    t := Step(b, WriteWake(j));
    TwoSteps(m, Sleep(i), Swap(j));
    RunsOn(m, [Sleep(i), Swap(j)], b, WriteWake(j));
    assert [Sleep(i), Swap(j)] + [WriteWake(j)] == [Sleep(i), Swap(j), WriteWake(j)];
  }

  lemma Awakes(s: State, i: nat) returns (t: State)
    requires i < |s.users| && s.users[i] == User(Blocked, 1, 0) && s.woken
    ensures t == s.(users := s.users[i := User(Idle, 0, 0)], ops := s.ops - 1)
    ensures Runs(s, [WakeUp(i, false), Leave(i)], t)
  {
    hide Runs;
    t := Step(Step(s, WakeUp(i, false)), Leave(i));
    assert t.users == s.users[i := User(Idle, 0, 0)];
    TwoSteps(s, WakeUp(i, false), Leave(i));
  }

  lemma TearsDown(s: State, j: nat) returns (t: State)
    requires j < |s.closers| && s.closers[j].Waiting? && s.ops <= 0
    ensures t == s.(closers := s.closers[j := Done])
    ensures Runs(s, [SeeZero(j), Finish(j)], t)
  {
    hide Runs;
    t := Step(Step(s, SeeZero(j)), Finish(j));
    assert t.closers == s.closers[j := Done];
    TwoSteps(s, SeeZero(j), Finish(j));
  }

  lemma {:induction false} Joined(s: State, xs: seq<Action>, m: State, ys: seq<Action>, t: State)
    requires Runs(s, xs, m) && Runs(m, ys, t)
    ensures Runs(s, xs + ys, t)
    decreases |xs|
  {
    hide Enabled; hide Step;
    if xs == [] {
      assert xs + ys == ys;
    } else {
      assert (xs + ys)[1..] == xs[1..] + ys;
      Joined(Step(s, xs[0]), xs[1..], m, ys, t);
    }
  }
}
