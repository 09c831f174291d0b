/** The transmit kick and its retry budget (socket.go:713-752). */
module Kicks {
  import opened Common

  datatype Answer = Ok | Eintr | Eagain | Ebusy | Failed(errno: nat)
  datatype KickResult = Fine | Broken(errno: nat)

  const BATCH := 16

  /** The kernel's side of sendto on an AF_XDP socket. A cooperative kernel consumes at least
      one batch per call and answers EAGAIN exactly while descriptors remain. Signals may
      interrupt calls, but not forever. */
  class Sendto {
    const cooperative: bool
    var pending: nat
    var signals: nat
    /** Calls that were not interrupted, and the last answer given. */
    var calls: nat
    var last: Answer
    /** Every answer given, oldest first. */
    ghost var answers: seq<Answer>

    constructor (cooperative: bool, pending: nat, signals: nat)
      ensures this.cooperative == cooperative && this.pending == pending && this.signals == signals
      ensures calls == 0 && answers == []
    {
      this.cooperative, this.pending, this.signals, calls, last, answers := cooperative, pending, signals, 0, Ok, [];
    }

    method Call() returns (a: Answer)
      modifies this
      ensures pending <= old(pending) && last == a && answers == old(answers) + [a]
      ensures a.Eintr? ==> signals < old(signals) && calls == old(calls)
      ensures !a.Eintr? ==> signals == old(signals) && calls == old(calls) + 1
      ensures cooperative && !a.Eintr? ==>
        pending <= old(pending) - Min(BATCH, old(pending)) && a == if pending > 0 then Eagain else Ok
    {
      var taken: nat :| taken <= pending;
      if * {
        if signals > 0 {
          pending, signals, last, answers := pending - taken, signals - 1, Eintr, answers + [Eintr];
          return Eintr;
        }
      }
      calls := calls + 1;
      if cooperative {
        taken := if taken < Min(BATCH, pending) then Min(BATCH, pending) else taken;
        pending := pending - taken;
        a := if pending > 0 then Eagain else Ok;
      } else {
        pending := pending - taken;
        a := *;
        if a.Eintr? {
          a := Eagain;
        }
      }
      last, answers := a, answers + [a];
    }
  }

  function Budget(txRing: nat): nat { txRing / 16 + 8 }

  predicate Retryable(q: seq<Answer>) { forall i :: 0 <= i < |q| ==> q[i].Eintr? || q[i].Eagain? }

  /** Every answer since `was` but the last asked for another call. */
  predicate Retries(was: seq<Answer>, now: seq<Answer>) {
    was < now && Retryable(now[|was|..|now| - 1])
  }

  /** At most `Budget` uninterrupted calls are made, whatever the kernel does. A cooperative
      kernel leaves the ring empty, after no more calls than there were full batches, plus one.
      Kick calls again after EINTR and EAGAIN alone, gives up on EAGAIN only when the budget is
      spent, and fails only as the kernel did. */
  method Kick(txRing: nat, k: Sendto) returns (r: KickResult)
    modifies k
    ensures old(k.calls) < k.calls <= old(k.calls) + Budget(txRing) && k.pending <= old(k.pending)
    ensures k.cooperative && old(k.pending) <= txRing ==> k.pending == 0 && r == Fine
    ensures k.cooperative && old(k.pending) <= txRing ==> BATCH * (k.calls - old(k.calls) - 1) <= old(k.pending)
    ensures r == if k.last.Failed? then Broken(k.last.errno) else Fine
    ensures Retries(old(k.answers), k.answers) && k.answers[|k.answers| - 1] == k.last
    ensures !k.last.Eintr? && (k.last.Eagain? ==> k.calls == old(k.calls) + Budget(txRing))
  {
    var retries := txRing / 16 + 8;
    while true
      invariant old(k.answers) <= k.answers && Retryable(k.answers[|old(k.answers)|..])
      invariant 0 < retries <= Budget(txRing) && k.pending <= old(k.pending)
      invariant k.calls - old(k.calls) == Budget(txRing) - retries
      invariant k.cooperative && old(k.pending) <= txRing ==>
        (k.pending == 0 && k.calls == old(k.calls)) || k.pending + BATCH * (k.calls - old(k.calls)) <= old(k.pending)
      decreases retries, k.signals
    {
      var a := k.Call();
      match a {
        case Ok => return Fine;
        case Eintr =>
        case Eagain =>
          retries := retries - 1;
          if retries == 0 {
            return Fine;
          }
        case Ebusy => return Fine;
        case Failed(e) => return Broken(e);
      }
    }
  }
}
