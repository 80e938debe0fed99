/**
 What one node keeps while it competes for the scheduler lease, and how each
 answer of the store changes it. Cancellation and draining of a leadership term
 are explicit: a term goroutine lives until it has exited, cancelled or not.
 */
module SchedulerNode {
  import opened Common
  import opened LeaseStore

  datatype Goroutine = Goroutine(fence: nat, cancelled: bool, exited: bool)

  datatype Locals = Locals(
    leader: bool,
    fence: nat,
    unconfirmedClaim: bool,
    expiresAt: nat,
    termDone: Option<nat>,
    termCancel: Option<nat>,
    goroutines: seq<Goroutine>)

  const Fresh := Locals(false, 0, false, 0, None, None, [])

  /** A store call either fails, perhaps with a provisional fence, or answers. */
  datatype Reply = Error(provisional: nat) | Answer(held: bool, fence: nat)

  function Cancel(gs: seq<Goroutine>, i: Option<nat>): seq<Goroutine> {
    if i.Some? && i.value < |gs| then gs[i.value := gs[i.value].(cancelled := true)] else gs
  }

  function DropLeadership(l: Locals): Locals {
    l.(leader := false, termCancel := None, goroutines := Cancel(l.goroutines, l.termCancel))
  }

  function StartTerm(l: Locals, expires: nat): Locals {
    l.(leader := true, unconfirmedClaim := false, expiresAt := expires,
       termDone := Some(|l.goroutines|), termCancel := Some(|l.goroutines|),
       goroutines := l.goroutines + [Goroutine(l.fence, false, false)])
  }

  /** Some term goroutines return. */
  function ExitTerms(l: Locals, terms: set<nat>): Locals {
    l.(goroutines := seq(|l.goroutines|, i requires 0 <= i < |l.goroutines| =>
                           l.goroutines[i].(exited := l.goroutines[i].exited || i in terms)))
  }

  predicate Exited(l: Locals) {
    l.termDone.Some? ==> l.termDone.value < |l.goroutines| && l.goroutines[l.termDone.value].exited
  }

  /** A finished term is forgotten; one still draining is kept. */
  function PollTerm(l: Locals): Locals {
    if Exited(l) then l.(termDone := None) else l
  }

  /** The heartbeat's clock read: an unreachable clock or a lapsed deadline drops leadership. */
  function AfterClock(l: Locals, now: Option<nat>): Locals {
    if l.leader && (now.None? || l.expiresAt <= now.value) then DropLeadership(l) else l
  }

  function AfterRenewal(l: Locals, r: Reply, expires: nat): Locals {
    if r.Answer? && r.held then l.(expiresAt := expires) else DropLeadership(l)
  }

  function AfterConfirmation(l: Locals, r: Reply, expires: nat, stopping: bool): Locals {
    match r
    case Error(_) => l
    case Answer(held, _) =>
      if !held then l.(unconfirmedClaim := false, fence := 0)
      else if stopping then l
      else StartTerm(l, expires)
  }

  function AfterClaim(l: Locals, r: Reply, expires: nat, stopping: bool): Locals {
    match r
    case Error(provisional) =>
      if provisional == 0 then l else l.(fence := provisional, unconfirmedClaim := true)
    case Answer(held, got) =>
      var l' := if got != 0 && held then l.(fence := got, unconfirmedClaim := true) else l;
      if held && !stopping then StartTerm(l', expires) else l'
  }

  /** Whether the heartbeat may go on to acquire the lease, given polled locals. */
  predicate MayAcquire(l: Locals, stopping: bool) {
    !stopping && !l.leader && l.termDone.None?
  }
}
